/** Base 64 as Node's `Buffer` writes and reads it (section 4 of RFC 4648). */
module Base64 {

  type Byte = b: int | 0 <= b < 256
  type Sextet = n: int | 0 <= n < 64

  function Symbol(n: Sextet): char {
    if n < 26 then ('A' as int + n) as char
    else if n < 52 then ('a' as int + n - 26) as char
    else if n < 62 then ('0' as int + n - 52) as char
    else if n == 62 then '+' else '/'
  }

  /** Zero or one sextet: characters outside both alphabets are skipped when decoding. */
  function SymbolValue(c: char): (r: seq<Sextet>)
    ensures |r| <= 1
  {
    if 'A' <= c <= 'Z' then [c as int - 'A' as int]
    else if 'a' <= c <= 'z' then [c as int - 'a' as int + 26]
    else if '0' <= c <= '9' then [c as int - '0' as int + 52]
    else if c == '+' || c == '-' then [62]
    else if c == '/' || c == '_' then [63]
    else []
  }

  predicate IsBase64Char(c: char) {
    SymbolValue(c) != [] || c == '='
  }

  /** The six-bit groups of a byte string, the last one filled up with zero bits. */
  function Groups(bs: seq<Byte>): seq<Sextet> {
    if |bs| == 0 then []
    else if |bs| == 1 then [bs[0] / 4, bs[0] % 4 * 16]
    else if |bs| == 2 then [bs[0] / 4, bs[0] % 4 * 16 + bs[1] / 16, bs[1] % 16 * 4]
    else
      [bs[0] / 4, bs[0] % 4 * 16 + bs[1] / 16, bs[1] % 16 * 4 + bs[2] / 64, bs[2] % 64] + Groups(bs[3..])
  }

  function Symbols(q: seq<Sextet>): (s: string)
    ensures forall c :: c in s ==> IsBase64Char(c)
  {
    if q == [] then "" else [Symbol(q[0])] + Symbols(q[1..])
  }

  function Padding(n: nat): (s: string)
    ensures forall c :: c in s ==> IsBase64Char(c)
  {
    if n % 3 == 1 then "==" else if n % 3 == 2 then "=" else ""
  }

  function Encode(bs: seq<Byte>): (s: string)
    ensures forall c :: c in s ==> IsBase64Char(c)
  {
    Symbols(Groups(bs)) + Padding(|bs|)
  }

  function Sextets(s: string): seq<Sextet> {
    if s == "" then [] else SymbolValue(s[0]) + Sextets(s[1..])
  }

  function FromSextets(q: seq<Sextet>): seq<Byte> {
    if |q| < 2 then []
    else
      var first: Byte := q[0] as int * 4 + q[1] as int / 16;
      if |q| == 2 then [first]
      else
        var second: Byte := q[1] as int % 16 * 16 + q[2] as int / 4;
        if |q| == 3 then [first, second]
        else
          var third: Byte := q[2] as int % 4 * 64 + q[3] as int;
          [first, second, third] + FromSextets(q[4..])
  }

  function Decode(s: string): seq<Byte> {
    FromSextets(Sextets(s))
  }

  lemma SymbolRoundTrip(n: Sextet)
    ensures SymbolValue(Symbol(n)) == [n]
  {
  }

  lemma SextetsCons(c: char, rest: string)
    ensures Sextets([c] + rest) == SymbolValue(c) + Sextets(rest)
  {
    hide SymbolValue;
    assert ([c] + rest)[1..] == rest;
  }

  lemma SymbolsCons(q: seq<Sextet>, rest: string)
    requires q != []
    ensures Symbols(q) + rest == [Symbol(q[0])] + (Symbols(q[1..]) + rest)
  {
    hide Symbol;
  }

  lemma {:induction false} SextetsOf(q: seq<Sextet>, rest: string)
    ensures Sextets(Symbols(q) + rest) == q + Sextets(rest)
  {
    hide Symbol, SymbolValue, Sextets;
    if q == [] {
      assert Symbols(q) + rest == rest;
    } else {
      hide Symbols;
      SymbolRoundTrip(q[0]);
      SextetsOf(q[1..], rest);
      SymbolsCons(q, rest);
      SextetsCons(Symbol(q[0]), Symbols(q[1..]) + rest);
      assert q + Sextets(rest) == [q[0]] + (q[1..] + Sextets(rest));
    }
  }

  lemma PaddingSkipped(n: nat)
    ensures Sextets(Padding(n)) == []
  {
    assert "="[1..] == "" && "=="[1..] == "=";
    assert SymbolValue('=') == [];
    assert Sextets("=") == [];
  }

  lemma {:induction false} GroupsRoundTrip(bs: seq<Byte>)
    ensures FromSextets(Groups(bs)) == bs
  {
    if 3 <= |bs| {
      GroupsRoundTrip(bs[3..]);
      assert Groups(bs)[4..] == Groups(bs[3..]);
      assert bs == [bs[0], bs[1], bs[2]] + bs[3..];
    }
  }

  lemma DecodeEncode(bs: seq<Byte>)
    ensures Decode(Encode(bs)) == bs
  {
    SextetsOf(Groups(bs), Padding(|bs|));
    PaddingSkipped(|bs|);
    GroupsRoundTrip(bs);
    assert Groups(bs) + [] == Groups(bs);
  }

  // --- What the text says ---

  /** Table 1 of RFC 4648. */
  const ALPHABET := "ABCDEFGHIJKLMNOPQRSTUVWXYZ" + "abcdefghijklmnopqrstuvwxyz" + "0123456789" + "+/"

  lemma SymbolMeans(n: Sextet)
    ensures Symbol(n) == ALPHABET[n]
  {
    assert ALPHABET[n] == if n < 26 then "ABCDEFGHIJKLMNOPQRSTUVWXYZ"[n]
                          else if n < 52 then "abcdefghijklmnopqrstuvwxyz"[n - 26]
                          else if n < 62 then "0123456789"[n - 52]
                          else "+/"[n - 62];
  }

  /** And the URL-safe symbols of Table 2 are read as well. */
  lemma ValueMeans(c: char, n: Sextet)
    ensures SymbolValue(c) == [n] <==> c == ALPHABET[n] || (c == '-' && n == 62) || (c == '_' && n == 63)
  {
    SymbolMeans(n);
    hide ALPHABET;
    SymbolRoundTrip(n);
    if SymbolValue(c) == [n] {
      assert SymbolValue(c)[0] == n;
    }
  }

  /** The number that digits of a base stand for, behind those read before. */
  function Number(base: nat, digits: seq<nat>, before: nat): nat
    decreases |digits|
  {
    if digits == [] then before else Number(base, digits[1..], base * before + digits[0])
  }

  function Octets(bs: seq<Byte>): (r: seq<nat>)
    ensures |r| == |bs|
  {
    seq(|bs|, i requires 0 <= i < |bs| => bs[i])
  }

  function Sixths(q: seq<Sextet>): (r: seq<nat>)
    ensures |r| == |q|
  {
    seq(|q|, i requires 0 <= i < |q| => q[i])
  }

  lemma NumberCons(base: nat, digits: seq<nat>, before: nat)
    requires digits != []
    ensures Number(base, digits, before) == Number(base, digits[1..], base * before + digits[0])
  {
  }

  lemma FirstThree(base: nat, digits: seq<nat>, before: nat)
    requires |digits| >= 3
    ensures Number(base, digits, before)
         == Number(base, digits[3..], base * (base * (base * before + digits[0]) + digits[1]) + digits[2])
  {
    hide Number;
    var one, two := digits[1..], digits[2..];
    assert one[1..] == two && two[1..] == digits[3..];
    NumberCons(base, digits, before);
    NumberCons(base, one, base * before + digits[0]);
    NumberCons(base, two, base * (base * before + digits[0]) + digits[1]);
  }

  function Fill(n: nat): nat {
    if n % 3 == 1 then 16 else if n % 3 == 2 then 4 else 1
  }

  lemma {:induction false} GroupsNumber(bs: seq<Byte>, before: nat)
    ensures Number(64, Sixths(Groups(bs)), before) == Number(256, Octets(bs), before) * Fill(|bs|)
    decreases |bs|
  {
    if |bs| >= 3 {
      var more := 256 * (256 * (256 * before + bs[0]) + bs[1]) + bs[2];
      GroupsNumber(bs[3..], more);
      hide Fill;
      assert Fill(|bs|) == Fill(|bs| - 3) by {
        FillPeriod(|bs|);
      }
      TripleNumber(bs, before);
    } else {
      LastGroups(bs, before);
    }
  }

  lemma FillPeriod(n: nat)
    requires n >= 3
    ensures Fill(n) == Fill(n - 3)
  {
  }

  /** Three bytes are four groups of the same number. */
  lemma TripleNumber(bs: seq<Byte>, before: nat)
    requires |bs| >= 3
    ensures var more := 256 * (256 * (256 * before + bs[0]) + bs[1]) + bs[2];
            Number(64, Sixths(Groups(bs)), before) == Number(64, Sixths(Groups(bs[3..])), more) &&
            Number(256, Octets(bs), before) == Number(256, Octets(bs[3..]), more)
  {
    var q, o := Sixths(Groups(bs)), Octets(bs);
    assert q[4..] == Sixths(Groups(bs[3..])) && o[3..] == Octets(bs[3..]);
    assert q[0] == bs[0] / 4 && q[1] == bs[0] % 4 * 16 + bs[1] / 16 && q[2] == bs[1] % 16 * 4 + bs[2] / 64;
    assert q[3] == bs[2] % 64 && q[3..][1..] == q[4..];
    hide Number, Groups;
    FirstThree(64, q, before);
    NumberCons(64, q[3..], 64 * (64 * (64 * before + q[0]) + q[1]) + q[2]);
    FirstThree(256, o, before);
  }

  lemma LastGroups(bs: seq<Byte>, before: nat)
    requires |bs| < 3
    ensures Number(64, Sixths(Groups(bs)), before) == Number(256, Octets(bs), before) * Fill(|bs|)
  {
    var q, o := Sixths(Groups(bs)), Octets(bs);
    if |bs| == 2 {
      FirstThree(64, q, before);
      NumberCons(256, o, before);
      NumberCons(256, o[1..], 256 * before + bs[0]);
      assert q[3..] == [] && o[1..][1..] == [];
    } else if |bs| == 1 {
      NumberCons(64, q, before);
      NumberCons(64, q[1..], 64 * before + q[0]);
      NumberCons(256, o, before);
      assert q[1..][1..] == [] && o[1..] == [];
    }
  }

  lemma {:induction false} SymbolsAre(q: seq<Sextet>)
    ensures |Symbols(q)| == |q| && forall i :: 0 <= i < |q| ==> Symbols(q)[i] == ALPHABET[q[i]]
  {
    hide Symbol;
    if q != [] {
      SymbolMeans(q[0]);
      SymbolsAre(q[1..]);
      assert forall i :: 1 <= i < |q| ==> Symbols(q)[i] == Symbols(q[1..])[i - 1];
    }
  }

  /** The symbols are the digits to base 64 of the number that the bytes are to base 256, filled up with
      zero bits to a whole digit, and with equals signs to a multiple of four. */
  lemma EncodeMeans(bs: seq<Byte>) returns (q: seq<Sextet>)
    ensures |Encode(bs)| % 4 == 0 && |q| <= |Encode(bs)| < |q| + 3 && 6 * |q| < 8 * |bs| + 6
    ensures forall i :: 0 <= i < |Encode(bs)| ==> Encode(bs)[i] == if i < |q| then ALPHABET[q[i]] else '='
    ensures Number(64, Sixths(q), 0) == Number(256, Octets(bs), 0) * Shift(6 * |q| - 8 * |bs|)
  {
    hide Groups, Symbols, Number, Symbol;
    q := Groups(bs);
    GroupsNumber(bs, 0);
    SymbolsAre(q);
    GroupsCount(bs);
    assert Shift(0) == 1 && Shift(2) == 4 && Shift(4) == 16;
  }

  function Shift(bits: int): nat {
    if bits <= 0 then 1 else 2 * Shift(bits - 1)
  }

  lemma {:induction false} GroupsCount(bs: seq<Byte>)
    ensures |Groups(bs)| == |bs| / 3 * 4 + if |bs| % 3 == 0 then 0 else |bs| % 3 + 1
    decreases |bs|
  {
    if |bs| >= 3 {
      GroupsCount(bs[3..]);
    }
  }
}
