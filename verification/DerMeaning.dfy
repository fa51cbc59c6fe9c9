/** Which byte strings are read as a signature, by the encoding rules of X.690. */
module DerMeaning {
  import opened Records
  import opened Der

  /** A length in the definite form (section 8.1.3 of X.690), in as many octets as the reader knows. */
  ghost predicate LengthOf(l: seq<Byte>, n: nat) {
    n < 0x8000_0000 &&
    ((|l| == 1 && l[0] < 0x80 && n == l[0]) || (2 <= |l| <= 5 && l[0] == 0x7F + |l| && n == Unsigned(l[1..])))
  }

  /** Tag, length and contents of an INTEGER, the contents taken without sign. */
  ghost predicate IsInteger(e: seq<Byte>, v: nat) {
    exists l, c :: LengthOf(l, |c|) && e == [0x02] + l + c && Unsigned(c) == v
  }

  /** A SEQUENCE of two of them. */
  ghost predicate IsSignature(der: seq<Byte>, r: nat, s: nat) {
    exists l, a, b :: IsInteger(a, r) && IsInteger(b, s) && LengthOf(l, |a + b|) && der == [0x30] + l + (a + b)
  }

  // --- Lengths ---

  lemma Wraps(u: int, c: Byte)
    ensures ToInt32(256 * ToInt32(u) + c) == ToInt32(256 * u + c)
  {
    var m := 0x1_0000_0000;
    var k := (u + 0x8000_0000) / m;
    assert ToInt32(u) == u - k * m;
    assert 256 * ToInt32(u) + c + 0x8000_0000 == 256 * u + c + 0x8000_0000 - 256 * k * m;
    Shift(256 * u + c + 0x8000_0000, 256 * k);
  }

  lemma Shift(x: int, k: int)
    ensures (x - k * 0x1_0000_0000) % 0x1_0000_0000 == x % 0x1_0000_0000
  {
    var m := 0x1_0000_0000;
    assert x - k * m == (x / m - k) * m + x % m;
  }

  lemma {:induction false} ReadBytesLast(length: int, bytes: seq<Byte>, c: Byte)
    ensures ReadBytes(length, bytes + [c]) == ToInt32(256 * ReadBytes(length, bytes) + c)
    decreases |bytes|
  {
    hide ToInt32;
    if bytes == [] {
      assert ([] + [c])[1..] == [];
    } else {
      assert (bytes + [c])[1..] == bytes[1..] + [c];
      ReadBytesLast(ToInt32(256 * length + bytes[0]), bytes[1..], c);
    }
  }

  /** The shifts compute the value of the bytes, wrapped to 32 bits. */
  lemma {:induction false} ReadBytesMeans(bytes: seq<Byte>)
    ensures ReadBytes(0, bytes) == ToInt32(Unsigned(bytes))
    decreases |bytes|
  {
    hide ToInt32;
    if bytes == [] {
      assert ToInt32(0) == 0;
    } else {
      var n := |bytes| - 1;
      ReadBytesMeans(bytes[..n]);
      ReadBytesLast(0, bytes[..n], bytes[n]);
      assert bytes == bytes[..n] + [bytes[n]];
      Wraps(Unsigned(bytes[..n]), bytes[n]);
    }
  }

  /** The value of four octets. */
  function Four(a: int, b: int, c: int, d: int): int {
    256 * (256 * (256 * a + b) + c) + d
  }

  lemma FourBytes(bytes: seq<Byte>)
    requires |bytes| <= 4
    ensures Unsigned(bytes) < 0x1_0000_0000 && (|bytes| < 4 ==> Unsigned(bytes) < 0x100_0000)
    ensures |bytes| == 4 ==> Unsigned(bytes) == Four(bytes[0], bytes[1], bytes[2], bytes[3])
  {
    if |bytes| > 0 {
      UnsignedLast(bytes);
      var b3 := bytes[..|bytes| - 1];
      if |b3| > 0 {
        UnsignedLast(b3);
        var b2 := b3[..|b3| - 1];
        if |b2| > 0 {
          UnsignedLast(b2);
          var b1 := b2[..|b2| - 1];
          if |b1| > 0 {
            UnsignedLast(b1);
            assert b1[..|b1| - 1] == [];
          }
        }
      }
    }
  }

  lemma UnsignedLast(bytes: seq<Byte>)
    requires bytes != []
    ensures Unsigned(bytes) == 256 * Unsigned(bytes[..|bytes| - 1]) + bytes[|bytes| - 1]
  {
  }

  /** Four octets that are read as a negative length. */
  ghost predicate Negative(bs: seq<Byte>, offset: nat, n: int) {
    n < 0 && offset + 5 <= |bs| && bs[offset] == 0x84 &&
    n == Four(bs[offset + 1], bs[offset + 2], bs[offset + 3], bs[offset + 4]) - 0x1_0000_0000
  }

  /** A length is read exactly where one is written; what else is read is negative. */
  lemma LengthMeans(bs: seq<Byte>, offset: nat, n: int, end: int)
    ensures n >= 0 ==>
      (ReadDerLength(bs, offset) == Success((n, end)) <==> offset < end <= |bs| && LengthOf(bs[offset..end], n))
    ensures ReadDerLength(bs, offset) == Success((n, end)) ==> offset < end <= |bs|
    ensures ReadDerLength(bs, offset) == Success((n, end)) && n < 0 ==> end == offset + 5 && Negative(bs, offset, n)
  {
    hide ToInt32, ReadBytes, Unsigned;
    if offset < |bs| && bs[offset] >= 0x80 {
      var size := bs[offset] - 0x80;
      if 0 < size <= 4 && offset + 1 + size <= |bs| {
        var bytes := bs[offset + 1..offset + 1 + size];
        ReadBytesMeans(bytes);
        FourBytes(bytes);
        Narrow(Unsigned(bytes));
        assert bs[offset..offset + 1 + size][1..] == bytes;
      }
    }
  }

  lemma Narrow(u: nat)
    requires u < 0x1_0000_0000
    ensures ToInt32(u) == if u < 0x8000_0000 then u else u - 0x1_0000_0000
  {
  }

  // --- Integers ---

  /** Where tag, length and contents lie. */
  lemma Layout(bs: seq<Byte>, i: nat, tag: Byte, l: seq<Byte>, c: seq<Byte>)
    requires i + 1 + |l| + |c| <= |bs| && bs[i..i + 1 + |l| + |c|] == [tag] + l + c
    ensures bs[i] == tag && bs[i + 1..i + 1 + |l|] == l && bs[i + 1 + |l|..i + 1 + |l| + |c|] == c
  {
    var e := bs[i..i + 1 + |l| + |c|];
    assert e[0] == tag;
    forall k | 0 <= k < |l|
      ensures bs[i + 1..i + 1 + |l|][k] == l[k]
    {
      assert e[1 + k] == l[k];
    }
    forall k | 0 <= k < |c|
      ensures bs[i + 1 + |l|..i + 1 + |l| + |c|][k] == c[k]
    {
      assert e[1 + |l| + k] == c[k];
    }
  }

  lemma LengthThere(bs: seq<Byte>, i: nat, l: seq<Byte>, n: nat)
    requires i + |l| <= |bs| && bs[i..i + |l|] == l && LengthOf(l, n)
    ensures ReadDerLength(bs, i) == Success((n, i + |l|))
  {
    hide ReadDerLength, Unsigned;
    LengthMeans(bs, i, n, i + |l|);
  }

  lemma IntegerAt(bs: seq<Byte>, offset: nat, l: seq<Byte>, c: seq<Byte>)
    requires offset + 1 + |l| + |c| <= |bs| && LengthOf(l, |c|) && bs[offset] == 0x02
    requires bs[offset + 1..offset + 1 + |l|] == l && bs[offset + 1 + |l|..offset + 1 + |l| + |c|] == c
    ensures ReadDerInteger(bs, offset) == Success((StripLeadingZeros(c), offset + 1 + |l| + |c|))
  {
    hide ReadDerInteger, StripLeadingZeros, LengthOf, JsSlice;
    LengthThere(bs, offset + 1, l, |c|);
    var start := offset + 1 + |l|;
    SliceOf(bs, start, c);
    IntegerBehind(bs, offset, |c|, start);
  }

  lemma IntegerBehind(bs: seq<Byte>, offset: nat, n: nat, start: nat)
    requires offset < |bs| && bs[offset] == 0x02 && ReadDerLength(bs, offset + 1) == Success((n, start))
    requires start + n <= |bs|
    ensures ReadDerInteger(bs, offset) == Success((StripLeadingZeros(JsSlice(bs, start, start + n)), start + n))
  {
    hide ReadDerLength, StripLeadingZeros, JsSlice;
  }

  lemma SliceOf(bs: seq<Byte>, start: nat, c: seq<Byte>)
    requires start + |c| <= |bs| && bs[start..start + |c|] == c
    ensures JsSlice(bs, start, start + |c|) == c
  {
  }

  lemma IntegerThere(bs: seq<Byte>, offset: nat, l: seq<Byte>, c: seq<Byte>)
    requires offset + 1 + |l| + |c| <= |bs| && bs[offset..offset + 1 + |l| + |c|] == [0x02] + l + c
    requires LengthOf(l, |c|)
    ensures ReadDerInteger(bs, offset) == Success((StripLeadingZeros(c), offset + 1 + |l| + |c|))
  {
    hide ReadDerInteger, StripLeadingZeros, LengthOf;
    Layout(bs, offset, 0x02, l, c);
    IntegerAt(bs, offset, l, c);
  }

  /** Reading an integer goes on behind it, or back when its length is read as negative. */
  lemma IntegerMeans(bs: seq<Byte>, offset: int)
    requires ReadDerInteger(bs, offset).Success?
    ensures 0 <= offset < |bs| && bs[offset] == 0x02
    ensures var (v, end) := ReadDerInteger(bs, offset).value;
            if end >= offset + 2 && !Negative(bs, offset + 1, end - offset - 6)
            then end <= |bs| && IsInteger(bs[offset..end], Unsigned(v))
            else Negative(bs, offset + 1, end - offset - 6)
  {
    hide ReadDerLength, StripLeadingZeros, LengthOf, Unsigned;
    var (n, start) := ReadDerLength(bs, offset + 1).value;
    LengthMeans(bs, offset + 1, n, start);
    if n >= 0 {
      var end := start + n;
      var l, c := bs[offset + 1..start], bs[start..end];
      assert |c| == n && bs[offset..end] == [0x02] + l + c;
      StrippedValue(c);
      assert JsSlice(bs, start, end) == c;
    }
  }

  // --- Signatures ---

  /** The value of `k` octets, at most four, from `i` on. */
  function Big(bs: seq<Byte>, i: nat, k: nat): int
    requires 1 <= k <= 4 && i + k <= |bs|
  {
    if k == 1 then bs[i]
    else if k == 2 then Four(0, 0, bs[i], bs[i + 1])
    else if k == 3 then Four(0, bs[i], bs[i + 1], bs[i + 2])
    else Four(bs[i], bs[i + 1], bs[i + 2], bs[i + 3])
  }

  lemma BigMeans(bs: seq<Byte>, i: nat, k: nat)
    requires 1 <= k <= 4 && i + k <= |bs|
    ensures Unsigned(bs[i..i + k]) == Big(bs, i, k)
  {
    UnsignedLast(bs[i..i + k]);
    assert bs[i..i + k][..k - 1] == bs[i..i + k - 1];
    if k > 1 {
      BigMeans(bs, i, k - 1);
    }
  }

  ghost predicate LengthAt(bs: seq<Byte>, i: nat, n: int, end: int) {
    i < |bs| && if bs[i] < 0x80 then n == bs[i] && end == i + 1
                else var k := bs[i] - 0x80;
                     1 <= k <= 4 && end == i + 1 + k && i + 1 + k <= |bs| && n == Big(bs, i + 1, k)
  }

  lemma LengthOctets(bs: seq<Byte>, i: nat, n: nat, end: nat)
    requires i < end <= |bs| && LengthOf(bs[i..end], n)
    ensures LengthAt(bs, i, n, end)
  {
    hide Unsigned, Big;
    if end > i + 1 {
      assert bs[i..end][1..] == bs[i + 1..end];
      BigMeans(bs, i + 1, end - i - 1);
    }
  }

  /** No length inside the header, or inside the octets of a small negative length, leads to the end. */
  lemma NoneFits(der: seq<Byte>, o: nat, e: nat, n: nat, start: nat)
    requires 2 <= o < |der| && LengthAt(der, 1, |der| - o, o) && der[0] == 0x30 && der[o] == 0x02
    requires Negative(der, o + 1, e - o - 6)
    requires e < |der| && der[e] == 0x02 && LengthAt(der, e + 1, n, start) && n < 0x8000_0000
    ensures start + n != |der|
  {
    assert o <= 6 && e < o + 6;
    assert der[o + 2] == 0xFF && der[o + 3] == 0xFF && der[o + 4] == 0xFF && der[o + 5] >= 0xF4;
    assert e < o;
    hide Negative;
    if o == 4 {
      NoneFitsIn(der, 4, e, n, start);
    } else if o == 5 {
      NoneFitsIn(der, 5, e, n, start);
    } else if o == 6 {
      NoneFitsIn(der, 6, e, n, start);
    }
  }

  lemma NoneFitsIn(der: seq<Byte>, o: nat, e: nat, n: nat, start: nat)
    requires 4 <= o <= 6 && o + 6 <= |der| && LengthAt(der, 1, |der| - o, o) && der[0] == 0x30
    requires der[o] == 0x02 && der[o + 1] == 0x84 && der[o + 2] == 0xFF && der[o + 3] == 0xFF && e < o
    requires der[e] == 0x02 && LengthAt(der, e + 1, n, start)
    ensures start + n != |der|
  {
    if o == 4 {
    } else if o == 5 {
    }
  }

  /** Nothing that begins inside the header or the length of the first integer ends with the sequence. */
  lemma NoWayBack(der: seq<Byte>, o: nat, e: int)
    requires 2 <= o < |der| && der[0] == 0x30 && LengthOf(der[1..o], |der| - o) && der[o] == 0x02
    requires Negative(der, o + 1, e - o - 6)
    ensures ReadDerInteger(der, e).Failure? || ReadDerInteger(der, e).value.1 != |der|
  {
    hide ReadDerLength, StripLeadingZeros, Unsigned;
    if ReadDerInteger(der, e).Success? {
      var (n, start) := ReadDerLength(der, e + 1).value;
      LengthMeans(der, e + 1, n, start);
      if n >= 0 {
        LengthOctets(der, 1, |der| - o, o);
        LengthOctets(der, e + 1, n, start);
        hide LengthOf, LengthAt, Negative;
        NoneFits(der, o, e, n, start);
      }
    }
  }

  // --- Values of a fixed width ---

  lemma Positive(v: seq<Byte>)
    requires v != [] && v[0] != 0
    ensures Unsigned(v) > 0
    decreases |v|
  {
    UnsignedLast(v);
    if |v| > 1 {
      Positive(v[..|v| - 1]);
    }
  }

  /** Without leading zeros a value has one form. */
  lemma {:induction false} OneForm(a: seq<Byte>, b: seq<Byte>)
    requires (a == [] || a[0] != 0) && (b == [] || b[0] != 0) && Unsigned(a) == Unsigned(b)
    ensures a == b
    decreases |a|
  {
    if a == [] || b == [] {
      if a != [] {
        Positive(a);
      }
      if b != [] {
        Positive(b);
      }
      assert Unsigned([]) == 0;
    } else {
      UnsignedLast(a);
      UnsignedLast(b);
      var m, n := |a| - 1, |b| - 1;
      hide Unsigned;
      assert a[m] == b[n] && Unsigned(a[..m]) == Unsigned(b[..n]);
      OneForm(a[..m], b[..n]);
      assert a == a[..m] + [a[m]] && b == b[..n] + [b[n]];
    }
  }

  lemma SameStripped(a: seq<Byte>, b: seq<Byte>)
    requires Unsigned(a) == Unsigned(b)
    ensures StripLeadingZeros(a) == StripLeadingZeros(b)
  {
    hide StripLeadingZeros, Unsigned;
    Stripped(a);
    Stripped(b);
    StrippedValue(a);
    StrippedValue(b);
    OneForm(StripLeadingZeros(a), StripLeadingZeros(b));
  }

  /** Padding to a width succeeds exactly for what fits, with the form of that width. */
  lemma PadMeans(v: seq<Byte>, width: nat, padded: seq<Byte>)
    ensures LeftPad(StripLeadingZeros(v), width) == Success(padded) <==>
        |padded| == width && Unsigned(padded) == Unsigned(v)
  {
    hide StripLeadingZeros, Unsigned;
    Stripped(v);
    StrippedValue(v);
    if |padded| == width && Unsigned(padded) == Unsigned(v) {
      SameStripped(padded, v);
      PaddedBack(padded);
    }
    if LeftPad(StripLeadingZeros(v), width) == Success(padded) {
      var s := StripLeadingZeros(v);
      ZerosInFront(width - |s|, s);
    }
  }

  lemma {:induction false} ZerosInFront(n: nat, v: seq<Byte>)
    ensures Unsigned(Repeat(n) + v) == Unsigned(v)
  {
    hide Unsigned;
    if n == 0 {
      assert Repeat(0) + v == v;
    } else {
      ZerosInFront(n - 1, v);
      LeadingZero(Repeat(n - 1) + v);
      assert Repeat(n) + v == [0] + (Repeat(n - 1) + v);
    }
  }

  // --- What is read as a signature ---

  lemma NegativeInside(bs: seq<Byte>, offset: nat, n: int)
    ensures Negative(bs, offset, n) ==> offset + 5 <= |bs| && n < 0
  {
  }

  lemma ReadStripped(bs: seq<Byte>, offset: int)
    requires ReadDerInteger(bs, offset).Success?
    ensures var v := ReadDerInteger(bs, offset).value.0; StripLeadingZeros(v) == v
  {
    hide ReadDerLength, StripLeadingZeros;
    var (n, start) := ReadDerLength(bs, offset + 1).value;
    LengthMeans(bs, offset + 1, n, start);
    Stripped(JsSlice(bs, start, start + n));
  }

  /** The two integers that are read, wherever they lie, follow each other to the end. */
  lemma ReadParts(der: seq<Byte>, width: nat) returns (r: seq<Byte>, s: seq<Byte>)
    requires DerToRaw(der, width).Success?
    ensures IsSignature(der, Unsigned(r), Unsigned(s)) && r == StripLeadingZeros(r) && s == StripLeadingZeros(s)
    ensures LeftPad(r, width / 2).Success? && LeftPad(s, width / 2).Success?
    ensures DerToRaw(der, width).value == LeftPad(r, width / 2).value + LeftPad(s, width / 2).value
  {
    hide ReadDerLength, ReadDerInteger, StripLeadingZeros, Unsigned, LengthOf, IsInteger, Negative, LeftPad;
    var (n, o) := ReadDerLength(der, 1).value;
    LengthMeans(der, 1, n, o);
    var (v, e) := ReadDerInteger(der, o).value;
    var (w, end) := ReadDerInteger(der, e).value;
    r, s := v, w;
    IntegerMeans(der, o);
    IntegerMeans(der, e);
    NegativeInside(der, o + 1, e - o - 6);
    NegativeInside(der, e + 1, end - e - 6);
    if Negative(der, o + 1, e - o - 6) {
      NoWayBack(der, o, e);
    }
    var l, a, b := der[1..o], der[o..e], der[e..];
    assert der[e..end] == b && a + b == der[o..] && der == [0x30] + l + (a + b);
    ReadStripped(der, o);
    ReadStripped(der, e);
  }

  lemma NonEmptyLength(l: seq<Byte>, n: nat)
    requires LengthOf(l, n)
    ensures l != []
  {
  }

  lemma IntegerIsRead(bs: seq<Byte>, o: nat, e: nat, v: nat) returns (r: seq<Byte>)
    requires o <= e <= |bs| && IsInteger(bs[o..e], v)
    ensures ReadDerInteger(bs, o) == Success((r, e)) && r == StripLeadingZeros(r) && Unsigned(r) == v
  {
    hide ReadDerInteger, StripLeadingZeros, Unsigned, LengthOf;
    var l, c :| LengthOf(l, |c|) && bs[o..e] == [0x02] + l + c && Unsigned(c) == v;
    assert |bs[o..e]| == 1 + |l| + |c|;
    IntegerThere(bs, o, l, c);
    r := StripLeadingZeros(c);
    Stripped(c);
    StrippedValue(c);
  }

  lemma HeaderRead(der: seq<Byte>, l: seq<Byte>, body: seq<Byte>)
    requires LengthOf(l, |body|) && der == [0x30] + l + body
    ensures ReadDerLength(der, 1) == Success((|body|, 1 + |l|)) && der[1 + |l|..] == body && der[0] == 0x30
  {
    hide ReadDerLength, LengthOf, Unsigned;
    assert der[0..0 + 1 + |l| + |body|] == der;
    Layout(der, 0, 0x30, l, body);
    NonEmptyLength(l, |body|);
    LengthMeans(der, 1, |body|, 1 + |l|);
  }

  lemma TwoRead(der: seq<Byte>, o: nat, r: seq<Byte>, e: nat, s: seq<Byte>, width: nat, x: seq<Byte>, y: seq<Byte>)
    requires der != [] && der[0] == 0x30 && o <= |der| && ReadDerLength(der, 1) == Success((|der| - o, o))
    requires ReadDerInteger(der, o) == Success((r, e)) && ReadDerInteger(der, e) == Success((s, |der|))
    requires LeftPad(r, width / 2) == Success(x) && LeftPad(s, width / 2) == Success(y)
    ensures DerToRaw(der, width) == Success(x + y)
  {
    hide ReadDerLength, ReadDerInteger, LeftPad;
  }

  /** A signature that is there is read. */
  lemma SignatureRead(der: seq<Byte>, x: seq<Byte>, y: seq<Byte>, width: nat)
    requires IsSignature(der, Unsigned(x), Unsigned(y)) && |x| == |y| == width / 2
    ensures DerToRaw(der, width) == Success(x + y)
  {
    hide DerToRaw, ReadDerLength, ReadDerInteger, StripLeadingZeros, Unsigned, LengthOf, LeftPad, IsInteger;
    var l, a, b :| IsInteger(a, Unsigned(x)) && IsInteger(b, Unsigned(y)) && LengthOf(l, |a + b|)
      && der == [0x30] + l + (a + b);
    HeaderRead(der, l, a + b);
    var o := 1 + |l|;
    var e := o + |a|;
    assert der[o..e] == der[o..][..|a|] == a && der[e..|der|] == der[o..][|a|..] == b;
    var r := IntegerIsRead(der, o, e, Unsigned(x));
    var s := IntegerIsRead(der, e, |der|, Unsigned(y));
    PadMeans(r, width / 2, x);
    PadMeans(s, width / 2, y);
    TwoRead(der, o, r, e, s, width, x, y);
  }

  /** A byte string is converted to this raw signature if and only if it is a sequence of the two
      integers that the halves stand for, each fitting its half. */
  lemma SignatureMeans(der: seq<Byte>, width: nat, raw: seq<Byte>)
    requires |raw| == 2 * (width / 2)
    ensures DerToRaw(der, width) == Success(raw) <==>
        IsSignature(der, Unsigned(raw[..width / 2]), Unsigned(raw[width / 2..]))
  {
    hide DerToRaw, IsSignature, Unsigned, StripLeadingZeros, LeftPad;
    var x, y := raw[..width / 2], raw[width / 2..];
    assert raw == x + y;
    if DerToRaw(der, width) == Success(raw) {
      var r, s := ReadParts(der, width);
      var left, right := LeftPad(r, width / 2).value, LeftPad(s, width / 2).value;
      PadMeans(r, width / 2, left);
      PadMeans(s, width / 2, right);
      assert x == left && y == right;
    }
    if IsSignature(der, Unsigned(x), Unsigned(y)) {
      SignatureRead(der, x, y, width);
    }
  }

  /** And what is converted has that width. */
  lemma SignatureWidth(der: seq<Byte>, width: nat)
    requires DerToRaw(der, width).Success?
    ensures |DerToRaw(der, width).value| == 2 * (width / 2)
  {
    hide DerToRaw, IsSignature, Unsigned, StripLeadingZeros;
    var r, s := ReadParts(der, width);
  }

  /** So what is written is a sequence of the integers of the halves. */
  lemma WrittenMeans(raw: seq<Byte>)
    requires |raw| % 2 == 0 && |Payload(raw)| < 0x8000_0000
    ensures RawToDer(raw).Success? &&
            IsSignature(RawToDer(raw).value, Unsigned(raw[..|raw| / 2]), Unsigned(raw[|raw| / 2..]))
  {
    hide DerToRaw, IsSignature, Unsigned, Payload;
    RawRoundTrip(raw);
    SignatureMeans(RawToDer(raw).value, |raw|, raw);
  }
}
