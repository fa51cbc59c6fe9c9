/** Decimal text and the character classes the codecs share. */
module Text {

  predicate IsDigit(c: char) {
    '0' <= c <= '9'
  }

  ghost predicate AllDigits(s: string) {
    forall c :: c in s ==> IsDigit(c)
  }

  function Digit(d: nat): (c: char)
    requires d < 10
    ensures IsDigit(c) && c as int - '0' as int == d
  {
    ('0' as int + d) as char
  }

  /** The number a digit string stands for; characters that are not digits count as zero. */
  function Value(s: string): nat {
    if s == "" then 0
    else
      var c := s[|s| - 1];
      10 * Value(s[..|s| - 1]) + if IsDigit(c) then c as int - '0' as int else 0
  }

  /** Decimal digits without leading zeros. */
  function Digits(n: nat): (s: string)
    ensures s != "" && AllDigits(s) && Value(s) == n
    ensures |s| == 1 || s[0] != '0'
  {
    if n < 10 then [Digit(n)]
    else
      var s := Digits(n / 10) + [Digit(n % 10)];
      assert s[..|s| - 1] == Digits(n / 10);
      s
  }

  function Pow10(k: nat): nat
    ensures Pow10(k) > 0
  {
    if k == 0 then 1 else 10 * Pow10(k - 1)
  }

  function Zeros(k: nat): (s: string)
    ensures |s| == k && AllDigits(s)
  {
    if k == 0 then "" else Zeros(k - 1) + "0"
  }

  lemma {:induction false} ValueConcat(a: string, b: string)
    ensures Value(a + b) == Value(a) * Pow10(|b|) + Value(b)
  {
    if b == "" {
      assert a + b == a;
    } else {
      var b' := b[..|b| - 1];
      ValueConcat(a, b');
      assert (a + b)[..|a + b| - 1] == a + b';
      assert 10 * (Value(a) * Pow10(|b'|)) == Value(a) * Pow10(|b|);
    }
  }

  lemma {:induction false} ValueZeros(k: nat)
    ensures Value(Zeros(k)) == 0
  {
    if k > 0 {
      ValueZeros(k - 1);
      assert Zeros(k)[..k - 1] == Zeros(k - 1);
    }
  }

  /** Decimal text, left-padded with zeros to at least `width` characters. */
  function PadStart(s: string, width: nat): string {
    if |s| >= width then s else Zeros(width - |s|) + s
  }

  lemma PadStartValue(s: string, width: nat)
    requires AllDigits(s)
    ensures Value(PadStart(s, width)) == Value(s) && AllDigits(PadStart(s, width)) && |PadStart(s, width)| >= width
  {
    hide Value, Zeros, Pow10;
    if |s| < width {
      var n := width - |s|;
      ValueConcat(Zeros(n), s);
      ValueZeros(n);
      assert 0 * Pow10(|s|) == 0;
    }
  }

  /** The longest prefix whose characters satisfy `p`, and the rest. */
  function Span(p: char -> bool, s: string): (r: (string, string))
    ensures r.0 + r.1 == s
    ensures forall c :: c in r.0 ==> p(c)
    ensures r.1 != "" ==> !p(r.1[0])
  {
    if s == "" || !p(s[0]) then ("", s)
    else
      var r := Span(p, s[1..]);
      FrontJoins(s, r.0, r.1);
      ([s[0]] + r.0, r.1)
  }

  lemma FrontJoins(s: string, a: string, b: string)
    requires s != "" && s[1..] == a + b
    ensures [s[0]] + a + b == s && forall c :: c in [s[0]] + a ==> c == s[0] || c in a
  {
    assert s == [s[0]] + (a + b);
  }

  lemma {:induction false} SpanOf(p: char -> bool, a: string, rest: string)
    requires forall c :: c in a ==> p(c)
    requires rest != "" ==> !p(rest[0])
    ensures Span(p, a + rest) == (a, rest)
  {
    if a == "" {
      assert a + rest == rest;
    } else {
      assert (a + rest)[1..] == a[1..] + rest;
      SpanOf(p, a[1..], rest);
      assert [a[0]] + a[1..] == a;
    }
  }

  // --- Case and white space ---

  function LowerChar(c: char): char {
    if 'A' <= c <= 'Z' then (c as int + 32) as char else c
  }

  function Lower(s: string): (r: string)
    ensures |r| == |s|
  {
    seq(|s|, i requires 0 <= i < |s| => LowerChar(s[i]))
  }

  predicate IsSpace(c: char) {
    '\t' <= c <= '\r' || c == ' ' || c == '\U{A0}' || c == '\U{1680}' || '\U{2000}' <= c <= '\U{200A}' ||
    c == '\U{2028}' || c == '\U{2029}' || c == '\U{202F}' || c == '\U{205F}' || c == '\U{3000}' || c == '\U{FEFF}'
  }

  predicate Trimmed(s: string) {
    s == "" || (!IsSpace(s[0]) && !IsSpace(s[|s| - 1]))
  }

  function Trim(s: string): (r: string)
    ensures Trimmed(r)
    ensures Trimmed(s) ==> r == s
  {
    if s != "" && IsSpace(s[0]) then Trim(s[1..])
    else if s != "" && IsSpace(s[|s| - 1]) then Trim(s[..|s| - 1])
    else s
  }

  function UpperChar(c: char): char {
    if 'a' <= c <= 'z' then (c as int - 32) as char else c
  }

  function Upper(s: string): string {
    seq(|s|, i requires 0 <= i < |s| => UpperChar(s[i]))
  }

  // --- What they mean ---

  /** The same character, or the two cases of one letter of the alphabet. */
  predicate SameLetter(c: char, d: char) {
    c == d || ('A' <= c <= 'Z' && d as int == c as int + 32) || ('A' <= d <= 'Z' && c as int == d as int + 32)
  }

  ghost predicate SameButCase(a: string, b: string) {
    |a| == |b| && forall i :: 0 <= i < |a| ==> SameLetter(a[i], b[i])
  }

  lemma LetterMeans(c: char, d: char)
    ensures LowerChar(c) == LowerChar(d) <==> SameLetter(c, d)
    ensures UpperChar(c) == UpperChar(d) <==> SameLetter(c, d)
  {
  }

  /** Lower-casing, and likewise upper-casing, identifies exactly what differs in case only. */
  lemma CaseMeans(a: string, b: string)
    ensures Lower(a) == Lower(b) <==> SameButCase(a, b)
    ensures Upper(a) == Upper(b) <==> SameButCase(a, b)
  {
    var la, lb, ua, ub := Lower(a), Lower(b), Upper(a), Upper(b);
    assert |la| == |ua| == |a| && |lb| == |ub| == |b|;
    assert forall i :: 0 <= i < |a| ==> la[i] == LowerChar(a[i]) && ua[i] == UpperChar(a[i]);
    assert forall i :: 0 <= i < |b| ==> lb[i] == LowerChar(b[i]) && ub[i] == UpperChar(b[i]);
    if |a| == |b| {
      forall i | 0 <= i < |a|
        ensures la[i] == lb[i] <==> SameLetter(a[i], b[i])
        ensures ua[i] == ub[i] <==> SameLetter(a[i], b[i])
      {
        LetterMeans(a[i], b[i]);
      }
    }
    hide Lower, Upper, LowerChar, UpperChar, SameLetter;
    assert la == lb <==> |a| == |b| && forall i :: 0 <= i < |a| ==> la[i] == lb[i];
    assert ua == ub <==> |a| == |b| && forall i :: 0 <= i < |a| ==> ua[i] == ub[i];
  }

  /** And leaves letters of one case only. */
  lemma CaseLeft(a: string)
    ensures SameButCase(a, Lower(a)) && SameButCase(a, Upper(a))
    ensures forall i :: 0 <= i < |a| ==> !('A' <= Lower(a)[i] <= 'Z') && !('a' <= Upper(a)[i] <= 'z')
  {
  }

  /** White space and line ends of ECMAScript (sections 12.2 and 12.3 of ECMA-262), listed. */
  lemma SpacesMean(c: char)
    ensures IsSpace(c) <==> c as int in [
      0x9, 0xA, 0xB, 0xC, 0xD, 0x20, 0xA0, 0x1680, 0x2000, 0x2001, 0x2002, 0x2003, 0x2004, 0x2005, 0x2006, 0x2007,
      0x2008, 0x2009, 0x200A, 0x2028, 0x2029, 0x202F, 0x205F, 0x3000, 0xFEFF]
  {
  }

  ghost predicate AllSpace(s: string) {
    forall c :: c in s ==> IsSpace(c)
  }

  lemma SpaceInFront(c: char, a: string, core: string, b: string, s: string)
    requires IsSpace(c) && AllSpace(a) && s == [c] + (a + core + b)
    ensures AllSpace([c] + a) && s == [c] + a + core + b
  {
    hide IsSpace;
  }

  lemma SpaceBehind(a: string, core: string, b: string, c: char, s: string)
    requires IsSpace(c) && AllSpace(b) && s == (a + core + b) + [c]
    ensures AllSpace(b + [c]) && s == a + core + (b + [c])
  {
    hide IsSpace;
  }

  /** Trimming takes white space off both ends, and all of it. */
  lemma {:induction false} TrimMeans(s: string) returns (before: string, after: string)
    ensures s == before + Trim(s) + after && AllSpace(before) && AllSpace(after)
    decreases |s|
  {
    hide IsSpace, AllSpace, Trimmed;
    if s != "" && IsSpace(s[0]) {
      var b, a := TrimMeans(s[1..]);
      assert s == [s[0]] + s[1..];
      SpaceInFront(s[0], b, Trim(s[1..]), a, s);
      before, after := [s[0]] + b, a;
    } else if s != "" && IsSpace(s[|s| - 1]) {
      var n := |s| - 1;
      var b, a := TrimMeans(s[..n]);
      assert s == s[..n] + [s[n]];
      SpaceBehind(b, Trim(s[..n]), a, s[n], s);
      before, after := b, a + [s[n]];
    } else {
      before, after := "", "";
      NothingAround(s);
    }
  }

  lemma NothingAround(s: string)
    ensures s == "" + s + "" && AllSpace("")
  {
  }

  /** And nothing else. */
  lemma {:induction false} TrimOf(before: string, core: string, after: string)
    requires AllSpace(before) && Trimmed(core) && AllSpace(after)
    ensures Trim(before + core + after) == core
    decreases |before| + |after|
  {
    hide IsSpace;
    var s := before + core + after;
    if before != "" {
      assert s[0] == before[0] && s[1..] == before[1..] + core + after;
      TrimOf(before[1..], core, after);
    } else if after == "" {
      assert s == core;
    } else if core == "" {
      assert s[0] == after[0] && s[1..] == "" + "" + after[1..];
      TrimOf("", "", after[1..]);
    } else {
      var n := |after| - 1;
      assert s[0] == core[0] && s[|s| - 1] == after[n] && s[..|s| - 1] == before + core + after[..n];
      TrimOf(before, core, after[..n]);
    }
  }

  /** `core` is `s` without the white space around it. */
  ghost predicate Inside(s: string, core: string) {
    Trimmed(core) && exists before, after :: AllSpace(before) && AllSpace(after) && s == before + core + after
  }

  lemma TrimInside(s: string, core: string)
    ensures Inside(s, core) <==> Trim(s) == core
  {
    hide IsSpace, Trim, Trimmed, AllSpace;
    if Inside(s, core) {
      var before, after :| AllSpace(before) && AllSpace(after) && s == before + core + after;
      TrimOf(before, core, after);
    }
    var before, after := TrimMeans(s);
  }
}
