/** Exactly which numbers survive printing and parsing. */
module SfNumbers {
  import opened Records
  import opened Text
  import opened StructuredFields
  import opened SfRoundTrip

  function Single(key: string, x: real): Dict {
    [(key, Plain(Item(Num(x), None)))]
  }

  lemma {:induction false} ValueBelow(s: string)
    requires AllDigits(s)
    ensures Value(s) < Pow10(|s|)
  {
    if s != "" {
      assert forall c :: c in s[..|s| - 1] ==> c in s;
      ValueBelow(s[..|s| - 1]);
      assert s[|s| - 1] in s;
    }
  }

  lemma Quotient(v: nat, p: nat)
    requires p > 0 && v < 10 * p
    ensures 0.0 <= v as real / p as real < 10.0
  {
    var q, r := v as real / p as real, p as real;
    var top := 10 * p;
    assert top as real == 10.0 * r;
    assert v as real < top as real;
    Cancels(q, r, v as real);
  }

  lemma Cancels(q: real, r: real, x: real)
    requires r > 0.0 && q == x / r && 0.0 <= x < 10.0 * r
    ensures 0.0 <= q < 10.0
  {
    assert x == q * r;
    assert (10.0 - q) * r == 10.0 * r - q * r > 0.0;
    assert q >= 10.0 ==> (q - 10.0) * r >= 0.0;
    assert q < 0.0 ==> q * r < 0.0;
  }

  /** One digit before the point: a number below ten. */
  lemma OneDigitFinite(negative: bool, whole: string, fraction: string)
    requires |whole| == 1 && AllDigits(whole) && AllDigits(fraction)
    ensures Finite(NumberOf(negative, whole, fraction))
  {
    ValueBelow(whole + fraction);
    Quotient(Value(whole + fraction), Pow10(|fraction|));
    hide Value;
  }

  /** The text of a large number: a short number, then the exponent. */
  lemma LargeText(x: real) returns (whole: string, fraction: string, rest: string)
    requires !Small(x)
    ensures |whole| == 1 && AllDigits(whole) && AllDigits(fraction) && StartsWith(rest, 'e')
    ensures PrintNumber(x) == (if x < 0.0 then "-" + WithPoint(whole, fraction) else WithPoint(whole, fraction)) + rest
  {
    var m := if x < 0.0 then -x else x;
    var digits := Digits(m.Floor);
    assert digits == digits[..1] + digits[1..];
    AllDigitsParts(digits[..1], digits[1..]);
    TrimmedZeros(digits[1..]);
    whole, fraction, rest := digits[..1], TrimZeros(digits[1..]), "e+" + Digits(|digits| - 1);
    hide Digits, TrimZeros, AllDigits, WithPoint;
    var text := WithPoint(whole, fraction);
    assert PrintMagnitude(m) == text + "e+" + Digits(|digits| - 1);
    assert text + "e+" + Digits(|digits| - 1) == text + rest;
    assert "-" + (text + rest) == "-" + text + rest;
  }

  /** A number printed with an exponent is read up to the exponent. */
  lemma LargeStops(x: real) returns (r: real, rest: string)
    requires !Small(x)
    ensures StartsWith(rest, 'e')
    ensures var s := PrintNumber(x); s != "" && (s[0] == '-' || IsDigit(s[0])) && ParseNumber(s) == Ok(Num(r), rest)
  {
    hide PrintNumber, ParseNumber, WithPoint, NumberOf, AllDigits, Finite;
    var whole, fraction, more := LargeText(x);
    OneDigitFinite(x < 0.0, whole, fraction);
    NumberParts(x < 0.0, whole, fraction, more);
    r, rest := NumberOf(x < 0.0, whole, fraction), more;
  }

  lemma NumberStart(s: string)
    requires s != "" && (s[0] == '-' || IsDigit(s[0]))
    ensures ParseBare(s) == ParseNumber(s) && !StartsWith(s, '(')
  {
    hide ParseNumber, ParseToken, ParseBytes, ParseBool, ParseStringTail;
  }

  /** A member whose value begins with a number. */
  lemma NumberMember(key: string, text: string, r: real, rest: string)
    requires ValidKey(key) && text != "" && (text[0] == '-' || IsDigit(text[0]))
      && ParseNumber(text) == Ok(Num(r), rest)
    requires !StartsWith(rest, ';')
    ensures ParseMember(key + ("=" + text), []) == Ok(Single(key, r), rest)
  {
    NumberStart(text);
    KeyBack(key, "=" + text);
    hide ParseKey, ParseBare, ParseNumber, ValidKey;
    assert ("=" + text)[1..] == text;
    assert ParseItem(text) == Ok(Item(Num(r), None), rest);
    hide ParseItem;
    assert Put([], key, Plain(Item(Num(r), None))) == Single(key, r);
  }

  lemma SingleText(key: string, x: real)
    requires ValidKey(key) && Finite(x)
    ensures PrintDict(Single(key, x)) == Success(key + ("=" + PrintNumber(x)))
  {
    hide PrintNumber, ValidKey, Finite;
    assert PrintNumber(x) + "" == PrintNumber(x);
    assert key + "=" + PrintNumber(x) == key + ("=" + PrintNumber(x));
  }

  /** The whole text, from what follows the number. */
  lemma SingleParses(key: string, x: real, r: real, rest: string)
    requires ValidKey(key) && var s := PrintNumber(x);
      s != "" && (s[0] == '-' || IsDigit(s[0])) && ParseNumber(s) == Ok(Num(r), rest)
    requires rest == "" || rest[0] == 'e'
    ensures ParseDict(key + ("=" + PrintNumber(x))) == if rest == "" then Success(Single(key, r))
      else Failure(Expected(','))
  {
    var text := key + ("=" + PrintNumber(x));
    NumberMember(key, PrintNumber(x), r, rest);
    StartsWithKey(key, "=" + PrintNumber(x));
    SkipNothing(text);
    SkipNothing(rest);
    DictUnfolds(text);
    hide PrintNumber, ParseNumber, ParseMember, SkipBlanks, ParseDict, Single;
    FirstMember(text, Single(key, r), rest);
  }

  lemma FirstMember(text: string, d: Dict, rest: string)
    requires text != "" && ParseMember(text, []) == Ok(d, rest) && SkipBlanks(rest) == rest
      && (rest == "" || rest[0] != ',')
    ensures ParseMembers(text, []) == if rest == "" then Success(d) else Failure(Expected(','))
  {
    hide ParseMember, SkipBlanks;
  }

  /** A finite number comes back from the text of a dictionary if and only if it has at most three
      decimals and is below 10^21; from there on its exponent is refused. */
  lemma NumberRoundTrips(key: string, x: real)
    requires ValidKey(key) && Finite(x)
    ensures PrintDict(Single(key, x)).Success?
    ensures ParseDict(PrintDict(Single(key, x)).value) == Success(Single(key, x)) <==> Thousandths(x) && Small(x)
    ensures !Small(x) ==> ParseDict(PrintDict(Single(key, x)).value) == Failure(Expected(','))
  {
    SingleText(key, x);
    hide PrintDict, PrintNumber, ParseNumber, ParseDict, Thousandths, RoundedNumber, ValidKey, Finite;
    if Small(x) {
      NumberRounds(x, "");
      assert PrintNumber(x) + "" == PrintNumber(x);
      SingleParses(key, x, RoundedNumber(x), "");
      KeepsThousandths(x);
    } else {
      var r, rest := LargeStops(x);
      SingleParses(key, x, r, rest);
    }
  }
}
