/** The card number check: what it detects and what it cannot. */
module Luhn {
  import opened Text

  function Code(c: char): int {
    c as int - '0' as int
  }

  /** What a character adds: itself, or its double with nine taken off when that exceeds nine. */
  function Weight(c: char, doubled: bool): int {
    if !doubled then Code(c) else if 2 * Code(c) > 9 then 2 * Code(c) - 9 else 2 * Code(c)
  }

  /** Every second character counted from the right is doubled. */
  function Sum(pan: string): int {
    if pan == "" then 0 else Weight(pan[0], |pan| % 2 == 0) + Sum(pan[1..])
  }

  ghost predicate Valid(pan: string) {
    Sum(pan) % 10 == 0
  }

  method LuhnValid(pan: string) returns (valid: bool)
    ensures valid <==> Valid(pan)
  {
    var sum, doubleDigit := 0, false;
    var index := |pan| - 1;
    while index >= 0
      invariant -1 <= index < |pan|
      invariant sum == Sum(pan[index + 1..]) && doubleDigit == ((|pan| - 1 - index) % 2 == 1)
    {
      assert pan[index..][1..] == pan[index + 1..];
      var digit := pan[index] as int - 48;
      if doubleDigit {
        digit := digit * 2;
        if digit > 9 {
          digit := digit - 9;
        }
      }
      sum := sum + digit;
      doubleDigit := !doubleDigit;
      index := index - 1;
    }
    valid := sum % 10 == 0;
  }

  /** Changing one character changes the sum by the difference of the weights. */
  lemma {:induction false} SumUpdate(pan: string, i: nat, c: char)
    requires i < |pan|
    ensures Sum(pan[i := c]) == Sum(pan) - Weight(pan[i], (|pan| - i) % 2 == 0) + Weight(c, (|pan| - i) % 2 == 0)
  {
    hide Weight;
    var pan' := pan[i := c];
    if i == 0 {
      assert pan'[1..] == pan[1..];
    } else {
      assert pan'[1..] == pan[1..][i - 1 := c];
      SumUpdate(pan[1..], i - 1, c);
    }
  }

  /** Weights of different digits differ modulo ten, doubled or not. */
  lemma WeightsDiffer(a: char, b: char, doubled: bool)
    requires IsDigit(a) && IsDigit(b) && a != b
    ensures (Weight(a, doubled) - Weight(b, doubled)) % 10 != 0
  {
    assert 0 <= Weight(a, doubled) <= 9 && 0 <= Weight(b, doubled) <= 9 && Weight(a, doubled) != Weight(b, doubled);
  }

  /** Every single-digit substitution in a valid number makes it invalid. */
  lemma SubstitutionDetected(pan: string, i: nat, c: char)
    requires Valid(pan) && i < |pan| && IsDigit(pan[i]) && IsDigit(c) && c != pan[i]
    ensures !Valid(pan[i := c])
  {
    hide Sum, Weight;
    SumUpdate(pan, i, c);
    WeightsDiffer(c, pan[i], (|pan| - i) % 2 == 0);
  }

  /** Swapping neighbours leaves the total unchanged modulo ten only for equal digits and for 0 with 9. */
  lemma SwapWeights(a: char, b: char, doubled: bool)
    requires IsDigit(a) && IsDigit(b)
    ensures (Weight(b, doubled) + Weight(a, !doubled) - Weight(a, doubled) - Weight(b, !doubled)) % 10 == 0
       <==> a == b || (a == '0' && b == '9') || (a == '9' && b == '0')
  {
    var x, y := Code(a), Code(b);
    var d := Weight(b, doubled) + Weight(a, !doubled) - Weight(a, doubled) - Weight(b, !doubled);
    var e := if doubled then y - x else x - y;
    assert -9 <= e <= 9 && d == e - (if doubled then (if y > 4 then 9 else 0) - (if x > 4 then 9 else 0)
                                     else (if x > 4 then 9 else 0) - (if y > 4 then 9 else 0));
    assert -10 < d < 10;
  }

  /** Swapping two neighbouring digits of a valid number goes unnoticed exactly when they are
      equal or are 0 and 9. */
  lemma TranspositionDetected(pan: string, i: nat)
    requires Valid(pan) && i + 1 < |pan| && IsDigit(pan[i]) && IsDigit(pan[i + 1])
    ensures var a, b := pan[i], pan[i + 1];
            Valid(pan[i := b][i + 1 := a]) <==> a == b || (a == '0' && b == '9') || (a == '9' && b == '0')
  {
    hide Sum, Weight;
    var a, b := pan[i], pan[i + 1];
    SumUpdate(pan, i, b);
    SumUpdate(pan[i := b], i + 1, a);
    SwapWeights(a, b, (|pan| - i) % 2 == 0);
    assert ((|pan| - (i + 1)) % 2 == 0) == !((|pan| - i) % 2 == 0);
  }

  /** Every body of digits has exactly one check digit. */
  lemma OneCheckDigit(body: string, c: char)
    requires AllDigits(body) && IsDigit(c)
    ensures var check := Digit((10 - Sum(body + "0") % 10) % 10); Valid(body + [c]) <==> c == check
  {
    var check := Digit((10 - Sum(body + "0") % 10) % 10);
    hide Sum, Weight;
    var zero := body + "0";
    assert zero[|body| := c] == body + [c] && zero[|body| := check] == body + [check];
    SumUpdate(zero, |body|, c);
    Undoubled(c);
    Undoubled('0');
  }

  lemma Undoubled(c: char)
    ensures Weight(c, false) == Code(c)
  {
  }

  /** The number written with every second digit from the right doubled, as 16 for an 8. */
  function Doubled(pan: string): string
    requires AllDigits(pan)
  {
    if pan == "" then ""
    else (if |pan| % 2 == 0 then Digits(2 * Value(pan[..1])) else pan[..1]) + Doubled(pan[1..])
  }

  /** The plain sum of the digits of a text. */
  function DigitSum(s: string): nat {
    if s == "" then 0 else Value(s[..1]) + DigitSum(s[1..])
  }

  lemma {:induction false} DigitSumConcat(a: string, b: string)
    ensures DigitSum(a + b) == DigitSum(a) + DigitSum(b)
  {
    hide Value;
    if a == "" {
      assert a + b == b;
    } else {
      assert (a + b)[..1] == a[..1] && (a + b)[1..] == a[1..] + b;
      DigitSumConcat(a[1..], b);
    }
  }

  lemma OneDigit(c: char)
    requires IsDigit(c)
    ensures Value([c]) == DigitSum([c]) == Code(c)
  {
    assert [c][..0] == "" && [c][..1] == [c] && [c][1..] == "";
  }

  lemma WeightMeans(c: char)
    requires IsDigit(c)
    ensures DigitSum([c]) == Weight(c, false) && DigitSum(Digits(2 * Code(c))) == Weight(c, true)
  {
    OneDigit(c);
    var n := 2 * Code(c);
    OneDigit(Digit(n % 10));
    if n >= 10 {
      OneDigit(Digit(n / 10));
      assert Digits(n / 10) == [Digit(n / 10)];
      DigitSumConcat([Digit(n / 10)], [Digit(n % 10)]);
    }
  }

  /** The weighted sum is the sum of the digits once every second one is doubled. */
  lemma {:induction false} SumMeans(pan: string)
    requires AllDigits(pan)
    ensures Sum(pan) == DigitSum(Doubled(pan))
  {
    if pan != "" {
      hide Digits, Value, Weight;
      OneDigit(pan[0]);
      WeightMeans(pan[0]);
      assert pan[..1] == [pan[0]];
      DigitSumConcat(if |pan| % 2 == 0 then Digits(2 * Value(pan[..1])) else pan[..1], Doubled(pan[1..]));
      SumMeans(pan[1..]);
    }
  }
}
