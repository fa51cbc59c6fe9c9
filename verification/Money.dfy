/** Amounts in minor units: their text in major units, and conversion between currencies. */
module Money {
  import opened Records
  import opened Text

  datatype Error = UnknownCurrency | InvalidAmount | TooPrecise | InvalidRate | UnsafeRange

  /** Decimals of a currency, whatever the case of its code. */
  function Exponent(currency: string): Option<nat> {
    var c := Upper(currency);
    if c == "CLP" || c == "HUF" || c == "ISK" || c == "JPY" || c == "KRW" then Some(0)
    else if c == "BHD" || c == "JOD" || c == "KWD" || c == "OMR" || c == "TND" then Some(3)
    else if c == "AUD" || c == "CAD" || c == "CHF" || c == "DKK" || c == "EUR" || c == "GBP" || c == "NOK"
      || c == "SEK" || c == "USD" then Some(2)
    else None
  }

  // --- Text ---

  /** The optional minus sign, the digits before the point, and the digits after it. */
  datatype Shape = Shape(negative: bool, whole: string, fraction: string)

  function Read(value: string): Option<Shape> {
    var negative := value != "" && value[0] == '-';
    var (whole, rest) := Span(IsDigit, if negative then value[1..] else value);
    if whole == "" then None
    else if rest == "" then Some(Shape(negative, whole, ""))
    else if rest[0] != '.' then None
    else
      var (fraction, more) := Span(IsDigit, rest[1..]);
      if fraction == "" || more != "" then None else Some(Shape(negative, whole, fraction))
  }

  function Signed(negative: bool, n: nat): int {
    if negative then 0 - n else n
  }

  function FromMajor(value: string, currency: string): Result<int, Error> {
    match Exponent(currency)
    case None => Failure(UnknownCurrency)
    case Some(exp) =>
      match Read(value)
      case None => Failure(InvalidAmount)
      case Some(Shape(negative, whole, fraction)) =>
        if |fraction| > exp then Failure(TooPrecise)
        else Success(Signed(negative, Value(whole + (fraction + Zeros(exp - |fraction|)))))
  }

  function ToMajor(amount: int, currency: string): Result<string, Error> {
    match Exponent(currency)
    case None => Failure(UnknownCurrency)
    case Some(exp) =>
      var sign, abs := if amount < 0 then "-" else "", if amount < 0 then -amount else amount;
      if exp == 0 then Success(sign + Digits(abs))
      else
        var raw := PadStart(Digits(abs), exp + 1);
        PadStartValue(Digits(abs), exp + 1);
        Success(sign + raw[..|raw| - exp] + "." + raw[|raw| - exp..])
  }

  ghost predicate ShapeOk(s: Shape) {
    s.whole != "" && AllDigits(s.whole) && AllDigits(s.fraction)
  }

  function TextOf(s: Shape): string {
    (if s.negative then "-" else "") + s.whole + if s.fraction == "" then "" else "." + s.fraction
  }

  lemma ReadText(s: Shape)
    requires ShapeOk(s)
    ensures Read(TextOf(s)) == Some(s)
  {
    var point := if s.fraction == "" then "" else "." + s.fraction;
    var text := TextOf(s);
    assert s.whole[0] != '-' by {
      assert s.whole[0] in s.whole;
    }
    var body := s.whole + point;
    assert (if s.negative then text[1..] else text) == body;
    SpanOf(IsDigit, s.whole, point);
    if s.fraction != "" {
      assert point[1..] == s.fraction && s.fraction + "" == s.fraction;
      SpanOf(IsDigit, s.fraction, "");
    }
  }

  lemma BodyText(body: string, whole: string, rest: string)
    requires body == whole + rest && (rest == "" || rest[0] == '.')
    ensures body == whole + if rest == "" then "" else "." + rest[1..]
  {
    assert rest != "" ==> rest == "." + rest[1..];
  }

  /** The parts that are read, in order. */
  lemma ReadParts(value: string, body: string)
    requires Read(value).Some? && body == if value != "" && value[0] == '-' then value[1..] else value
    ensures var s := Read(value).value;
            ShapeOk(s) && (s.negative <==> value != "" && value[0] == '-') &&
            body == s.whole + if s.fraction == "" then "" else "." + s.fraction
  {
    hide Span, IsDigit;
    var (whole, rest) := Span(IsDigit, body);
    BodyText(body, whole, rest);
    if rest != "" {
      var (fraction, more) := Span(IsDigit, rest[1..]);
      assert fraction + "" == fraction;
    }
  }

  lemma ReadOnlyText(value: string)
    requires Read(value).Some?
    ensures ShapeOk(Read(value).value) && TextOf(Read(value).value) == value
  {
    var s := Read(value).value;
    var body := if value != "" && value[0] == '-' then value[1..] else value;
    ReadParts(value, body);
    hide Read, ShapeOk;
    assert value == (if s.negative then "-" else "") + body;
    var sign, point := if s.negative then "-" else "", if s.fraction == "" then "" else "." + s.fraction;
    assert sign + s.whole + point == sign + (s.whole + point);
  }

  /** What the digits of an amount say in a currency of `exp` decimals. */
  function Amount(s: Shape, exp: nat): Result<int, Error> {
    if |s.fraction| > exp then Failure(TooPrecise)
    else Success(Signed(s.negative, Value(s.whole) * Pow10(exp) + Value(s.fraction) * Pow10(exp - |s.fraction|)))
  }

  lemma DigitsJoin(s: Shape, exp: nat)
    requires |s.fraction| <= exp
    ensures Value(s.whole + (s.fraction + Zeros(exp - |s.fraction|))) == Value(s.whole) * Pow10(exp)
      + Value(s.fraction) * Pow10(exp - |s.fraction|)
  {
    hide Value;
    var zeros := Zeros(exp - |s.fraction|);
    ValueConcat(s.whole, s.fraction + zeros);
    ValueConcat(s.fraction, zeros);
    ValueZeros(exp - |s.fraction|);
  }

  /** Well-formed text is read as what its digits say, unless it has too many decimals. */
  lemma FromMajorMeans(s: Shape, currency: string)
    requires ShapeOk(s) && Exponent(currency).Some?
    ensures FromMajor(TextOf(s), currency) == Amount(s, Exponent(currency).value)
  {
    hide Exponent, Read, TextOf, Value, ShapeOk;
    ReadText(s);
    var exp := Exponent(currency).value;
    if |s.fraction| <= exp {
      DigitsJoin(s, exp);
    }
  }

  ghost predicate IsText(value: string, s: Shape) {
    ShapeOk(s) && TextOf(s) == value
  }

  /** Text is refused as malformed exactly when it is not an optional minus sign, digits, and
      possibly a point and more digits. */
  lemma InvalidMeans(value: string, currency: string)
    requires Exponent(currency).Some?
    ensures FromMajor(value, currency) == Failure(InvalidAmount) <==> !exists s :: IsText(value, s)
  {
    hide Exponent, Read, TextOf, Value, ShapeOk;
    if Read(value).Some? {
      ReadOnlyText(value);
      assert IsText(value, Read(value).value);
    }
    forall s | IsText(value, s)
      ensures Read(value) == Some(s)
    {
      ReadText(s);
    }
  }

  /** Printing any integer amount and reading it back gives the amount. */
  lemma RoundTrip(amount: int, currency: string)
    requires Exponent(currency).Some?
    ensures ToMajor(amount, currency).Success?
      && FromMajor(ToMajor(amount, currency).value, currency) == Success(amount)
  {
    hide Exponent, Read, Value, PadStart, Digits;
    var exp := Exponent(currency).value;
    var abs := if amount < 0 then -amount else amount;
    if exp == 0 {
      var s := Shape(amount < 0, Digits(abs), "");
      ReadText(s);
      assert TextOf(s) == ToMajor(amount, currency).value;
      assert Digits(abs) + ("" + Zeros(0)) == Digits(abs);
    } else {
      var raw := PadStart(Digits(abs), exp + 1);
      PadStartValue(Digits(abs), exp + 1);
      var whole, fraction := raw[..|raw| - exp], raw[|raw| - exp..];
      var s := Shape(amount < 0, whole, fraction);
      ReadText(s);
      assert TextOf(s) == ToMajor(amount, currency).value;
      assert whole + (fraction + Zeros(0)) == raw;
    }
  }

  ghost predicate Listed(codes: seq<string>, currency: string) {
    exists code :: code in codes && SameButCase(currency, code)
  }

  const WHOLE := ["CLP", "HUF", "ISK", "JPY", "KRW"]
  const HUNDREDTHS := ["AUD", "CAD", "CHF", "DKK", "EUR", "GBP", "NOK", "SEK", "USD"]
  const THOUSANDTHS := ["BHD", "JOD", "KWD", "OMR", "TND"]

  lemma ListedUpper(codes: seq<string>, currency: string)
    requires forall code :: code in codes ==> Upper(code) == code
    ensures Listed(codes, currency) <==> Upper(currency) in codes
  {
    hide Upper, SameButCase;
    CaseLeft(currency);
    forall code | code in codes
      ensures SameButCase(currency, code) <==> Upper(currency) == code
    {
      CaseMeans(currency, code);
    }
  }

  lemma UpperCodes(codes: seq<string>)
    requires codes == WHOLE || codes == HUNDREDTHS || codes == THOUSANDTHS
    ensures forall code :: code in codes ==> Upper(code) == code
  {
    forall code | code in codes
      ensures Upper(code) == code
    {
      assert |code| == 3 && forall i :: 0 <= i < 3 ==> 'A' <= code[i] <= 'Z';
    }
  }

  lemma ExponentListed(currency: string)
    ensures Exponent(currency)
         == if Listed(WHOLE, currency) then Some(0)
            else if Listed(HUNDREDTHS, currency) then Some(2)
            else if Listed(THOUSANDTHS, currency) then Some(3)
            else None
  {
    hide Upper, Listed;
    UpperCodes(WHOLE);
    UpperCodes(HUNDREDTHS);
    UpperCodes(THOUSANDTHS);
    ListedUpper(WHOLE, currency);
    ListedUpper(HUNDREDTHS, currency);
    ListedUpper(THOUSANDTHS, currency);
  }

  /** How many minor units the text of one major unit is. */
  lemma OneUnit(currency: string)
    ensures FromMajor("1", currency)
         == if Listed(WHOLE, currency) then Success(1)
            else if Listed(HUNDREDTHS, currency) then Success(100)
            else if Listed(THOUSANDTHS, currency) then Success(1000)
            else Failure(UnknownCurrency)
  {
    hide Exponent, Upper, Listed, Read;
    ExponentListed(currency);
    if Exponent(currency).Some? {
      var s := Shape(false, "1", "");
      assert TextOf(s) == "1";
      FromMajorMeans(s, currency);
      UnitAmount(Exponent(currency).value);
    }
  }

  lemma UnitAmount(exp: nat)
    requires exp == 0 || exp == 2 || exp == 3
    ensures Amount(Shape(false, "1", ""), exp) == Success(if exp == 0 then 1 else if exp == 2 then 100 else 1000)
  {
    assert "1"[..0] == "" && Value("") == 0 && Value("1") == 1;
    assert Pow10(0) == 1 && Pow10(1) == 10 && Pow10(2) == 100 && Pow10(3) == 1000;
  }

  /** Amounts are printed with all decimals of the currency, without leading zeros, and with a minus
      sign exactly when negative. */
  lemma ToMajorMeans(amount: int, currency: string) returns (s: Shape)
    requires Exponent(currency).Some?
    ensures ToMajor(amount, currency) == Success(TextOf(s)) && ShapeOk(s)
    ensures Amount(s, Exponent(currency).value) == Success(amount) && |s.fraction| == Exponent(currency).value
    ensures (s.negative <==> amount < 0) && (|s.whole| == 1 || s.whole[0] != '0')
  {
    hide Exponent, Read, Value, PadStart, Digits;
    var exp := Exponent(currency).value;
    RoundTrip(amount, currency);
    var abs := if amount < 0 then -amount else amount;
    if exp == 0 {
      s := Shape(amount < 0, Digits(abs), "");
    } else {
      var raw := PadStart(Digits(abs), exp + 1);
      PadStartValue(Digits(abs), exp + 1);
      PadStartFirst(Digits(abs), exp + 1);
      s := Shape(amount < 0, raw[..|raw| - exp], raw[|raw| - exp..]);
      assert s.fraction != "";
    }
    assert TextOf(s) == ToMajor(amount, currency).value;
    FromMajorMeans(s, currency);
  }

  lemma PadStartFirst(s: string, width: nat)
    ensures |PadStart(s, width)| == if |s| > width then |s| else width
    ensures |s| > width ==> PadStart(s, width) == s
  {
  }

  // --- Rounding and conversion, over exact numbers ---

  function BankersRound(value: real): int {
    var floor := value.Floor;
    var fraction := value - floor as real;
    if fraction < 0.5 then floor
    else if fraction > 0.5 then floor + 1
    else if floor % 2 == 0 then floor else floor + 1
  }

  function Abs(x: real): real {
    if x < 0.0 then -x else x
  }

  /** The integer nearest to a number; of two equally near ones, the even one. */
  predicate NearestEven(value: real, n: int) {
    Abs(n as real - value) < 0.5 || (Abs(n as real - value) == 0.5 && n % 2 == 0)
  }

  lemma RoundsToNearestEven(value: real, n: int)
    ensures n == BankersRound(value) <==> NearestEven(value, n)
  {
    var floor := value.Floor;
    if NearestEven(value, n) {
      assert floor - 1 < n < floor + 2;
    }
  }

  lemma RoundMonotone(u: real, v: real)
    requires u <= v
    ensures BankersRound(u) <= BankersRound(v)
  {
    var m, n := BankersRound(u), BankersRound(v);
    RoundsToNearestEven(u, m);
    RoundsToNearestEven(v, n);
  }

  /** Ties of negative amounts go to even as well: rounding commutes with the sign. */
  lemma RoundSymmetric(v: real)
    ensures BankersRound(-v) == -BankersRound(v)
  {
    var n := BankersRound(v);
    RoundsToNearestEven(v, n);
    RoundsToNearestEven(-v, -n);
  }

  function TenTo(k: int): (r: real)
    ensures r > 0.0
  {
    if k >= 0 then Pow10(k) as real else 1.0 / Pow10(-k) as real
  }

  lemma TenToInverse(k: int)
    ensures TenTo(k) * TenTo(-k) == 1.0
  {
  }

  const MAX_SAFE := 9007199254740991

  function Truncate(x: real): int {
    if x >= 0.0 then x.Floor else -(-x).Floor
  }

  /** The exact converted amount, before rounding. */
  function Scaled(amount: int, srcExp: nat, rate: real, dstExp: nat): real {
    amount as real * rate * TenTo(dstExp - srcExp)
  }

  function MulRate(amount: int, src: string, rate: real, dst: string): Result<int, Error> {
    if rate < 0.0 then Failure(InvalidRate)
    else match Exponent(src)
      case None => Failure(UnknownCurrency)
      case Some(srcExp) =>
        match Exponent(dst)
        case None => Failure(UnknownCurrency)
        case Some(dstExp) =>
          var scaled := Scaled(amount, srcExp, rate, dstExp);
          if -MAX_SAFE <= Truncate(scaled) <= MAX_SAFE then Success(BankersRound(scaled)) else Failure(UnsafeRange)
  }

  /** A conversion is within half a minor unit of the exact amount, and there is no better one. */
  lemma ConversionNearest(amount: int, src: string, rate: real, dst: string)
    requires MulRate(amount, src, rate, dst).Success?
    ensures NearestEven(Scaled(amount, Exponent(src).value, rate, Exponent(dst).value),
      MulRate(amount, src, rate, dst).value)
  {
    hide Exponent, Scaled, BankersRound;
    RoundsToNearestEven(Scaled(amount, Exponent(src).value, rate, Exponent(dst).value),
      MulRate(amount, src, rate, dst).value);
  }

  lemma MulOrder(a: real, b: real, k: real)
    requires a <= b && k >= 0.0
    ensures a * k <= b * k
  {
  }

  lemma ConversionMonotone(a: int, b: int, src: string, rate: real, dst: string)
    requires a <= b && MulRate(a, src, rate, dst).Success? && MulRate(b, src, rate, dst).Success?
    ensures MulRate(a, src, rate, dst).value <= MulRate(b, src, rate, dst).value
  {
    hide Exponent, BankersRound, TenTo;
    var srcExp: int, dstExp: int := Exponent(src).value, Exponent(dst).value;
    MulOrder(a as real, b as real, rate);
    MulOrder(a as real * rate, b as real * rate, TenTo(dstExp - srcExp));
    RoundMonotone(Scaled(a, srcExp, rate, dstExp), Scaled(b, srcExp, rate, dstExp));
  }

  /** Dividing a number near `a * s` by a factor `s` of at least one lands nearer to `a`. */
  lemma Shrinks(a: real, m: real, s: real)
    requires s >= 1.0 && Abs(m - a * s) <= 0.5
    ensures Abs(m * (1.0 / s) - a) <= Abs(m - a * s) && (s > 1.0 ==> Abs(m * (1.0 / s) - a) < 0.5)
  {
    var t := 1.0 / s;
    assert 0.0 < t <= 1.0 && s * t == 1.0;
    assert m * t - a == (m - a * s) * t by {
      assert (a * s) * t == a * (s * t);
      assert (m - a * s) * t == m * t - (a * s) * t;
    }
    var d := m - a * s;
    if d >= 0.0 {
      MulOrder(t, 1.0, d);
    } else {
      MulOrder(t, 1.0, -d);
    }
    if s > 1.0 {
      assert t < 1.0;
      Strict(d, t);
    }
  }

  lemma Strict(d: real, t: real)
    requires Abs(d) <= 0.5 && 0.0 < t < 1.0
    ensures Abs(d * t) < 0.5
  {
    if d > 0.0 {
      assert d * t < d * 1.0;
    } else if d < 0.0 {
      assert -d * t < -d * 1.0;
    }
  }

  lemma Associate(a: real, b: real, c: real)
    ensures a * b * c == a * (b * c)
  {
  }

  lemma BackNearest(amount: int, exact: real, s: real, m: int)
    requires s >= 1.0 && exact == amount as real * s && m == BankersRound(exact)
    ensures NearestEven(m as real * (1.0 / s), amount)
  {
    hide BankersRound;
    RoundsToNearestEven(exact, m);
    if s == 1.0 {
      RoundsToNearestEven(amount as real, amount);
    } else {
      Shrinks(amount as real, m as real, s);
    }
  }

  lemma BackExactly(amount: int, srcExp: nat, rate: real, dstExp: nat)
    requires rate > 0.0 && rate * TenTo(dstExp - srcExp) >= 1.0
    ensures var there := BankersRound(Scaled(amount, srcExp, rate, dstExp));
            NearestEven(Scaled(there, dstExp, 1.0 / rate, srcExp), amount)
  {
    hide BankersRound, TenTo;
    var k: int := dstExp - srcExp;
    var s := rate * TenTo(k);
    var exact := Scaled(amount, srcExp, rate, dstExp);
    var m := BankersRound(exact);
    Associate(amount as real, rate, TenTo(k));
    TenToInverse(k);
    Inverse(rate, TenTo(k), TenTo(-k), m as real);
    hide Scaled;
    BackNearest(amount, exact, s, m);
  }

  /** Growing an amount to a safe one means it was safe before. */
  lemma StaysSafe(amount: int, srcExp: nat, rate: real, dstExp: nat)
    requires rate > 0.0 && rate * TenTo(dstExp - srcExp) >= 1.0
    requires -MAX_SAFE <= Truncate(Scaled(amount, srcExp, rate, dstExp)) <= MAX_SAFE
    ensures -MAX_SAFE <= amount <= MAX_SAFE
  {
    hide TenTo;
    var s := rate * TenTo(dstExp - srcExp);
    var exact := Scaled(amount, srcExp, rate, dstExp);
    assert exact == s * amount as real;
    if amount >= 0 {
      MulOrder(1.0, s, amount as real);
    } else {
      MulOrder(1.0, s, -(amount as real));
      assert s * -(amount as real) == -exact;
    }
  }

  /** Converting to units that are no coarser, and back at the inverse rate, loses nothing. */
  lemma ThereAndBack(amount: int, src: string, rate: real, dst: string)
    requires rate > 0.0 && MulRate(amount, src, rate, dst).Success?
    requires rate * TenTo(Exponent(dst).value - Exponent(src).value) >= 1.0
    ensures MulRate(MulRate(amount, src, rate, dst).value, dst, 1.0 / rate, src) == Success(amount)
  {
    hide Exponent, BankersRound, TenTo, Scaled;
    var there := MulRate(amount, src, rate, dst).value;
    BackExactly(amount, Exponent(src).value, rate, Exponent(dst).value);
    StaysSafe(amount, Exponent(src).value, rate, Exponent(dst).value);
    var back := Scaled(there, Exponent(dst).value, 1.0 / rate, Exponent(src).value);
    RoundsToNearestEven(back, amount);
    assert Truncate(back) <= MAX_SAFE;
  }

  lemma Inverse(rate: real, ten: real, tenth: real, m: real)
    requires rate > 0.0 && ten > 0.0 && ten * tenth == 1.0
    ensures m * (1.0 / rate) * tenth == m * (1.0 / (rate * ten))
  {
    var r := 1.0 / rate;
    assert r * rate == 1.0;
    assert (r * tenth) * (rate * ten) == (r * rate) * (ten * tenth);
    assert r * tenth == 1.0 / (rate * ten);
    assert m * r * tenth == m * (r * tenth);
  }

  /** Amount times rate, in the units of the other currency, is what is rounded; it must not leave the
      safe integers. */
  lemma ConversionMeans(amount: int, src: string, rate: real, dst: string, exact: real)
    requires Exponent(src).Some? && Exponent(dst).Some? && rate >= 0.0
    requires exact * Pow10(Exponent(src).value) as real == amount as real * rate * Pow10(Exponent(dst).value) as real
    ensures MulRate(amount, src, rate, dst)
         == if -9007199254740992.0 < exact < 9007199254740992.0 then Success(BankersRound(exact))
            else Failure(UnsafeRange)
  {
    hide Exponent, BankersRound, TenTo;
    ExactIs(amount, Exponent(src).value, rate, Exponent(dst).value, exact);
  }

  lemma TenToEither(n: int)
    requires n >= 0
    ensures TenTo(n) == Pow10(n) as real && TenTo(-n) == 1.0 / Pow10(n) as real
  {
    assert Pow10(0) == 1;
    hide Pow10;
  }

  lemma TenToMeans(srcExp: nat, dstExp: nat)
    ensures TenTo(dstExp - srcExp) * Pow10(srcExp) as real == Pow10(dstExp) as real
  {
    hide Pow10, TenTo;
    if dstExp >= srcExp {
      TenToEither(dstExp - srcExp);
      Pow10Add(dstExp - srcExp, srcExp);
    } else {
      var n: int := srcExp - dstExp;
      TenToEither(n);
      Pow10Add(n, dstExp);
      Divided(Pow10(n) as real, Pow10(dstExp) as real);
      assert TenTo(-n) == 1.0 / Pow10(n) as real;
    }
  }

  lemma Divided(k: real, x: real)
    requires k > 0.0
    ensures (1.0 / k) * (k * x) == x
  {
    assert (1.0 / k) * k == 1.0;
    Associate(1.0 / k, k, x);
  }

  lemma {:induction false} Pow10Add(a: nat, b: nat)
    ensures Pow10(a) as real * Pow10(b) as real == Pow10(a + b) as real
  {
    if a > 0 {
      Pow10Add(a - 1, b);
      Associate(10.0, Pow10(a - 1) as real, Pow10(b) as real);
    }
  }

  lemma ExactIs(amount: int, srcExp: nat, rate: real, dstExp: nat, exact: real)
    requires exact * Pow10(srcExp) as real == amount as real * rate * Pow10(dstExp) as real
    ensures exact == Scaled(amount, srcExp, rate, dstExp)
  {
    TenToMeans(srcExp, dstExp);
    hide TenTo, Pow10;
    var x, t, p := amount as real * rate, TenTo(dstExp - srcExp), Pow10(srcExp) as real;
    assert x * (t * p) == (x * t) * p;
    assert p > 0.0;
    Cancel(exact, x * t, p);
  }

  lemma Cancel(a: real, b: real, p: real)
    requires a * p == b * p && p > 0.0
    ensures a == b
  {
    assert (a - b) * p == 0.0;
  }

  /** What else a conversion refuses. */
  lemma ConversionRefuses(amount: int, src: string, rate: real, dst: string)
    ensures MulRate(amount, src, rate, dst) == Failure(InvalidRate) <==> rate < 0.0
    ensures MulRate(amount, src, rate, dst) == Failure(UnknownCurrency) <==>
        rate >= 0.0 && (FromMajor("1", src) == Failure(UnknownCurrency)
          || FromMajor("1", dst) == Failure(UnknownCurrency))
  {
    hide Exponent, Read, Scaled, Value;
  }
}
