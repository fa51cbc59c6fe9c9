/** Parsing undoes printing for structured-field dictionaries. */
module SfRoundTrip {
  import opened Records
  import opened Text
  import opened StructuredFields
  import Base64

  // --- What can be printed, and the form in which the parser gives it back ---

  /** Numbers that three decimals can express; every integer is one. */
  ghost predicate Thousandths(x: real) {
    (x * 1000.0).Floor as real == x * 1000.0
  }

  /** Numbers that are printed without an exponent. */
  ghost predicate Small(x: real) {
    -EXPONENT_FROM < x < EXPONENT_FROM
  }

  ghost predicate PrintableBare(b: BareItem) {
    match b
    case Num(x) => Thousandths(x) && Small(x)
    case Token(t) => ValidToken(t)
    case _ => true
  }

  ghost predicate PrintableParams(ps: Params) {
    Distinct(ps) && forall i :: 0 <= i < |ps| ==> ValidKey(ps[i].0) && PrintableBare(ps[i].1)
  }

  ghost predicate PrintableItem(i: Item) {
    PrintableBare(i.value) && PrintableParams(i.params.GetOr([]))
  }

  ghost predicate PrintableMember(m: Member) {
    match m
    case Plain(item) => PrintableItem(item)
    case InnerList(items, params) =>
      (forall i :: 0 <= i < |items| ==> PrintableItem(items[i])) && PrintableParams(params.GetOr([]))
  }

  ghost predicate PrintableDict(d: Dict) {
    Distinct(d) && forall i :: 0 <= i < |d| ==> ValidKey(d[i].0) && PrintableMember(d[i].1)
  }

  /** Items read back have no parameter record when they have no parameters. */
  function ParsedItem(i: Item): Item {
    Item(i.value, if i.params.GetOr([]) == [] then None else i.params)
  }

  function ParsedItems(items: seq<Item>): (r: seq<Item>)
    ensures |r| == |items|
  {
    seq(|items|, i requires 0 <= i < |items| => ParsedItem(items[i]))
  }

  /** Inner lists and bare `true` members read back always have a parameter record. */
  function ParsedMember(m: Member): Member {
    match m
    case InnerList(items, params) => InnerList(ParsedItems(items), Some(params.GetOr([])))
    case Plain(item) => if item.value == Bool(true) then Plain(Item(Bool(true), Some(item.params.GetOr([]))))
      else Plain(ParsedItem(item))
  }

  function ParsedDict(d: Dict): (r: Dict)
    ensures |r| == |d|
  {
    seq(|d|, i requires 0 <= i < |d| => (d[i].0, ParsedMember(d[i].1)))
  }

  /** What can follow a printed value; none of these characters continues a key, token or number. */
  ghost predicate Stops(rest: string) {
    rest == "" || rest[0] == ' ' || rest[0] == ',' || rest[0] == ')' || rest[0] == ';'
  }

  /** How a printed item begins: with nothing the parser would skip or take for a delimiter. */
  ghost predicate Opens(text: string) {
    text != "" && !Blank(text[0]) && text[0] != ')' && text[0] != ';' && text[0] != '(' && text[0] != '='
  }

  // --- Strings and numbers ---

  lemma StringStep(c: char, tail: string, out: string)
    ensures (c == '\\' || c == '"') ==> ParseStringTail(['\\', c] + tail, out) == ParseStringTail(tail, out + [c])
    ensures c != '\\' && c != '"' ==> ParseStringTail([c] + tail, out) == ParseStringTail(tail, out + [c])
  {
    assert (['\\', c] + tail)[2..] == tail && ([c] + tail)[1..] == tail;
  }

  lemma EscapeCons(s: string, rest: string)
    requires s != ""
    ensures EscapeString(s) + rest == (if s[0] == '\\' || s[0] == '"' then ['\\', s[0]] else [s[0]])
      + (EscapeString(s[1..]) + rest)
  {
  }

  lemma StringEnd(out: string, rest: string)
    requires StartsWith(rest, '"')
    ensures ParseStringTail(EscapeString("") + rest, out) == Ok(out + "", rest[1..])
  {
    assert EscapeString("") + rest == rest && out + "" == out;
  }

  lemma {:induction false} StringTail(s: string, out: string, rest: string)
    requires StartsWith(rest, '"')
    ensures ParseStringTail(EscapeString(s) + rest, out) == Ok(out + s, rest[1..])
  {
    hide ParseStringTail, EscapeString;
    if s == "" {
      StringEnd(out, rest);
    } else {
      StringTail(s[1..], out + [s[0]], rest);
      EscapeCons(s, rest);
      StringStep(s[0], EscapeString(s[1..]) + rest, out);
      assert out + [s[0]] + s[1..] == out + s;
    }
  }

  lemma TenTimes(n: nat, k: nat)
    ensures 10 * (n * Pow10(k)) == n * Pow10(k + 1)
  {
  }

  lemma {:induction false} TrimmedZeros(s: string)
    requires AllDigits(s)
    ensures |TrimZeros(s)| <= |s| && AllDigits(TrimZeros(s))
    ensures Value(s) == Value(TrimZeros(s)) * Pow10(|s| - |TrimZeros(s)|)
  {
    if s != "" && s[|s| - 1] == '0' {
      var t := s[..|s| - 1];
      TrimmedZeros(t);
      assert Value(s) == 10 * Value(t) && TrimZeros(s) == TrimZeros(t);
      hide Value, TrimZeros;
      TenTimes(Value(TrimZeros(t)), |t| - |TrimZeros(t)|);
    }
  }

  lemma SameFraction(whole: nat, fraction: nat, places: nat)
    requires places <= 3
    ensures (whole * Pow10(places) + fraction) as real / Pow10(places) as real
         == (whole * 1000 + fraction * Pow10(3 - places)) as real / 1000.0
  {
    assert Pow10(0) == 1 && Pow10(1) == 10 && Pow10(2) == 100 && Pow10(3) == 1000;
  }

  /** `whole.fraction`, with the zeros trimmed, still stands for `digits` thousandths. */
  lemma TrimmedFraction(digits: string, whole: string, last: string)
    requires AllDigits(digits) && |last| == 3 && digits == whole + last
    ensures AllDigits(whole + TrimZeros(last))
    ensures Value(whole + TrimZeros(last)) as real / Pow10(|TrimZeros(last)|) as real == Value(digits) as real / 1000.0
  {
    assert AllDigits(last) by { assert forall c :: c in last ==> c in digits; }
    TrimmedZeros(last);
    ValueConcat(whole, last);
    ValueConcat(whole, TrimZeros(last));
    SameFraction(Value(whole), Value(TrimZeros(last)), |TrimZeros(last)|);
    assert Pow10(0) == 1 && Pow10(1) == 10 && Pow10(2) == 100 && Pow10(3) == 1000;
  }

  lemma AllDigitsParts(a: string, b: string)
    requires AllDigits(a + b)
    ensures AllDigits(a) && AllDigits(b)
  {
    assert forall c :: c in a ==> c in a + b;
    assert forall c :: c in b ==> c in a + b;
  }

  lemma ThousandthsText(n: nat) returns (whole: string, fraction: string)
    ensures whole != "" && AllDigits(whole) && AllDigits(fraction)
    ensures NumberOf(false, whole, fraction) == n as real / 1000.0
    ensures PrintThousandths(n) == WithPoint(whole, fraction)
  {
    hide AllDigits, PadStart, Digits, TrimZeros, Value, Pow10, WithPoint;
    var digits := PadStart(Digits(n), 4);
    PadStartValue(Digits(n), 4);
    var last := digits[|digits| - 3..];
    whole, fraction := digits[..|digits| - 3], TrimZeros(last);
    TrimmedFraction(digits, whole, last);
    AllDigitsParts(whole, fraction);
  }

  lemma WholeText(n: nat)
    ensures NumberOf(false, Digits(n), "") == n as real && AllDigits("") && WithPoint(Digits(n), "") == Digits(n)
  {
    assert Digits(n) + "" == Digits(n);
    assert Pow10(0) == 1;
  }

  lemma RoundedExactly(m: real)
    requires m >= 0.0 && Thousandths(m)
    ensures (m * 1000.0 + 0.5).Floor as real / 1000.0 == m
  {
    var k := (m * 1000.0).Floor;
    assert m * 1000.0 + 0.5 == k as real + 0.5;
    assert (k as real + 0.5).Floor == k;
  }

  /** What printing keeps of a number: itself when whole, otherwise the nearest thousandth. */
  function Rounded(m: real): real {
    if m.Floor as real == m then m else (m * 1000.0 + 0.5).Floor as real / 1000.0
  }

  function RoundedNumber(x: real): real {
    if x < 0.0 then -Rounded(-x) else Rounded(x)
  }

  lemma MagnitudeText(m: real) returns (whole: string, fraction: string)
    requires 0.0 <= m < EXPONENT_FROM
    ensures whole != "" && AllDigits(whole) && AllDigits(fraction)
    ensures NumberOf(false, whole, fraction) == Rounded(m) && PrintMagnitude(m) == WithPoint(whole, fraction)
  {
    hide AllDigits, NumberOf, Digits, PrintThousandths, WithPoint;
    if m.Floor as real == m {
      whole, fraction := Digits(m.Floor), "";
      WholeText(m.Floor);
    } else {
      whole, fraction := ThousandthsText((m * 1000.0 + 0.5).Floor);
    }
  }

  /** What may follow a number: nothing that continues it. */
  ghost predicate EndsNumber(rest: string) {
    rest == "" || (!IsDigit(rest[0]) && rest[0] != '.')
  }

  /** `ParseNumber` reads back sign, whole part and fraction as they were written. */
  lemma NumberParts(negative: bool, whole: string, fraction: string, rest: string)
    requires whole != "" && AllDigits(whole) && AllDigits(fraction) && EndsNumber(rest)
      && Finite(NumberOf(negative, whole, fraction))
    ensures var s := (if negative then "-" + WithPoint(whole, fraction) else WithPoint(whole, fraction)) + rest;
            s != "" && (s[0] == '-' || IsDigit(s[0]))
              && ParseNumber(s) == Ok(Num(NumberOf(negative, whole, fraction)), rest)
  {
    hide NumberOf, Value, Finite;
    var text := WithPoint(whole, fraction);
    var s := (if negative then "-" + text else text) + rest;
    var tail := (if fraction == "" then "" else "." + fraction) + rest;
    assert text + rest == whole + tail;
    assert s == if negative then "-" + (whole + tail) else whole + tail;
    assert (if negative then s[1..] else s) == whole + tail;
    assert s[0] == if negative then '-' else whole[0];
    SpanOf(IsDigit, whole, tail);
    if fraction == "" {
      assert tail == rest;
    } else {
      assert tail[1..] == fraction + rest;
      SpanOf(IsDigit, fraction, rest);
    }
    hide Span, WithPoint;
  }

  lemma SmallFinite(x: real)
    requires Small(x)
    ensures Finite(x) && Finite(RoundedNumber(x))
  {
    var m := if x < 0.0 then -x else x;
    assert (m * 1000.0 + 0.5).Floor as real <= m * 1000.0 + 0.5;
    assert 0.0 <= Rounded(m) <= EXPONENT_FROM + 1.0;
  }

  lemma NegatedThousandths(x: real)
    requires Thousandths(x)
    ensures Thousandths(-x)
  {
    var k := (x * 1000.0).Floor;
    assert -x * 1000.0 == (-k) as real;
  }

  lemma NumberText(x: real) returns (whole: string, fraction: string)
    requires Small(x)
    ensures whole != "" && AllDigits(whole) && AllDigits(fraction)
      && NumberOf(x < 0.0, whole, fraction) == RoundedNumber(x)
    ensures PrintNumber(x) == if x < 0.0 then "-" + WithPoint(whole, fraction) else WithPoint(whole, fraction)
  {
    hide PrintMagnitude, WithPoint, AllDigits, NumberOf, Rounded;
    whole, fraction := MagnitudeText(if x < 0.0 then -x else x);
    SignedNumber(whole, fraction);
  }

  /** A number printed without an exponent is read back as what printing keeps of it. */
  lemma NumberRounds(x: real, rest: string)
    requires Small(x) && EndsNumber(rest)
    ensures var s := PrintNumber(x) + rest;
            s != "" && (s[0] == '-' || IsDigit(s[0])) && ParseNumber(s) == Ok(Num(RoundedNumber(x)), rest)
  {
    hide ParseNumber, PrintMagnitude, PrintNumber, WithPoint, AllDigits, EndsNumber, NumberOf, Rounded, RoundedNumber,
      Finite;
    SmallFinite(x);
    var whole, fraction := NumberText(x);
    NumberParts(x < 0.0, whole, fraction, rest);
  }

  lemma KeepsThousandths(x: real)
    ensures RoundedNumber(x) == x <==> Thousandths(x)
  {
    var m := if x < 0.0 then -x else x;
    if Thousandths(x) {
      NegatedThousandths(x);
      RoundedExactly(m);
    } else if m.Floor as real == m {
      WholeThousandths(m.Floor);
      NegatedThousandths(m);
      assert false;
    } else {
      var k := (m * 1000.0 + 0.5).Floor;
      if k as real / 1000.0 == m {
        assert m * 1000.0 == k as real && (k as real).Floor == k;
        assert Thousandths(m);
        NegatedThousandths(m);
      }
    }
  }

  lemma WholeThousandths(n: int)
    ensures Thousandths(n as real)
  {
    var k := n * 1000;
    assert k as real == n as real * 1000.0;
    assert (k as real).Floor == k;
  }

  lemma NumberBack(x: real, rest: string)
    requires Thousandths(x) && Small(x) && Stops(rest)
    ensures var s := PrintNumber(x) + rest;
            s != "" && (s[0] == '-' || IsDigit(s[0])) && ParseNumber(s) == Ok(Num(x), rest)
  {
    NumberRounds(x, rest);
    KeepsThousandths(x);
    hide RoundedNumber, PrintNumber, ParseNumber, Thousandths;
  }

  lemma SignedNumber(whole: string, fraction: string)
    ensures NumberOf(true, whole, fraction) == -NumberOf(false, whole, fraction)
  {
  }

  lemma NumberOpens(x: real)
    requires Thousandths(x) && Small(x)
    ensures Opens(PrintNumber(x))
  {
    NumberBack(x, "");
    hide ParseNumber, PrintNumber;
    assert PrintNumber(x) + "" == PrintNumber(x);
  }

  // --- Bare items ---

  lemma StrBack(text: string, rest: string)
    ensures ParseBare("\"" + EscapeString(text) + "\"" + rest) == Ok(Str(text), rest)
  {
    var s := "\"" + EscapeString(text) + "\"" + rest;
    assert s[1..] == EscapeString(text) + ("\"" + rest);
    StringTail(text, "", "\"" + rest);
    assert "" + text == text;
    hide ParseNumber, ParseToken, ParseBytes, ParseBool, ParseStringTail;
  }

  lemma BytesBack(bytes: seq<Byte>, rest: string)
    ensures ParseBare(":" + Base64.Encode(bytes) + ":" + rest) == Ok(Bytes(bytes), rest)
  {
    hide ParseNumber, ParseToken, ParseBool, ParseStringTail;
    var encoded := Base64.Encode(bytes);
    var s := ":" + encoded + ":" + rest;
    assert s[1..] == encoded + (":" + rest);
    SpanOf(NotColon, encoded, ":" + rest);
    assert (":" + rest)[1..] == rest;
    Base64.DecodeEncode(bytes);
    hide Base64.Encode, Base64.Decode;
  }

  lemma BoolBack(flag: bool, rest: string)
    ensures ParseBare((if flag then "?1" else "?0") + rest) == Ok(Bool(flag), rest)
  {
    hide ParseNumber, ParseToken, ParseBytes, ParseStringTail;
    assert ((if flag then "?1" else "?0") + rest)[2..] == rest;
  }

  lemma TokenBack(token: string, rest: string)
    requires ValidToken(token) && Stops(rest)
    ensures Opens(token) && ParseBare(token + rest) == Ok(Token(token), rest)
  {
    hide ParseNumber, ParseBool, ParseBytes, ParseStringTail;
    SpanOf(TokenChar, token, rest);
    assert (token + rest)[0] == token[0];
  }

  lemma NumBack(x: real, rest: string)
    requires Thousandths(x) && Small(x) && Stops(rest)
    ensures Finite(x) && Opens(PrintNumber(x)) && ParseBare(PrintNumber(x) + rest) == Ok(Num(x), rest)
  {
    NumberBack(x, rest);
    NumberOpens(x);
    SmallFinite(x);
    hide Finite, ParseNumber, ParseToken, ParseBytes, ParseBool, ParseStringTail, PrintNumber, Thousandths;
  }

  lemma BareBack(b: BareItem, rest: string)
    requires PrintableBare(b) && Stops(rest)
    ensures PrintBare(b).Success? && Opens(PrintBare(b).value) && ParseBare(PrintBare(b).value + rest) == Ok(b, rest)
  {
    hide ParseBare, Thousandths, Small, Finite, PrintNumber, EscapeString, Base64.Encode;
    match b {
      case Str(text) => StrBack(text, rest);
      case Bytes(bytes) => BytesBack(bytes, rest);
      case Bool(flag) => BoolBack(flag, rest);
      case Num(x) => NumBack(x, rest);
      case Token(t) => TokenBack(t, rest);
    }
  }

  // --- Parameters, items, inner lists ---

  lemma KeyBack(key: string, rest: string)
    requires ValidKey(key) && (Stops(rest) || StartsWith(rest, '='))
    ensures ParseKey(key + rest) == Ok(key, rest)
  {
    SpanOf(KeyChar, key, rest);
  }

  lemma ParamBack(p: (string, BareItem), rest: string, ps: Params)
    requires ValidKey(p.0) && PrintableBare(p.1) && Stops(rest)
    ensures PrintParam(p).Success? && StartsWith(PrintParam(p).value, ';')
    ensures ParseParams(PrintParam(p).value + rest, ps) == ParseParams(rest, Put(ps, p.0, p.1))
  {
    hide ParseKey, ParseBare, PrintBare, ValidKey, PrintableBare, Put, Stops;
    BareBack(p.1, rest);
    var s := PrintParam(p).value + rest;
    if p.1 == Bool(true) {
      assert s[1..] == p.0 + rest;
      KeyBack(p.0, rest);
      NotEquals(rest);
    } else {
      var tail := "=" + (PrintBare(p.1).value + rest);
      assert s[1..] == p.0 + tail;
      KeyBack(p.0, tail);
      assert tail[1..] == PrintBare(p.1).value + rest;
    }
  }

  lemma NotEquals(rest: string)
    requires Stops(rest)
    ensures !StartsWith(rest, '=')
  {
  }

  lemma {:induction false} ParamsBack(ps: Params, before: Params, rest: string)
    requires PrintableParams(before + ps) && Stops(rest) && !StartsWith(rest, ';')
    ensures PrintParams(ps).Success? && (ps == [] ==> PrintParams(ps).value == "")
      && (ps != [] ==> StartsWith(PrintParams(ps).value, ';'))
    ensures ParseParams(PrintParams(ps).value + rest, before) == Ok(before + ps, rest)
  {
    hide ParseKey, ParseBare, PrintParam, ValidKey, PrintableBare, Put;
    if ps == [] {
      assert "" + rest == rest && before + ps == before;
    } else {
      var before' := before + [ps[0]];
      assert before' + ps[1..] == before + ps;
      ParamsBack(ps[1..], before', rest);
      var tail := PrintParams(ps[1..]).value + rest;
      assert (before + ps)[|before|] == ps[0];
      StopsAfterParams(PrintParams(ps[1..]).value, rest);
      ParamBack(ps[0], tail, before);
      assert PrintParams(ps).value + rest == PrintParam(ps[0]).value + tail;
      PutNew(before, ps[0].0, ps[0].1, ps[1..]);
    }
  }

  lemma StopsAfterParams(text: string, rest: string)
    requires text == "" || StartsWith(text, ';')
    requires Stops(rest)
    ensures Stops(text + rest)
  {
    if text == "" {
      assert text + rest == rest;
    }
  }

  lemma ParamsBackAll(ps: Params, rest: string)
    requires PrintableParams(ps) && Stops(rest) && !StartsWith(rest, ';')
    ensures PrintParams(ps).Success? && Stops(PrintParams(ps).value + rest)
    ensures ParseParams(PrintParams(ps).value + rest, []) == Ok(ps, rest)
  {
    assert [] + ps == ps;
    ParamsBack(ps, [], rest);
    StopsAfterParams(PrintParams(ps).value, rest);
  }

  lemma ItemBack(i: Item, rest: string)
    requires PrintableItem(i) && Stops(rest) && !StartsWith(rest, ';')
    ensures PrintItem(i).Success? && Opens(PrintItem(i).value)
      && ParseItem(PrintItem(i).value + rest) == Ok(ParsedItem(i), rest)
  {
    hide ParseBare, PrintBare, ParseParams, PrintParams, PrintableBare, PrintableParams, Stops;
    var ps := i.params.GetOr([]);
    ParamsBackAll(ps, rest);
    var tail := PrintParams(ps).value + rest;
    BareBack(i.value, tail);
    var s := PrintItem(i).value + rest;
    assert s == PrintBare(i.value).value + tail;
    assert PrintItem(i).value[0] == PrintBare(i.value).value[0];
  }

  lemma SkipNothing(s: string)
    requires s == "" || !Blank(s[0])
    ensures SkipBlanks(s) == s
  {
  }

  lemma SkipOne(s: string)
    requires s == "" || !Blank(s[0])
    ensures SkipBlanks(" " + s) == s
  {
    assert (" " + s)[1..] == s;
  }

  lemma OpensConcat(text: string, rest: string)
    requires Opens(text)
    ensures Opens(text + rest) && SkipBlanks(text + rest) == text + rest
    ensures !StartsWith(text + rest, ')') && !StartsWith(text + rest, '(') && !StartsWith(text + rest, '=')
  {
  }

  lemma {:induction false} ItemsBack(items: seq<Item>, before: seq<Item>, rest: string)
    requires (forall i :: 0 <= i < |items| ==> PrintableItem(items[i])) && StartsWith(rest, ')')
    ensures PrintItems(items).Success? && (items != [] ==> Opens(PrintItems(items).value))
    ensures ParseItems(PrintItems(items).value + rest, before) == Ok(before + ParsedItems(items), rest)
    decreases |items|, 1
  {
    hide ParseItem, PrintItem, PrintableItem, ParsedItem;
    if items == [] {
      assert "" + rest == rest && before + ParsedItems(items) == before;
      SkipNothing(rest);
    } else if |items| == 1 {
      ItemBack(items[0], rest);
      OpensConcat(PrintItem(items[0]).value, rest);
      assert ParsedItems(items) == [ParsedItem(items[0])];
      hide Span, SkipBlanks, Opens, Stops;
    } else {
      MoreItemsBack(items, before, rest);
    }
  }

  /** One item followed by a blank: the loop goes on after it. */
  lemma ParseItemsStep(s: string, before: seq<Item>, item: Item, gap: string)
    requires SkipBlanks(s) == s && !StartsWith(s, ')') && ParseItem(s) == Ok(item, gap) && StartsWith(gap, ' ')
    ensures ParseItems(s, before) == ParseItems(SkipBlanks(gap), before + [item])
  {
    hide ParseItem, SkipBlanks;
  }

  lemma PrintItemsStep(items: seq<Item>)
    requires |items| > 1 && PrintItem(items[0]).Success? && PrintItems(items[1..]).Success?
    ensures PrintItems(items) == Success(PrintItem(items[0]).value + (" " + PrintItems(items[1..]).value))
  {
    hide PrintItem;
    var rest := PrintItems(items[1..]).value;
    assert PrintItem(items[0]).value + " " + rest == PrintItem(items[0]).value + (" " + rest);
  }

  lemma {:induction false} MoreItemsBack(items: seq<Item>, before: seq<Item>, rest: string)
    requires |items| > 1 && (forall i :: 0 <= i < |items| ==> PrintableItem(items[i])) && StartsWith(rest, ')')
    ensures PrintItems(items).Success? && Opens(PrintItems(items).value)
    ensures ParseItems(PrintItems(items).value + rest, before) == Ok(before + ParsedItems(items), rest)
    decreases |items|, 0
  {
    BlankStops();
    hide ParseItem, ParseItems, PrintItem, PrintItems, PrintableItem, ParsedItem, SkipBlanks, Opens, Stops;
    ItemsBack(items[1..], before + [ParsedItem(items[0])], rest);
    var others := PrintItems(items[1..]).value;
    var gap := " " + (others + rest);
    ItemBack(items[0], gap);
    var first := PrintItem(items[0]).value;
    PrintItemsStep(items);
    assert first + (" " + others) + rest == first + gap;
    OpensConcat(first, gap);
    OpensConcat(first, " " + others);
    OpensConcat(others, rest);
    OpensNotBlank(others + rest);
    SkipOne(others + rest);
    ParseItemsStep(first + gap, before, ParsedItem(items[0]), gap);
    assert before + ParsedItems(items) == before + [ParsedItem(items[0])] + ParsedItems(items[1..]);
  }

  lemma BlankStops()
    ensures forall s :: StartsWith(s, ' ') ==> Stops(s) && !StartsWith(s, ';')
  {
  }

  lemma OpensNotBlank(s: string)
    requires Opens(s)
    ensures s == "" || !Blank(s[0])
  {
  }

  lemma InnerListStep(s: string, items: seq<Item>, tail: string, ps: Params, rest: string)
    requires ParseItems(s, []) == Ok(items, ")" + tail) && ParseParams(tail, []) == Ok(ps, rest)
    ensures ParseInnerList("(" + s) == Ok(InnerList(items, Some(ps)), rest)
  {
    hide ParseItems, ParseParams;
    assert ("(" + s)[1..] == s && (")" + tail)[1..] == tail;
  }

  lemma InnerListText(items: seq<Item>, params: Option<Params>)
    requires PrintItems(items).Success? && PrintParams(params.GetOr([])).Success?
    ensures PrintInnerList(items, params)
      == Success("(" + PrintItems(items).value + ")" + PrintParams(params.GetOr([])).value)
  {
    hide PrintItems, PrintParams;
  }

  lemma InnerParts(items: seq<Item>, params: Option<Params>)
    requires PrintableMember(InnerList(items, params))
    ensures (forall i :: 0 <= i < |items| ==> PrintableItem(items[i])) && PrintableParams(params.GetOr([]))
  {
    hide PrintableItem, PrintableParams;
  }

  lemma CloseStarts(tail: string)
    ensures StartsWith(")" + tail, ')')
  {
  }

  lemma ListGroups(list: string, text: string, rest: string)
    ensures "(" + list + ")" + text + rest == "(" + (list + (")" + (text + rest)))
      && StartsWith("(" + list + ")" + text, '(')
  {
  }

  lemma InnerListBack(items: seq<Item>, params: Option<Params>, rest: string)
    requires PrintableMember(InnerList(items, params)) && Stops(rest) && !StartsWith(rest, ';')
    ensures PrintInnerList(items, params).Success? && StartsWith(PrintInnerList(items, params).value, '(')
    ensures ParseInnerList(PrintInnerList(items, params).value + rest)
      == Ok(InnerList(ParsedItems(items), Some(params.GetOr([]))), rest)
  {
    InnerParts(items, params);
    hide ParseItems, PrintItems, ParseParams, PrintParams, PrintableItem, PrintableParams, Stops, Opens, ParsedItems,
      ParseInnerList, PrintInnerList, PrintableMember, StartsWith;
    var ps := params.GetOr([]);
    ParamsBackAll(ps, rest);
    var tail := PrintParams(ps).value + rest;
    CloseStarts(tail);
    ItemsBack(items, [], ")" + tail);
    var list, text := PrintItems(items).value, PrintParams(ps).value;
    InnerListText(items, params);
    ListGroups(list, text, rest);
    assert [] + ParsedItems(items) == ParsedItems(items);
    InnerListStep(list + (")" + tail), ParsedItems(items), tail, ps, rest);
  }

  // --- Dictionaries ---

  lemma AfterEquals(key: string, text: string, rest: string)
    ensures var valueText := "=" + text;
            key + "=" + text == key + valueText && StartsWith(valueText + rest, '=')
              && (valueText + rest)[1..] == text + rest
  {
    var valueText := "=" + text;
    assert key + "=" + text == key + valueText;
    assert (valueText + rest)[1..] == text + rest;
  }

  lemma StartsWithParen(text: string, rest: string)
    requires StartsWith(text, '(')
    ensures StartsWith(text + rest, '(')
  {
  }

  /** The printed member is its key followed by text the parser reads as the member's value. */
  lemma MemberBack(key: string, m: Member, rest: string) returns (valueText: string)
    requires ValidKey(key) && PrintableMember(m) && Stops(rest) && !StartsWith(rest, ';')
    ensures PrintMember(key, m).Success? && PrintMember(key, m).value == key + valueText
    ensures Stops(valueText + rest) || StartsWith(valueText + rest, '=')
    ensures ParseMemberValue(valueText + rest) == Ok(ParsedMember(m), rest)
  {
    hide PrintInnerList, ParseInnerList, PrintItem, ParseItem, ParseParams, PrintParams, ParsedItems, ValidKey, Stops,
      Opens, StartsWith, PrintableItem, PrintableParams, SkipBlanks;
    match m {
      case InnerList(items, params) =>
        InnerListBack(items, params, rest);
        var text := PrintInnerList(items, params).value;
        AfterEquals(key, text, rest);
        StartsWithParen(text, rest);
        valueText := "=" + text;
      case Plain(item) =>
        var ps := item.params.GetOr([]);
        assert PrintableParams(ps) by { PrintablePlain(item); }
        if item.value == Bool(true) {
          ParamsBackAll(ps, rest);
          valueText := PrintParams(ps).value;
          NotEquals(valueText + rest);
        } else {
          ItemBack(item, rest);
          var text := PrintItem(item).value;
          AfterEquals(key, text, rest);
          OpensConcat(text, rest);
          valueText := "=" + text;
        }
    }
  }

  lemma PrintablePlain(item: Item)
    requires PrintableItem(item)
    ensures PrintableParams(item.params.GetOr([]))
  {
  }

  lemma StartsWithKey(key: string, text: string)
    requires ValidKey(key)
    ensures key + text != "" && !Blank((key + text)[0])
  {
  }

  lemma DictMemberBack(key: string, m: Member, before: Dict, rest: string)
    requires ValidKey(key) && PrintableMember(m) && Stops(rest) && !StartsWith(rest, ';') && !Has(before, key)
    ensures PrintMember(key, m).Success?
    ensures var s := PrintMember(key, m).value + rest;
            s != "" && !Blank(s[0]) && ParseMember(s, before) == Ok(Put(before, key, ParsedMember(m)), rest)
  {
    hide PrintMember, ParseKey, ParseMemberValue, ValidKey, PrintableMember, ParsedMember, Put, Has, Stops, Blank;
    var valueText := MemberBack(key, m, rest);
    KeyBack(key, valueText + rest);
    assert PrintMember(key, m).value + rest == key + (valueText + rest);
    StartsWithKey(key, valueText + rest);
  }

  lemma NoMembers(before: Dict)
    ensures ParseMembers("", before) == Success(before) && PrintDict([]) == Success("") && ParsedDict([]) == []
  {
  }

  lemma DictHead(d: Dict)
    requires PrintableDict(d) && d != []
    ensures ValidKey(d[0].0) && PrintableMember(d[0].1) && PrintableDict(d[1..])
    ensures ParsedDict(d) == [(d[0].0, ParsedMember(d[0].1))] + ParsedDict(d[1..])
    ensures |d| == 1 ==> ParsedDict(d[1..]) == [] && d[1..] == []
  {
    hide ValidKey, PrintableMember, ParsedMember;
  }

  /** What separates a member from the next, once blanks are skipped. */
  lemma RestOfDict(rest: string, others: string)
    requires rest == "" || (rest == ", " + others && others != "" && !Blank(others[0]))
    ensures Stops(rest) && !StartsWith(rest, ';') && SkipBlanks(rest) == rest && (rest == "" || rest[0] == ',')
    ensures rest != "" ==> SkipBlanks(rest[1..]) == others
  {
    SkipNothing(rest);
    if rest != "" {
      assert rest[1..] == " " + others;
      SkipOne(others);
    }
    hide SkipBlanks;
  }

  lemma PrintDictUnfold(d: Dict)
    requires d != []
    ensures PrintDict(d) == if |d| == 1 then PrintMember(d[0].0, d[0].1)
                            else Append(Append(PrintMember(d[0].0, d[0].1), Success(", ")), PrintDict(d[1..]))
  {
    hide PrintMember, Append;
  }

  lemma PrintDictStep(d: Dict, rest: string)
    requires d != [] && PrintMember(d[0].0, d[0].1).Success? && PrintDict(d[1..]).Success?
    requires rest == if |d| == 1 then "" else ", " + PrintDict(d[1..]).value
    ensures PrintDict(d) == Success(PrintMember(d[0].0, d[0].1).value + rest)
  {
    PrintDictUnfold(d);
    hide PrintMember, PrintDict;
    if |d| == 1 {
      assert PrintMember(d[0].0, d[0].1).value + "" == PrintMember(d[0].0, d[0].1).value;
    } else {
      assert PrintMember(d[0].0, d[0].1).value + ", " + PrintDict(d[1..]).value == PrintMember(d[0].0, d[0].1).value
        + rest;
    }
  }

  lemma MembersStep(s: string, before: Dict, after: Dict, rest: string)
    requires s != "" && ParseMember(s, before) == Ok(after, rest) && SkipBlanks(rest) == rest
      && (rest == "" || rest[0] == ',')
    ensures ParseMembers(s, before) == if rest == "" then Success(after) else ParseMembers(SkipBlanks(rest[1..]), after)
  {
    hide ParseMember, SkipBlanks;
  }

  lemma {:induction false} MembersBack(d: Dict, before: Dict)
    requires PrintableDict(d) && Distinct(before + ParsedDict(d))
    ensures PrintDict(d).Success? && (d != [] ==> PrintDict(d).value != "" && !Blank(PrintDict(d).value[0]))
    ensures ParseMembers(PrintDict(d).value, before) == Success(before + ParsedDict(d))
  {
    hide PrintMember, PrintDict, ParseMember, ParseMembers, ValidKey, PrintableMember, PrintableDict, ParsedMember,
      ParsedDict, Put, Has, SkipBlanks, Span, Blank, Stops, Distinct;
    if d == [] {
      NoMembers(before);
      assert before + ParsedDict(d) == before;
    } else {
      DictHead(d);
      var key, m := d[0].0, d[0].1;
      var before' := before + [(key, ParsedMember(m))];
      assert before' + ParsedDict(d[1..]) == before + ParsedDict(d);
      assert before' + [] == before';
      MembersBack(d[1..], before');
      PutNew(before, key, ParsedMember(m), ParsedDict(d[1..]));
      var rest := if |d| == 1 then "" else ", " + PrintDict(d[1..]).value;
      RestOfDict(rest, if |d| == 1 then "" else PrintDict(d[1..]).value);
      DictMemberBack(key, m, before, rest);
      PrintDictStep(d, rest);
      MembersStep(PrintDict(d).value, before, before', rest);
    }
  }

  /** Printing a dictionary and parsing the text gives the dictionary back, with parameter
      records present or absent as the parser leaves them. */
  lemma ParseUndoesPrint(d: Dict)
    requires PrintableDict(d)
    ensures PrintDict(d).Success? && ParseDict(PrintDict(d).value) == Success(ParsedDict(d))
  {
    hide PrintMember, ParseMembers, PrintableMember, ValidKey;
    assert [] + ParsedDict(d) == ParsedDict(d);
    MembersBack(d, []);
    SkipNothing(PrintDict(d).value);
  }

  /** So two dictionaries with the same text differ only in empty parameter records. */
  lemma PrintInjective(d: Dict, d': Dict)
    requires PrintableDict(d) && PrintableDict(d') && PrintDict(d) == PrintDict(d')
    ensures ParsedDict(d) == ParsedDict(d')
  {
    hide *;
    ParseUndoesPrint(d);
    ParseUndoesPrint(d');
  }

  // --- What follows a dictionary ---

  /** The first member and a comma after it are read, and the parser goes on behind the comma. */
  lemma HeadContinues(d: Dict, before: Dict, rest: string)
    requires PrintableDict(d) && d != [] && Distinct(before + ParsedDict(d)) && StartsWith(rest, ',')
    ensures PrintMember(d[0].0, d[0].1).Success?
    ensures ParseMembers(PrintMember(d[0].0, d[0].1).value + rest, before)
         == ParseMembers(SkipBlanks(rest[1..]), before + [(d[0].0, ParsedMember(d[0].1))])
  {
    CommaStops(rest);
    hide PrintMember, ParseMember, ParseMembers, ValidKey, PrintableMember, PrintableDict, ParsedMember, ParsedDict,
      Put, Has, SkipBlanks, Blank, Stops, Distinct;
    DictHead(d);
    var key, m := d[0].0, d[0].1;
    assert before + [(key, ParsedMember(m))] + ParsedDict(d[1..]) == before + ParsedDict(d);
    PutNew(before, key, ParsedMember(m), ParsedDict(d[1..]));
    DictMemberBack(key, m, before, rest);
    MembersStep(PrintMember(key, m).value + rest, before, before + [(key, ParsedMember(m))], rest);
  }

  lemma CommaStops(rest: string)
    requires StartsWith(rest, ',')
    ensures Stops(rest) && !StartsWith(rest, ';') && SkipBlanks(rest) == rest
  {
    SkipNothing(rest);
  }

  /** After printed members and a comma the parser goes on with what follows. */
  lemma {:induction false} MembersContinue(d: Dict, before: Dict, more: string)
    requires PrintableDict(d) && d != [] && Distinct(before + ParsedDict(d))
    ensures PrintDict(d).Success?
    ensures ParseMembers(PrintDict(d).value + ("," + more), before)
      == ParseMembers(SkipBlanks(more), before + ParsedDict(d))
  {
    hide PrintMember, PrintDict, ParseMembers, ValidKey, PrintableMember, PrintableDict, ParsedMember, ParsedDict,
      SkipBlanks, Blank, Distinct;
    DictHead(d);
    var head, text := [(d[0].0, ParsedMember(d[0].1))], PrintMember(d[0].0, d[0].1);
    assert before + head + ParsedDict(d[1..]) == before + ParsedDict(d);
    MembersBack(d[1..], before + head);
    if |d| == 1 {
      HeadContinues(d, before, "," + more);
      PrintDictStep(d, "");
      assert text.value + "" == text.value && ("," + more)[1..] == more && before + head + [] == before + head;
    } else {
      MembersContinue(d[1..], before + head, more);
      var others := PrintDict(d[1..]).value;
      var rest := ", " + (others + ("," + more));
      HeadContinues(d, before, rest);
      PrintDictStep(d, ", " + others);
      assert text.value + (", " + others) + ("," + more) == text.value + rest;
      assert rest[1..] == " " + (others + ("," + more));
      OpenBlank(others, "," + more);
    }
  }

  lemma OpenBlank(text: string, tail: string)
    requires text != "" && !Blank(text[0])
    ensures SkipBlanks(" " + (text + tail)) == text + tail
  {
    SkipOne(text + tail);
  }

  /** A trailing comma is accepted. */
  lemma TrailingComma(d: Dict)
    requires PrintableDict(d) && d != []
    ensures PrintDict(d).Success? && ParseDict(PrintDict(d).value + ",") == Success(ParsedDict(d))
  {
    hide PrintMember, PrintDict, ParseMembers, PrintableMember, ValidKey;
    assert [] + ParsedDict(d) == ParsedDict(d) && "," + "" == ",";
    NoMembers(ParsedDict(d));
    MembersBack(d, []);
    hide ParsedDict, PrintableDict, Distinct;
    MembersContinue(d, [], "");
    SkipNothing("");
    SkipNothing(PrintDict(d).value + ",");
  }

  /** A key that was read before is refused, whatever value it comes with. */
  lemma RepeatedKeyRefused(d: Dict, m: Member, i: nat)
    requires PrintableDict(d) && PrintableMember(m) && i < |d|
    ensures PrintDict(d).Success? && PrintMember(d[i].0, m).Success?
    ensures ParseDict(PrintDict(d).value + (", " + PrintMember(d[i].0, m).value)) == Failure(DuplicateKey(d[i].0))
  {
    EmptyStops();
    NthKey(d, i);
    hide PrintMember, PrintDict, ParseMembers, ParseMember, PrintableMember, PrintableDict, ValidKey, ParsedMember,
      ParsedDict, SkipBlanks, Stops, Has, Blank, Distinct;
    var key, all := d[i].0, ParsedDict(d);
    assert [] + all == all;
    MembersBack(d, []);
    var valueText := MemberBack(key, m, "");
    var text := PrintMember(key, m).value;
    StartsWithKey(key, valueText);
    MembersContinue(d, [], " " + text);
    assert "," + (" " + text) == ", " + text;
    SkipOne(text);
    NotBlankFirst(PrintDict(d).value, ", " + text);
    assert valueText + "" == valueText;
    KnownKey(key, valueText, all, i);
    DictUnfolds(PrintDict(d).value + (", " + text));
  }

  lemma NthKey(d: Dict, i: nat)
    requires PrintableDict(d) && i < |d|
    ensures ValidKey(d[i].0) && ParsedDict(d)[i].0 == d[i].0 && Distinct(ParsedDict(d))
  {
    hide ValidKey, PrintableMember, ParsedMember;
  }

  lemma NotBlankFirst(text: string, tail: string)
    requires text != "" && !Blank(text[0])
    ensures SkipBlanks(text + tail) == text + tail
  {
    SkipNothing(text + tail);
  }

  lemma DictUnfolds(s: string)
    ensures ParseDict(s) == ParseMembers(SkipBlanks(s), [])
  {
  }

  lemma EmptyStops()
    ensures Stops("") && !StartsWith("", ';')
  {
  }

  lemma KnownKey(key: string, valueText: string, d: Dict, i: nat)
    requires ValidKey(key) && (Stops(valueText) || StartsWith(valueText, '=')) && i < |d| && d[i].0 == key
    ensures ParseMembers(key + valueText, d) == Failure(DuplicateKey(key))
  {
    KeyBack(key, valueText);
    hide ParseKey, ParseMemberValue, ParseMembers, ValidKey;
    assert Has(d, key);
    assert ParseMember(key + valueText, d) == Err(DuplicateKey(key));
    hide ParseMember;
    FailedMember(key + valueText, d);
  }

  lemma FailedMember(s: string, d: Dict)
    requires s != "" && ParseMember(s, d).Err?
    ensures ParseMembers(s, d) == Failure(ParseMember(s, d).error)
  {
    hide ParseMember;
  }

  /** An integer is printed exactly, and safe ones are, unless it is large enough for an exponent. */
  lemma IntegersPrintable(n: int)
    ensures PrintableBare(Num(n as real)) <==> Small(n as real)
  {
    WholeThousandths(n);
    hide Thousandths, Small;
  }

  // --- Errors: printing fails exactly on a bad key, token or number ---

  predicate BareValid(b: BareItem) {
    (b.Token? ==> ValidToken(b.token)) && (b.Num? ==> Finite(b.number))
  }

  predicate NamesValid(ps: Params) {
    forall i :: 0 <= i < |ps| ==> ValidKey(ps[i].0) && BareValid(ps[i].1)
  }

  predicate ItemNamesValid(i: Item) {
    BareValid(i.value) && NamesValid(i.params.GetOr([]))
  }

  predicate MemberNamesValid(m: Member) {
    match m
    case Plain(item) => ItemNamesValid(item)
    case InnerList(items, params) =>
      (forall i :: 0 <= i < |items| ==> ItemNamesValid(items[i])) && NamesValid(params.GetOr([]))
  }

  lemma {:induction false} ParamsPrint(ps: Params)
    ensures PrintParams(ps).Success? <==> NamesValid(ps)
  {
    hide ValidKey, ValidToken, Finite, PrintNumber, EscapeString, Base64.Encode;
    if ps != [] {
      ParamsPrint(ps[1..]);
      assert ps == [ps[0]] + ps[1..];
    }
  }

  lemma {:induction false} ItemsPrint(items: seq<Item>)
    ensures PrintItems(items).Success? <==> forall i :: 0 <= i < |items| ==> ItemNamesValid(items[i])
  {
    hide ValidToken, Finite, NamesValid, PrintParams, PrintNumber, EscapeString, Base64.Encode;
    if items != [] {
      ItemsPrint(items[1..]);
      ParamsPrint(items[0].params.GetOr([]));
      assert items == [items[0]] + items[1..];
    }
  }

  lemma {:induction false} PrintsExactly(d: Dict)
    ensures PrintDict(d).Success? <==> forall i :: 0 <= i < |d| ==> ValidKey(d[i].0) && MemberNamesValid(d[i].1)
  {
    hide ValidKey, PrintMember, MemberNamesValid;
    if d != [] {
      PrintsExactly(d[1..]);
      MemberPrints(d[0].0, d[0].1);
      assert d == [d[0]] + d[1..];
    }
  }

  lemma MemberPrints(key: string, m: Member)
    ensures PrintMember(key, m).Success? <==> ValidKey(key) && MemberNamesValid(m)
  {
    hide ValidKey, ValidToken, NamesValid, PrintParams, PrintItems, PrintNumber, EscapeString, Base64.Encode;
    match m {
      case InnerList(items, params) =>
        ItemsPrint(items);
        ParamsPrint(params.GetOr([]));
      case Plain(item) =>
        ParamsPrint(item.params.GetOr([]));
    }
  }
}
