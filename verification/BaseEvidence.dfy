/** What a signature base determines: always its components and parameters, and its values
    unless a line break in one of them can be read as the beginning of the next line. */
module BaseEvidence {
  import opened Records
  import opened Text
  import opened StructuredFields
  import opened SignatureBase
  import opened SfRoundTrip
  import opened SignThenVerify
  import opened LineBreaks
  import Base64

  // --- Names ---

  ghost predicate PlainNames(components: seq<string>) {
    forall i :: 0 <= i < |components| ==> components[i] != "" && forall c :: c in components[i] ==> c != ';'
  }

  ghost predicate OneLineNames(cs: seq<string>) {
    forall i :: 0 <= i < |cs| ==> OneLine(cs[i])
  }

  function Quoted(s: string): string {
    "\"" + EscapeString(s) + "\""
  }

  /** A quoted string ends where it says it ends. */
  lemma QuotedSplits(a: string, b: string, rest: string, rest': string)
    requires Quoted(a) + rest == Quoted(b) + rest'
    ensures a == b && rest == rest'
  {
    StrBack(a, rest);
    StrBack(b, rest');
  }

  lemma ParamsText(ps: Params)
    requires PrintParams(ps).Success?
    ensures if ps == [] then PrintParams(ps).value == "" else StartsWith(PrintParams(ps).value, ';')
  {
    hide PrintBare;
  }

  lemma {:induction false} ParamsGrow(s: string, ps: Params)
    requires ParseParams(s, ps).Ok?
    ensures |ParseParams(s, ps).value| >= |ps| && (StartsWith(s, ';') ==> ParseParams(s, ps).value != [])
    decreases |s|
  {
    hide ParseKey, ParseBare;
    if StartsWith(s, ';') {
      var key := ParseKey(s[1..]);
      if StartsWith(key.rest, '=') {
        var value := ParseBare(key.rest[1..]);
        ParamsGrow(value.rest, Put(ps, key.value, value.value));
      } else {
        ParamsGrow(key.rest, Put(ps, key.value, Bool(true)));
      }
    }
  }

  /** An identifier without parameters is its own name. */
  lemma NoParams(component: string)
    requires ParseIdentifier(component).Success? && ParseIdentifier(component).value.params.GetOr([]) == []
    ensures ParseIdentifier(component).value.value == Str(component)
  {
    var (name, rest) := Span(c => c != ';', component);
    if rest != "" {
      ParamsGrow(rest, []);
    }
    assert name + "" == name;
    hide ParseParams;
  }

  lemma NoParamsText()
    ensures PrintParams([]) == Success("")
  {
  }

  // --- The last line ---

  const MARK := "\"" + PARAMS_NAME + "\": "

  /** Nowhere a line that begins like the last one. */
  ghost predicate NoMark(s: string) {
    forall i :: 0 <= i < |s| - 2 && s[i] == '\n' && s[i + 1] == '"' ==> s[i + 2] != '@'
  }

  lemma OneLineMark(s: string)
    requires OneLine(s)
    ensures NoMark(s)
  {
    assert forall i :: 0 <= i < |s| ==> s[i] in s;
  }

  lemma MarkBehind(a: string, b: string)
    requires OneLine(a) && NoMark(b)
    ensures NoMark(a + b)
  {
    var s := a + b;
    assert forall k :: 0 <= k < |a| ==> a[k] in a && s[k] == a[k];
    forall i | 0 <= i < |s| - 2 && s[i] == '\n' && s[i + 1] == '"'
      ensures s[i + 2] != '@'
    {
      assert s[i + 1] == b[i + 1 - |a|] && s[i + 2] == b[i + 2 - |a|];
      assert s[i] == b[i - |a|];
    }
  }

  lemma MarkApart(a: string, b: string)
    requires NoMark(a) && NoMark(b) && (b == "" || (b[0] != '"' && b[0] != '@'))
    ensures NoMark(a + b)
  {
    var s := a + b;
    assert b != "" ==> s[|a|] == b[0];
    forall i | 0 <= i < |s| - 2 && s[i] == '\n' && s[i + 1] == '"'
      ensures s[i + 2] != '@'
    {
      if i + 2 < |a| {
        assert a[i] == '\n' && a[i + 1] == '"' && s[i + 2] == a[i + 2];
      } else if i >= |a| {
        assert b[i - |a|] == '\n' && b[i + 1 - |a|] == '"' && s[i + 2] == b[i + 2 - |a|];
      }
    }
  }

  /** Every quote in an escaped string follows a backslash. */
  ghost predicate QuotesEscaped(e: string) {
    forall i :: 0 <= i < |e| && e[i] == '"' ==> i > 0 && e[i - 1] == '\\'
  }

  lemma EscapedApart(piece: string, rest: string)
    requires QuotesEscaped(piece) && QuotesEscaped(rest)
    ensures QuotesEscaped(piece + rest)
  {
    var e := piece + rest;
    forall i | 0 <= i < |e| && e[i] == '"'
      ensures i > 0 && e[i - 1] == '\\'
    {
      if i < |piece| {
        assert e[i] == piece[i];
      } else {
        var j := i - |piece|;
        assert rest[j] == '"';
        assert e[i - 1] == rest[j - 1];
      }
    }
  }

  lemma {:induction false} EscapedQuotes(s: string)
    ensures QuotesEscaped(EscapeString(s))
  {
    if s != "" {
      EscapedQuotes(s[1..]);
      EscapedApart(if s[0] == '\\' || s[0] == '"' then ['\\', s[0]] else [s[0]], EscapeString(s[1..]));
    }
  }

  lemma QuotedMark(s: string)
    ensures NoMark(Quoted(s))
  {
    EscapedQuotes(s);
    var e, q := EscapeString(s), Quoted(s);
    assert q == "\"" + e + "\"";
    hide EscapeString, Quoted;
    forall i | 0 <= i < |q| - 2 && q[i] == '\n'
      ensures q[i + 1] != '"'
    {
      assert q[i + 1] == e[i] && q[i] == e[i - 1];
    }
  }

  lemma DigitsOneLine(s: string)
    requires AllDigits(s)
    ensures OneLine(s)
  {
  }

  lemma OneLineFront(s: string, n: nat)
    requires OneLine(s) && n <= |s|
    ensures OneLine(s[..n])
  {
    forall c | c in s[..n]
      ensures c in s
    {
    }
  }

  lemma {:induction false} TrimmedOneLine(s: string)
    requires OneLine(s)
    ensures OneLine(TrimZeros(s))
  {
    if s != "" && s[|s| - 1] == '0' {
      OneLineFront(s, |s| - 1);
      TrimmedOneLine(s[..|s| - 1]);
    }
  }

  lemma PointOneLine(digits: string, k: nat)
    requires OneLine(digits) && k <= |digits|
    ensures OneLine(WithPoint(digits[..k], TrimZeros(digits[k..])))
  {
    OneLineFront(digits, k);
    assert forall c :: c in digits[k..] ==> c in digits;
    TrimmedOneLine(digits[k..]);
    assert OneLine(".") && OneLine("");
    hide OneLine, TrimZeros;
    OneLineJoin(".", TrimZeros(digits[k..]));
    OneLineJoin(digits[..k], if TrimZeros(digits[k..]) == "" then "" else "." + TrimZeros(digits[k..]));
  }

  lemma ThousandthsOneLine(n: nat)
    ensures OneLine(PrintThousandths(n))
  {
    var digits := PadStart(Digits(n), 4);
    PadStartValue(Digits(n), 4);
    DigitsOneLine(digits);
    PointOneLine(digits, |digits| - 3);
    hide OneLine, Digits, TrimZeros, PadStart, WithPoint;
  }

  lemma ExponentOneLine(n: nat)
    ensures OneLine(ExponentText(n))
  {
    var digits := Digits(n);
    var exponent := Digits(|digits| - 1);
    DigitsOneLine(digits);
    DigitsOneLine(exponent);
    PointOneLine(digits, 1);
    assert OneLine("e+");
    hide OneLine, Digits, TrimZeros, WithPoint;
    var short := WithPoint(digits[..1], TrimZeros(digits[1..]));
    OneLineJoin("e+", exponent);
    OneLineJoin(short, "e+" + exponent);
    Associate(short, "e+", exponent);
  }

  lemma MagnitudeOneLine(m: real)
    requires m >= 0.0
    ensures OneLine(PrintMagnitude(m))
  {
    hide OneLine, ExponentText, PrintThousandths, Digits, AllDigits;
    ExponentOneLine(m.Floor);
    DigitsOneLine(Digits(m.Floor));
    ThousandthsOneLine((m * 1000.0 + 0.5).Floor);
  }

  lemma NumberOneLine(x: real)
    ensures OneLine(PrintNumber(x))
  {
    MagnitudeOneLine(if x < 0.0 then -x else x);
    assert OneLine("-");
    hide OneLine, PrintMagnitude;
    OneLineJoin("-", PrintMagnitude(if x < 0.0 then -x else x));
  }

  lemma BytesOneLine(bytes: seq<Byte>)
    ensures OneLine(":" + Base64.Encode(bytes) + ":")
  {
    assert !Base64.IsBase64Char('\n');
  }

  lemma BareMark(b: BareItem)
    requires PrintBare(b).Success?
    ensures NoMark(PrintBare(b).value)
  {
    match b {
      case Bytes(bytes) => BytesOneLine(bytes);
      case Str(text) => QuotedMark(text);
      case Bool(_) =>
      case Num(number) => NumberOneLine(number);
      case Token(_) =>
    }
    if !b.Str? {
      assert b.Bool? || b.Token? ==> OneLine(PrintBare(b).value);
      hide PrintNumber, OneLine;
      OneLineMark(PrintBare(b).value);
    }
  }

  lemma ParamMark(p: (string, BareItem))
    requires PrintParam(p).Success?
    ensures NoMark(PrintParam(p).value) && StartsWith(PrintParam(p).value, ';')
  {
    assert OneLine(";" + p.0) && OneLine(";" + p.0 + "=");
    hide PrintBare, OneLine, NoMark;
    if p.1 == Bool(true) {
      OneLineMark(";" + p.0);
    } else {
      BareMark(p.1);
      MarkBehind(";" + p.0 + "=", PrintBare(p.1).value);
    }
  }

  lemma {:induction false} ParamsMark(ps: Params)
    requires PrintParams(ps).Success?
    ensures NoMark(PrintParams(ps).value)
  {
    hide PrintParam, NoMark;
    if ps == [] {
      NothingMarked();
    } else {
      ParamMark(ps[0]);
      ParamsMark(ps[1..]);
      ParamsText(ps[1..]);
      MarkApart(PrintParam(ps[0]).value, PrintParams(ps[1..]).value);
    }
  }

  lemma NothingMarked()
    ensures NoMark("")
  {
  }

  lemma ItemMark(i: Item)
    requires PrintItem(i).Success?
    ensures NoMark(PrintItem(i).value)
  {
    BareMark(i.value);
    ParamsMark(i.params.GetOr([]));
    ParamsText(i.params.GetOr([]));
    hide PrintBare, PrintParams, NoMark;
    MarkApart(PrintBare(i.value).value, PrintParams(i.params.GetOr([])).value);
  }

  lemma {:induction false} ItemsMark(items: seq<Item>)
    requires PrintItems(items).Success?
    ensures NoMark(PrintItems(items).value)
  {
    assert OneLine(" ");
    hide PrintItem, NoMark, OneLine;
    if items == [] {
      NothingMarked();
    } else {
      ItemMark(items[0]);
      if |items| > 1 {
        ItemsMark(items[1..]);
        PrintItemsStep(items);
        hide PrintItems;
        var rest := PrintItems(items[1..]).value;
        MarkBehind(" ", rest);
        MarkApart(PrintItem(items[0]).value, " " + rest);
      }
    }
  }

  lemma LastMark(cs: seq<string>, p: SignatureParameters)
    requires ParamsLine(cs, p).Success?
    ensures NoMark(ParamsLine(cs, p).value)
  {
    hide Identifiers, ParamsOf, PrintItems, PrintParams, NoMark, OneLine;
    var items, ps := Identifiers(cs).value, ParamsOf(p).value;
    ListIs(items, ps);
    ItemsMark(items);
    ParamsMark(ps);
    Brackets();
    MarkBehind(")", PrintParams(ps).value);
    MarkApart(PrintItems(items).value, ")" + PrintParams(ps).value);
    MarkBehind("(", PrintItems(items).value + (")" + PrintParams(ps).value));
  }

  lemma Brackets()
    ensures OneLine("(") && OneLine(")")
  {
  }

  lemma MarkInside(a: string, b: string, n: nat)
    requires NoMark(b) && |a| < n < |a + b| - 1 && (a + b)[n - 1] == '\n' && (a + b)[n] == '"'
    ensures (a + b)[n + 1] != '@'
  {
    var i := n - 1 - |a|;
    assert b[i] == '\n' && b[i + 1] == '"' && (a + b)[n + 1] == b[i + 2];
  }

  /** The last line begins behind the last break that a quote and an at sign follow. */
  lemma LastBegins(lines: string, last: string, lines': string, last': string)
    requires lines + (MARK + last) == lines' + (MARK + last') && NoMark(last)
    requires lines' == "" || lines'[|lines'| - 1] == '\n'
    ensures |lines'| <= |lines|
  {
    var all, n := lines + (MARK + last), |lines'|;
    MarkIs();
    MarkBehind(MARK, last);
    hide NoMark;
    assert all == lines' + (MARK + last') && all[n] == MARK[0] && all[n + 1] == MARK[1];
    if n > |lines| {
      assert all[n - 1] == lines'[n - 1];
      MarkInside(lines, MARK + last, n);
    }
  }

  lemma MarkIs()
    ensures |MARK| >= 2 && MARK[0] == '"' && MARK[1] == '@'
    ensures OneLine(MARK)
  {
    assert PARAMS_NAME[0] == '@' && MARK[1] == PARAMS_NAME[0];
    assert OneLine(PARAMS_NAME) by {
      assert forall i :: 0 <= i < |PARAMS_NAME| ==> PARAMS_NAME[i] != '\n';
    }
  }

  lemma {:induction false} LinesEnd(cs: seq<string>, m: Message, h: Headers)
    requires Lines(cs, m, h).Success?
    ensures var s := Lines(cs, m, h).value; s == "" || s[|s| - 1] == '\n'
  {
    hide Line;
    if cs != [] {
      LinesEnd(cs[1..], m, h);
    }
  }

  /** Equal bases have equal lines and equal last lines, whatever line breaks they contain. */
  lemma LastFound(cs: seq<string>, m: Message, h: Headers, p: SignatureParameters,
                  cs': seq<string>, m': Message, h': Headers, p': SignatureParameters)
    requires Base(cs, m, h, p).Success? && Base(cs, m, h, p) == Base(cs', m', h', p')
    ensures Lines(cs, m, LowerCased(h)).Success? && Lines(cs, m, LowerCased(h)) == Lines(cs', m', LowerCased(h'))
    ensures ParamsLine(cs, p).Success? && ParamsLine(cs, p) == ParamsLine(cs', p')
  {
    hide Lines, ParamsLine, LowerCased, NoMark;
    var lines, lines' := Lines(cs, m, LowerCased(h)).value, Lines(cs', m', LowerCased(h')).value;
    var last, last' := ParamsLine(cs, p).value, ParamsLine(cs', p').value;
    LastMark(cs, p);
    LastMark(cs', p');
    LinesEnd(cs, m, LowerCased(h));
    LinesEnd(cs', m', LowerCased(h'));
    LastBegins(lines, last, lines', last');
    LastBegins(lines', last', lines, last);
    SameLength(lines, MARK + last, lines', MARK + last');
    SameLength(MARK, last, MARK, last');
  }

  // --- The last line determines components and parameters ---

  lemma NumbersPrintable(n: Option<int>)
    requires !Unsafe(n)
    ensures NumOf(n).Some? ==> PrintableBare(NumOf(n).value)
  {
    if n.Some? {
      IntegersPrintable(n.value);
    }
  }

  lemma ParamsPrintable(p: SignatureParameters)
    requires ParamsOf(p).Success?
    ensures PrintableParams(ParamsOf(p).value)
  {
    NumbersPrintable(p.created);
    NumbersPrintable(p.expires);
    ParamKeys();
    hide ValidKey, NumOf, Thousandths;
  }

  lemma ParamKeys()
    ensures ValidKey("created") && ValidKey("expires") && ValidKey("keyid") && ValidKey("nonce")
    ensures "created" != "expires" && "created" != "keyid" && "created" != "nonce"
    ensures "expires" != "keyid" && "expires" != "nonce" && "keyid" != "nonce"
  {
    assert "created"[0] == 'c' && "expires"[0] == 'e' && "keyid"[0] == 'k' && "nonce"[0] == 'n';
  }

  lemma OptionSplits(name: string, v: Option<BareItem>, v': Option<BareItem>, rest: Params, rest': Params)
    requires OptionalParam(name, v) + rest == OptionalParam(name, v') + rest'
    requires (rest != [] ==> rest[0].0 != name) && (rest' != [] ==> rest'[0].0 != name)
    ensures v == v' && rest == rest'
  {
    var all, all' := OptionalParam(name, v) + rest, OptionalParam(name, v') + rest';
    assert if v.Some? then all[0] == (name, v.value) && all[1..] == rest else all == rest;
    assert if v'.Some? then all'[0] == (name, v'.value) && all'[1..] == rest' else all' == rest';
  }

  function Named(kid: string, nonce: Option<string>): Params {
    [("keyid", Str(kid))] + OptionalParam("nonce", if nonce.Some? then Some(Str(nonce.value)) else None)
  }

  lemma NamedInjective(kid: string, nonce: Option<string>, kid': string, nonce': Option<string>)
    requires Named(kid, nonce) == Named(kid', nonce')
    ensures kid == kid' && nonce == nonce'
  {
    var tail, tail' := Named(kid, nonce), Named(kid', nonce');
    assert tail[0] == tail'[0];
    assert nonce.Some? ==> tail[1] == ("nonce", Str(nonce.value));
    assert nonce'.Some? ==> tail'[1] == ("nonce", Str(nonce'.value));
  }

  lemma NumOfInjective(n: Option<int>, n': Option<int>)
    requires NumOf(n) == NumOf(n')
    ensures n == n'
  {
  }

  /** The printed parameters determine the parameters. */
  lemma ParamsOfInjective(p: SignatureParameters, p': SignatureParameters)
    requires ParamsOf(p).Success? && ParamsOf(p) == ParamsOf(p')
    ensures p == p'
  {
    ParamKeys();
    hide NumOf;
    var tail, tail' := Named(p.keyid, p.nonce), Named(p'.keyid, p'.nonce);
    var mid, mid' := OptionalParam("expires", NumOf(p.expires)) + tail, OptionalParam("expires", NumOf(p'.expires))
      + tail';
    assert ParamsOf(p).value == OptionalParam("created", NumOf(p.created)) + mid;
    assert ParamsOf(p').value == OptionalParam("created", NumOf(p'.created)) + mid';
    OptionSplits("created", NumOf(p.created), NumOf(p'.created), mid, mid');
    OptionSplits("expires", NumOf(p.expires), NumOf(p'.expires), tail, tail');
    NamedInjective(p.keyid, p.nonce, p'.keyid, p'.nonce);
    NumOfInjective(p.created, p'.created);
    NumOfInjective(p.expires, p'.expires);
  }

  lemma {:induction false} PlainItems(cs: seq<string>)
    requires PlainNames(cs)
    ensures Identifiers(cs) == Success(InputItems(cs))
  {
    hide ParseIdentifier;
    if cs != [] {
      PlainIdentifier(cs[0]);
      PlainItems(cs[1..]);
      assert InputItems(cs) == [Item(Str(cs[0]), None)] + InputItems(cs[1..]);
    }
  }

  lemma ListPrintable(cs: seq<string>, ps: Params)
    requires PrintableParams(ps)
    ensures PrintableMember(InnerList(InputItems(cs), Some(ps)))
  {
    hide ValidKey;
  }

  /** For the same components the last line determines the parameters. */
  lemma LastSplits(cs: seq<string>, p: SignatureParameters, p': SignatureParameters)
    requires PlainNames(cs) && ParamsLine(cs, p).Success? && ParamsLine(cs, p) == ParamsLine(cs, p')
    ensures p == p'
  {
    PlainItems(cs);
    hide PlainNames, Identifiers, ParamsOf, PrintInnerList, PrintableMember, PrintableParams, InputItems, ParsedItems,
      ParseInnerList;
    var ps, ps' := ParamsOf(p).value, ParamsOf(p').value;
    ParamsPrintable(p);
    ParamsPrintable(p');
    ListPrintable(cs, ps);
    ListPrintable(cs, ps');
    InnerListBack(InputItems(cs), Some(ps), "");
    InnerListBack(InputItems(cs), Some(ps'), "");
    ParamsOfInjective(p, p');
  }

  /** What is printed of the items after the first. */
  function AfterItem(items: seq<Item>, tail: string): string
    requires items != []
  {
    if |items| == 1 then ")" + tail
    else " " + ((if PrintItems(items[1..]).Success? then PrintItems(items[1..]).value else "") + (")" + tail))
  }

  lemma NamedItem(item: Item)
    requires PrintItem(item).Success? && item.value.Str?
    ensures PrintParams(item.params.GetOr([])).Success?
    ensures PrintItem(item).value == Quoted(item.value.text) + PrintParams(item.params.GetOr([])).value
  {
    hide PrintParams, EscapeString;
  }

  lemma ItemsPrintEach(items: seq<Item>)
    requires items != [] && PrintItems(items).Success?
    ensures PrintItem(items[0]).Success? && (|items| > 1 ==> PrintItems(items[1..]).Success?)
  {
    hide PrintItem;
  }

  lemma LoneItem(items: seq<Item>)
    requires |items| == 1
    ensures PrintItems(items) == PrintItem(items[0])
  {
    hide PrintItem;
  }

  lemma ItemsCons(items: seq<Item>, tail: string)
    requires items != [] && PrintItems(items).Success? && items[0].value.Str?
    ensures PrintParams(items[0].params.GetOr([])).Success? && (|items| > 1 ==> PrintItems(items[1..]).Success?)
    ensures PrintItems(items).value + (")" + tail)
         == Quoted(items[0].value.text) + (PrintParams(items[0].params.GetOr([])).value + AfterItem(items, tail))
  {
    hide PrintParams, PrintItem, PrintItems, Quoted;
    ItemsPrintEach(items);
    NamedItem(items[0]);
    var q, params := Quoted(items[0].value.text), PrintParams(items[0].params.GetOr([])).value;
    if |items| == 1 {
      LoneItem(items);
      Associate(q, params, ")" + tail);
    } else {
      var others := PrintItems(items[1..]).value;
      PrintItemsStep(items);
      Associate(" ", others, ")" + tail);
      Associate(q + params, " " + others, ")" + tail);
      Associate(q, params, " " + (others + (")" + tail)));
    }
  }

  /** Neither a blank nor a closing parenthesis begins a parameter. */
  lemma AfterSplits(params: string, a: string, b: string)
    requires (params == "" || StartsWith(params, ';')) && a == params + b && a != "" && (a[0] == ' ' || a[0] == ')')
    ensures params == "" && a == b
  {
    assert params == "" ==> params + b == b;
  }

  /** Two lists that print alike begin with the same plain name. */
  lemma FirstItemSplits(name: string, plain: seq<Item>, tail: string, items: seq<Item>, tail': string)
    requires plain != [] && items != [] && PrintItems(plain).Success? && PrintItems(items).Success?
    requires plain[0] == Item(Str(name), None) && items[0].value.Str?
    requires PrintItems(plain).value + (")" + tail) == PrintItems(items).value + (")" + tail')
    ensures items[0].value.text == name && items[0].params.GetOr([]) == []
      && AfterItem(plain, tail) == AfterItem(items, tail')
  {
    NoParamsText();
    AfterBegins(plain, tail);
    hide PrintItems, PrintParams, Quoted, AfterItem;
    ItemsCons(plain, tail);
    ItemsCons(items, tail');
    var params := PrintParams(items[0].params.GetOr([])).value;
    ParamsText(items[0].params.GetOr([]));
    assert "" + AfterItem(plain, tail) == AfterItem(plain, tail);
    QuotedSplits(name, items[0].value.text, "" + AfterItem(plain, tail), params + AfterItem(items, tail'));
    AfterSplits(params, AfterItem(plain, tail), AfterItem(items, tail'));
  }

  lemma AfterBegins(items: seq<Item>, tail: string)
    requires items != []
    ensures AfterItem(items, tail) != "" && AfterItem(items, tail)[0] == if |items| == 1 then ')' else ' '
  {
    hide PrintItems;
  }

  lemma {:induction false} ItemsSplit(cs: seq<string>, items: seq<Item>, tail: string, tail': string)
    requires PrintItems(items).Success? && forall i :: 0 <= i < |items| ==> items[i].value.Str?
    requires PrintItems(InputItems(cs)).Success?
      && PrintItems(InputItems(cs)).value + (")" + tail) == PrintItems(items).value + (")" + tail')
    ensures |cs| == |items| && forall i ::
      0 <= i < |cs| ==> items[i].value.text == cs[i] && items[i].params.GetOr([]) == []
    decreases |cs|
  {
    NoItems();
    hide PrintItems, PrintParams, Quoted, AfterItem;
    var plain := InputItems(cs);
    if cs == [] && items != [] {
      ItemsCons(items, tail');
      QuoteIsNoParen(items[0].value.text, PrintParams(items[0].params.GetOr([])).value + AfterItem(items, tail'), tail);
    } else if cs != [] && items == [] {
      ItemsCons(plain, tail);
      QuoteIsNoParen(cs[0], PrintParams([]).value + AfterItem(plain, tail), tail');
    } else if cs != [] {
      FirstItemSplits(cs[0], plain, tail, items, tail');
      AfterBegins(plain, tail);
      AfterBegins(items, tail');
      if |cs| > 1 {
        assert plain[1..] == InputItems(cs[1..]);
        ItemsPrintEach(plain);
        ItemsPrintEach(items);
        AfterItemSplits(plain, tail, items, tail');
        ItemsSplit(cs[1..], items[1..], tail, tail');
      }
    }
  }

  lemma AfterItemSplits(a: seq<Item>, tail: string, b: seq<Item>, tail': string)
    requires |a| > 1 && |b| > 1 && PrintItems(a[1..]).Success? && PrintItems(b[1..]).Success?
      && AfterItem(a, tail) == AfterItem(b, tail')
    ensures PrintItems(a[1..]).value + (")" + tail) == PrintItems(b[1..]).value + (")" + tail')
  {
    hide PrintItems;
    assert AfterItem(a, tail)[1..] == PrintItems(a[1..]).value + (")" + tail);
    assert AfterItem(b, tail')[1..] == PrintItems(b[1..]).value + (")" + tail');
  }

  lemma NoItems()
    ensures PrintItems([]) == Success("")
  {
  }

  lemma QuoteIsNoParen(name: string, rest: string, tail: string)
    ensures Quoted(name) + rest != "" + (")" + tail)
  {
    assert (Quoted(name) + rest)[0] == '"';
    assert ("" + (")" + tail))[0] == ')';
  }

  lemma {:induction false} IdentifiersIndex(cs: seq<string>)
    requires Identifiers(cs).Success?
    ensures |Identifiers(cs).value| == |cs|
    ensures forall i :: 0 <= i < |cs| ==> ParseIdentifier(cs[i]) == Success(Identifiers(cs).value[i])
  {
    hide ParseIdentifier;
    if cs != [] {
      IdentifiersIndex(cs[1..]);
      assert cs == [cs[0]] + cs[1..];
    }
  }

  /** The last line determines the components. */
  lemma LastCovers(cs: seq<string>, p: SignatureParameters, cs': seq<string>, p': SignatureParameters)
    requires PlainNames(cs) && ParamsLine(cs, p).Success? && ParamsLine(cs, p) == ParamsLine(cs', p')
    ensures cs == cs'
  {
    PlainItems(cs);
    IdentifiersIndex(cs');
    hide PlainNames, Identifiers, ParamsOf, ParseIdentifier;
    var items', ps, ps' := Identifiers(cs').value, ParamsOf(p).value, ParamsOf(p').value;
    ListIs(InputItems(cs), ps);
    ListIs(items', ps');
    assert ("(" + (PrintItems(InputItems(cs)).value + (")" + PrintParams(ps).value)))[1..]
        == PrintItems(InputItems(cs)).value + (")" + PrintParams(ps).value);
    assert ("(" + (PrintItems(items').value + (")" + PrintParams(ps').value)))[1..] == PrintItems(items').value
      + (")" + PrintParams(ps').value);
    hide PrintInnerList, PrintItems, PrintParams;
    ItemsSplit(cs, items', PrintParams(ps).value, PrintParams(ps').value);
    forall i | 0 <= i < |cs|
      ensures cs[i] == cs'[i]
    {
      NoParams(cs'[i]);
    }
  }

  lemma ListIs(items: seq<Item>, ps: Params)
    requires PrintInnerList(items, Some(ps)).Success?
    ensures PrintItems(items).Success? && PrintParams(ps).Success?
    ensures PrintInnerList(items, Some(ps)).value == "(" + (PrintItems(items).value + (")" + PrintParams(ps).value))
  {
    hide PrintItems, PrintParams;
  }

  // --- The lines as values between separators ---

  ghost predicate SameValue(name: string, m: Message, h: Headers, m': Message, h': Headers) {
    ComponentValue(name, m, h).Success? && ComponentValue(name, m, h) == ComponentValue(name, m', h')
  }

  ghost predicate AllSame(cs: seq<string>, m: Message, h: Headers, m': Message, h': Headers) {
    forall i :: 0 <= i < |cs| ==> SameValue(cs[i], m, h, m', h')
  }

  ghost predicate AllValued(cs: seq<string>, m: Message, h: Headers) {
    forall i :: 0 <= i < |cs| ==> ComponentValue(cs[i], m, h).Success?
  }

  lemma PlainLine(c: string, m: Message, h: Headers)
    requires c != "" && forall x :: x in c ==> x != ';'
    ensures Line(c, m, h).Success? <==> ComponentValue(c, m, h).Success?
  {
    PlainIdentifier(c);
    NoParamsText();
    hide ParseIdentifier, ComponentValue, PrintParams, EscapeString;
  }

  lemma NoneValued(m: Message, h: Headers)
    ensures AllValued([], m, h)
  {
  }

  lemma AllValuedCons(cs: seq<string>, m: Message, h: Headers)
    requires cs != []
    ensures AllValued(cs, m, h) <==> ComponentValue(cs[0], m, h).Success? && AllValued(cs[1..], m, h)
  {
    hide ComponentValue;
    assert forall i :: 1 <= i < |cs| ==> cs[i] == cs[1..][i - 1];
    forall i | 0 <= i < |cs| - 1
      ensures cs[1..][i] == cs[i + 1]
    {
    }
  }

  lemma {:induction false} LinesSucceed(cs: seq<string>, m: Message, h: Headers)
    requires PlainNames(cs)
    ensures Lines(cs, m, h).Success? <==> AllValued(cs, m, h)
  {
    hide Line, ComponentValue, AllValued;
    if cs == [] {
      NoneValued(m, h);
    } else {
      PlainLine(cs[0], m, h);
      LinesSucceed(cs[1..], m, h);
      AllValuedCons(cs, m, h);
    }
  }

  /** The values of the covered components. */
  function ValuesOf(cs: seq<string>, m: Message, h: Headers): (vs: seq<string>)
    requires AllValued(cs, m, h)
    ensures |vs| == |cs|
  {
    seq(|cs|, i requires 0 <= i < |cs| => ComponentValue(cs[i], m, h).value)
  }

  /** The lines of plain names with these values. */
  function LinesText(cs: seq<string>, vs: seq<string>): string
    requires |vs| == |cs|
  {
    if cs == [] then "" else Quoted(cs[0]) + (": " + (vs[0] + ("\n" + LinesText(cs[1..], vs[1..]))))
  }

  lemma PlainLineIs(c: string, m: Message, h: Headers)
    requires c != "" && (forall x :: x in c ==> x != ';') && ComponentValue(c, m, h).Success?
    ensures Line(c, m, h) == Success(Quoted(c) + (": " + ComponentValue(c, m, h).value))
  {
    PlainIdentifier(c);
    NoParamsText();
    hide ParseIdentifier, ComponentValue, PrintParams, EscapeString;
    var v := ComponentValue(c, m, h).value;
    assert Quoted(c) + "" + ": " + v == Quoted(c) + (": " + v);
  }

  lemma {:induction false} LinesAre(cs: seq<string>, m: Message, h: Headers)
    requires PlainNames(cs) && AllValued(cs, m, h)
    ensures Lines(cs, m, h) == Success(LinesText(cs, ValuesOf(cs, m, h)))
  {
    hide Line, ComponentValue, AllValued, Quoted;
    if cs != [] {
      AllValuedCons(cs, m, h);
      PlainLineIs(cs[0], m, h);
      LinesAre(cs[1..], m, h);
      ValuesCons(cs, m, h);
      var v, rest := ComponentValue(cs[0], m, h).value, Lines(cs[1..], m, h).value;
      hide Lines, LinesText;
      LineRegroup(Quoted(cs[0]), v, rest);
    }
  }

  lemma ValuesCons(cs: seq<string>, m: Message, h: Headers)
    requires cs != [] && AllValued(cs, m, h) && AllValued(cs[1..], m, h)
    ensures ValuesOf(cs, m, h)[0] == ComponentValue(cs[0], m, h).value
    ensures ValuesOf(cs, m, h)[1..] == ValuesOf(cs[1..], m, h)
  {
    hide ComponentValue;
  }

  lemma LineRegroup(q: string, v: string, rest: string)
    ensures q + (": " + v) + "\n" + rest == q + (": " + (v + ("\n" + rest)))
  {
    Associate(v, "\n", rest);
    Associate(": ", v, "\n" + rest);
    Associate(q + (": " + v), "\n", rest);
    Associate(q, ": " + v, "\n" + rest);
  }

  /** How the line of a component begins, behind the break that ends the line before it. */
  function Opening(name: string): string {
    "\n" + (Quoted(name) + ": ")
  }

  function Openings(cs: seq<string>): (ss: seq<string>)
    ensures |ss| == |cs|
  {
    seq(|cs|, i requires 0 <= i < |cs| => Opening(cs[i]))
  }

  lemma {:induction false} EscapeOneLine(s: string)
    requires OneLine(s)
    ensures OneLine(EscapeString(s))
  {
    if s != "" {
      assert s[0] in s && forall c :: c in s[1..] ==> c in s;
      EscapeOneLine(s[1..]);
    }
  }

  lemma OpeningSeparates(name: string)
    requires OneLine(name)
    ensures Separator(Opening(name))
  {
    EscapeOneLine(name);
    assert OneLine("\"") && OneLine("\": ");
    var rest := Quoted(name) + ": ";
    assert rest == "\"" + (EscapeString(name) + "\": ");
    hide EscapeString, Quoted, OneLine;
    OneLineJoin(EscapeString(name), "\": ");
    OneLineJoin("\"", EscapeString(name) + "\": ");
    BreakThenLine(rest);
  }

  lemma BreakThenLine(s: string)
    requires OneLine(s)
    ensures Separator("\n" + s)
  {
    assert forall k :: 1 <= k < |"\n" + s| ==> ("\n" + s)[k] == s[k - 1] && s[k - 1] in s;
  }

  /** The lines are the values joined by the openings, within a first opening and a last break. */
  lemma {:induction false} LinesJoined(cs: seq<string>, vs: seq<string>)
    requires |vs| == |cs| > 0
    ensures LinesText(cs, vs) == Quoted(cs[0]) + (": " + (Joined(Openings(cs[1..]), vs) + "\n"))
    decreases |cs|
  {
    hide Quoted;
    var ss, q := Openings(cs[1..]), Quoted(cs[0]);
    if |cs| == 1 {
      assert LinesText(cs[1..], vs[1..]) == "" && "\n" + "" == "\n";
    } else {
      LinesJoined(cs[1..], vs[1..]);
      assert ss[1..] == Openings(cs[1..][1..]);
      var rest := Joined(ss[1..], vs[1..]);
      hide Joined, LinesText, Openings;
      BreakRegroup(vs[0], Quoted(cs[1]), rest);
    }
  }

  lemma BreakRegroup(v: string, q: string, rest: string)
    ensures v + ("\n" + (q + (": " + (rest + "\n")))) == (v + (("\n" + (q + ": ")) + rest)) + "\n"
  {
    Associate(q, ": ", rest + "\n");
    Associate("\n", q + ": ", rest + "\n");
    Associate("\n" + (q + ": "), rest, "\n");
    Associate(v, ("\n" + (q + ": ")) + rest, "\n");
  }

  /** Some component's opening occurs in its value or in the one before it. */
  ghost predicate ConfusableAt(cs: seq<string>, vs: seq<string>, i: nat) {
    1 <= i < |cs| && i < |vs| && (Occurs(Opening(cs[i]), vs[i - 1]) || Occurs(Opening(cs[i]), vs[i]))
  }

  ghost predicate Confusable(cs: seq<string>, vs: seq<string>) {
    exists i: nat :: ConfusableAt(cs, vs, i)
  }

  lemma ConfusableIs(cs: seq<string>, vs: seq<string>)
    requires |vs| == |cs| > 0
    ensures Confusable(cs, vs) <==> Ambiguous(Openings(cs[1..]), vs)
  {
    hide Occurs, Opening;
    var ss := Openings(cs[1..]);
    forall i: nat
      ensures ConfusableAt(cs, vs, i + 1) <==> AmbiguousAt(ss, vs, i)
    {
      assert i < |ss| ==> ss[i] == Opening(cs[i + 1]);
    }
    hide AmbiguousAt;
    if Confusable(cs, vs) {
      var i: nat :| ConfusableAt(cs, vs, i);
      assert AmbiguousAt(ss, vs, i - 1);
    }
  }

  lemma OpeningsSeparate(cs: seq<string>)
    requires OneLineNames(cs) && cs != []
    ensures Separators(Openings(cs[1..]))
  {
    hide OneLine, Separator, Opening;
    forall i | 0 <= i < |cs| - 1
      ensures Separator(Opening(cs[1..][i]))
    {
      assert cs[1..][i] == cs[i + 1];
      OpeningSeparates(cs[i + 1]);
    }
  }

  lemma SameJoined(cs: seq<string>, vs: seq<string>, vs': seq<string>)
    requires |vs| == |vs'| == |cs| > 0
    ensures LinesText(cs, vs) == LinesText(cs, vs') <==> Joined(Openings(cs[1..]), vs) == Joined(Openings(cs[1..]), vs')
  {
    LinesJoined(cs, vs);
    LinesJoined(cs, vs');
    hide LinesText, Joined, Openings, Quoted;
    var a, b := Joined(Openings(cs[1..]), vs), Joined(Openings(cs[1..]), vs');
    if LinesText(cs, vs) == LinesText(cs, vs') {
      SameLength(Quoted(cs[0]), ": " + (a + "\n"), Quoted(cs[0]), ": " + (b + "\n"));
      SameLength(": ", a + "\n", ": ", b + "\n");
      assert |a + "\n"| == |b + "\n"|;
      SameLength(a, "\n", b, "\n");
    }
  }

  /** For components on one line each, other values give the same lines if and only if the
      opening of some line occurs in its value or in the one before it. */
  lemma LinesReadTwice(cs: seq<string>, vs: seq<string>)
    requires OneLineNames(cs) && |vs| == |cs|
    ensures (exists vs': seq<string> :: |vs'| == |vs| && vs' != vs && LinesText(cs, vs') == LinesText(cs, vs)) <==>
      Confusable(cs, vs)
  {
    hide LinesText, Confusable, OneLineNames, Ambiguous;
    if cs == [] {
      NothingConfusable(vs);
    } else {
      var ss := Openings(cs[1..]);
      OpeningsSeparate(cs);
      ConfusableIs(cs, vs);
      hide Openings, Separators;
      forall vs': seq<string> | |vs'| == |vs|
        ensures LinesText(cs, vs') == LinesText(cs, vs) <==> Joined(ss, vs') == Joined(ss, vs)
      {
        SameJoined(cs, vs', vs);
      }
      hide Joined;
      AnotherReading(ss, vs);
    }
  }

  /** Values without line breaks are not confusable. */
  lemma OneLineNotConfusable(cs: seq<string>, vs: seq<string>)
    requires |vs| == |cs| && forall i :: 0 <= i < |vs| ==> OneLine(vs[i])
    ensures !Confusable(cs, vs)
  {
    hide OneLine, Occurs, Opening;
    forall i, name | 0 <= i < |vs|
      ensures !Occurs(Opening(name), vs[i])
    {
      OpeningOccursNot(name, vs[i]);
    }
  }

  lemma OpeningOccursNot(name: string, v: string)
    requires OneLine(v)
    ensures !Occurs(Opening(name), v)
  {
    hide Quoted;
    forall n: nat
      ensures !OccursAt(Opening(name), v, n)
    {
      assert Opening(name)[0] == '\n';
      assert n < |v| ==> v[n] in v;
      assert n + |Opening(name)| <= |v| ==> v[n..n + |Opening(name)|][0] == v[n];
    }
  }

  lemma NothingConfusable(vs: seq<string>)
    requires vs == []
    ensures !Confusable([], vs)
  {
  }

  lemma ValuesSame(cs: seq<string>, m: Message, h: Headers, m': Message, h': Headers)
    requires AllValued(cs, m, h) && AllValued(cs, m', h')
    ensures ValuesOf(cs, m, h) == ValuesOf(cs, m', h') <==> AllSame(cs, m, h, m', h')
  {
    hide ComponentValue;
    var vs, vs' := ValuesOf(cs, m, h), ValuesOf(cs, m', h');
    assert forall i :: 0 <= i < |cs| ==> vs[i] == ComponentValue(cs[i], m, h).value;
    assert forall i :: 0 <= i < |cs| ==> vs'[i] == ComponentValue(cs[i], m', h').value;
    if vs == vs' {
      assert forall i :: 0 <= i < |cs| ==> vs[i] == vs'[i];
    }
  }

  /** Equal bases cover the same components under the same parameters, whatever line breaks they
      contain, and with the same values unless the first one's are confusable. Nothing is asked
      of the second. */
  lemma BaseInjective(cs: seq<string>, m: Message, h: Headers, p: SignatureParameters,
                      cs': seq<string>, m': Message, h': Headers, p': SignatureParameters)
    requires Base(cs, m, h, p).Success? && Base(cs, m, h, p) == Base(cs', m', h', p')
    requires PlainNames(cs) && OneLineNames(cs)
    ensures cs == cs' && p == p' && AllValued(cs, m, LowerCased(h))
    ensures Lines(cs, m, LowerCased(h)) == Lines(cs, m', LowerCased(h'))
    ensures !Confusable(cs, ValuesOf(cs, m, LowerCased(h))) ==> AllSame(cs, m, LowerCased(h), m', LowerCased(h'))
  {
    hide Lines, ParamsLine, LowerCased, AllValued, AllSame, PlainNames, OneLineNames, Confusable, LinesText, ValuesOf;
    LastFound(cs, m, h, p, cs', m', h', p');
    LastCovers(cs, p, cs', p');
    LastSplits(cs, p, p');
    hide Base;
    LinesSucceed(cs, m, LowerCased(h));
    LinesSucceed(cs, m', LowerCased(h'));
    LinesAre(cs, m, LowerCased(h));
    LinesAre(cs, m', LowerCased(h'));
    LinesReadTwice(cs, ValuesOf(cs, m, LowerCased(h)));
    ValuesSame(cs, m, LowerCased(h), m', LowerCased(h'));
  }

  // --- Header fields ---

  /** Distinct names of header fields, as a signer covers them. */
  ghost predicate FieldNames(cs: seq<string>) {
    (forall i :: 0 <= i < |cs| ==> FieldName(cs[i])) && forall i, j :: 0 <= i < j < |cs| ==> cs[i] != cs[j]
  }

  ghost predicate FieldName(name: string) {
    name != "" && name[0] != '@' && Lower(name) == name && (forall c :: c in name ==> c != ';') && OneLine(name)
  }

  function Fields(cs: seq<string>, vs: seq<string>): Headers
    requires |vs| == |cs|
  {
    seq(|cs|, i requires 0 <= i < |cs| => (cs[i], vs[i]))
  }

  lemma FieldsHold(cs: seq<string>, vs: seq<string>, m: Message)
    requires FieldNames(cs) && |vs| == |cs|
    ensures AllValued(cs, m, Fields(cs, vs)) && ValuesOf(cs, m, Fields(cs, vs)) == vs
  {
    hide OneLine, Lower;
    var h := Fields(cs, vs);
    assert Distinct(h);
    forall i | 0 <= i < |cs|
      ensures ComponentValue(cs[i], m, h) == Success(vs[i])
    {
      assert h[i] == (cs[i], vs[i]) && FieldName(cs[i]);
      IndexUnique(h, i);
    }
  }

  lemma FieldsPlain(cs: seq<string>)
    requires FieldNames(cs)
    ensures PlainNames(cs) && OneLineNames(cs)
  {
    hide OneLine, Lower;
    assert forall i :: 0 <= i < |cs| ==> FieldName(cs[i]);
  }

  /** Other headers with the same lines exist if and only if the values are confusable. */
  lemma LinesConfused(cs: seq<string>, m: Message, h: Headers)
    requires FieldNames(cs) && AllValued(cs, m, h)
    ensures (exists h': Headers :: Lines(cs, m, h') == Lines(cs, m, h) && !AllSame(cs, m, h, m, h')) <==>
      Confusable(cs, ValuesOf(cs, m, h))
  {
    FieldsPlain(cs);
    hide Lines, AllValued, AllSame, FieldNames, PlainNames, OneLineNames, Confusable, LinesText, ValuesOf, Fields;
    var vs := ValuesOf(cs, m, h);
    LinesAre(cs, m, h);
    LinesReadTwice(cs, vs);
    if Confusable(cs, vs) {
      var vs': seq<string> :| |vs'| == |vs| && vs' != vs && LinesText(cs, vs') == LinesText(cs, vs);
      FieldsHold(cs, vs', m);
      var h' := Fields(cs, vs');
      LinesAre(cs, m, h');
      ValuesSame(cs, m, h, m, h');
      assert Lines(cs, m, h') == Lines(cs, m, h) && !AllSame(cs, m, h, m, h');
    }
    forall h': Headers | Lines(cs, m, h') == Lines(cs, m, h) && !AllSame(cs, m, h, m, h')
      ensures Confusable(cs, vs)
    {
      LinesSucceed(cs, m, h');
      LinesAre(cs, m, h');
      ValuesSame(cs, m, h, m, h');
    }
  }

  lemma MovedText(cs: seq<string>, vs: seq<string>, i: nat, a: string, b: string, c: string)
    requires |vs| == |cs| && 1 <= i < |cs| && vs[i - 1] == a + (Opening(cs[i]) + b) && vs[i] == c
    ensures LinesText(cs, vs[i - 1 := a][i := b + (Opening(cs[i]) + c)]) == LinesText(cs, vs)
  {
    hide LinesText, Opening, Joined;
    var ss := Openings(cs[1..]);
    assert ss[i - 1] == Opening(cs[i]);
    hide Openings;
    Move(ss, vs, i - 1, a, b, c);
    assert vs == vs[i - 1 := a + (ss[i - 1] + b)][i := c];
    SameJoined(cs, vs, vs[i - 1 := a][i := b + (ss[i - 1] + c)]);
  }

  /** Where an opening occurs in the value before it, the values may as well be cut there: the
      two messages have one base. */
  lemma MovedBase(cs: seq<string>, m: Message, h: Headers, h': Headers, p: SignatureParameters, i: nat,
                  a: string, b: string, c: string)
    requires PlainNames(cs) && 1 <= i < |cs|
    requires AllValued(cs, m, LowerCased(h)) && AllValued(cs, m, LowerCased(h'))
    requires var s, vs := Opening(cs[i]), ValuesOf(cs, m, LowerCased(h));
             vs[i - 1] == a + (s + b) && vs[i] == c &&
             ValuesOf(cs, m, LowerCased(h')) == vs[i - 1 := a][i := b + (s + c)]
    ensures Base(cs, m, h, p) == Base(cs, m, h', p)
  {
    hide AllValued, LowerCased, ParamsLine, Lines, ValuesOf, LinesText, Opening, PlainNames;
    LinesAre(cs, m, LowerCased(h));
    LinesAre(cs, m, LowerCased(h'));
    MovedText(cs, ValuesOf(cs, m, LowerCased(h)), i, a, b, c);
  }
}
