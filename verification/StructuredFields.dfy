/** Structured-field dictionaries (sections 3.2 and 4 of RFC 8941): data, printer, and the
    function each parser method computes. A parse consumes a prefix and returns the rest. */
module StructuredFields {
  import opened Records
  import opened Text
  import Base64

  type Byte = Base64.Byte

  datatype BareItem = Str(text: string) | Num(number: real) | Bool(flag: bool) | Bytes(bytes: seq<Byte>)
    | Token(token: string)
  type Params = seq<(string, BareItem)>
  datatype Item = Item(value: BareItem, params: Option<Params>)
  datatype Member = Plain(item: Item) | InnerList(items: seq<Item>, params: Option<Params>)
  type Dict = seq<(string, Member)>

  datatype Error =
    | Expected(c: char) | InvalidKey(key: string) | InvalidToken(text: string) | InvalidNumber(raw: string) | NotFinite
    | InvalidEscape | UnterminatedString | UnterminatedBytes | InvalidBoolean | ExpectedInnerListSpace
      | DuplicateKey(key: string)

  datatype Parse<+T> = Ok(value: T, rest: string) | Err(error: Error)

  // --- Character classes ---

  predicate IsLower(c: char) { 'a' <= c <= 'z' }

  predicate IsAlpha(c: char) { IsLower(c) || 'A' <= c <= 'Z' }

  predicate KeyChar(c: char) { IsLower(c) || IsDigit(c) || c == '_' || c == '.' || c == '*' || c == '-' }

  predicate TokenChar(c: char) {
    IsAlpha(c) || IsDigit(c) || c == '!' || '#' <= c <= '\'' || c == '*' || c == '+' || '-' <= c <= '/' || c == ':' ||
    '^' <= c <= '`' || c == '|' || c == '~'
  }

  predicate Blank(c: char) { c == ' ' || c == '\t' }

  predicate NotColon(c: char) { c != ':' }

  predicate ValidKey(key: string) {
    key != "" && (IsLower(key[0]) || key[0] == '*') && forall c :: c in key ==> KeyChar(c)
  }

  predicate ValidToken(t: string) {
    t != "" && (IsAlpha(t[0]) || t[0] == '*') && forall c :: c in t ==> TokenChar(c)
  }

  // --- Printer ---

  function EscapeString(s: string): string {
    if s == "" then ""
    else (if s[0] == '\\' || s[0] == '"' then ['\\', s[0]] else [s[0]]) + EscapeString(s[1..])
  }

  function TrimZeros(s: string): string {
    if s != "" && s[|s| - 1] == '0' then TrimZeros(s[..|s| - 1]) else s
  }

  function WithPoint(whole: string, fraction: string): string {
    whole + if fraction == "" then "" else "." + fraction
  }

  /** A count of thousandths with trailing zeros and a trailing point removed. */
  function PrintThousandths(n: nat): string {
    var digits := PadStart(Digits(n), 4);
    assert |digits| >= 4;
    WithPoint(digits[..|digits| - 3], TrimZeros(digits[|digits| - 3..]))
  }

  /** From here on JavaScript prints numbers with an exponent. */
  const EXPONENT_FROM: real := 1000000000000000000000.0

  function ExponentText(n: nat): string {
    var digits := Digits(n);
    WithPoint(digits[..1], TrimZeros(digits[1..])) + "e+" + Digits(|digits| - 1)
  }

  /** Whole numbers in decimal, others with three decimals, ties away from zero; large ones with
      an exponent. */
  function PrintMagnitude(m: real): string
    requires m >= 0.0
  {
    if m >= EXPONENT_FROM then ExponentText(m.Floor)
    else if m.Floor as real == m then Digits(m.Floor)
    else PrintThousandths((m * 1000.0 + 0.5).Floor)
  }

  function PrintNumber(x: real): string {
    if x < 0.0 then "-" + PrintMagnitude(-x) else PrintMagnitude(x)
  }

  const TWO_TO_97: nat := 0x2_0000_0000_0000_0000_0000_0000

  /** 2^1024 - 2^970: where a decimal becomes infinite as an IEEE double. */
  const INFINITE: nat :=
    0x3F_FFFF_FFFF_FFFF * TWO_TO_97 * TWO_TO_97 * TWO_TO_97 * TWO_TO_97 * TWO_TO_97
    * TWO_TO_97 * TWO_TO_97 * TWO_TO_97 * TWO_TO_97 * TWO_TO_97

  predicate Finite(x: real) {
    -(INFINITE as real) < x < INFINITE as real
  }

  function PrintBare(b: BareItem): Result<string, Error> {
    match b
    case Bytes(bytes) => Success(":" + Base64.Encode(bytes) + ":")
    case Str(text) => Success("\"" + EscapeString(text) + "\"")
    case Bool(flag) => Success(if flag then "?1" else "?0")
    case Num(number) => if Finite(number) then Success(PrintNumber(number)) else Failure(NotFinite)
    case Token(token) => if ValidToken(token) then Success(token) else Failure(InvalidToken(token))
  }

  function Append(a: Result<string, Error>, b: Result<string, Error>): Result<string, Error> {
    if a.Failure? then a else if b.Failure? then b else Success(a.value + b.value)
  }

  function PrintParam(p: (string, BareItem)): Result<string, Error> {
    if !ValidKey(p.0) then Failure(InvalidKey(p.0))
    else if p.1 == Bool(true) then Success(";" + p.0)
    else Append(Success(";" + p.0 + "="), PrintBare(p.1))
  }

  function PrintParams(ps: Params): Result<string, Error> {
    if ps == [] then Success("") else Append(PrintParam(ps[0]), PrintParams(ps[1..]))
  }

  function PrintItem(i: Item): Result<string, Error> {
    Append(PrintBare(i.value), PrintParams(i.params.GetOr([])))
  }

  function PrintItems(items: seq<Item>): Result<string, Error> {
    if items == [] then Success("")
    else if |items| == 1 then PrintItem(items[0])
    else Append(Append(PrintItem(items[0]), Success(" ")), PrintItems(items[1..]))
  }

  function PrintInnerList(items: seq<Item>, params: Option<Params>): Result<string, Error> {
    Append(Append(Append(Success("("), PrintItems(items)), Success(")")), PrintParams(params.GetOr([])))
  }

  function PrintMember(key: string, m: Member): Result<string, Error> {
    if !ValidKey(key) then Failure(InvalidKey(key))
    else match m
      case InnerList(items, params) => Append(Success(key + "="), PrintInnerList(items, params))
      case Plain(Item(value, params)) =>
        if value == Bool(true) then Append(Success(key), PrintParams(params.GetOr([])))
        else Append(Success(key + "="), PrintItem(m.item))
  }

  function PrintDict(d: Dict): Result<string, Error> {
    if d == [] then Success("")
    else if |d| == 1 then PrintMember(d[0].0, d[0].1)
    else Append(Append(PrintMember(d[0].0, d[0].1), Success(", ")), PrintDict(d[1..]))
  }

  // --- Parser, as functions of the remaining input ---

  predicate StartsWith(s: string, c: char) {
    s != "" && s[0] == c
  }

  function SkipBlanks(s: string): string {
    Span(Blank, s).1
  }

  function ParseKey(s: string): (r: Parse<string>)
    ensures r.Ok? ==> |r.rest| < |s| && ValidKey(r.value)
  {
    var (key, rest) := Span(KeyChar, s);
    if ValidKey(key) then Ok(key, rest) else Err(InvalidKey(key))
  }

  /** The rest of a quoted string, `out` being what has been read of it. */
  function ParseStringTail(s: string, out: string): (r: Parse<string>)
    ensures r.Ok? ==> |r.rest| < |s|
  {
    if s == "" then Err(UnterminatedString)
    else if s[0] == '"' then Ok(out, s[1..])
    else if s[0] == '\\' then
      if |s| > 1 && (s[1] == '"' || s[1] == '\\') then ParseStringTail(s[2..], out + [s[1]]) else Err(InvalidEscape)
    else ParseStringTail(s[1..], out + [s[0]])
  }

  function ParseBytes(s: string): (r: Parse<BareItem>)
    requires StartsWith(s, ':')
    ensures r.Ok? ==> |r.rest| < |s|
  {
    var (encoded, rest) := Span(NotColon, s[1..]);
    if rest == "" then Err(UnterminatedBytes) else Ok(Bytes(Base64.Decode(encoded)), rest[1..])
  }

  function ParseBool(s: string): (r: Parse<BareItem>)
    requires StartsWith(s, '?')
    ensures r.Ok? ==> |r.rest| < |s|
  {
    if |s| > 1 && (s[1] == '0' || s[1] == '1') then Ok(Bool(s[1] == '1'), s[2..]) else Err(InvalidBoolean)
  }

  function NumberOf(negative: bool, whole: string, fraction: string): real {
    var magnitude := Value(whole + fraction) as real / Pow10(|fraction|) as real;
    if negative then -magnitude else magnitude
  }

  function ParseNumber(s: string): (r: Parse<BareItem>)
    requires s != "" && (s[0] == '-' || IsDigit(s[0]))
    ensures r.Ok? ==> |r.rest| < |s|
  {
    var negative := s[0] == '-';
    var (whole, afterWhole) := Span(IsDigit, if negative then s[1..] else s);
    var point := StartsWith(afterWhole, '.');
    var (fraction, rest) := if point then Span(IsDigit, afterWhole[1..]) else ("", afterWhole);
    if whole + fraction == "" || !Finite(NumberOf(negative, whole, fraction)) then Err(InvalidNumber(s[..|s| - |rest|]))
    else Ok(Num(NumberOf(negative, whole, fraction)), rest)
  }

  function ParseToken(s: string): (r: Parse<BareItem>)
    ensures r.Ok? ==> |r.rest| < |s| && r.value.Token? && ValidToken(r.value.token)
  {
    var (token, rest) := Span(TokenChar, s);
    if ValidToken(token) then Ok(Token(token), rest) else Err(InvalidToken(token))
  }

  function ParseBare(s: string): (r: Parse<BareItem>)
    ensures r.Ok? ==> |r.rest| < |s|
    ensures r.Ok? && r.value.Token? ==> ValidToken(r.value.token)
  {
    if StartsWith(s, '"') then
      var r := ParseStringTail(s[1..], "");
      if r.Ok? then Ok(Str(r.value), r.rest) else Err(r.error)
    else if StartsWith(s, ':') then ParseBytes(s)
    else if StartsWith(s, '?') then ParseBool(s)
    else if s != "" && (s[0] == '-' || IsDigit(s[0])) then ParseNumber(s)
    else ParseToken(s)
  }

  function ParseParams(s: string, ps: Params): (r: Parse<Params>)
    ensures r.Ok? ==> |r.rest| <= |s|
    decreases |s|
  {
    if !StartsWith(s, ';') then Ok(ps, s)
    else
      var key := ParseKey(s[1..]);
      if key.Err? then Err(key.error)
      else if StartsWith(key.rest, '=') then
        var value := ParseBare(key.rest[1..]);
        if value.Err? then Err(value.error) else ParseParams(value.rest, Put(ps, key.value, value.value))
      else ParseParams(key.rest, Put(ps, key.value, Bool(true)))
  }

  function ParseItem(s: string): (r: Parse<Item>)
    ensures r.Ok? ==> |r.rest| < |s|
  {
    var value := ParseBare(s);
    if value.Err? then Err(value.error)
    else
      var ps := ParseParams(value.rest, []);
      if ps.Err? then Err(ps.error)
      else Ok(Item(value.value, if ps.value == [] then None else Some(ps.value)), ps.rest)
  }

  /** The items of an inner list up to, not including, its closing parenthesis. */
  function ParseItems(s: string, items: seq<Item>): (r: Parse<seq<Item>>)
    ensures r.Ok? ==> |r.rest| <= |s| && StartsWith(r.rest, ')')
    decreases |s|
  {
    var s1 := SkipBlanks(s);
    if StartsWith(s1, ')') then Ok(items, s1)
    else
      var item := ParseItem(s1);
      if item.Err? then Err(item.error)
      else if StartsWith(item.rest, ')') then Ok(items + [item.value], item.rest)
      else if !StartsWith(item.rest, ' ') then Err(ExpectedInnerListSpace)
      else ParseItems(SkipBlanks(item.rest), items + [item.value])
  }

  function ParseInnerList(s: string): (r: Parse<Member>)
    requires StartsWith(s, '(')
    ensures r.Ok? ==> |r.rest| < |s|
  {
    var items := ParseItems(s[1..], []);
    if items.Err? then Err(items.error)
    else
      var ps := ParseParams(items.rest[1..], []);
      if ps.Err? then Err(ps.error) else Ok(InnerList(items.value, Some(ps.value)), ps.rest)
  }

  function ParseItemOrInnerList(s: string): (r: Parse<Member>)
    ensures r.Ok? ==> |r.rest| < |s|
  {
    if StartsWith(s, '(') then ParseInnerList(s)
    else
      var item := ParseItem(s);
      if item.Err? then Err(item.error) else Ok(Plain(item.value), item.rest)
  }

  /** What follows a member's key: `=` and a value, or the parameters of a bare `true`. */
  function ParseMemberValue(s: string): (r: Parse<Member>)
    ensures r.Ok? ==> |r.rest| <= |s|
  {
    if StartsWith(s, '=') then ParseItemOrInnerList(s[1..])
    else
      var ps := ParseParams(s, []);
      if ps.Err? then Err(ps.error) else Ok(Plain(Item(Bool(true), Some(ps.value))), ps.rest)
  }

  /** One `key`, `key=value` or `key;params` added to the dictionary read so far. */
  function ParseMember(s: string, d: Dict): (r: Parse<Dict>)
    ensures r.Ok? ==> |r.rest| < |s|
  {
    var key := ParseKey(s);
    if key.Err? then Err(key.error)
    else if Has(d, key.value) then Err(DuplicateKey(key.value))
    else
      var m := ParseMemberValue(key.rest);
      if m.Err? then Err(m.error) else Ok(Put(d, key.value, m.value), m.rest)
  }

  function ParseMembers(s: string, d: Dict): Result<Dict, Error>
    decreases |s|
  {
    if s == "" then Success(d)
    else
      var m := ParseMember(s, d);
      if m.Err? then Failure(m.error)
      else
        var rest := SkipBlanks(m.rest);
        if rest == "" then Success(m.value)
        else if rest[0] != ',' then Failure(Expected(','))
        else ParseMembers(SkipBlanks(rest[1..]), m.value)
  }

  function ParseDict(s: string): Result<Dict, Error> {
    ParseMembers(SkipBlanks(s), [])
  }
}
