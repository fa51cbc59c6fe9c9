/** The signature base of section 2.5 of RFC 9421, over trimmed, lower-cased headers. */
module SignatureBase {
  import opened Records
  import opened Text
  import opened StructuredFields

  type Headers = seq<(string, string)>

  datatype SignatureParameters = SignatureParameters(keyid: string, created: Option<int>, expires: Option<int>,
    nonce: Option<string>)

  /** What the derived components read; an absent value is `None`. */
  datatype Message = Message(verb: Option<string>, authority: Option<string>, path: Option<string>,
    query: Option<string>, status: Option<nat>)

  datatype BaseError =
    | MissingDerived(name: string) | UnsupportedDerived(name: string) | MissingHeader(name: string)
    | EmptyIdentifier | MissingKeyId | UnsafeInteger | BadField(error: Error)

  const PARAMS_NAME := "@signature-params"
  const MAX_SAFE_INTEGER := 0x1F_FFFF_FFFF_FFFF

  // --- Headers ---

  function LowerCasedInto(headers: Headers, out: Headers): (r: Headers)
    decreases headers
  {
    if headers == [] then out
    else LowerCasedInto(headers[1..], Put(out, Lower(headers[0].0), Trim(headers[0].1)))
  }

  /** Names lower-cased, values trimmed; of names that collide the last value wins. */
  function LowerCased(headers: Headers): Headers {
    LowerCasedInto(headers, [])
  }

  method LowerCaseHeaders(headers: Headers) returns (out: Headers)
    ensures out == LowerCased(headers)
  {
    out := [];
    for i := 0 to |headers|
      invariant LowerCased(headers) == LowerCasedInto(headers[i..], out)
    {
      assert headers[i..][1..] == headers[i + 1..];
      out := Put(out, Lower(headers[i].0), Trim(headers[i].1));
    }
  }

  // --- The base ---

  /** A component identifier: a name, then optionally `;` parameters. */
  function ParseIdentifier(component: string): (r: Result<Item, BaseError>)
    ensures r.Success? ==> r.value.value.Str?
  {
    var (name, rest) := Span(c => c != ';', component);
    if name == "" then Failure(EmptyIdentifier)
    else if rest == "" then Success(Item(Str(name), None))
    else
      var ps := ParseParams(rest, []);
      if ps.Err? then Failure(BadField(ps.error)) else Success(Item(Str(name), Some(ps.value)))
  }

  function Required(name: string, value: Option<string>): Result<string, BaseError> {
    if value.None? || value.value == "" then Failure(MissingDerived(name)) else Success(value.value)
  }

  /** `headers` are already lower-cased and trimmed. */
  function ComponentValue(name: string, m: Message, headers: Headers): Result<string, BaseError> {
    if name == "@method" then Required(name, m.verb)
    else if name == "@authority" then Required(name, m.authority)
    else if name == "@path" then Required(name, m.path)
    else if name == "@query" then
      if m.query.None? then Failure(MissingDerived(name))
      else Success(if StartsWith(m.query.value, '?') then m.query.value else "?" + m.query.value)
    else if name == "@status" then
      if m.status.None? then Failure(MissingDerived(name)) else Success(Digits(m.status.value))
    else if StartsWith(name, '@') then Failure(UnsupportedDerived(name))
    else
      var value := Get(headers, Lower(name));
      if value.None? then Failure(MissingHeader(name)) else Success(value.value)
  }

  function Printed(r: Result<string, Error>): Result<string, BaseError> {
    if r.Success? then Success(r.value) else Failure(BadField(r.error))
  }

  function Line(component: string, m: Message, headers: Headers): Result<string, BaseError> {
    var id := ParseIdentifier(component);
    if id.Failure? then Failure(id.error)
    else
      var value := ComponentValue(id.value.value.text, m, headers);
      if value.Failure? then value
      else
        var prefix := Printed(PrintItem(id.value));
        if prefix.Failure? then prefix else Success(prefix.value + ": " + value.value)
  }

  /** Every covered component's line, each followed by a line break. */
  function Lines(components: seq<string>, m: Message, headers: Headers): Result<string, BaseError> {
    if components == [] then Success("")
    else
      var line := Line(components[0], m, headers);
      if line.Failure? then line
      else
        var rest := Lines(components[1..], m, headers);
        if rest.Failure? then rest else Success(line.value + "\n" + rest.value)
  }

  function Identifiers(components: seq<string>): Result<seq<Item>, BaseError> {
    if components == [] then Success([])
    else
      var id := ParseIdentifier(components[0]);
      var rest := Identifiers(components[1..]);
      if id.Failure? then Failure(id.error) else if rest.Failure? then rest else Success([id.value] + rest.value)
  }

  predicate Unsafe(n: Option<int>) {
    n.Some? && !(-MAX_SAFE_INTEGER <= n.value <= MAX_SAFE_INTEGER)
  }

  function OptionalParam(name: string, value: Option<BareItem>): Params {
    if value.Some? then [(name, value.value)] else []
  }

  function NumOf(n: Option<int>): Option<BareItem> {
    if n.Some? then Some(Num(n.value as real)) else None
  }

  function ParamsOf(p: SignatureParameters): Result<Params, BaseError> {
    if p.keyid == "" then Failure(MissingKeyId)
    else if Unsafe(p.created) || Unsafe(p.expires) then Failure(UnsafeInteger)
    else
      Success(OptionalParam("created", NumOf(p.created)) + OptionalParam("expires", NumOf(p.expires))
        + [("keyid", Str(p.keyid))]
              + OptionalParam("nonce", if p.nonce.Some? then Some(Str(p.nonce.value)) else None))
  }

  function ParamsLine(components: seq<string>, parameters: SignatureParameters): Result<string, BaseError> {
    var items := Identifiers(components);
    if items.Failure? then Failure(items.error)
    else
      var ps := ParamsOf(parameters);
      if ps.Failure? then Failure(ps.error) else Printed(PrintInnerList(items.value, Some(ps.value)))
  }

  /** `headers` as the caller holds them. */
  function Base(components: seq<string>, m: Message, headers: Headers,
      parameters: SignatureParameters): Result<string, BaseError>
  {
    var lines := Lines(components, m, LowerCased(headers));
    if lines.Failure? then lines
    else
      var last := ParamsLine(components, parameters);
      if last.Failure? then last else Success(lines.value + ("\"" + PARAMS_NAME + "\": " + last.value))
  }

  // --- Header lookups ---

  ghost predicate IsLowerCased(headers: Headers) {
    Distinct(headers) && forall i :: 0 <= i < |headers| ==> Lower(headers[i].0) == headers[i].0 && Trimmed(headers[i].1)
  }

  lemma LowerTwice(s: string)
    ensures Lower(Lower(s)) == Lower(s)
  {
  }

  lemma PutLowerCased(headers: Headers, name: string, value: string)
    requires IsLowerCased(headers) && Lower(name) == name && Trimmed(value)
    ensures IsLowerCased(Put(headers, name, value))
  {
  }

  lemma {:induction false} LowerCasedResult(headers: Headers, out: Headers)
    requires IsLowerCased(out)
    ensures IsLowerCased(LowerCasedInto(headers, out))
    decreases headers
  {
    hide Put, IsLowerCased, Lower, Trim;
    if headers != [] {
      LowerTwice(headers[0].0);
      PutLowerCased(out, Lower(headers[0].0), Trim(headers[0].1));
      LowerCasedResult(headers[1..], Put(out, Lower(headers[0].0), Trim(headers[0].1)));
    }
  }

  ghost predicate LowerNames(headers: Headers) {
    Distinct(headers) && forall i :: 0 <= i < |headers| ==> Lower(headers[i].0) == headers[i].0
  }

  function TrimAll(headers: Headers): (r: Headers)
    ensures |r| == |headers|
  {
    seq(|headers|, i requires 0 <= i < |headers| => (headers[i].0, Trim(headers[i].1)))
  }

  lemma TrimFirst(headers: Headers, out: Headers)
    requires headers != [] && LowerNames(out + headers)
    ensures var all' := out + [(headers[0].0, Trim(headers[0].1))] + headers[1..];
            LowerNames(all') && Distinct(all') && Lower(headers[0].0) == headers[0].0
  {
    hide Lower, Trim;
    var all := out + headers;
    assert all[|out|] == headers[0];
    var all' := out + [(headers[0].0, Trim(headers[0].1))] + headers[1..];
    assert forall j :: 0 <= j < |all| ==> all'[j].0 == all[j].0;
  }

  /** On names that are lower case and distinct, lower-casing only trims the values. */
  lemma {:induction false} LowerCasedTrims(headers: Headers, out: Headers)
    requires LowerNames(out + headers)
    ensures LowerCasedInto(headers, out) == out + TrimAll(headers)
    decreases headers
  {
    hide Lower, Trim, Put, LowerNames;
    if headers == [] {
      assert out + TrimAll(headers) == out;
    } else {
      var entry := (headers[0].0, Trim(headers[0].1));
      TrimFirst(headers, out);
      PutNew(out, entry.0, entry.1, headers[1..]);
      LowerCasedTrims(headers[1..], out + [entry]);
      assert out + [entry] + TrimAll(headers[1..]) == out + TrimAll(headers);
    }
  }

  lemma {:induction false} TrimAllIndex(headers: Headers, name: string)
    ensures IndexOf(TrimAll(headers), name) == IndexOf(headers, name)
  {
    hide Trim;
    if headers != [] {
      assert TrimAll(headers)[1..] == TrimAll(headers[1..]);
      TrimAllIndex(headers[1..], name);
    }
  }

  lemma LowerCasedGet(headers: Headers, name: string)
    requires LowerNames(headers)
    ensures Get(LowerCased(headers), name) == match Get(headers, name) case None => None case Some(v) => Some(Trim(v))
  {
    hide Lower, Trim;
    assert [] + headers == headers && [] + TrimAll(headers) == TrimAll(headers);
    LowerCasedTrims(headers, []);
    TrimAllIndex(headers, name);
  }

  /** The header that decides for a name: the last one with it, whatever its case. */
  ghost predicate DecidesHeader(headers: Headers, i: nat, name: string) {
    i < |headers| && Lower(headers[i].0) == name && forall j :: i < j < |headers| ==> Lower(headers[j].0) != name
  }

  lemma {:induction false} HeaderKept(headers: Headers, out: Headers, name: string)
    requires Distinct(out)
    ensures var value := Get(LowerCasedInto(headers, out), name);
            (forall i: nat :: DecidesHeader(headers, i, name) ==> value == Some(Trim(headers[i].1))) &&
            ((forall j :: 0 <= j < |headers| ==> Lower(headers[j].0) != name) ==> value == Get(out, name))
    decreases |headers|
  {
    hide Lower, Trim, Get, Put;
    if headers != [] {
      var more := headers[1..];
      PutGet(out, Lower(headers[0].0), Trim(headers[0].1), name);
      HeaderKept(more, Put(out, Lower(headers[0].0), Trim(headers[0].1)), name);
      assert forall j :: 0 <= j < |more| ==> more[j] == headers[j + 1];
      forall i: nat | DecidesHeader(headers, i, name)
        ensures Get(LowerCasedInto(headers, out), name) == Some(Trim(headers[i].1))
      {
        if i > 0 {
          assert more[i - 1] == headers[i] && DecidesHeader(more, i - 1, name);
        }
      }
    }
  }

  /** Looking up a lower-cased name gives the trimmed value of the last header with that name in any
      case, and nothing when there is none. */
  lemma HeaderMeans(headers: Headers, name: string)
    ensures var value := Get(LowerCased(headers), name);
            (forall i: nat :: DecidesHeader(headers, i, name) ==> value == Some(Trim(headers[i].1))) &&
            ((forall j :: 0 <= j < |headers| ==> Lower(headers[j].0) != name) ==> value == None)
  {
    HeaderKept(headers, [], name);
  }

  // --- The base depends on the headers only through the covered names ---

  lemma {:induction false} LinesAgree(components: seq<string>, m: Message, h: Headers, h': Headers)
    requires forall i :: 0 <= i < |components| && ParseIdentifier(components[i]).Success? ==>
               var name := Lower(ParseIdentifier(components[i]).value.value.text); Get(h, name) == Get(h', name)
    ensures Lines(components, m, h) == Lines(components, m, h')
  {
    hide ParseIdentifier, Lower, Get, PrintItem;
    if components != [] {
      assert components[0] == components[0];
      LinesAgree(components[1..], m, h, h');
    }
  }

  lemma BaseAgrees(components: seq<string>, m: Message, h: Headers, h': Headers, parameters: SignatureParameters)
    requires forall i :: 0 <= i < |components| && ParseIdentifier(components[i]).Success? ==>
               var name := Lower(ParseIdentifier(components[i]).value.value.text);
               Get(LowerCased(h), name) == Get(LowerCased(h'), name)
    ensures Base(components, m, h, parameters) == Base(components, m, h', parameters)
  {
    hide ParseIdentifier, Lower, Get, LowerCased, Lines, ParamsLine;
    LinesAgree(components, m, LowerCased(h), LowerCased(h'));
  }

  /** An identifier without `;` is its own name. */
  lemma PlainIdentifier(component: string)
    requires component != "" && forall c :: c in component ==> c != ';'
    ensures ParseIdentifier(component) == Success(Item(Str(component), None))
  {
    var p := c => c != ';';
    SpanOf(p, component, "");
    assert component + "" == component;
  }
}
