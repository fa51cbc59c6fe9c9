/** The text of a base and of the two signature fields, written out. */
module KnownAnswers {
  import opened Records
  import opened Text
  import opened StructuredFields
  import opened SignatureBase
  import opened SfRoundTrip
  import opened Signatures
  import opened SignThenVerify
  import opened LineBreaks
  import opened BaseEvidence
  import opened TamperEvidence
  import opened FieldAnswers
  import Base64

  /** One line: the quoted name, a colon and a blank, the value, a break. */
  function LineText(name: string, value: string): string {
    Name(name) + ": " + value + "\n"
  }

  function Flat(cs: seq<string>, vs: seq<string>): string
    requires |vs| == |cs|
  {
    if cs == [] then "" else LineText(cs[0], vs[0]) + Flat(cs[1..], vs[1..])
  }

  lemma {:induction false} FlatLines(cs: seq<string>, vs: seq<string>)
    requires |vs| == |cs| && forall i :: 0 <= i < |cs| ==> Unescaped(cs[i])
    ensures LinesText(cs, vs) == Flat(cs, vs)
  {
    hide EscapeString, Unescaped;
    if cs != [] {
      EscapePlain(cs[0]);
      FlatLines(cs[1..], vs[1..]);
      var q, v, rest := Name(cs[0]), vs[0], Flat(cs[1..], vs[1..]);
      Associate(v, "\n", rest);
      Associate(q + ": ", v + "\n", rest);
      Associate(q + ": ", v, "\n");
      Associate(q, ": ", v + ("\n" + rest));
    }
  }

  function Names(cs: seq<string>): string {
    if cs == [] then "" else if |cs| == 1 then Name(cs[0]) else Name(cs[0]) + " " + Names(cs[1..])
  }

  lemma {:induction false} NamesPrinted(cs: seq<string>)
    requires forall i :: 0 <= i < |cs| ==> Unescaped(cs[i])
    ensures PrintItems(InputItems(cs)) == Success(Names(cs))
  {
    NoItems();
    hide EscapeString, Unescaped, PrintItems;
    if cs == [] {
      assert InputItems(cs) == [];
    } else {
      var items := InputItems(cs);
      ItemPrinted(cs[0]);
      if |cs| == 1 {
        LoneItem(items);
      } else {
        assert items[1..] == InputItems(cs[1..]);
        NamesPrinted(cs[1..]);
        PrintItemsStep(items);
        Associate(Name(cs[0]), " ", Names(cs[1..]));
      }
    }
  }

  lemma ItemPrinted(name: string)
    requires Unescaped(name)
    ensures PrintItem(Item(Str(name), None)) == Success(Name(name))
  {
    EscapePlain(name);
    NoParamsText();
    hide PrintParams, EscapeString;
    assert Name(name) + "" == Name(name);
  }

  /** The list of names, then the key id. */
  function Covering(cs: seq<string>, kid: string): string {
    "(" + Names(cs) + ");keyid=" + Name(kid)
  }

  lemma CoveringPrinted(cs: seq<string>, kid: string)
    requires Unescaped(kid) && forall i :: 0 <= i < |cs| ==> Unescaped(cs[i])
    ensures PrintInnerList(InputItems(cs), Some([("keyid", Str(kid))])) == Success(Covering(cs, kid))
  {
    NamesPrinted(cs);
    EscapePlain(kid);
    KeysValid();
    var ps: Params := [("keyid", Str(kid))];
    assert ps[1..] == [];
    NoParamsText();
    hide PrintItems, EscapeString, ValidKey, Unescaped, Names;
    var text := ";" + "keyid" + "=" + Name(kid);
    assert text + "" == text;
    assert PrintParams(ps) == Success(text);
    hide PrintParams;
    assert "(" + Names(cs) + ")" + text == Covering(cs, kid);
  }

  /** The base of a request or response, whole: a line for each covered component, then the covered
      names and the key id. */
  lemma BaseText(cs: seq<string>, m: Message, h: Headers, kid: string)
    requires PlainNames(cs) && AllValued(cs, m, LowerCased(h)) && kid != "" && Unescaped(kid)
    requires forall i :: 0 <= i < |cs| ==> Unescaped(cs[i])
    ensures Base(cs, m, h, SignatureParameters(kid, None, None, None))
         == Success(Flat(cs, ValuesOf(cs, m, LowerCased(h))) + Name("@signature-params") + ": " + Covering(cs, kid))
  {
    hide Unescaped, AllValued, LowerCased, ValuesOf, PrintInnerList, InputItems, Identifiers, PlainNames, Covering,
      Flat,
      Lines;
    LinesAre(cs, m, LowerCased(h));
    FlatLines(cs, ValuesOf(cs, m, LowerCased(h)));
    PlainItems(cs);
    CoveringPrinted(cs, kid);
    KidOnly(kid);
    var flat, last := Flat(cs, ValuesOf(cs, m, LowerCased(h))), Covering(cs, kid);
    assert flat + ("\"" + "@signature-params" + "\": " + last) == flat + Name("@signature-params") + ": " + last;
  }

  lemma KidOnly(kid: string)
    requires kid != ""
    ensures ParamsOf(SignatureParameters(kid, None, None, None)) == Success([("keyid", Str(kid))])
  {
    var ps: Params := [("keyid", Str(kid))];
    assert [] + [] + ps + [] == ps;
  }

  /** The two fields a signer attaches. */
  lemma FieldTexts(cs: seq<string>, signing: Signing, data: string)
    requires Unescaped(signing.kid) && forall i :: 0 <= i < |cs| ==> Unescaped(cs[i])
    ensures PrintDict(SignatureInputDict(cs, signing.kid)) == Success("sig1=" + Covering(cs, signing.kid))
    ensures PrintDict(SignatureDict(signing.sign(data))) == Success("sig1=:" + Base64.Encode(signing.sign(data)) + ":")
  {
    CoveringPrinted(cs, signing.kid);
    KeysValid();
    SignatureBack("sig1", signing.sign(data));
    hide Unescaped, PrintInnerList, ValidKey, Covering, ParseDict, Base64.Encode;
    assert "sig1" + "=:" == "sig1=:";
    var list := Covering(cs, signing.kid);
    var d := SignatureInputDict(cs, signing.kid);
    assert d[0].1 == InnerList(InputItems(cs), Some([("keyid", Str(signing.kid))]));
    assert d[1..] == [];
    assert "sig1" + "=" + list == "sig1=" + list;
  }

  /** The host in lower case, and the port where it is not the scheme's own. */
  function AuthorityText(url: Url): string {
    if ShownPort(url) == "" then Lower(url.hostname) else Lower(url.hostname) + ":" + ShownPort(url)
  }

  function HeaderText(h: Headers, name: string): string {
    Get(h, name).GetOr("")
  }

  /** What a request's signature covers, from its own fields and headers. */
  function CoveredValues(r: Request, h: Headers): seq<string> {
    [Upper(r.verb), AuthorityText(r.url), PathOf(r.url)] + (if r.url.search != "" then [r.url.search] else [])
    + [HeaderText(h, "ucp-agent")]
    + (if Mutating(Upper(r.verb)) then [HeaderText(h, "idempotency-key")] else [])
    + if r.body.Some? then [HeaderText(h, "content-digest"), HeaderText(h, "content-type")] else []
  }

  lemma DerivedTexts(r: Request, h: Headers)
    ensures var m := RequestMessage(r);
            (ComponentValue("@method", m, h).Success? ==> ComponentValue("@method", m, h).value == Upper(r.verb)) &&
            (ComponentValue("@authority", m, h).Success? ==>
              ComponentValue("@authority", m, h).value == AuthorityText(r.url)) &&
            (ComponentValue("@path", m, h).Success? ==> ComponentValue("@path", m, h).value == PathOf(r.url)) &&
            (r.url.search != "" ==> ComponentValue("@query", m, h) == Success(r.url.search))
  {
    hide Upper, Lower;
  }

  lemma CoveredText(r: Request, h: Headers, name: string)
    requires name == "ucp-agent" || name == "idempotency-key" || name == "content-digest" || name == "content-type"
    requires ComponentValue(name, RequestMessage(r), h).Success?
    ensures ComponentValue(name, RequestMessage(r), h).value == HeaderText(h, name)
  {
    HeaderValue(name, RequestMessage(r), h);
    hide Get, ComponentValue;
  }

  lemma RequestValues(r: Request, h: Headers)
    requires AllValued(RequestComponents(r), RequestMessage(r), h)
    ensures ValuesOf(RequestComponents(r), RequestMessage(r), h) == CoveredValues(r, h)
  {
    DerivedTexts(r, h);
    hide ComponentValue, RequestMessage, Mutating, Upper, AuthorityText, PathOf, HeaderText;
    var cs, vs, m := RequestComponents(r), CoveredValues(r, h), RequestMessage(r);
    forall name | name == "ucp-agent" || name == "idempotency-key" || name == "content-digest" || name == "content-type"
      ensures ComponentValue(name, m, h).Success? ==> ComponentValue(name, m, h).value == HeaderText(h, name)
    {
      if ComponentValue(name, m, h).Success? {
        CoveredText(r, h, name);
      }
    }
    assert |vs| == |cs|;
    forall i | 0 <= i < |cs|
      ensures ComponentValue(cs[i], m, h).value == vs[i]
    {
    }
  }

  /** The hosts that a parsed URL may have: one without colons, or an address in brackets. */
  lemma HostsMean(u: UrlParts, address: string)
    requires AllDigits(u.port) && (u.search == "" || u.search[0] == '?')
    requires ':' !in u.hostname || u.hostname == "[" + address + "]"
    ensures Parsed(u)
  {
  }

  /** A time is read and written if and only if it is an integer below 2^53. */
  lemma TimesMean(x: real)
    ensures SafeInteger(Some(Num(x))) ==
      if x.Floor as real == x && -9007199254740992.0 < x < 9007199254740992.0 then Some(Some(x.Floor)) else None
    ensures !Unsafe(Some(x.Floor)) <==> -9007199254740992.0 < x.Floor as real < 9007199254740992.0
    ensures !Unsafe(None) && SafeInteger(None) == Some(None)
  {
  }

  /** A signature has two integers of 32 octets, or of 48, or is not attached. */
  lemma WidthsMean(headers: Headers, cs: seq<string>, m: Message, signing: Signing)
    requires Base(cs, m, headers, SignatureParameters(signing.kid, None, None, None)).Success?
    ensures var base := Base(cs, m, headers, SignatureParameters(signing.kid, None, None, None)).value;
            Signed(headers, cs, m, signing) == Failure(WrongWidth) <==>
            |signing.sign(base)| != 2 * if signing.algorithm.ES256? then 32 else 48
  {
    hide Base, PrintDict;
  }

  lemma ProfileDict(url: string)
    requires Unescaped(url)
    ensures ParseDict("profile=" + Name(url)) == Success([("profile", Plain(Item(Str(url), None)))])
  {
    var d: Dict := [("profile", Plain(Item(Str(url), None)))];
    LettersValid("profile");
    EscapePlain(url);
    NoTail();
    hide ValidKey, PrintParams, PrintMember, EscapeString, Unescaped, ParseDict;
    ItemText("profile", Str(url), Name(url), None, "");
    assert Name(url) + "" == Name(url) && "profile" + "=" == "profile=";
    LastMember(d, "profile=" + Name(url));
    ParseUndoesPrint(d);
    assert ParsedDict(d) == [("profile", Plain(Item(Str(url), None)))];
  }

  /** The profile an agent header names, when that is a URL and not empty. */
  lemma ProfileMeans(env: Env, url: string)
    requires Unescaped(url)
    ensures ProfileUrl(env, "profile=" + Name(url)) == if url != "" && env.isUrl(url) then Some(url) else None
  {
    ProfileDict(url);
    hide ParseDict, Name, Unescaped;
  }

  /** A query is covered with its question mark, whether or not the caller wrote one. */
  lemma QueryMeans(m: Message, h: Headers, query: string)
    requires !StartsWith(query, '?')
    ensures ComponentValue("@query", m.(query := Some(query)), h) == Success("?" + query)
    ensures ComponentValue("@query", m.(query := Some("?" + query)), h) == Success("?" + query)
  {
  }

  /** No header stands in for a derived component that does not exist. */
  lemma DerivedRefused(name: string, m: Message, h: Headers)
    requires StartsWith(name, '@') && name !in ["@method", "@authority", "@path", "@query", "@status"]
    ensures ComponentValue(name, m, h) == Failure(UnsupportedDerived(name))
  {
  }

  /** A component is a name and its parameters; the name must not be empty. */
  lemma IdentifierMeans(name: string, ps: Params)
    requires (forall c :: c in name ==> c != ';') && PrintableParams(ps)
    ensures PrintParams(ps).Success?
    ensures ParseIdentifier(name + PrintParams(ps).value)
         == if name == "" then Failure(EmptyIdentifier)
            else Success(Item(Str(name), if ps == [] then None else Some(ps)))
  {
    hide ValidKey, PrintParam, ParseParams;
    ParamsBack(ps, [], "");
    var text := PrintParams(ps).value;
    assert text + "" == text && [] + ps == ps;
    SpanOf(c => c != ';', name, text);
  }
}
