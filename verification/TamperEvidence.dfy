/** A message that is accepted was signed: it agrees with one that was on every covered
    component and on the body. Requests here, responses in `ResponseEvidence`. */
module TamperEvidence {
  import opened Records
  import opened Text
  import opened StructuredFields
  import opened SignatureBase
  import opened SfRoundTrip
  import opened Signatures
  import opened SignThenVerify
  import opened LineBreaks
  import opened BaseEvidence
  import Base64
  import Der

  /** A message someone signed. */
  datatype Sent =
    | SentRequest(request: Request, agent: string, signing: Signing)
    | SentResponse(response: Response, signing: Signing)

  function Components(s: Sent): seq<string> {
    match s
    case SentRequest(r, _, _) => RequestComponents(r)
    case SentResponse(r, _) => ResponseComponents(r)
  }

  function MessageOf(s: Sent): Message {
    match s
    case SentRequest(r, _, _) => RequestMessage(r)
    case SentResponse(r, _) => ResponseMessage(r)
  }

  /** The headers the signature covers. */
  function Covered(env: Env, s: Sent): Result<Headers, SignError> {
    match s
    case SentRequest(r, agent, _) => WithDigest(env, Put(LowerCased(r.headers), "ucp-agent", agent), r.body)
    case SentResponse(r, _) => WithDigest(env, LowerCased(r.headers), r.body)
  }

  /** `text` is what was signed. */
  ghost predicate SignedText(env: Env, s: Sent, text: string) {
    Covered(env, s).Success? &&
    Base(Components(s), MessageOf(s), Covered(env, s).value, SignatureParameters(s.signing.kid, None, None, None))
      == Success(text)
  }

  /** No line of what was signed can be read as two. */
  ghost predicate Unmistakable(env: Env, s: Sent) {
    Covered(env, s).Success? ==>
      var h := LowerCased(Covered(env, s).value);
      AllValued(Components(s), MessageOf(s), h) ==>
        !Confusable(Components(s), ValuesOf(Components(s), MessageOf(s), h))
  }

  ghost predicate SomeoneSigned(env: Env, history: seq<Sent>, text: string) {
    exists i :: 0 <= i < |history| && SignedText(env, history[i], text)
  }

  /** Resolved keys accept nothing but what was signed, requests and responses alike. */
  ghost predicate OnlySigned(env: Env, history: seq<Sent>, resolve: (string, string) -> Option<Key>) {
    forall kid, profile, text, der ::
      resolve(kid, profile).Some? && resolve(kid, profile).value.verifyDer(text, der) ==>
        SomeoneSigned(env, history, text)
  }

  /** It is what the signer is asked to sign: the signature it attaches is over that text. */
  lemma SignsItsText(env: Env, s: Sent) returns (text: string)
    requires s.SentRequest? && SignRequest(env, s.request, s.signing, s.agent).Success?
    ensures SignedText(env, s, text)
    ensures Get(SignRequest(env, s.request, s.signing, s.agent).value, "signature")
      == Some("sig1=:" + Base64.Encode(s.signing.sign(text)) + ":")
  {
    hide Base, LowerCased, RequestComponents, RequestMessage, WithDigest, PrintDict, Get, Put, Lower, LowerNames,
      Mutating, Upper, SignatureInputDict;
    var headers := Covered(env, s).value;
    text := Base(RequestComponents(s.request), RequestMessage(s.request), headers,
      SignatureParameters(s.signing.kid, None, None, None)).value;
    KeysValid();
    hide ValidKey;
    SignatureBack("sig1", s.signing.sign(text));
    assert "sig1=:" == "sig1" + "=:";
    AgreedGet(s.request.headers, s.agent, "signature");
    PreparedGet(env, Put(LowerCased(s.request.headers), "ucp-agent", s.agent), s.request.body, "signature");
    AttachedGet(headers, PrintDict(SignatureInputDict(RequestComponents(s.request), s.signing.kid)).value,
                PrintDict(SignatureDict(s.signing.sign(text))).value, "signature");
  }

  lemma {:induction false} CoveredAll(names: seq<string>, covered: seq<string>)
    requires FirstUncovered(names, covered) == None
    ensures forall i :: 0 <= i < |names| ==> names[i] in covered
  {
    if names != [] {
      CoveredAll(names[1..], covered);
      assert forall i :: 1 <= i < |names| ==> names[i] == names[1..][i - 1];
    }
  }

  lemma ComponentsPlain(s: Sent)
    ensures PlainNames(Components(s)) && OneLineNames(Components(s))
  {
    match s {
      case SentRequest(r, _, _) =>
        RequestPlain(r);
        RequestOneLine(r);
      case SentResponse(r, _) => ResponsePlain(r);
    }
  }

  lemma ResponsePlain(r: Response)
    ensures PlainNames(ResponseComponents(r)) && OneLineNames(ResponseComponents(r))
  {
    assert OneLine("@status") && OneLine("content-digest") && OneLine("content-type");
    hide OneLine;
  }

  lemma RequestPlain(r: Request)
    ensures PlainNames(RequestComponents(r))
  {
    hide Mutating, Upper;
  }

  lemma RequestOneLine(r: Request)
    ensures OneLineNames(RequestComponents(r))
  {
    assert OneLine("@method") && OneLine("@authority") && OneLine("@path") && OneLine("@query") && OneLine("ucp-agent");
    assert OneLine("idempotency-key") && OneLine("content-digest") && OneLine("content-type");
    hide OneLine, Mutating, Upper;
  }

  /** A base equal to one that was signed has its components, parameters and values. */
  lemma SignedDetermines(env: Env, s: Sent, text: string, cs: seq<string>, m: Message, h: Headers,
      p: SignatureParameters)
    requires SignedText(env, s, text) && Unmistakable(env, s) && Base(cs, m, h, p) == Success(text)
    ensures cs == Components(s) && p == SignatureParameters(s.signing.kid, None, None, None)
    ensures AllSame(cs, MessageOf(s), LowerCased(Covered(env, s).value), m, LowerCased(h))
  {
    hide Base, Components, MessageOf, Covered, LowerCased, AllValued, AllSame, Confusable, ValuesOf, PlainNames,
      OneLineNames;
    ComponentsPlain(s);
    BaseInjective(Components(s), MessageOf(s), Covered(env, s).value,
      SignatureParameters(s.signing.kid, None, None, None),
                  cs, m, h, p);
  }

  // --- Requests ---

  /** The port as an authority shows it: not at all when it is the scheme's own. */
  function ShownPort(url: Url): string {
    if (url.protocol == "http:" && url.port == "80") || (url.protocol == "https:" && url.port == "443") then ""
    else url.port
  }

  function PathOf(url: Url): string {
    if url.pathname == "" then "/" else url.pathname
  }

  /** The same method, host, shown port, path and query. */
  ghost predicate SameTarget(a: Request, b: Request) {
    Upper(a.verb) == Upper(b.verb) && Lower(a.url.hostname) == Lower(b.url.hostname) &&
    ShownPort(a.url) == ShownPort(b.url) && PathOf(a.url) == PathOf(b.url) && a.url.search == b.url.search
  }

  lemma LowerColon(s: string)
    ensures forall i :: 0 <= i < |s| ==> (Lower(s)[i] == ':' <==> s[i] == ':') && (Lower(s)[i] == ']' <==> s[i] == ']')
  {
  }

  /** The last colon of a text that ends with a port is the one before the port. */
  lemma LastColon(h: string, p: string, h': string, p': string)
    requires (forall c :: c in p ==> c != ':') && (forall c :: c in p' ==> c != ':')
    requires h + ":" + p == h' + ":" + p'
    ensures h == h' && p == p'
  {
    NoLaterColon(h, p, h', p');
    NoLaterColon(h', p', h, p);
    var all := h + ":" + p;
    assert all[..|h|] == h && (h' + ":" + p')[..|h'|] == h';
    assert all[|h| + 1..] == p && (h' + ":" + p')[|h'| + 1..] == p';
  }

  lemma NoLaterColon(h: string, p: string, h': string, p': string)
    requires (forall c :: c in p ==> c != ':') && h + ":" + p == h' + ":" + p'
    ensures |h'| <= |h|
  {
    var all := h + ":" + p;
    assert all[|h'|] == (h' + ":" + p')[|h'|] == ':';
    assert forall k :: 0 <= k < |p| ==> all[|h| + 1 + k] == p[k] && p[k] in p;
    assert |h'| < |all|;
  }

  /** A host is not another host with a port. */
  lemma HostHasNoPort(host: string, other: string, port: string)
    requires (forall i :: 0 <= i < |host| ==> host[i] != ':') || (host != "" && host[|host| - 1] == ']')
    requires port != "" && forall c :: c in port ==> IsDigit(c)
    ensures host != other + ":" + port
  {
    var all := other + ":" + port;
    assert all[|other|] == ':';
    assert all[|all| - 1] == port[|port| - 1] && port[|port| - 1] in port;
  }

  /** Equal authorities are equal hosts, up to case, and equal shown ports. */
  lemma SameAuthority(a: Url, b: Url)
    ensures NormalizeAuthority(a) == NormalizeAuthority(b) <==>
      Lower(a.hostname) == Lower(b.hostname) && ShownPort(a) == ShownPort(b)
  {
    LowerColon(a.hostname);
    LowerColon(b.hostname);
    assert forall i :: 0 <= i < |a.hostname| ==> a.hostname[i] in a.hostname;
    assert forall i :: 0 <= i < |b.hostname| ==> b.hostname[i] in b.hostname;
    var h, h', p, p' := Lower(a.hostname), Lower(b.hostname), ShownPort(a), ShownPort(b);
    assert NormalizeAuthority(a) == if p == "" then h else h + ":" + p;
    assert NormalizeAuthority(b) == if p' == "" then h' else h' + ":" + p';
    hide Lower, NormalizeAuthority;
    if p != "" && p' != "" {
      if h + ":" + p == h' + ":" + p' {
        LastColon(h, p, h', p');
      }
    } else if p != "" {
      HostHasNoPort(h', h, p);
    } else if p' != "" {
      HostHasNoPort(h, h', p');
    }
  }

  /** What the covered parts of two requests have in common is their target. */
  lemma TargetMeans(a: Request, b: Request)
    ensures RequestMessage(a) == RequestMessage(b) <==> SameTarget(a, b)
  {
    SameAuthority(a.url, b.url);
    hide Lower, Upper, NormalizeAuthority, ShownPort;
  }

  /** The scheme is not covered: over HTTP and over HTTPS, each on its own port, the answer is the
      same. */
  lemma SchemeNotCovered(env: Env, r: Request, resolve: (string, string) -> Option<Key>)
    requires r.url.protocol == "https:" && r.url.port == ""
    ensures VerifyRequest(env, r, resolve)
         == VerifyRequest(env, r.(url := r.url.(protocol := "http:")), resolve)
  {
    var r' := r.(url := r.url.(protocol := "http:"));
    TargetMeans(r, r');
    hide Verify, RequestMessage, Mutating, Upper;
    assert RequestComponents(r) == RequestComponents(r') && RequestMandatory(r) == RequestMandatory(r');
  }

  ghost predicate SameHeader(name: string, h: Headers, h': Headers) {
    Get(LowerCased(h), name) == Get(LowerCased(h'), name)
  }

  /** The same target, agent, idempotency key and content type, and bodies of the same digest. */
  ghost predicate Agrees(env: Env, s: Sent, received: Request) {
    s.SentRequest? &&
    var r := s.request;
    && SameTarget(received, r)
    && Get(LowerCased(received.headers), "ucp-agent") == Some(Trim(s.agent))
    && (Mutating(Upper(r.verb)) ==> SameHeader("idempotency-key", received.headers, r.headers))
    && (received.body.Some? ==> r.body.Some?)
    && (r.body.Some? ==>
          SameHeader("content-type", received.headers, r.headers)
          && env.sha256(received.body.GetOr([])) == env.sha256(r.body.value))
  }

  /** What acceptance establishes, whatever the verifier was sent. */
  lemma AcceptedMeans(env: Env, received: Request, resolve: (string, string) -> Option<Key>)
      returns (cs: seq<string>, p: SignatureParameters, profile: string, text: string, der: seq<Byte>)
    requires VerifyRequest(env, received, resolve).Verified?
    ensures forall i :: 0 <= i < |RequestComponents(received)| ==> RequestComponents(received)[i] in cs
    ensures DigestMatches(env, Get(LowerCased(received.headers), "content-digest"), received.body)
    ensures Base(cs, RequestMessage(received), LowerCased(received.headers), p) == Success(text)
    ensures resolve(p.keyid, profile).Some? && resolve(p.keyid, profile).value.verifyDer(text, der)
    ensures VerifyRequest(env, received, resolve).kid == p.keyid
  {
    hide RequestComponents, RequestMessage, RequestMandatory, LowerCased, Base, ParseSignatureInput, ParseSignature,
      DigestMatches, ProfileUrl, FirstMissing, FirstUncovered, Get, Der.RawToDer;
    var h := LowerCased(received.headers);
    var input := ParseSignatureInput(Get(h, "signature-input").value).value;
    var signature := ParseSignature(Get(h, "signature").value).value;
    cs, p := input.0, input.1;
    profile := ProfileUrl(env, Get(h, "ucp-agent").GetOr("")).value;
    text := Base(cs, RequestMessage(received), h, p).value;
    der := Der.RawToDer(signature).value;
    CoveredAll(RequestComponents(received), cs);
  }

  lemma DigestFieldReads(env: Env, body: seq<Byte>, received: Option<seq<Byte>>)
    requires DigestMatches(env, Some(DigestField(env, body)), received)
    ensures env.sha256(received.GetOr([])) == env.sha256(body)
  {
    hide ParseDict, PrintDict, ValidKey;
    KeysValid();
    SignatureBack("sha-256", env.sha256(body));
    assert DigestField(env, body) == "sha-256" + "=:" + Base64.Encode(env.sha256(body)) + ":" by {
      assert "sha-256=:" == "sha-256" + "=:";
    }
    SingleGet([("sha-256", Plain(Item(Bytes(env.sha256(body)), None)))], "sha-256");
  }

  lemma HeaderValue(name: string, m: Message, h: Headers)
    requires name == "ucp-agent" || name == "idempotency-key" || name == "content-digest" || name == "content-type"
    ensures ComponentValue(name, m, h) == if Get(h, name).None? then Failure(MissingHeader(name))
      else Success(Get(h, name).value)
  {
    FieldNamesLower();
    hide Lower, Get;
    assert name[0] != '@';
  }

  /** Which components a request has. */
  lemma RequestHas(r: Request)
    ensures var cs := RequestComponents(r);
            "@method" in cs && "@authority" in cs && "@path" in cs && "ucp-agent" in cs &&
            (r.url.search != "" ==> "@query" in cs) && (Mutating(Upper(r.verb)) ==> "idempotency-key" in cs) &&
            (r.body.Some? ==> "content-digest" in cs && "content-type" in cs)
  {
    hide Mutating, Upper;
    var cs := RequestComponents(r);
    var q := if r.url.search != "" then 1 else 0;
    var i := if Mutating(Upper(r.verb)) then 1 else 0;
    assert cs[0] == "@method" && cs[1] == "@authority" && cs[2] == "@path" && cs[3 + q] == "ucp-agent";
    assert r.url.search != "" ==> cs[3] == "@query";
    assert Mutating(Upper(r.verb)) ==> cs[4 + q] == "idempotency-key";
    assert r.body.Some? ==> cs[4 + q + i] == "content-digest" && cs[5 + q + i] == "content-type";
  }

  lemma RequestHasOnly(r: Request)
    ensures "@query" in RequestComponents(r) ==> r.url.search != ""
    ensures "content-digest" in RequestComponents(r) ==> r.body.Some?
  {
    hide Mutating, Upper;
  }

  lemma DerivedValues(m: Message, h: Headers, m': Message, h': Headers)
    requires SameValue("@method", m, h, m', h') && SameValue("@authority", m, h, m', h')
      && SameValue("@path", m, h, m', h')
    ensures m.verb == m'.verb && m.authority == m'.authority && m.path == m'.path
  {
  }

  lemma QueryValues(m: Message, h: Headers, m': Message, h': Headers)
    requires SameValue("@query", m, h, m', h')
    requires m.query.Some? ==> StartsWith(m.query.value, '?')
    requires m'.query.Some? ==> StartsWith(m'.query.value, '?')
    ensures m.query == m'.query
  {
  }

  lemma NoQuery(r: Request)
    ensures RequestMessage(r).query == if r.url.search == "" then None else Some(r.url.search)
    ensures RequestMessage(r).query.Some? ==> StartsWith(RequestMessage(r).query.value, '?')
  {
  }

  lemma TargetAgrees(r: Request, h: Headers, received: Request, h': Headers)
    requires AllSame(RequestComponents(r), RequestMessage(r), h, RequestMessage(received), h')
    requires forall i :: 0 <= i < |RequestComponents(received)| ==>
      RequestComponents(received)[i] in RequestComponents(r)
    ensures SameTarget(received, r)
  {
    NoStatusIn(received);
    NoStatusIn(r);
    RequestHas(r);
    RequestHas(received);
    RequestHasOnly(r);
    NoQuery(r);
    NoQuery(received);
    hide SameValue, RequestMessage, RequestComponents;
    DerivedValues(RequestMessage(r), h, RequestMessage(received), h');
    if r.url.search != "" {
      QueryValues(RequestMessage(r), h, RequestMessage(received), h');
    }
    TargetMeans(received, r);
  }

  lemma NoStatusIn(r: Request)
    ensures RequestMessage(r).status.None?
  {
  }

  lemma SameHeaderValue(name: string, m: Message, h: Headers, m': Message, h': Headers)
    requires name == "ucp-agent" || name == "idempotency-key" || name == "content-digest" || name == "content-type"
    requires SameValue(name, m, h, m', h')
    ensures Get(h, name) == Get(h', name)
  {
    HeaderValue(name, m, h);
    HeaderValue(name, m', h');
    hide ComponentValue, Get;
  }

  lemma CoveredHeaders(env: Env, s: Sent, name: string)
    requires s.SentRequest? && Covered(env, s).Success?
    ensures Get(LowerCased(Covered(env, s).value), name) ==
            if name == "content-digest" && s.request.body.Some? then Some(DigestField(env, s.request.body.value))
            else if name == "ucp-agent" then Some(Trim(s.agent))
            else Get(LowerCased(s.request.headers), name)
  {
    hide Get, LowerCased, Put, WithDigest, LowerNames;
    AgreedGet(s.request.headers, s.agent, name);
    PreparedGet(env, Put(LowerCased(s.request.headers), "ucp-agent", s.agent), s.request.body, name);
  }

  lemma HeadersAgree(env: Env, s: Sent, m: Message, received: Request, h': Headers)
    requires s.SentRequest? && Covered(env, s).Success?
    requires AllSame(RequestComponents(s.request), m, LowerCased(Covered(env, s).value), RequestMessage(received), h')
    requires forall name :: Get(h', name) == Get(LowerCased(received.headers), name)
    requires forall i :: 0 <= i < |RequestComponents(received)| ==>
      RequestComponents(received)[i] in RequestComponents(s.request)
    requires DigestMatches(env, Get(LowerCased(received.headers), "content-digest"), received.body)
    requires SameTarget(received, s.request)
    ensures Agrees(env, s, received)
  {
    var h := LowerCased(Covered(env, s).value);
    RequestHas(s.request);
    RequestHas(received);
    RequestHasOnly(s.request);
    CoveredHeaders(env, s, "ucp-agent");
    CoveredHeaders(env, s, "idempotency-key");
    CoveredHeaders(env, s, "content-type");
    CoveredHeaders(env, s, "content-digest");
    hide RequestMessage, RequestComponents, SameValue, SameTarget, LowerCased, Get, Covered, DigestMatches,
      DigestField, Mutating, Upper, Trim;
    SameHeaderValue("ucp-agent", m, h, RequestMessage(received), h');
    if Mutating(Upper(s.request.verb)) {
      SameHeaderValue("idempotency-key", m, h, RequestMessage(received), h');
    }
    if s.request.body.Some? {
      SameHeaderValue("content-type", m, h, RequestMessage(received), h');
      SameHeaderValue("content-digest", m, h, RequestMessage(received), h');
      DigestFieldReads(env, s.request.body.value, received.body);
    }
  }

  /** A response's base is no request's. */
  lemma NoRequestBase(received: Request, s: Sent)
    requires forall i :: 0 <= i < |RequestComponents(received)| ==> RequestComponents(received)[i] in Components(s)
    ensures s.SentRequest?
  {
    RequestHas(received);
    assert "@method" in Components(s);
    if s.SentResponse? {
      NoMethod(s.response);
    }
  }

  lemma NoMethod(r: Response)
    ensures "@method" !in ResponseComponents(r)
  {
    assert "@method"[1] == 'm' && "@status"[1] == 's' && "content-digest"[0] == 'c' && "content-type"[0] == 'c';
  }

  /** A request that is accepted, whatever it contains, agrees with one that was signed: same key
      id, target, agent and idempotency key, and a body with the same digest. */
  lemma AcceptedWasSigned(env: Env, history: seq<Sent>, received: Request, resolve: (string, string) -> Option<Key>)
    requires OnlySigned(env, history, resolve) && VerifyRequest(env, received, resolve).Verified?
    requires forall i :: 0 <= i < |history| ==> Unmistakable(env, history[i])
    ensures exists i :: 0 <= i < |history| && Agrees(env, history[i], received) &&
              history[i].signing.kid == VerifyRequest(env, received, resolve).kid
  {
    hide VerifyRequest, RequestMessage, RequestComponents, Base, LowerCased, Agrees, Covered, DigestMatches, Get,
      Unmistakable, SignedText, Components, MessageOf, AllSame;
    var cs, p, profile, text, der := AcceptedMeans(env, received, resolve);
    var i :| 0 <= i < |history| && SignedText(env, history[i], text);
    var s := history[i];
    SignedDetermines(env, s, text, cs, RequestMessage(received), LowerCased(received.headers), p);
    NoRequestBase(received, s);
    OfRequest(env, s, text);
    var h' := LowerCased(LowerCased(received.headers));
    forall name
      ensures Get(h', name) == Get(LowerCased(received.headers), name)
    {
      LowerCasedTwice(received.headers, name);
    }
    TargetAgrees(s.request, LowerCased(Covered(env, s).value), received, h');
    HeadersAgree(env, s, RequestMessage(s.request), received, h');
  }

  lemma OfRequest(env: Env, s: Sent, text: string)
    requires s.SentRequest? && SignedText(env, s, text)
    ensures Components(s) == RequestComponents(s.request) && MessageOf(s) == RequestMessage(s.request)
    ensures Covered(env, s).Success?
  {
    hide Base, RequestComponents, RequestMessage, WithDigest;
  }
}
