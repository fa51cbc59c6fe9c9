/** Exactly when signing succeeds. */
module SigningCondition {
  import opened Records
  import opened Text
  import opened StructuredFields
  import opened SignatureBase
  import opened SfRoundTrip
  import opened Signatures
  import opened SignThenVerify
  import opened BaseEvidence
  import opened TamperEvidence

  /** What a request needs besides a signer that returns signatures of its width. */
  ghost predicate Signable(r: Request, signing: Signing) {
    && r.verb != "" && NormalizeAuthority(r.url) != "" && signing.kid != ""
    && (Mutating(Upper(r.verb)) ==> Present(LowerCased(r.headers), "idempotency-key"))
    && (r.body.Some? ==> Present(LowerCased(r.headers), "content-type"))
  }

  lemma LastSucceeds(cs: seq<string>, p: SignatureParameters)
    requires PlainNames(cs)
    ensures ParamsLine(cs, p).Success? <==> p.keyid != "" && !Unsafe(p.created) && !Unsafe(p.expires)
  {
    PlainItems(cs);
    ParamsGiven(p);
    if ParamsOf(p).Success? {
      ParamsPrintable(p);
      hide PlainNames, Identifiers, PrintInnerList, PrintableMember, PrintableParams, InputItems, ParsedItems,
        ParseInnerList, ParamsOf;
      ListPrintable(cs, ParamsOf(p).value);
      InnerListBack(InputItems(cs), Some(ParamsOf(p).value), "");
    }
  }

  lemma ParamsGiven(p: SignatureParameters)
    ensures ParamsOf(p).Success? <==> p.keyid != "" && !Unsafe(p.created) && !Unsafe(p.expires)
  {
  }

  /** A base exists exactly when every covered component has a value, there is a key id, and the
      times are safe integers. */
  lemma BaseSucceeds(cs: seq<string>, m: Message, headers: Headers, p: SignatureParameters)
    requires PlainNames(cs)
    ensures Base(cs, m, headers, p).Success?
       <==> AllValued(cs, m, LowerCased(headers)) && p.keyid != "" && !Unsafe(p.created) && !Unsafe(p.expires)
  {
    hide Lines, ParamsLine, AllValued, PlainNames, Unsafe;
    LinesSucceed(cs, m, LowerCased(headers));
    LastSucceeds(cs, p);
  }

  // --- Requests ---

  predicate RequestName(r: Request, c: string) {
    || c == "@method" || c == "@authority" || c == "@path" || c == "ucp-agent"
    || (c == "@query" && r.url.search != "") || (c == "idempotency-key" && Mutating(Upper(r.verb)))
    || ((c == "content-digest" || c == "content-type") && r.body.Some?)
  }

  lemma RequestNames(r: Request)
    ensures forall i :: 0 <= i < |RequestComponents(r)| ==> RequestName(r, RequestComponents(r)[i])
  {
    hide Mutating, Upper;
  }

  /** The headers a request covers are there. */
  ghost predicate Attached(r: Request, h: Headers) {
    Get(h, "ucp-agent").Some? && (Mutating(Upper(r.verb)) ==> Get(h, "idempotency-key").Some?) &&
    (r.body.Some? ==> Get(h, "content-digest").Some? && Get(h, "content-type").Some?)
  }

  lemma NameValued(r: Request, h: Headers, c: string)
    requires Attached(r, h) && RequestName(r, c)
    ensures ComponentValue(c, RequestMessage(r), h).Success?
       <==> (c == "@method" ==> r.verb != "") && (c == "@authority" ==> NormalizeAuthority(r.url) != "")
  {
    hide Get, Lower, Mutating, NormalizeAuthority;
    if c == "ucp-agent" || c == "idempotency-key" || c == "content-digest" || c == "content-type" {
      HeaderValue(c, RequestMessage(r), h);
    }
  }

  lemma RequestValued(r: Request, h: Headers)
    requires Attached(r, h)
    ensures AllValued(RequestComponents(r), RequestMessage(r), h) <==> r.verb != "" && NormalizeAuthority(r.url) != ""
  {
    RequestNames(r);
    RequestHas(r);
    hide RequestName, RequestMessage, ComponentValue, RequestComponents, Attached, NormalizeAuthority, Mutating, Upper;
    var cs := RequestComponents(r);
    forall i | 0 <= i < |cs|
      ensures ComponentValue(cs[i], RequestMessage(r), h).Success?
         <==> (cs[i] == "@method" ==> r.verb != "") && (cs[i] == "@authority" ==> NormalizeAuthority(r.url) != "")
    {
      NameValued(r, h, cs[i]);
    }
  }

  lemma CoveredAttached(env: Env, r: Request, agent: string, signing: Signing)
    requires Covered(env, SentRequest(r, agent, signing)).Success?
    requires Mutating(Upper(r.verb)) ==> Present(LowerCased(r.headers), "idempotency-key")
    ensures Attached(r, LowerCased(Covered(env, SentRequest(r, agent, signing)).value))
  {
    var s := SentRequest(r, agent, signing);
    CoveredHeaders(env, s, "ucp-agent");
    CoveredHeaders(env, s, "idempotency-key");
    CoveredHeaders(env, s, "content-digest");
    CoveredHeaders(env, s, "content-type");
    AgreedGet(r.headers, agent, "content-type");
    hide LowerCased, Get, Put, DigestField, Mutating, Upper, LowerNames, Lower;
  }

  lemma SetAgent(r: Request, agent: string, name: string)
    requires name != "ucp-agent"
    ensures Present(Put(LowerCased(r.headers), "ucp-agent", agent), name) <==> Present(LowerCased(r.headers), name)
  {
    LowerCasedNames(r.headers);
    DistinctNames(LowerCased(r.headers));
    hide LowerCased, Put, Get;
    PutGet(LowerCased(r.headers), "ucp-agent", agent, name);
  }

  /** With a signer whose signatures have its width, signing a request succeeds if and only if
      it has a method, a host, a key id and the headers its method and body call for. */
  lemma SigningSucceeds(env: Env, r: Request, signing: Signing, ucpAgent: string)
    requires forall data :: |signing.sign(data)| == signing.algorithm.Width()
    ensures SignRequest(env, r, signing, ucpAgent).Success? <==> Signable(r, signing)
  {
    var s := SentRequest(r, ucpAgent, signing);
    SetAgent(r, ucpAgent, "idempotency-key");
    SetAgent(r, ucpAgent, "content-type");
    hide Base, LowerCased, RequestComponents, RequestMessage, PrintDict, Put, Present, Mutating, Upper,
      SignatureInputDict, SignatureDict, AllValued, NormalizeAuthority, DigestField, Attached;
    if (Mutating(Upper(r.verb)) ==> Present(LowerCased(r.headers), "idempotency-key")) && Covered(env, s).Success? {
      RequestPlain(r);
      CoveredAttached(env, r, ucpAgent, signing);
      RequestValued(r, LowerCased(Covered(env, s).value));
      BaseSucceeds(RequestComponents(r), RequestMessage(r), Covered(env, s).value,
        SignatureParameters(signing.kid, None, None, None));
      if signing.kid != "" {
        InputBack(RequestComponents(r), signing.kid);
      }
      var base := Base(RequestComponents(r), RequestMessage(r), Covered(env, s).value,
        SignatureParameters(signing.kid, None, None, None));
      if base.Success? {
        SignatureTextBack(signing.sign(base.value));
      }
    }
  }

  /** A request is signed and then accepted if and only if it can be signed, its agent names a
      profile, and its digest header is consistent. */
  lemma HonestRequestAccepted(env: Env, r: Request, signing: Signing, ucpAgent: string, key: Key,
                              resolve: (string, string) -> Option<Key>)
    requires (forall data :: |signing.sign(data)| == signing.algorithm.Width()) && KeyMatches(key, signing)
    requires var profile := ProfileUrl(env, Trim(ucpAgent));
             profile.Some? ==> resolve(signing.kid, profile.value) == Some(key)
    ensures var signed := SignRequest(env, r, signing, ucpAgent);
            signed.Success? && VerifyRequest(env, r.(headers := signed.value), resolve).Verified? <==>
            Signable(r, signing) && ProfileUrl(env, Trim(ucpAgent)).Some? && DigestConsistent(env, r.headers, r.body)
  {
    hide SignRequest, VerifyRequest, Signable, ProfileUrl, DigestConsistent, KeyMatches, Trim;
    SigningSucceeds(env, r, signing, ucpAgent);
    if SignRequest(env, r, signing, ucpAgent).Success? {
      SignedRequestVerifies(env, r, signing, ucpAgent, key, resolve);
    }
  }

  // --- Responses ---

  lemma ResponseValued(r: Response, h: Headers)
    requires r.body.Some? ==> Get(h, "content-digest").Some? && Get(h, "content-type").Some?
    ensures AllValued(ResponseComponents(r), ResponseMessage(r), h)
    ensures ComponentValue("@status", ResponseMessage(r), h) == Success(Digits(r.status))
  {
    HeaderValue("content-digest", ResponseMessage(r), h);
    HeaderValue("content-type", ResponseMessage(r), h);
    hide Get, Lower, Digits;
  }

  lemma ResponseCovers(env: Env, r: Response)
    requires WithDigest(env, LowerCased(r.headers), r.body).Success?
    ensures var h := LowerCased(WithDigest(env, LowerCased(r.headers), r.body).value);
            r.body.Some? ==> Get(h, "content-digest").Some? && Get(h, "content-type").Some?
  {
    LowerCasedNames(r.headers);
    LowerCasedTwice(r.headers, "content-type");
    PreparedGet(env, LowerCased(r.headers), r.body, "content-digest");
    PreparedGet(env, LowerCased(r.headers), r.body, "content-type");
    hide LowerCased, Get, DigestField, Put;
  }

  /** A response, too, needs a key id and, with a body, its content type; nothing else. */
  lemma ResponseSucceeds(env: Env, r: Response, signing: Signing)
    requires forall data :: |signing.sign(data)| == signing.algorithm.Width()
    ensures SignResponse(env, r, signing).Success? <==>
        signing.kid != "" && (r.body.Some? ==> Present(LowerCased(r.headers), "content-type"))
  {
    hide Base, LowerCased, ResponseComponents, ResponseMessage, PrintDict, Put, Present, SignatureInputDict,
      SignatureDict,
      AllValued, DigestField;
    var prepared := WithDigest(env, LowerCased(r.headers), r.body);
    if prepared.Success? {
      ResponsePlain(r);
      ResponseCovers(env, r);
      ResponseValued(r, LowerCased(prepared.value));
      BaseSucceeds(ResponseComponents(r), ResponseMessage(r), prepared.value,
        SignatureParameters(signing.kid, None, None, None));
      if signing.kid != "" {
        InputBack(ResponseComponents(r), signing.kid);
        var base := Base(ResponseComponents(r), ResponseMessage(r), prepared.value,
          SignatureParameters(signing.kid, None, None, None));
        SignatureTextBack(signing.sign(base.value));
      }
    }
  }

  /** And it is accepted if and only if, besides, its digest header is consistent. */
  lemma HonestResponseAccepted(env: Env, r: Response, signing: Signing, key: Key,
                               resolve: (string, string) -> Option<Key>)
    requires (forall data :: |signing.sign(data)| == signing.algorithm.Width()) && KeyMatches(key, signing)
    requires resolve(signing.kid, "") == Some(key)
    ensures var signed := SignResponse(env, r, signing);
            signed.Success? && VerifyResponse(env, r.(headers := signed.value), resolve).Verified? <==>
            signing.kid != "" && (r.body.Some? ==> Present(LowerCased(r.headers), "content-type")) &&
            DigestConsistent(env, r.headers, r.body)
  {
    hide SignResponse, VerifyResponse, DigestConsistent, KeyMatches, Present, LowerCased;
    ResponseSucceeds(env, r, signing);
    if SignResponse(env, r, signing).Success? {
      SignedResponseVerifies(env, r, signing, key, resolve);
    }
  }

  // --- What is signed and then refused ---

  /** `x` is a dictionary whose only member is the bare true `x`. */
  lemma OnlyX()
    ensures ParseDict("x") == Success([("x", Plain(Item(Bool(true), Some([]))))])
  {
    var d: Dict := [("x", Plain(Item(Bool(true), None)))];
    assert ValidKey("x") by {
      assert "x"[0] == 'x';
    }
    hide ParseDict, ValidKey;
    ParseUndoesPrint(d);
    assert ParsedDict(d) == [("x", Plain(Item(Bool(true), Some([]))))];
    assert "x" + "" == "x";
    assert PrintDict(d) == Success("x");
  }

  lemma StrayDigest(env: Env)
    ensures !DigestMatches(env, Some("x"), None)
  {
    OnlyX();
    hide ParseDict;
    SingleMiss(ParseDict("x").value, "sha-256");
  }

  lemma NoProfile(env: Env)
    ensures ProfileUrl(env, Trim("x")).None?
  {
    assert Trimmed("x");
    OnlyX();
    hide ParseDict;
    SingleMiss(ParseDict("x").value, "profile");
  }

  /** A GET request whose agent is `x` is signed, and then refused for its agent. */
  lemma AgentRefused(env: Env, url: Url, signing: Signing, key: Key, resolve: (string, string) -> Option<Key>)
    requires (forall data :: |signing.sign(data)| == signing.algorithm.Width()) && signing.kid != ""
      && NormalizeAuthority(url) != "" && KeyMatches(key, signing)
    ensures var r := Request("GET", url, [], None);
            var signed := SignRequest(env, r, signing, "x");
            signed.Success? && VerifyRequest(env, r.(headers := signed.value), resolve) == Rejected(UcpAgentInvalid)
  {
    var r := Request("GET", url, [], None);
    GetSignable(url, [], signing);
    NoProfile(env);
    assert Trim("x") == "x" by {
      assert Trimmed("x");
    }
    hide SignRequest, VerifyRequest, Signable, ProfileUrl, DigestConsistent, KeyMatches, Trim;
    SigningSucceeds(env, r, signing, "x");
    SignedRequestVerifies(env, r, signing, "x", key, resolve);
  }

  lemma StrayHeader()
    ensures Get(LowerCased([("content-digest", "x")]), "content-digest") == Some("x")
  {
    FieldNamesLower();
    assert Trim("x") == "x" by {
      assert Trimmed("x");
    }
    var headers: Headers := [("content-digest", "x")];
    assert headers[1..] == [];
    assert Put([], "content-digest", "x") == headers;
    hide Lower, Trim;
    assert LowerCasedInto(headers, []) == LowerCasedInto(headers[1..], Put([], "content-digest", "x"));
  }

  lemma GetSignable(url: Url, headers: Headers, signing: Signing)
    requires signing.kid != "" && NormalizeAuthority(url) != ""
    ensures Signable(Request("GET", url, headers, None), signing)
  {
    assert Upper("GET") == "GET";
    hide LowerCased, NormalizeAuthority, Upper;
  }

  lemma StrayInconsistent(env: Env)
    ensures !DigestConsistent(env, [("content-digest", "x")], None)
  {
    StrayHeader();
    StrayDigest(env);
    hide DigestMatches, LowerCased, Get;
  }

  /** A GET request that carries `content-digest: x` and no body is signed, and then refused. */
  lemma StrayDigestRefused(env: Env, url: Url, signing: Signing, ucpAgent: string, profile: string, key: Key,
                           resolve: (string, string) -> Option<Key>)
    requires (forall data :: |signing.sign(data)| == signing.algorithm.Width()) && signing.kid != ""
      && NormalizeAuthority(url) != ""
    requires ProfileUrl(env, Trim(ucpAgent)) == Some(profile)
    requires KeyMatches(key, signing) && resolve(signing.kid, profile) == Some(key)
    ensures var r := Request("GET", url, [("content-digest", "x")], None);
            var signed := SignRequest(env, r, signing, ucpAgent);
            signed.Success? && VerifyRequest(env, r.(headers := signed.value), resolve) == Rejected(DigestMismatch)
  {
    var r := Request("GET", url, [("content-digest", "x")], None);
    GetSignable(url, r.headers, signing);
    StrayInconsistent(env);
    hide SignRequest, VerifyRequest, Signable, ProfileUrl, DigestConsistent, KeyMatches, Trim;
    SigningSucceeds(env, r, signing, ucpAgent);
    ProfilePresent(env, Trim(ucpAgent));
    SignedRequestVerifies(env, r, signing, ucpAgent, key, resolve);
  }
}
