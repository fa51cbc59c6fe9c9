/** Responses: one that is accepted agrees with one that was signed. */
module ResponseEvidence {
  import opened Records
  import opened Text
  import opened StructuredFields
  import opened SignatureBase
  import opened Signatures
  import opened SignThenVerify
  import opened LineBreaks
  import opened BaseEvidence
  import opened TamperEvidence
  import Der

  /** The same status and content type, and bodies of the same digest. */
  ghost predicate ResponseAgrees(env: Env, s: Sent, received: Response) {
    s.SentResponse? &&
    var r := s.response;
    && received.status == r.status
    && (received.body.Some? ==> r.body.Some?)
    && (r.body.Some? ==>
          SameHeader("content-type", received.headers, r.headers)
          && env.sha256(received.body.GetOr([])) == env.sha256(r.body.value))
  }

  lemma AcceptedResponseMeans(env: Env, received: Response, resolve: (string, string) -> Option<Key>)
      returns (cs: seq<string>, p: SignatureParameters, text: string, der: seq<Byte>)
    requires VerifyResponse(env, received, resolve).Verified?
    ensures forall i :: 0 <= i < |ResponseComponents(received)| ==> ResponseComponents(received)[i] in cs
    ensures DigestMatches(env, Get(LowerCased(received.headers), "content-digest"), received.body)
    ensures Base(cs, ResponseMessage(received), LowerCased(received.headers), p) == Success(text)
    ensures resolve(p.keyid, "").Some? && resolve(p.keyid, "").value.verifyDer(text, der)
    ensures VerifyResponse(env, received, resolve).kid == p.keyid
  {
    hide ResponseComponents, ResponseMessage, ResponseMandatory, LowerCased, Base, ParseSignatureInput, ParseSignature,
      DigestMatches, FirstMissing, FirstUncovered, Get, Der.RawToDer;
    var h := LowerCased(received.headers);
    var input := ParseSignatureInput(Get(h, "signature-input").value).value;
    var signature := ParseSignature(Get(h, "signature").value).value;
    cs, p := input.0, input.1;
    text := Base(cs, ResponseMessage(received), h, p).value;
    der := Der.RawToDer(signature).value;
    CoveredAll(ResponseComponents(received), cs);
  }

  lemma ResponseHas(r: Response)
    ensures "@status" in ResponseComponents(r)
    ensures r.body.Some? ==> "content-digest" in ResponseComponents(r) && "content-type" in ResponseComponents(r)
    ensures "content-digest" in ResponseComponents(r) ==> r.body.Some?
  {
    var cs := ResponseComponents(r);
    assert cs[0] == "@status";
    assert r.body.Some? ==> cs[1] == "content-digest" && cs[2] == "content-type";
  }

  lemma StatusValues(r: Response, h: Headers, received: Response, h': Headers)
    requires SameValue("@status", ResponseMessage(r), h, ResponseMessage(received), h')
    ensures received.status == r.status
  {
    assert Value(Digits(r.status)) == r.status && Value(Digits(received.status)) == received.status;
    hide Digits, Value;
  }

  lemma ResponseHeaders(env: Env, s: Sent, name: string)
    requires s.SentResponse? && Covered(env, s).Success?
    ensures Get(LowerCased(Covered(env, s).value), name) ==
            if name == "content-digest" && s.response.body.Some? then Some(DigestField(env, s.response.body.value))
            else Get(LowerCased(s.response.headers), name)
  {
    hide Get, LowerCased, WithDigest, LowerNames;
    LowerCasedNames(s.response.headers);
    PreparedGet(env, LowerCased(s.response.headers), s.response.body, name);
    LowerCasedTwice(s.response.headers, name);
  }

  lemma CoveredAgree(env: Env, s: Sent, received: Response, h': Headers)
    requires s.SentResponse? && Covered(env, s).Success?
    requires AllSame(ResponseComponents(s.response), ResponseMessage(s.response), LowerCased(Covered(env, s).value),
      ResponseMessage(received), h')
    requires forall name :: Get(h', name) == Get(LowerCased(received.headers), name)
    requires forall i :: 0 <= i < |ResponseComponents(received)| ==>
      ResponseComponents(received)[i] in ResponseComponents(s.response)
    requires DigestMatches(env, Get(LowerCased(received.headers), "content-digest"), received.body)
    ensures ResponseAgrees(env, s, received)
  {
    var h := LowerCased(Covered(env, s).value);
    ResponseHas(s.response);
    ResponseHas(received);
    ResponseHeaders(env, s, "content-type");
    ResponseHeaders(env, s, "content-digest");
    hide ResponseMessage, ResponseComponents, SameValue, LowerCased, Get, Covered, DigestMatches, DigestField;
    var m, m' := ResponseMessage(s.response), ResponseMessage(received);
    StatusValues(s.response, h, received, h');
    if s.response.body.Some? {
      SameHeaderValue("content-type", m, h, m', h');
      SameHeaderValue("content-digest", m, h, m', h');
      DigestFieldReads(env, s.response.body.value, received.body);
    }
  }

  /** A request's base is no response's. */
  lemma NoResponseBase(received: Response, s: Sent)
    requires forall i :: 0 <= i < |ResponseComponents(received)| ==> ResponseComponents(received)[i] in Components(s)
    ensures s.SentResponse?
  {
    ResponseHas(received);
    assert "@status" in Components(s);
    if s.SentRequest? {
      NoStatus(s.request);
    }
  }

  lemma NoStatus(r: Request)
    ensures "@status" !in RequestComponents(r)
  {
    hide Mutating, Upper;
    assert "@status"[1] == 's' && "@method"[1] == 'm' && "@authority"[1] == 'a' && "@path"[1] == 'p';
    assert "@query"[1] == 'q' && "ucp-agent"[0] == 'u' && "idempotency-key"[0] == 'i';
    assert "content-digest"[0] == 'c' && "content-type"[0] == 'c';
  }

  /** A response that is accepted, whatever it contains, agrees with one that was signed: same key
      id, status and content type, and a body with the same digest. */
  lemma AcceptedResponseWasSigned(env: Env, history: seq<Sent>, received: Response,
      resolve: (string, string) -> Option<Key>)
    requires OnlySigned(env, history, resolve) && VerifyResponse(env, received, resolve).Verified?
    requires forall i :: 0 <= i < |history| ==> Unmistakable(env, history[i])
    ensures exists i :: 0 <= i < |history| && ResponseAgrees(env, history[i], received) &&
              history[i].signing.kid == VerifyResponse(env, received, resolve).kid
  {
    hide VerifyResponse, ResponseMessage, ResponseComponents, Base, LowerCased, ResponseAgrees, Covered, DigestMatches,
      Get, Unmistakable, SignedText, Components, MessageOf, AllSame;
    var cs, p, text, der := AcceptedResponseMeans(env, received, resolve);
    var i :| 0 <= i < |history| && SignedText(env, history[i], text);
    var s := history[i];
    SignedDetermines(env, s, text, cs, ResponseMessage(received), LowerCased(received.headers), p);
    NoResponseBase(received, s);
    OfResponse(env, s, text);
    var h' := LowerCased(LowerCased(received.headers));
    forall name
      ensures Get(h', name) == Get(LowerCased(received.headers), name)
    {
      LowerCasedTwice(received.headers, name);
    }
    CoveredAgree(env, s, received, h');
  }

  lemma OfResponse(env: Env, s: Sent, text: string)
    requires s.SentResponse? && SignedText(env, s, text)
    ensures Components(s) == ResponseComponents(s.response) && MessageOf(s) == ResponseMessage(s.response)
    ensures Covered(env, s).Success?
  {
    hide Base, ResponseComponents, ResponseMessage, WithDigest;
  }
}
