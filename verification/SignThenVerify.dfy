/** What `Signed` attaches, `Verify` reads back: the same components, the same base, accepted. */
module SignThenVerify {
  import opened Records
  import opened Text
  import opened StructuredFields
  import opened SignatureBase
  import opened SfRoundTrip
  import opened Signatures
  import Base64
  import Der

  // --- The two signature fields ---

  function InputItems(components: seq<string>): (r: seq<Item>)
    ensures |r| == |components|
  {
    seq(|components|, i requires 0 <= i < |components| => Item(Str(components[i]), None))
  }

  lemma InputBack(components: seq<string>, kid: string)
    requires kid != ""
    ensures var text := PrintDict(SignatureInputDict(components, kid));
            text.Success? && ParseSignatureInput(text.value)
              == Some((components, SignatureParameters(kid, None, None, None)))
  {
    hide PrintDict, ParseDict, ValidKey, IndexOf;
    var d := SignatureInputDict(components, kid);
    KeysValid();
    var items, params := d[0].1.items, d[0].1.params;
    ParseUndoesPrint(d);
    assert ParsedItems(items) == items;
    assert ParsedDict(d) == d;
    SingleGet(d, "sig1");
    var ps := params.value;
    SingleGet(ps, "keyid");
    SingleMiss(ps, "created");
    SingleMiss(ps, "expires");
    SingleMiss(ps, "nonce");
    assert Texts(items) == components;
  }

  lemma KeysValid()
    ensures ValidKey("sig1") && ValidKey("keyid") && ValidKey("sha-256")
  {
    assert "sig1"[0] == 's' && "keyid"[0] == 'k' && "sha-256"[0] == 's';
  }

  lemma SingleGet<V>(es: seq<(string, V)>, key: string)
    requires |es| == 1 && es[0].0 == key
    ensures Get(es, key) == Some(es[0].1)
  {
  }

  lemma SingleMiss<V>(es: seq<(string, V)>, key: string)
    requires |es| == 1 && es[0].0 != key
    ensures Get(es, key) == None
  {
    assert es[1..] == [];
  }

  lemma SignatureBack(key: string, bytes: seq<Byte>)
    requires ValidKey(key)
    ensures var d: Dict := [(key, Plain(Item(Bytes(bytes), None)))];
            PrintDict(d) == Success(key + "=:" + Base64.Encode(bytes) + ":") &&
            ParseDict(key + "=:" + Base64.Encode(bytes) + ":") == Success(d)
  {
    hide ParseDict, Base64.Encode, ValidKey;
    var d: Dict := [(key, Plain(Item(Bytes(bytes), None)))];
    ParseUndoesPrint(d);
    assert ParsedDict(d) == d;
    var text := ":" + Base64.Encode(bytes) + ":";
    assert text + "" == text;
    assert key + "=" + text == key + "=:" + Base64.Encode(bytes) + ":";
  }

  /** Field text starts with a key and ends with a delimiter, so trimming keeps it. */
  lemma KeyTextTrimmed(key: string, middle: string, last: char)
    requires ValidKey(key) && !IsSpace(last)
    ensures Trimmed(key + middle + [last]) && key + middle + [last] != ""
  {
  }

  lemma InputTextTrimmed(components: seq<string>, kid: string)
    requires kid != ""
    ensures var text := PrintDict(SignatureInputDict(components, kid));
      text.Success? && text.value != "" && Trimmed(text.value)
  {
    hide ParseDict, ValidKey, ParseSignatureInput, PrintItems, EscapeString, Trimmed;
    InputBack(components, kid);
    KeysValid();
    var items := SignatureInputDict(components, kid)[0].1.items;
    var ps: Params := [("keyid", Str(kid))];
    assert ps[1..] == [];
    var keyid := ";keyid=\"" + EscapeString(kid) + "\"";
    assert PrintParams(ps).value == keyid by {
      assert ";" + "keyid" + "=" + ("\"" + EscapeString(kid) + "\"") + "" == keyid;
    }
    var middle := "=(" + PrintItems(items).value + ");keyid=\"" + EscapeString(kid);
    assert PrintDict(SignatureInputDict(components, kid)).value == "sig1" + middle + ['"'];
    KeyTextTrimmed("sig1", middle, '"');
  }

  // --- Attaching and reading back ---

  /** Names the attached fields do not disturb. */
  predicate Ordinary(name: string) {
    name != "signature-input" && name != "signature"
  }

  ghost predicate CoverableAll(components: seq<string>) {
    forall i :: 0 <= i < |components| ==>
      components[i] != "" && (forall c :: c in components[i] ==> c != ';') && Ordinary(Lower(components[i]))
  }

  lemma PutNames(headers: Headers, name: string, value: string)
    requires LowerNames(headers) && Lower(name) == name
    ensures LowerNames(Put(headers, name, value))
  {
    hide Lower;
  }

  lemma FieldNamesLower()
    ensures Lower("signature-input") == "signature-input" && Lower("signature") == "signature"
    ensures Lower("ucp-agent") == "ucp-agent" && Lower("content-digest") == "content-digest"
    ensures Lower("idempotency-key") == "idempotency-key" && Lower("content-type") == "content-type"
    ensures Lower("@method") == "@method" && Lower("@authority") == "@authority" && Lower("@path") == "@path"
    ensures Lower("@query") == "@query" && Lower("@status") == "@status"
  {
  }

  lemma AttachedGet(headers: Headers, input: string, sig: string, name: string)
    requires LowerNames(headers)
    ensures var h := Put(Put(headers, "signature-input", input), "signature", sig);
            LowerNames(h) && Get(h, name) ==
              if name == "signature" then Some(sig) else if name == "signature-input" then Some(input)
                else Get(headers, name)
  {
    hide Lower, Put, Get, LowerNames;
    FieldNamesLower();
    PutNames(headers, "signature-input", input);
    PutNames(Put(headers, "signature-input", input), "signature", sig);
    DistinctNames(headers);
    DistinctNames(Put(headers, "signature-input", input));
    PutGet(headers, "signature-input", input, name);
    PutGet(Put(headers, "signature-input", input), "signature", sig, name);
  }

  lemma DistinctNames(headers: Headers)
    requires LowerNames(headers)
    ensures Distinct(headers)
  {
  }

  /** The verifier's view of a header the signer held. */
  lemma ReceivedGet(headers: Headers, input: string, sig: string, name: string)
    requires LowerNames(headers) && Trimmed(input) && Trimmed(sig)
    ensures var received := LowerCased(Put(Put(headers, "signature-input", input), "signature", sig));
            Get(received, name) == if name == "signature" then Some(sig)
              else if name == "signature-input" then Some(input)
              else Get(LowerCased(headers), name)
  {
    hide Lower, Put, Get, LowerNames, LowerCased, Trimmed;
    AttachedGet(headers, input, sig, name);
    LowerCasedGet(headers, name);
    LowerCasedGet(Put(Put(headers, "signature-input", input), "signature", sig), name);
  }

  lemma LowerCasedNames(headers: Headers)
    ensures LowerNames(LowerCased(headers)) && IsLowerCased(LowerCased(headers))
  {
    LowerCasedResult(headers, []);
  }

  lemma LowerCasedTwice(headers: Headers, name: string)
    ensures Get(LowerCased(LowerCased(headers)), name) == Get(LowerCased(headers), name)
  {
    LowerCasedNames(headers);
    LowerCasedGet(LowerCased(headers), name);
  }

  lemma BaseSurvives(headers: Headers, input: string, sig: string, components: seq<string>, m: Message,
      p: SignatureParameters)
    requires LowerNames(headers) && Trimmed(input) && Trimmed(sig) && CoverableAll(components)
    ensures var received := LowerCased(Put(Put(headers, "signature-input", input), "signature", sig));
            Base(components, m, received, p) == Base(components, m, headers, p)
  {
    hide Lower, Put, Get, LowerNames, LowerCased, Base, Trimmed, ParseIdentifier;
    var attached := Put(Put(headers, "signature-input", input), "signature", sig);
    forall i | 0 <= i < |components| && ParseIdentifier(components[i]).Success?
      ensures var name := Lower(ParseIdentifier(components[i]).value.value.text);
              Get(LowerCased(LowerCased(attached)), name) == Get(LowerCased(headers), name)
    {
      PlainIdentifier(components[i]);
      var name := Lower(components[i]);
      LowerCasedTwice(attached, name);
      ReceivedGet(headers, input, sig, name);
    }
    BaseAgrees(components, m, LowerCased(attached), headers, p);
  }

  /** A key that accepts what the signer produces. */
  ghost predicate KeyMatches(key: Key, signing: Signing) {
    key.algorithm == Some(signing.algorithm) &&
    forall data :: Der.RawToDer(signing.sign(data)).Success? ==>
      key.verifyDer(data, Der.RawToDer(signing.sign(data)).value)
  }

  lemma SignatureVerifies(key: Key, signing: Signing, data: string)
    requires KeyMatches(key, signing) && |signing.sign(data)| == signing.algorithm.Width()
    ensures RawVerifies(key, signing.algorithm, data, signing.sign(data))
  {
    hide Der.Payload, Der.DerLength;
  }

  lemma {:induction false} AllCovered(names: seq<string>, covered: seq<string>)
    requires forall i :: 0 <= i < |names| ==> names[i] in covered
    ensures FirstUncovered(names, covered) == None
  {
    if names != [] {
      assert names[0] in covered;
      AllCovered(names[1..], covered);
    }
  }

  lemma {:induction false} AllPresent(headers: Headers, names: seq<string>)
    requires forall i :: 0 <= i < |names| ==> Present(headers, names[i])
    ensures FirstMissing(headers, names) == None
  {
    hide Present;
    if names != [] {
      assert Present(headers, names[0]);
      AllPresent(headers, names[1..]);
    }
  }

  /** The headers hold the two fields that `Signed` attaches for `data`. */
  ghost predicate HoldsFields(h: Headers, components: seq<string>, signing: Signing, data: string) {
    var input, sig := PrintDict(SignatureInputDict(components, signing.kid)),
      PrintDict(SignatureDict(signing.sign(data)));
    input.Success? && sig.Success? &&
    Get(h, "signature-input") == Some(input.value) && Get(h, "signature") == Some(sig.value)
  }

  /** The profile the verifier resolves the key by. */
  function ProfileOf(env: Env, h: Headers, wantsProfile: bool): Option<string> {
    if wantsProfile then ProfileUrl(env, Get(h, "ucp-agent").GetOr("")) else None
  }

  /** What is left to stop the verifier once both fields are read and the base is the one that was
      signed: a missing header, the agent, and the content digest, in this order. */
  function Answer(env: Env, h: Headers, signing: Signing, mandatory: seq<string>, body: Option<seq<Byte>>,
      wantsProfile: bool): Verdict
  {
    if FirstMissing(h, mandatory).Some? then Rejected(MandatoryHeaderMissing(FirstMissing(h, mandatory).value))
    else if wantsProfile && ProfileOf(env, h, true).None? then Rejected(UcpAgentInvalid)
    else if !DigestMatches(env, Get(h, "content-digest"), body) then Rejected(DigestMismatch)
    else Verified(signing.kid, signing.algorithm, ProfileOf(env, h, wantsProfile))
  }

  lemma FieldsAreRead(env: Env, received: Headers, components: seq<string>, m: Message, signing: Signing, data: string,
      mandatory: seq<string>, body: Option<seq<Byte>>, wantsProfile: bool, key: Key,
      resolve: (string, string) -> Option<Key>)
    requires signing.kid != "" && |signing.sign(data)| == signing.algorithm.Width()
    requires HoldsFields(LowerCased(received), components, signing, data)
    requires Base(components, m, LowerCased(received), SignatureParameters(signing.kid, None, None, None))
      == Success(data)
    requires KeyMatches(key, signing)
    requires var profile := ProfileOf(env, LowerCased(received), wantsProfile);
             (wantsProfile ==> profile.Some?) ==> resolve(signing.kid, profile.GetOr("")) == Some(key)
    ensures Verify(env, received, mandatory, components, m, body, wantsProfile, resolve)
         == Answer(env, LowerCased(received), signing, mandatory, body, wantsProfile)
  {
    hide Get, LowerCased, Base, ParseDict, PrintDict, ParseSignatureInput, ParseSignature, DigestMatches, ProfileUrl,
      KeyMatches, RawVerifies, SignatureDict, SignatureInputDict, FirstMissing, FirstUncovered, Trimmed;
    InputBack(components, signing.kid);
    InputTextTrimmed(components, signing.kid);
    SignatureTextBack(signing.sign(data));
    AllCovered(components, components);
    SignatureVerifies(key, signing, data);
    MatchedAlgorithm(key, signing);
  }

  lemma {:induction false} SameMissing(h: Headers, h': Headers, names: seq<string>)
    requires forall i :: 0 <= i < |names| ==> Get(h, names[i]) == Get(h', names[i])
    ensures FirstMissing(h, names) == FirstMissing(h', names)
  {
    hide Get;
    if names != [] {
      assert forall i :: 0 <= i < |names| - 1 ==> names[1..][i] == names[i + 1];
      SameMissing(h, h', names[1..]);
    }
  }

  /** The common core of both round trips: everything attached by `Signed` is read back, and then
      the headers the signer held decide. */
  lemma SignedIsRead(env: Env, headers: Headers, components: seq<string>, m: Message, signing: Signing,
      mandatory: seq<string>, body: Option<seq<Byte>>, wantsProfile: bool, key: Key,
      resolve: (string, string) -> Option<Key>)
    requires LowerNames(headers) && CoverableAll(components)
    requires Signed(headers, components, m, signing).Success?
    requires forall i :: 0 <= i < |mandatory| ==> Ordinary(mandatory[i])
    requires KeyMatches(key, signing)
    requires var profile := ProfileOf(env, LowerCased(headers), wantsProfile);
             (wantsProfile ==> profile.Some?) ==> resolve(signing.kid, profile.GetOr("")) == Some(key)
    ensures Verify(env, Signed(headers, components, m, signing).value, mandatory, components, m, body, wantsProfile,
      resolve)
         == Answer(env, LowerCased(headers), signing, mandatory, body, wantsProfile)
  {
    hide Lower, Put, Get, LowerNames, LowerCased, Base, Trimmed, ParseDict, PrintDict, ParseSignatureInput,
      ParseSignature, DigestMatches, ProfileUrl, KeyMatches, RawVerifies, CoverableAll, SignatureDict,
      SignatureInputDict, Verify;
    var p := SignatureParameters(signing.kid, None, None, None);
    KidPresent(components, m, headers, p);
    var data := Base(components, m, headers, p).value;
    var signature := signing.sign(data);
    InputBack(components, signing.kid);
    InputTextTrimmed(components, signing.kid);
    SignatureTextBack(signature);
    var input, sig := PrintDict(SignatureInputDict(components, signing.kid)).value,
      PrintDict(SignatureDict(signature)).value;
    var received := LowerCased(Signed(headers, components, m, signing).value);
    ReceivedGet(headers, input, sig, "signature-input");
    ReceivedGet(headers, input, sig, "signature");
    ReceivedGet(headers, input, sig, "ucp-agent");
    ReceivedGet(headers, input, sig, "content-digest");
    forall i | 0 <= i < |mandatory|
      ensures Get(received, mandatory[i]) == Get(LowerCased(headers), mandatory[i])
    {
      ReceivedGet(headers, input, sig, mandatory[i]);
    }
    SameMissing(received, LowerCased(headers), mandatory);
    BaseSurvives(headers, input, sig, components, m, p);
    hide FirstMissing, FirstUncovered;
    FieldsAreRead(env, Signed(headers, components, m, signing).value, components, m, signing, data, mandatory, body,
      wantsProfile, key, resolve);
  }

  lemma MatchedAlgorithm(key: Key, signing: Signing)
    requires KeyMatches(key, signing)
    ensures key.algorithm == Some(signing.algorithm)
  {
  }

  lemma KidPresent(components: seq<string>, m: Message, headers: Headers, p: SignatureParameters)
    requires Base(components, m, headers, p).Success?
    ensures p.keyid != ""
  {
    hide Lines, Identifiers;
  }

  lemma SignatureTextBack(signature: seq<Byte>)
    ensures var text := PrintDict(SignatureDict(signature));
            text.Success? && text.value != "" && Trimmed(text.value) && ParseSignature(text.value) == Some(signature)
  {
    hide ParseDict, PrintDict, Base64.Encode, Trimmed, ValidKey;
    KeysValid();
    SignatureBack("sig1", signature);
    SingleGet(SignatureDict(signature), "sig1");
    KeyTextTrimmed("sig1", "=:" + Base64.Encode(signature), ':');
    assert "sig1" + ("=:" + Base64.Encode(signature)) + [':'] == "sig1" + "=:" + Base64.Encode(signature) + ":";
  }

  // --- Requests ---

  /** A body the signer hashed matches on arrival; without one, what matters is whether the
      caller sent a content digest of their own. */
  lemma DigestFieldMatches(env: Env, body: seq<Byte>)
    ensures Trimmed(DigestField(env, body)) && DigestField(env, body) != ""
    ensures DigestMatches(env, Some(DigestField(env, body)), Some(body))
  {
    hide ParseDict, PrintDict, Base64.Encode, Trimmed, ValidKey;
    KeysValid();
    SignatureBack("sha-256", env.sha256(body));
    var text := "sha-256" + "=:" + Base64.Encode(env.sha256(body)) + ":";
    assert "sha-256" + ("=:" + Base64.Encode(env.sha256(body))) + [':'] == text;
    KeyTextTrimmed("sha-256", "=:" + Base64.Encode(env.sha256(body)), ':');
    assert DigestField(env, body) == text by {
      assert "sha-256=:" == "sha-256" + "=:";
    }
    SingleGet([("sha-256", Plain(Item(Bytes(env.sha256(body)), None)))], "sha-256");
  }

  lemma PreparedGet(env: Env, headers: Headers, body: Option<seq<Byte>>, name: string)
    requires LowerNames(headers) && WithDigest(env, headers, body).Success?
    ensures var h := WithDigest(env, headers, body).value;
            LowerNames(h) && Get(LowerCased(h), name) ==
              if name == "content-digest" && body.Some? then Some(DigestField(env, body.value))
                else Get(LowerCased(headers), name)
  {
    hide Lower, Put, Get, LowerNames, LowerCased, Trimmed, DigestField, Present;
    if body.Some? {
      var field := DigestField(env, body.value);
      FieldNamesLower();
      PutNames(headers, "content-digest", field);
      DistinctNames(headers);
      PutGet(headers, "content-digest", field, name);
      LowerCasedGet(headers, name);
      LowerCasedGet(Put(headers, "content-digest", field), name);
      DigestFieldMatches(env, body.value);
    }
  }

  lemma RequestCoverable(r: Request)
    ensures CoverableAll(RequestComponents(r))
  {
    FieldNamesLower();
    hide Lower, Mutating, Upper;
  }

  lemma ResponseCoverable(r: Response)
    ensures CoverableAll(ResponseComponents(r))
  {
    FieldNamesLower();
    hide Lower;
  }

  /** Whether the verifier will accept the content digest of a signed message: always when the
      signer hashed a body, otherwise when the caller's own digest header, if any, is that of
      an empty body. */
  predicate DigestConsistent(env: Env, headers: Headers, body: Option<seq<Byte>>) {
    body.Some? || DigestMatches(env, Get(LowerCased(headers), "content-digest"), None)
  }

  /** What the verifier answers to a signed request. */
  function RequestAnswer(env: Env, r: Request, signing: Signing, ucpAgent: string): Verdict {
    var profile := ProfileUrl(env, Trim(ucpAgent));
    if Trim(ucpAgent) == "" then Rejected(MandatoryHeaderMissing("ucp-agent"))
    else if profile.None? then Rejected(UcpAgentInvalid)
    else if !DigestConsistent(env, r.headers, r.body) then Rejected(DigestMismatch)
    else Verified(signing.kid, signing.algorithm, profile)
  }

  /** The headers the signer covers, as the verifier will see them. */
  lemma AgreedHeaders(env: Env, r: Request, ucpAgent: string, signing: Signing)
    requires SignRequest(env, r, signing, ucpAgent).Success?
    ensures var prepared := WithDigest(env, Put(LowerCased(r.headers), "ucp-agent", ucpAgent), r.body);
            prepared.Success? && LowerNames(prepared.value) &&
            var h := LowerCased(prepared.value);
            Get(h, "ucp-agent") == Some(Trim(ucpAgent)) &&
            DigestMatches(env, Get(h, "content-digest"), r.body) == DigestConsistent(env, r.headers, r.body) &&
            FirstMissing(h, RequestMandatory(r)) == if Trim(ucpAgent) == "" then Some("ucp-agent") else None
  {
    hide Lower, Put, Get, LowerNames, LowerCased, Trimmed, Trim, Signed, DigestField, WithDigest, DigestMatches,
      Mutating, Upper;
    var agreed := Put(LowerCased(r.headers), "ucp-agent", ucpAgent);
    var h := LowerCased(WithDigest(env, agreed, r.body).value);
    AgreedGet(r.headers, ucpAgent, "ucp-agent");
    AgreedGet(r.headers, ucpAgent, "content-digest");
    AgreedGet(r.headers, ucpAgent, "content-type");
    AgreedGet(r.headers, ucpAgent, "idempotency-key");
    PreparedGet(env, agreed, r.body, "ucp-agent");
    PreparedGet(env, agreed, r.body, "content-digest");
    PreparedGet(env, agreed, r.body, "content-type");
    PreparedGet(env, agreed, r.body, "idempotency-key");
    if r.body.Some? {
      PreparedContentType(env, agreed, r.body);
      DigestFieldMatches(env, r.body.value);
    }
    var names := RequestMandatory(r);
    assert names[0] == "ucp-agent" && (Trim(ucpAgent) != "" <==> Present(h, "ucp-agent"));
    if Trim(ucpAgent) != "" {
      AllPresent(h, names);
    }
  }

  /** A signed request is refused without an agent, for an agent without a profile, or for its
      digest header, and otherwise verified. */
  lemma SignedRequestVerifies(env: Env, r: Request, signing: Signing, ucpAgent: string, key: Key,
                              resolve: (string, string) -> Option<Key>)
    requires SignRequest(env, r, signing, ucpAgent).Success? && KeyMatches(key, signing)
    requires var profile := ProfileUrl(env, Trim(ucpAgent));
             profile.Some? ==> resolve(signing.kid, profile.value) == Some(key)
    ensures var verdict := VerifyRequest(env, r.(headers := SignRequest(env, r, signing, ucpAgent).value), resolve);
            verdict == RequestAnswer(env, r, signing, ucpAgent) &&
            (verdict.Verified? <==>
             ProfileUrl(env, Trim(ucpAgent)).Some? && DigestConsistent(env, r.headers, r.body))
  {
    AgreedHeaders(env, r, ucpAgent, signing);
    hide Lower, Put, Get, LowerNames, LowerCased, Trimmed, Trim, Signed, DigestField, WithDigest, DigestMatches,
      ProfileUrl, KeyMatches, Verify, RequestComponents, RequestMessage, RequestMandatory, DigestConsistent,
      FirstMissing, Mutating, Upper;
    var headers := WithDigest(env, Put(LowerCased(r.headers), "ucp-agent", ucpAgent), r.body).value;
    if ProfileUrl(env, Trim(ucpAgent)).Some? {
      ProfilePresent(env, Trim(ucpAgent));
    }
    RequestCoverable(r);
    MandatoryOrdinary(r);
    SignedIsRead(env, headers, RequestComponents(r), RequestMessage(r), signing, RequestMandatory(r), r.body, true,
      key, resolve);
    SameRequest(r, SignRequest(env, r, signing, ucpAgent).value);
  }

  lemma MandatoryOrdinary(r: Request)
    ensures forall i :: 0 <= i < |RequestMandatory(r)| ==> Ordinary(RequestMandatory(r)[i])
  {
    hide Mutating, Upper;
    assert Ordinary("ucp-agent") && Ordinary("idempotency-key") && Ordinary("content-type")
      && Ordinary("content-digest");
  }

  lemma SameRequest(r: Request, headers: Headers)
    ensures var r' := r.(headers := headers);
            RequestComponents(r') == RequestComponents(r) && RequestMessage(r') == RequestMessage(r)
              && RequestMandatory(r') == RequestMandatory(r)
  {
    hide Upper, Mutating, NormalizeAuthority;
  }

  lemma ProfilePresent(env: Env, value: string)
    requires ProfileUrl(env, value).Some?
    ensures value != ""
  {
  }

  lemma PreparedContentType(env: Env, headers: Headers, body: Option<seq<Byte>>)
    requires WithDigest(env, headers, body).Success? && body.Some?
    ensures Present(headers, "content-type")
  {
  }

  /** Headers after the agent is set, as the verifier will see them. */
  lemma AgreedGet(original: Headers, ucpAgent: string, name: string)
    ensures var h := Put(LowerCased(original), "ucp-agent", ucpAgent);
            LowerNames(h) && Get(LowerCased(h), name) == (if name == "ucp-agent" then Some(Trim(ucpAgent))
              else Get(LowerCased(original), name)) &&
            (name != "ucp-agent" ==> Get(LowerCased(h), name) == Get(h, name))
  {
    hide Lower, Put, Get, LowerNames, LowerCased, Trim;
    FieldNamesLower();
    LowerCasedNames(original);
    PutNames(LowerCased(original), "ucp-agent", ucpAgent);
    DistinctNames(LowerCased(original));
    PutGet(LowerCased(original), "ucp-agent", ucpAgent, name);
    LowerCasedGet(Put(LowerCased(original), "ucp-agent", ucpAgent), name);
    LowerCasedTwice(original, name);
    LowerCasedGet(LowerCased(original), name);
  }

  /** The response pair: the same condition, no agent and no idempotency key. */
  lemma SignedResponseVerifies(env: Env, r: Response, signing: Signing, key: Key,
      resolve: (string, string) -> Option<Key>)
    requires SignResponse(env, r, signing).Success?
    requires KeyMatches(key, signing) && resolve(signing.kid, "") == Some(key)
    ensures VerifyResponse(env, r.(headers := SignResponse(env, r, signing).value), resolve)
         == if DigestConsistent(env, r.headers, r.body) then Verified(signing.kid, signing.algorithm, None)
           else Rejected(DigestMismatch)
  {
    hide Lower, Put, Get, LowerNames, LowerCased, Trimmed, Signed, DigestField, WithDigest, DigestMatches, KeyMatches,
      Verify;
    var lowered := LowerCased(r.headers);
    var headers := WithDigest(env, lowered, r.body).value;
    LowerCasedNames(r.headers);
    LowerCasedTwice(r.headers, "content-digest");
    LowerCasedTwice(r.headers, "content-type");
    PreparedGet(env, lowered, r.body, "content-digest");
    PreparedGet(env, lowered, r.body, "content-type");
    if r.body.Some? {
      PreparedContentType(env, lowered, r.body);
      DigestFieldMatches(env, r.body.value);
    }
    ResponseCoverable(r);
    var names := ResponseMandatory(r.body);
    forall i | 0 <= i < |names|
      ensures Ordinary(names[i]) && Present(LowerCased(headers), names[i])
    {
    }
    AllPresent(LowerCased(headers), names);
    hide FirstMissing;
    SignedIsRead(env, headers, ResponseComponents(r), ResponseMessage(r), signing, names, r.body, false, key, resolve);
  }
}
