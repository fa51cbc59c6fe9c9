/** Why what is signed must not be readable in two ways: such a request, and the other one that
    is accepted in its place. */
module SecondReading {
  import opened Records
  import opened Text
  import opened StructuredFields
  import opened SignatureBase
  import opened Signatures
  import opened SignThenVerify
  import opened LineBreaks
  import opened BaseEvidence
  import opened TamperEvidence
  import opened SigningCondition

  function Post(url: Url, key: string): Request {
    Request("POST", url, [("idempotency-key", key)], None)
  }

  const KEY_LINE := Opening("idempotency-key")

  /** The headers that were signed, with another agent and another key. */
  function Replaced(signed: Headers, agent: string, key: string): Headers {
    Put(Put(signed, "ucp-agent", agent), "idempotency-key", key)
  }

  lemma ReplacedGet(signed: Headers, agent: string, key: string, name: string)
    requires LowerNames(signed) && Trimmed(agent) && Trimmed(key)
    ensures Get(LowerCased(Replaced(signed, agent, key)), name) ==
      if name == "idempotency-key" then Some(key) else if name == "ucp-agent" then Some(agent)
      else Get(LowerCased(signed), name)
  {
    hide Lower, Put, Get, LowerNames, LowerCased, Trimmed;
    FieldNamesLower();
    PutNames(signed, "ucp-agent", agent);
    PutNames(Put(signed, "ucp-agent", agent), "idempotency-key", key);
    DistinctNames(signed);
    DistinctNames(Put(signed, "ucp-agent", agent));
    PutGet(signed, "ucp-agent", agent, name);
    PutGet(Put(signed, "ucp-agent", agent), "idempotency-key", key, name);
    LowerCasedGet(Replaced(signed, agent, key), name);
    LowerCasedGet(signed, name);
  }

  lemma PostGet(key: string, name: string)
    requires Trimmed(key)
    ensures Get(LowerCased([("idempotency-key", key)]), name) == if name == "idempotency-key" then Some(key) else None
  {
    FieldNamesLower();
    var headers: Headers := [("idempotency-key", key)];
    assert headers[1..] == [];
    assert Put([], "idempotency-key", key) == headers;
    hide Lower, Trim;
    assert LowerCasedInto(headers, []) == LowerCasedInto(headers[1..], Put([], "idempotency-key", key));
    if name == "idempotency-key" {
      SingleGet(headers, name);
    } else {
      SingleMiss(headers, name);
    }
  }

  lemma PostComponents(url: Url, key: string)
    ensures var cs := RequestComponents(Post(url, key));
            cs == ["@method", "@authority", "@path"] + (if url.search != "" then ["@query"] else [])
                  + ["ucp-agent", "idempotency-key"] &&
            RequestMandatory(Post(url, key)) == ["ucp-agent", "idempotency-key"]
  {
    assert Upper("POST") == "POST";
  }

  function Target(url: Url): seq<string> {
    ["POST", NormalizeAuthority(url), if url.pathname == "" then "/" else url.pathname]
    + if url.search == "" then [] else [if StartsWith(url.search, '?') then url.search else "?" + url.search]
  }

  lemma DerivedValue(url: Url, key: string, h: Headers)
    requires NormalizeAuthority(url) != ""
    ensures var m := RequestMessage(Post(url, key));
            ComponentValue("@method", m, h) == Success("POST") &&
            ComponentValue("@authority", m, h) == Success(NormalizeAuthority(url)) &&
            ComponentValue("@path", m, h) == Success(Target(url)[2]) &&
            (url.search != "" ==> ComponentValue("@query", m, h) == Success(Target(url)[3]))
  {
    assert Upper("POST") == "POST";
    hide NormalizeAuthority;
  }

  lemma PostValues(url: Url, key: string, h: Headers, agent: string, value: string)
    requires NormalizeAuthority(url) != ""
    requires Get(h, "ucp-agent") == Some(agent) && Get(h, "idempotency-key") == Some(value)
    ensures var cs, m := RequestComponents(Post(url, key)), RequestMessage(Post(url, key));
            AllValued(cs, m, h) && ValuesOf(cs, m, h) == Target(url) + [agent, value]
  {
    PostComponents(url, key);
    DerivedValue(url, key, h);
    HeaderValue("ucp-agent", RequestMessage(Post(url, key)), h);
    HeaderValue("idempotency-key", RequestMessage(Post(url, key)), h);
    hide ComponentValue, RequestComponents, RequestMessage, NormalizeAuthority, Get;
    var cs, m := RequestComponents(Post(url, key)), RequestMessage(Post(url, key));
    var vs := Target(url) + [agent, value];
    assert |vs| == |cs|;
    forall i | 0 <= i < |cs|
      ensures ComponentValue(cs[i], m, h) == Success(vs[i])
    {
    }
  }

  lemma PostHeaders(env: Env, url: Url, key: string, agent: string, name: string)
    requires Trimmed(key) && Trimmed(agent)
    ensures var r := Post(url, key);
            var prepared := WithDigest(env, Put(LowerCased(r.headers), "ucp-agent", agent), None);
            prepared.Success? && LowerNames(prepared.value) &&
            Get(LowerCased(prepared.value), name) == if name == "ucp-agent" then Some(agent)
              else if name == "idempotency-key" then Some(key) else None
  {
    AgreedGet(Post(url, key).headers, agent, name);
    PostGet(key, name);
    hide Lower, Put, Get, LowerNames, LowerCased, Trimmed, Trim;
  }

  lemma LastTwo(front: seq<string>, x: string, y: string, x': string, y': string)
    ensures var i, vs := |front| + 1, front + [x, y];
            vs[i - 1] == x && vs[i] == y && vs[i - 1 := x'][i := y'] == front + [x', y']
  {
  }

  lemma KeyIsLast(url: Url, key: string)
    ensures var cs := RequestComponents(Post(url, key));
            |cs| == |Target(url)| + 2 && cs[|Target(url)| + 1] == "idempotency-key"
  {
    PostComponents(url, key);
    hide RequestComponents;
  }

  /** An agent that goes on over the line of the key: the request that takes the one for the
      other has the same base. */
  lemma SameBase(url: Url, key: string, a: string, b: string, c: string, h: Headers, h': Headers,
      p: SignatureParameters)
    requires NormalizeAuthority(url) != ""
    requires Get(LowerCased(h), "ucp-agent") == Some(a + (KEY_LINE + b))
    requires Get(LowerCased(h), "idempotency-key") == Some(c)
    requires Get(LowerCased(h'), "ucp-agent") == Some(a)
    requires Get(LowerCased(h'), "idempotency-key") == Some(b + (KEY_LINE + c))
    ensures var r := Post(url, key);
            Base(RequestComponents(r), RequestMessage(r), h, p) == Base(RequestComponents(r), RequestMessage(r), h', p)
  {
    hide LowerCased, Get, Base, Opening, NormalizeAuthority, AllValued, RequestComponents, Target, ValuesOf,
      RequestMessage, PlainNames;
    var cs, m := RequestComponents(Post(url, key)), RequestMessage(Post(url, key));
    KeyIsLast(url, key);
    PostValues(url, key, LowerCased(h), a + (KEY_LINE + b), c);
    PostValues(url, key, LowerCased(h'), a, b + (KEY_LINE + c));
    RequestPlain(Post(url, key));
    LastTwo(Target(url), a + (KEY_LINE + b), c, a, b + (KEY_LINE + c));
    MovedBase(cs, m, h, h', p, |Target(url)| + 1, a, b, c);
  }

  lemma PostSignable(url: Url, key: string, signing: Signing)
    requires signing.kid != "" && NormalizeAuthority(url) != "" && Trimmed(key) && key != ""
    ensures Signable(Post(url, key), signing)
  {
    PostGet(key, "idempotency-key");
    hide LowerCased, Get, NormalizeAuthority;
  }

  /** What the signer attaches, and over which text. */
  lemma Attaches(env: Env, r: Request, signing: Signing, agent: string)
      returns (input: string, sig: string, data: string)
    requires SignRequest(env, r, signing, agent).Success?
    ensures var prepared := WithDigest(env, Put(LowerCased(r.headers), "ucp-agent", agent), r.body);
            prepared.Success? &&
            Base(RequestComponents(r), RequestMessage(r), prepared.value,
              SignatureParameters(signing.kid, None, None, None))
              == Success(data) &&
            PrintDict(SignatureInputDict(RequestComponents(r), signing.kid)) == Success(input) &&
            PrintDict(SignatureDict(signing.sign(data))) == Success(sig) &&
            |signing.sign(data)| == signing.algorithm.Width() && signing.kid != "" && Trimmed(input) && Trimmed(sig) &&
            SignRequest(env, r, signing, agent)
              == Success(Put(Put(prepared.value, "signature-input", input), "signature", sig))
  {
    hide Base, LowerCased, RequestComponents, RequestMessage, WithDigest, PrintDict, Get, Put, Trimmed,
      SignatureInputDict, SignatureDict, Mutating, Upper;
    var headers := WithDigest(env, Put(LowerCased(r.headers), "ucp-agent", agent), r.body).value;
    var p := SignatureParameters(signing.kid, None, None, None);
    data := Base(RequestComponents(r), RequestMessage(r), headers, p).value;
    KidPresent(RequestComponents(r), RequestMessage(r), headers, p);
    InputTextTrimmed(RequestComponents(r), signing.kid);
    SignatureTextBack(signing.sign(data));
    input := PrintDict(SignatureInputDict(RequestComponents(r), signing.kid)).value;
    sig := PrintDict(SignatureDict(signing.sign(data))).value;
  }

  /** The headers of the second reading, as the verifier will see them. */
  lemma OtherHeaders(env: Env, url: Url, key: string, agent: string, input: string, sig: string, agent': string,
      key': string, name: string)
    requires Trimmed(key) && Trimmed(agent) && Trimmed(key') && Trimmed(agent') && Trimmed(input) && Trimmed(sig)
    ensures var prepared := WithDigest(env, Put(LowerCased(Post(url, key).headers), "ucp-agent", agent), None).value;
            var signed := Put(Put(prepared, "signature-input", input), "signature", sig);
            Get(LowerCased(Replaced(signed, agent', key')), name) ==
              if name == "ucp-agent" then Some(agent') else if name == "idempotency-key" then Some(key')
              else if name == "signature" then Some(sig) else if name == "signature-input" then Some(input) else None
  {
    hide Put, Get, LowerNames, LowerCased, Trimmed, WithDigest, Replaced, Post;
    PostHeaders(env, url, key, agent, name);
    var prepared := WithDigest(env, Put(LowerCased(Post(url, key).headers), "ucp-agent", agent), None).value;
    AttachedGet(prepared, input, sig, name);
    ReceivedGet(prepared, input, sig, name);
    ReplacedGet(Put(Put(prepared, "signature-input", input), "signature", sig), agent', key', name);
  }

  lemma NothingStops(env: Env, h: Headers, url: Url, key: string, signing: Signing, agent: string, key': string,
      profile: string)
    requires Get(h, "ucp-agent") == Some(agent) && Get(h, "idempotency-key") == Some(key') && key' != ""
    requires Get(h, "content-digest") == None && ProfileUrl(env, agent) == Some(profile)
    ensures Answer(env, h, signing, RequestMandatory(Post(url, key)), None, true)
         == Verified(signing.kid, signing.algorithm, Some(profile))
  {
    ProfilePresent(env, agent);
    PostComponents(url, key);
    hide Get, ProfileUrl, RequestMandatory;
    AllPresent(h, RequestMandatory(Post(url, key)));
    hide FirstMissing;
  }

  /** The headers of the second reading hold the signature over their own base. */
  lemma OtherVerifies(env: Env, url: Url, signing: Signing, a: string, b: string, c: string, profile: string, key: Key,
                      resolve: (string, string) -> Option<Key>, prepared: Headers, other: Headers, data: string)
    requires NormalizeAuthority(url) != "" && signing.kid != "" && |signing.sign(data)| == signing.algorithm.Width()
    requires ProfileUrl(env, a) == Some(profile) && KeyMatches(key, signing)
      && resolve(signing.kid, profile) == Some(key)
    requires Get(LowerCased(prepared), "ucp-agent") == Some(a + (KEY_LINE + b))
    requires Get(LowerCased(prepared), "idempotency-key") == Some(c)
    requires Get(LowerCased(other), "ucp-agent") == Some(a) && Get(LowerCased(other), "content-digest") == None
    requires Get(LowerCased(other), "idempotency-key") == Some(b + (KEY_LINE + c))
    requires var r := Post(url, c);
             Base(RequestComponents(r), RequestMessage(r), prepared, SignatureParameters(signing.kid, None, None, None))
               == Success(data) &&
             HoldsFields(LowerCased(other), RequestComponents(r), signing, data)
    ensures VerifyRequest(env, Post(url, c).(headers := other), resolve)
         == Verified(signing.kid, signing.algorithm, Some(profile))
  {
    Longer(b, c);
    SameRequest(Post(url, c), other);
    LowerCasedTwice(other, "ucp-agent");
    LowerCasedTwice(other, "idempotency-key");
    hide LowerCased, Get, Base, Opening, RequestComponents, RequestMessage, RequestMandatory, NormalizeAuthority,
      ProfileUrl, KeyMatches, HoldsFields, Answer, Verify;
    var r := Post(url, c);
    SameBase(url, c, a, b, c, prepared, LowerCased(other), SignatureParameters(signing.kid, None, None, None));
    FieldsAreRead(env, other, RequestComponents(r), RequestMessage(r), signing, data, RequestMandatory(r), None, true,
      key, resolve);
    NothingStops(env, LowerCased(other), url, c, signing, a, b + (KEY_LINE + c), profile);
  }

  /** A request whose agent goes on over the line of the key is signed; the request with the agent
      and the key of the second reading is then verified with its signature. */
  lemma SecondReadingAccepted(env: Env, url: Url, signing: Signing, a: string, b: string, c: string, profile: string,
                              key: Key, resolve: (string, string) -> Option<Key>)
    requires (forall data :: |signing.sign(data)| == signing.algorithm.Width()) && signing.kid != ""
    requires NormalizeAuthority(url) != "" && c != ""
    requires Trimmed(a) && Trimmed(c) && Trimmed(a + (KEY_LINE + b)) && Trimmed(b + (KEY_LINE + c))
    requires ProfileUrl(env, a) == Some(profile) && KeyMatches(key, signing)
      && resolve(signing.kid, profile) == Some(key)
    ensures var r := Post(url, c);
            var signed := SignRequest(env, r, signing, a + (KEY_LINE + b));
            signed.Success? &&
            var other := Replaced(signed.value, a, b + (KEY_LINE + c));
            VerifyRequest(env, r.(headers := other), resolve)
              == Verified(signing.kid, signing.algorithm, Some(profile)) &&
            Get(LowerCased(other), "idempotency-key") != Get(LowerCased(r.headers), "idempotency-key")
  {
    var r, agent, key' := Post(url, c), a + (KEY_LINE + b), b + (KEY_LINE + c);
    PostSignable(url, c, signing);
    PostGet(c, "idempotency-key");
    Longer(b, c);
    hide SignRequest, LowerCased, Get, Put, Base, Opening, Trimmed, RequestComponents, RequestMessage,
      NormalizeAuthority, ProfileUrl, PrintDict, SignatureInputDict, SignatureDict, KeyMatches, Replaced, WithDigest,
      VerifyRequest, Signable;
    SigningSucceeds(env, r, signing, agent);
    var input, sig, data := Attaches(env, r, signing, agent);
    var prepared := WithDigest(env, Put(LowerCased(r.headers), "ucp-agent", agent), None).value;
    var other := Replaced(Put(Put(prepared, "signature-input", input), "signature", sig), a, key');
    OtherHeaders(env, url, c, agent, input, sig, a, key', "ucp-agent");
    OtherHeaders(env, url, c, agent, input, sig, a, key', "idempotency-key");
    OtherHeaders(env, url, c, agent, input, sig, a, key', "signature");
    OtherHeaders(env, url, c, agent, input, sig, a, key', "signature-input");
    OtherHeaders(env, url, c, agent, input, sig, a, key', "content-digest");
    PostHeaders(env, url, c, agent, "ucp-agent");
    PostHeaders(env, url, c, agent, "idempotency-key");
    OtherVerifies(env, url, signing, a, b, c, profile, key, resolve, prepared, other, data);
  }

  lemma Longer(b: string, c: string)
    ensures b + (KEY_LINE + c) != c && b + (KEY_LINE + c) != ""
  {
    assert KEY_LINE[0] == '\n';
    assert |b + (KEY_LINE + c)| > |c|;
  }
}
