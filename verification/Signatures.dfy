/** Signing and verifying UCP messages. Signing and hashing are functions of the environment. */
module Signatures {
  import opened Records
  import opened Text
  import opened StructuredFields
  import opened SignatureBase
  import opened SfRoundTrip
  import Base64
  import Der

  datatype Algorithm = ES256 | ES384 {
    function Width(): nat {
      if ES256? then 64 else 96
    }
  }

  /** A signer returns raw r||s over the text it is given. */
  datatype Signing = Signing(kid: string, algorithm: Algorithm, sign: string -> seq<Byte>)

  /** A resolved key: `None` when its curve is not supported. Verification takes DER. */
  datatype Key = Key(algorithm: Option<Algorithm>, verifyDer: (string, seq<Byte>) -> bool)

  datatype UrlParts = UrlParts(protocol: string, hostname: string, port: string, pathname: string, search: string)

  /** What every parsed URL satisfies: colons of a host are inside brackets, a port is digits, and a
      query that is not empty begins with its question mark. */
  predicate Parsed(u: UrlParts) {
    && ((forall c :: c in u.hostname ==> c != ':') || (u.hostname != "" && u.hostname[|u.hostname| - 1] == ']'))
    && (forall c :: c in u.port ==> IsDigit(c))
    && (u.search != "" ==> u.search[0] == '?')
  }

  type Url = u: UrlParts | Parsed(u) witness UrlParts("https:", "localhost", "", "/", "")

  datatype Request = Request(verb: string, url: Url, headers: Headers, body: Option<seq<Byte>>)
  datatype Response = Response(status: nat, headers: Headers, body: Option<seq<Byte>>)
  datatype Env = Env(sha256: seq<Byte> -> seq<Byte>, isUrl: string -> bool)

  datatype SignError = MissingSignerHeader(name: string) | BaseFailed(baseError: BaseError) | WrongWidth
    | FieldFailed(fieldError: Error)

  datatype Reason =
    | SignatureMissing | SignatureInputInvalid | SignatureFormatInvalid | MandatoryHeaderMissing(name: string)
    | UcpAgentInvalid | ComponentNotCovered(name: string) | DigestMismatch | KeyNotFound | AlgorithmUnsupported
    | BaseInvalid(error: BaseError) | SignatureInvalid

  datatype Verdict = Verified(kid: string, algorithm: Algorithm, profile: Option<string>) | Rejected(reason: Reason)

  // --- What both sides derive from the message ---

  function NormalizeAuthority(url: Url): string {
    var host := Lower(url.hostname);
    var defaultPort := if url.protocol == "http:" then "80" else if url.protocol == "https:" then "443" else "";
    if url.port == "" || url.port == defaultPort then host else host + ":" + url.port
  }

  function RequestMessage(r: Request): Message {
    Message(Some(Upper(r.verb)), Some(NormalizeAuthority(r.url)),
      Some(if r.url.pathname == "" then "/" else r.url.pathname),
            if r.url.search == "" then None else Some(r.url.search), None)
  }

  function ResponseMessage(r: Response): Message {
    Message(None, None, None, None, Some(r.status))
  }

  predicate Mutating(verb: string) {
    verb == "POST" || verb == "PUT" || verb == "DELETE" || verb == "PATCH"
  }

  function BodyComponents(body: Option<seq<Byte>>): seq<string> {
    if body.Some? then ["content-digest", "content-type"] else []
  }

  function RequestComponents(r: Request): seq<string> {
    ["@method", "@authority", "@path"] + (if r.url.search != "" then ["@query"] else []) + ["ucp-agent"]
    + (if Mutating(Upper(r.verb)) then ["idempotency-key"] else []) + BodyComponents(r.body)
  }

  function ResponseComponents(r: Response): seq<string> {
    ["@status"] + BodyComponents(r.body)
  }

  function RequestMandatory(r: Request): seq<string> {
    ["ucp-agent"] + (if Mutating(Upper(r.verb)) then ["idempotency-key"] else []) + ResponseMandatory(r.body)
  }

  function ResponseMandatory(body: Option<seq<Byte>>): seq<string> {
    if body.Some? then ["content-type", "content-digest"] else []
  }

  predicate Present(headers: Headers, name: string) {
    Get(headers, name).GetOr("") != ""
  }

  // --- Signing ---

  function DigestField(env: Env, body: seq<Byte>): string {
    "sha-256=:" + Base64.Encode(env.sha256(body)) + ":"
  }

  function SignatureInputDict(components: seq<string>, kid: string): Dict {
    [("sig1", InnerList(seq(|components|, i requires 0 <= i < |components| => Item(Str(components[i]), None)),
      Some([("keyid", Str(kid))])))]
  }

  function SignatureDict(signature: seq<Byte>): Dict {
    [("sig1", Plain(Item(Bytes(signature), None)))]
  }

  /** Content headers of a body; a body must come with a content type. */
  function WithDigest(env: Env, headers: Headers, body: Option<seq<Byte>>): Result<Headers, SignError> {
    if body.None? then Success(headers)
    else if !Present(headers, "content-type") then Failure(MissingSignerHeader("content-type"))
    else Success(Put(headers, "content-digest", DigestField(env, body.value)))
  }

  function Signed(headers: Headers, components: seq<string>, m: Message, signing: Signing): Result<Headers, SignError> {
    var base := Base(components, m, headers, SignatureParameters(signing.kid, None, None, None));
    if base.Failure? then Failure(BaseFailed(base.error))
    else
      var signature := signing.sign(base.value);
      if |signature| != signing.algorithm.Width() then Failure(WrongWidth)
      else
        var input := PrintDict(SignatureInputDict(components, signing.kid));
        var sig := PrintDict(SignatureDict(signature));
        if input.Failure? then Failure(FieldFailed(input.error))
        else if sig.Failure? then Failure(FieldFailed(sig.error))
        else Success(Put(Put(headers, "signature-input", input.value), "signature", sig.value))
  }

  function SignRequest(env: Env, r: Request, signing: Signing, ucpAgent: string): Result<Headers, SignError> {
    var headers := Put(LowerCased(r.headers), "ucp-agent", ucpAgent);
    if Mutating(Upper(r.verb))
      && !Present(headers, "idempotency-key") then Failure(MissingSignerHeader("idempotency-key"))
    else
      var prepared := WithDigest(env, headers, r.body);
      if prepared.Failure? then prepared else Signed(prepared.value, RequestComponents(r), RequestMessage(r), signing)
  }

  function SignResponse(env: Env, r: Response, signing: Signing): Result<Headers, SignError> {
    var prepared := WithDigest(env, LowerCased(r.headers), r.body);
    if prepared.Failure? then prepared else Signed(prepared.value, ResponseComponents(r), ResponseMessage(r), signing)
  }

  /** Signing as it runs: one header record, assigned into step by step. */
  method SignUcpRequest(env: Env, r: Request, signing: Signing, ucpAgent: string)
      returns (signed: Result<Headers, SignError>)
    ensures signed == SignRequest(env, r, signing, ucpAgent)
  {
    hide Base, PrintDict, LowerCased, Put, RequestComponents, RequestMessage, DigestField, Get;
    var headers := LowerCaseHeaders(r.headers);
    headers := Put(headers, "ucp-agent", ucpAgent);
    if Mutating(Upper(r.verb)) && !Present(headers, "idempotency-key") {
      return Failure(MissingSignerHeader("idempotency-key"));
    }
    if r.body.Some? {
      if !Present(headers, "content-type") {
        return Failure(MissingSignerHeader("content-type"));
      }
      headers := Put(headers, "content-digest", DigestField(env, r.body.value));
    }
    var components := RequestComponents(r);
    var base := Base(components, RequestMessage(r), headers, SignatureParameters(signing.kid, None, None, None));
    if base.Failure? {
      return Failure(BaseFailed(base.error));
    }
    var signature := signing.sign(base.value);
    if |signature| != signing.algorithm.Width() {
      return Failure(WrongWidth);
    }
    var input := PrintDict(SignatureInputDict(components, signing.kid));
    var sig := PrintDict(SignatureDict(signature));
    if input.Failure? {
      return Failure(FieldFailed(input.error));
    }
    if sig.Failure? {
      return Failure(FieldFailed(sig.error));
    }
    headers := Put(headers, "signature-input", input.value);
    headers := Put(headers, "signature", sig.value);
    signed := Success(headers);
  }

  // --- Verifying ---

  /** The string member `profile` of the agent header, when it is a URL. */
  function ProfileUrl(env: Env, value: string): Option<string> {
    var d := ParseDict(value);
    if d.Failure? then None
    else
      var member: Option<Member> := Get(d.value, "profile");
      match member
      case Some(Plain(Item(Str(text), _))) => if text != "" && env.isUrl(text) then Some(text) else None
      case _ => None
  }

  function SafeInteger(b: Option<BareItem>): Option<Option<int>> {
    match b
    case None => Some(None)
    case Some(Num(x)) =>
      if x.Floor as real == x && -MAX_SAFE_INTEGER <= x.Floor <= MAX_SAFE_INTEGER then Some(Some(x.Floor)) else None
    case _ => None
  }

  function Nonce(b: Option<BareItem>): Option<Option<string>> {
    match b
    case None => Some(None)
    case Some(Str(s)) => Some(Some(s))
    case _ => None
  }

  predicate OnlyKnownParams(ps: Params) {
    forall i :: 0 <= i < |ps| ==>
      ps[i].0 == "keyid" || ps[i].0 == "created" || ps[i].0 == "expires" || ps[i].0 == "nonce"
  }

  predicate PlainStrings(items: seq<Item>) {
    forall i :: 0 <= i < |items| ==> items[i].value.Str? && items[i].params.None?
  }

  function Texts(items: seq<Item>): seq<string>
    requires PlainStrings(items)
  {
    seq(|items|, i requires 0 <= i < |items| => items[i].value.text)
  }

  /** The covered components and parameters of `sig1`; no other parameter is allowed, `alg` included. */
  function ParseSignatureInput(value: string): Option<(seq<string>, SignatureParameters)> {
    var d := ParseDict(value);
    if d.Failure? then None
    else
      var member: Option<Member> := Get(d.value, "sig1");
      match member
      case Some(InnerList(items, params)) =>
        var ps := params.GetOr([]);
        var keyid := Get(ps, "keyid");
        var created, expires, nonce := SafeInteger(Get(ps, "created")), SafeInteger(Get(ps, "expires")),
          Nonce(Get(ps, "nonce"));
        if !OnlyKnownParams(ps) || keyid.None? || !keyid.value.Str? || keyid.value.text == "" then None
        else if created.None? || expires.None? || nonce.None? || !PlainStrings(items) then None
        else Some((Texts(items), SignatureParameters(keyid.value.text, created.value, expires.value, nonce.value)))
      case _ => None
  }

  function ParseSignature(value: string): Option<seq<Byte>> {
    var d := ParseDict(value);
    if d.Failure? then None
    else
      var member: Option<Member> := Get(d.value, "sig1");
      match member
      case Some(Plain(Item(Bytes(bytes), _))) => Some(bytes)
      case _ => None
  }

  function FirstMissing(headers: Headers, names: seq<string>): Option<string> {
    if names == [] then None
    else if !Present(headers, names[0]) then Some(names[0])
    else FirstMissing(headers, names[1..])
  }

  function FirstUncovered(required: seq<string>, covered: seq<string>): Option<string> {
    if required == [] then None
    else if required[0] !in covered then Some(required[0])
    else FirstUncovered(required[1..], covered)
  }

  predicate DigestMatches(env: Env, value: Option<string>, body: Option<seq<Byte>>) {
    if value.GetOr("") == "" then body.None?
    else
      var d := ParseDict(value.value);
      d.Success? &&
      var member: Option<Member> := Get(d.value, "sha-256");
      match member
        case Some(Plain(Item(Bytes(bytes), _))) => bytes == env.sha256(body.GetOr([]))
        case _ => false
  }

  predicate RawVerifies(key: Key, algorithm: Algorithm, data: string, signature: seq<Byte>) {
    |signature| == algorithm.Width() && var der := Der.RawToDer(signature);
      der.Success? && key.verifyDer(data, der.value)
  }

  /** The checks after the fields are parsed, in order; `headers` are lower-cased. */
  function VerifyCore(env: Env, headers: Headers, components: seq<string>, parameters: SignatureParameters,
      signature: seq<Byte>,
                      mandatory: seq<string>, required: seq<string>, m: Message, body: Option<seq<Byte>>,
                        wantsProfile: bool,
                      resolve: (string, string) -> Option<Key>): Verdict
  {
    var missing := FirstMissing(headers, mandatory);
    if missing.Some? then Rejected(MandatoryHeaderMissing(missing.value))
    else
      var profile := if wantsProfile then ProfileUrl(env, Get(headers, "ucp-agent").GetOr("")) else None;
      if wantsProfile && profile.None? then Rejected(UcpAgentInvalid)
      else
        var uncovered := FirstUncovered(required, components);
        if uncovered.Some? then Rejected(ComponentNotCovered(uncovered.value))
        else if !DigestMatches(env, Get(headers, "content-digest"), body) then Rejected(DigestMismatch)
        else
          var key := resolve(parameters.keyid, profile.GetOr(""));
          if key.None? then Rejected(KeyNotFound)
          else if key.value.algorithm.None? then Rejected(AlgorithmUnsupported)
          else
            var base := Base(components, m, headers, parameters);
            if base.Failure? then Rejected(BaseInvalid(base.error))
            else if RawVerifies(key.value, key.value.algorithm.value, base.value, signature)
              then Verified(parameters.keyid, key.value.algorithm.value, profile)
            else Rejected(SignatureInvalid)
  }

  function Verify(env: Env, received: Headers, mandatory: seq<string>, required: seq<string>, m: Message,
      body: Option<seq<Byte>>,
                  wantsProfile: bool, resolve: (string, string) -> Option<Key>): Verdict
  {
    var headers := LowerCased(received);
    if !Present(headers, "signature-input") || !Present(headers, "signature") then Rejected(SignatureMissing)
    else
      var input := ParseSignatureInput(Get(headers, "signature-input").value);
      var signature := ParseSignature(Get(headers, "signature").value);
      if input.None? then Rejected(SignatureInputInvalid)
      else if signature.None? then Rejected(SignatureFormatInvalid)
      else VerifyCore(env, headers, input.value.0, input.value.1, signature.value, mandatory, required, m, body,
        wantsProfile, resolve)
  }

  function VerifyRequest(env: Env, r: Request, resolve: (string, string) -> Option<Key>): Verdict {
    Verify(env, r.headers, RequestMandatory(r), RequestComponents(r), RequestMessage(r), r.body, true, resolve)
  }

  function VerifyResponse(env: Env, r: Response, resolve: (string, string) -> Option<Key>): Verdict {
    Verify(env, r.headers, ResponseMandatory(r.body), ResponseComponents(r), ResponseMessage(r), r.body, false, resolve)
  }
}
