/** Selectively disclosed claims (sections 4.2 and 4.3 of RFC 9901): framing hides members
    behind digests, a presentation reveals some of them, unpacking puts those back. */
module SelectiveDisclosure {
  import opened Records
  import opened Json

  type Members = map<string, Value>
  type Path = seq<string>

  /** Which members of an object to hide, and the frames of its object members. */
  datatype Frame = Frame(sd: seq<string>, children: seq<(string, Frame)>)

  datatype Disclosure = Disclosure(path: Path, key: string, encoded: string)

  /** Randomness, encoding and hashing. A member is sealed at most once per framing, so the salt
      drawn for it is a function of where it is; `decode` gives the JSON a text decodes to, if any,
      and `order` is the order members are visited in. */
  datatype Codec = Codec(
    salt: (Path, string) -> string,
    seal: (string, string, Value) -> string,
    decode: string -> Option<Value>,
    hash: string -> string,
    order: Members -> seq<string>)

  // --- Framing ---

  function OwnDigests(m: Members): seq<Value> {
    if "_sd" in m && m["_sd"].VArr? then m["_sd"].items else []
  }

  function Seal(c: Codec, m: Members, key: string, path: Path): string
    requires key in m
  {
    c.seal(c.salt(path, key), key, m[key])
  }

  /** The object with `key` removed and its digest recorded. */
  function HideMember(c: Codec, m: Members, key: string, path: Path): Members
    requires key in m
  {
    var rest := m - {key};
    rest["_sd" := VArr(OwnDigests(rest) + [VStr(c.hash(Seal(c, m, key, path)))])]
  }

  function Hide(c: Codec, m: Members, sd: seq<string>, path: Path): (Members, seq<Disclosure>)
    decreases |sd|
  {
    if sd == [] then (m, [])
    else if sd[0] !in m then Hide(c, m, sd[1..], path)
    else
      var rest := Hide(c, HideMember(c, m, sd[0], path), sd[1..], path);
      (rest.0, [Disclosure(path, sd[0], Seal(c, m, sd[0], path))] + rest.1)
  }

  function FrameChildren(c: Codec, m: Members, children: seq<(string, Frame)>, path: Path): (Members, seq<Disclosure>)
    decreases children, 0
  {
    if children == [] then (m, [])
    else
      assert children[0].1 < children[0];
      var (key, frame) := children[0];
      if key == "_sd" || key !in m then FrameChildren(c, m, children[1..], path)
      else
        var child := FrameValue(c, m[key], frame, path + [key]);
        var rest := FrameChildren(c, m[key := child.0], children[1..], path);
        (rest.0, child.1 + rest.1)
  }

  /** Frames an object; anything else is left alone. */
  function FrameValue(c: Codec, t: Value, f: Frame, path: Path): (Value, seq<Disclosure>)
    decreases f, 1
  {
    if !t.VObj? then (t, [])
    else
      var own := Hide(c, t.members, f.sd, path);
      var kids := FrameChildren(c, own.0, f.children, path);
      (VObj(kids.0), own.1 + kids.1)
  }

  /** Framing as it runs: one pass over the hidden names, one over the child frames. */
  method ApplyDisclosureFrame(c: Codec, target: Members, f: Frame, path: Path)
      returns (framed: Members, records: seq<Disclosure>)
    ensures (VObj(framed), records) == FrameValue(c, VObj(target), f, path)
    decreases f
  {
    framed, records := target, [];
    assert f.sd[0..] == f.sd && f.children[0..] == f.children;
    for i := 0 to |f.sd|
      invariant Hide(c, target, f.sd, path).0 == Hide(c, framed, f.sd[i..], path).0
      invariant Hide(c, target, f.sd, path).1 == records + Hide(c, framed, f.sd[i..], path).1
    {
      hide HideMember, Seal;
      assert f.sd[i..][1..] == f.sd[i + 1..];
      var key := f.sd[i];
      if key in framed {
        records := records + [Disclosure(path, key, Seal(c, framed, key, path))];
        framed := HideMember(c, framed, key, path);
      }
    }
    ghost var hidden := framed;
    assert f.sd[|f.sd|..] == [] && records + [] == records;
    assert (hidden, records) == Hide(c, target, f.sd, path);
    var below := [];
    for i := 0 to |f.children|
      invariant FrameChildren(c, hidden, f.children, path).0 == FrameChildren(c, framed, f.children[i..], path).0
      invariant FrameChildren(c, hidden, f.children, path).1 == below
        + FrameChildren(c, framed, f.children[i..], path).1
    {
      hide Hide;
      assert f.children[i..][1..] == f.children[i + 1..];
      var (key, frame) := f.children[i];
      assert f.children[i].1 < f.children[i];
      if key != "_sd" && key in framed {
        if framed[key].VObj? {
          var child, more := ApplyDisclosureFrame(c, framed[key].members, frame, path + [key]);
          framed, below := framed[key := VObj(child)], below + more;
        } else {
          assert framed[key := framed[key]] == framed;
        }
      }
    }
    assert f.children[|f.children|..] == [] && below + [] == below;
    assert (framed, below) == FrameChildren(c, hidden, f.children, path);
    records := records + below;
  }

  // --- Presenting ---

  function Member(v: Option<Value>, key: string): Option<Value> {
    if v.Some? && v.value.VObj? && key in v.value.members then Some(v.value.members[key]) else None
  }

  function Walk(frame: Option<Value>, path: Path): Option<Value>
    decreases |path|
  {
    if path == [] then frame else Walk(Member(frame, path[0]), path[1..])
  }

  predicate PresentationAllows(frame: Value, path: Path, key: string) {
    Member(Walk(Some(frame), path), key) == Some(VBool(true))
  }

  /** The objects met from `frame` on along `path`, each the member of the one before. */
  ghost predicate Chain(frame: Value, path: Path, objects: seq<Members>) {
    |objects| == |path| + 1 && frame == VObj(objects[0]) &&
    forall i :: 0 <= i < |path| ==> path[i] in objects[i] && objects[i][path[i]] == VObj(objects[i + 1])
  }

  /** The holder chose to present a member: the object at its path maps its name to true. */
  ghost predicate Chosen(frame: Value, path: Path, key: string) {
    exists objects: seq<Members> :: Chain(frame, path, objects) &&
      key in objects[|path|] && objects[|path|][key] == VBool(true)
  }

  lemma {:induction false} AllowsChain(frame: Value, path: Path, key: string, objects: seq<Members>)
    requires Chain(frame, path, objects)
    ensures Walk(Some(frame), path) == Some(VObj(objects[|path|]))
    decreases |path|
  {
    if path != [] {
      var rest := objects[1..];
      assert forall i :: 0 <= i < |path| - 1 ==> path[1..][i] == path[i + 1] && rest[i] == objects[i + 1];
      AllowsChain(VObj(objects[1]), path[1..], key, rest);
    }
  }

  lemma {:induction false} NothingFurther(path: Path)
    ensures Walk(None, path) == None
    decreases |path|
  {
    if path != [] {
      NothingFurther(path[1..]);
    }
  }

  lemma {:induction false} WalkChain(frame: Value, path: Path) returns (objects: seq<Members>)
    requires Walk(Some(frame), path).Some? && Walk(Some(frame), path).value.VObj?
    ensures Chain(frame, path, objects) && objects[|path|] == Walk(Some(frame), path).value.members
    decreases |path|
  {
    if path == [] {
      objects := [frame.members];
    } else {
      var next := Member(Some(frame), path[0]);
      if next.None? {
        NothingFurther(path[1..]);
      }
      var rest := WalkChain(next.value, path[1..]);
      objects := [frame.members] + rest;
      forall i | 0 <= i < |path|
        ensures path[i] in objects[i] && objects[i][path[i]] == VObj(objects[i + 1])
      {
        if i > 0 {
          assert path[i] == path[1..][i - 1] && objects[i] == rest[i - 1] && objects[i + 1] == rest[i];
        }
      }
    }
  }

  /** What a presentation frame allows is what was chosen in it. */
  lemma AllowsMeans(frame: Value, path: Path, key: string)
    ensures PresentationAllows(frame, path, key) <==> Chosen(frame, path, key)
  {
    hide Walk;
    if PresentationAllows(frame, path, key) {
      var objects := WalkChain(frame, path);
      assert Chain(frame, path, objects);
    }
    if Chosen(frame, path, key) {
      var objects: seq<Members> :| Chain(frame, path, objects) && key in objects[|path|]
        && objects[|path|][key] == VBool(true);
      AllowsChain(frame, path, key, objects);
    }
  }

  /** As it runs, one segment after the other. */
  method PresentationFrameAllows(frame: Value, path: Path, key: string) returns (allowed: bool)
    ensures allowed <==> Chosen(frame, path, key)
  {
    var current := Some(frame);
    for i := 0 to |path|
      invariant Walk(Some(frame), path) == Walk(current, path[i..])
    {
      assert path[i..][1..] == path[i + 1..];
      current := Member(current, path[i]);
    }
    AllowsMeans(frame, path, key);
    allowed := Member(current, key) == Some(VBool(true));
  }

  function Selected(records: seq<Disclosure>, frame: Value): seq<Disclosure> {
    if records == [] then []
    else
      (if PresentationAllows(frame, records[0].path, records[0].key) then [records[0]] else [])
      + Selected(records[1..], frame)
  }

  /** The signed payload: the framed claims, naming the hash when anything was hidden. */
  function Payload(c: Codec, claims: Members, f: Frame): Value {
    var framed := FrameValue(c, VObj(claims), f, []);
    if framed.1 == [] then framed.0 else VObj(framed.0.members["_sd_alg" := VStr("sha-256")])
  }

  // --- Unpacking ---

  /** Sets `key` in the first object, depth first, whose `_sd` lists the digest. */
  function Insert(c: Codec, t: Value, digest: string, key: string, value: Value): Option<Value>
    decreases t, 1, 0
  {
    if !t.VObj? then None
    else if VStr(digest) in OwnDigests(t.members) then Some(VObj(t.members[key := value]))
    else InsertBelow(c, t, c.order(t.members), digest, key, value)
  }

  function InsertBelow(c: Codec, t: Value, keys: seq<string>, digest: string, key: string, value: Value): Option<Value>
    requires t.VObj?
    decreases t, 0, |keys|
  {
    if keys == [] then None
    else if keys[0] !in t.members then InsertBelow(c, t, keys[1..], digest, key, value)
    else
      var found := Insert(c, t.members[keys[0]], digest, key, value);
      if found.Some? then Some(VObj(t.members[keys[0] := found.value]))
        else InsertBelow(c, t, keys[1..], digest, key, value)
  }

  /** The name and value of a disclosure of three elements, the second a string. */
  function Unsealed(c: Codec, encoded: string): Option<(string, Value)> {
    match c.decode(encoded)
    case Some(VArr(items)) =>
      if |items| == 3 && items[1].VStr? then Some((items[1].text, items[2])) else None
    case _ => None
  }

  function ApplyDisclosure(c: Codec, claims: Value, encoded: string): Option<Value> {
    var member := Unsealed(c, encoded);
    if member.None? then None else Insert(c, claims, c.hash(encoded), member.value.0, member.value.1)
  }

  /** The disclosure segments of a presentation. */
  function Encodings(disclosures: seq<Disclosure>): (r: seq<string>)
    ensures |r| == |disclosures|
  {
    seq(|disclosures|, i requires 0 <= i < |disclosures| => disclosures[i].encoded)
  }

  function ApplyAll(c: Codec, claims: Value, disclosures: seq<string>): Option<Value>
    decreases |disclosures|
  {
    if disclosures == [] then Some(claims)
    else
      var next := ApplyDisclosure(c, claims, disclosures[0]);
      if next.None? then None else ApplyAll(c, next.value, disclosures[1..])
  }

  function Strip(t: Value): Value {
    match t
    case VArr(items) => VArr(seq(|items|, i requires 0 <= i < |items| => Strip(items[i])))
    case VObj(m) => VObj(map k | k in m && k != "_sd" && k != "_sd_alg" :: Strip(m[k]))
    case _ => t
  }

  function Unpack(c: Codec, payload: Value, disclosures: seq<string>): Option<Value> {
    var all := ApplyAll(c, payload, disclosures);
    if all.None? then None else Some(Strip(all.value))
  }

  /** Whether a digest occurs in some `_sd` list, arrays included: what the verifier collects. */
  ghost predicate Collected(t: Value, digest: string) {
    match t
    case VArr(items) => exists i :: 0 <= i < |items| && Collected(items[i], digest)
    case VObj(m) => VStr(digest) in OwnDigests(m) || exists k :: k in m && Collected(m[k], digest)
    case _ => false
  }

  /** Collecting as it runs, over list items, own digests and member values. */
  method CollectSdDigests(t: Value, found: set<string>) returns (out: set<string>)
    ensures forall d :: d in out <==> d in found || Collected(t, d)
    decreases t
  {
    out := found;
    if t.VArr? {
      for i := 0 to |t.items|
        invariant forall d :: d in out <==> d in found || exists j :: 0 <= j < i && Collected(t.items[j], d)
      {
        out := CollectSdDigests(t.items[i], out);
      }
    } else if t.VObj? {
      var m := t.members;
      var own := OwnDigests(m);
      for i := 0 to |own|
        invariant forall d :: d in out <==> d in found || VStr(d) in own[..i]
      {
        assert own[..i + 1] == own[..i] + [own[i]];
        if own[i].VStr? {
          out := out + {own[i].text};
        }
      }
      assert own[..|own|] == own;
      var rest := m.Keys;
      while rest != {}
        invariant rest <= m.Keys
        invariant forall d :: d in out <==>
          d in found || VStr(d) in own || exists k :: k in m && k !in rest && Collected(m[k], d)
        decreases rest
      {
        var key :| key in rest;
        out := CollectSdDigests(m[key], out);
        rest := rest - {key};
      }
    }
  }

  datatype DigestVerdict = DigestsOk | DisclosureInvalid | HashNotInPayload

  /** A disclosure of an object member has three elements, one of a list item two. */
  predicate ValidDisclosure(c: Codec, encoded: string) {
    match c.decode(encoded)
    case Some(VArr(items)) => |items| == 2 || |items| == 3
    case _ => false
  }

  /** It decodes to a list of two or three elements. */
  ghost predicate WellShaped(c: Codec, encoded: string) {
    exists items: seq<Value> :: c.decode(encoded) == Some(VArr(items)) && 2 <= |items| <= 3
  }

  lemma ValidMeans(c: Codec, encoded: string)
    ensures ValidDisclosure(c, encoded) <==> WellShaped(c, encoded)
  {
    match c.decode(encoded) {
      case Some(VArr(items)) => assert c.decode(encoded) == Some(VArr(items));
      case _ =>
    }
  }

  predicate KnownHash(payload: Members) {
    "_sd_alg" in payload && payload["_sd_alg"].VStr? ==> payload["_sd_alg"].text == "sha-256"
  }

  /** The verifier accepts a disclosure of which it finds the digest. */
  ghost predicate Passes(c: Codec, payload: Members, encoded: string) {
    WellShaped(c, encoded) && Collected(VObj(payload), c.hash(encoded))
  }

  /** The first disclosure that does not pass is valid, but its digest is not in the payload. */
  ghost predicate FirstUnknown(c: Codec, payload: Members, disclosures: seq<string>, i: nat)
    requires i < |disclosures|
  {
    WellShaped(c, disclosures[i]) && !Passes(c, payload, disclosures[i]) &&
    forall j :: 0 <= j < i ==> Passes(c, payload, disclosures[j])
  }

  /** Checking disclosures as it runs: the first that is not valid or not found decides. */
  method VerifyDisclosureDigests(c: Codec, disclosures: seq<string>, payload: Members) returns (r: DigestVerdict)
    ensures r == DigestsOk <==>
      KnownHash(payload) && forall i :: 0 <= i < |disclosures| ==> Passes(c, payload, disclosures[i])
    ensures r == HashNotInPayload <==>
      KnownHash(payload) && exists i: nat :: i < |disclosures| && FirstUnknown(c, payload, disclosures, i)
  {
    if !KnownHash(payload) {
      return DisclosureInvalid;
    }
    var digests := CollectSdDigests(VObj(payload), {});
    hide Collected, WellShaped, ValidDisclosure;
    for i := 0 to |disclosures|
      invariant forall j :: 0 <= j < i ==> Passes(c, payload, disclosures[j])
    {
      ValidMeans(c, disclosures[i]);
      if !ValidDisclosure(c, disclosures[i]) {
        assert !Passes(c, payload, disclosures[i]);
        return DisclosureInvalid;
      }
      if c.hash(disclosures[i]) !in digests {
        assert FirstUnknown(c, payload, disclosures, i);
        return HashNotInPayload;
      }
    }
    r := DigestsOk;
  }

  /** The working copy of the claims while disclosures are applied to it. */
  class ClaimsCopy {
    var claims: Value

    constructor (payload: Value)
      ensures claims == payload
    {
      claims := payload;
    }

    method Apply(c: Codec, encoded: string) returns (ok: bool)
      modifies this
      ensures ok == ApplyDisclosure(c, old(claims), encoded).Some?
      ensures claims == ApplyDisclosure(c, old(claims), encoded).GetOr(old(claims))
    {
      var member := Unsealed(c, encoded);
      if member.None? {
        return false;
      }
      var (key, value) := member.value;
      var container := Insert(c, claims, c.hash(encoded), key, value);
      if container.None? {
        return false;
      }
      claims := container.value;
      ok := true;
    }
  }

  // --- What unpacking should give ---

  /** The claims without the members that were framed and are not presented. */
  function Project(t: Value, f: Frame, path: Path, presented: (Path, string) -> bool): Value
    decreases t
  {
    if !t.VObj? then t
    else
      var m := t.members;
      VObj(map k | k in m && (k in f.sd ==> presented(path, k)) ::
             if k !in f.sd && Has(f.children, k) then Project(m[k], Get(f.children, k).value, path + [k], presented)
               else m[k])
  }
}
