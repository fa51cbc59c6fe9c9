/** Unpacking a presentation gives exactly the claims minus what was framed and not presented. */
module DisclosureProof {
  import opened Records
  import opened Json
  import opened SelectiveDisclosure

  // --- Assumptions, each about one ingredient ---

  /** No object anywhere in the value uses the reserved names. */
  ghost predicate Clean(t: Value) {
    match t
    case VArr(items) => forall i :: 0 <= i < |items| ==> Clean(items[i])
    case VObj(m) => "_sd" !in m && "_sd_alg" !in m && forall k :: k in m ==> Clean(m[k])
    case _ => true
  }

  /** A frame does not hide the digest list itself and frames each member once. */
  ghost predicate CleanFrame(f: Frame) {
    "_sd" !in f.sd && Distinct(f.children) && forall i :: 0 <= i < |f.children| ==> CleanFrame(f.children[i].1)
  }

  /** Decoding undoes encoding, the hash has no collisions, members are visited exhaustively. */
  ghost predicate Ideal(c: Codec) {
    && (forall salt, key, v :: c.decode(c.seal(salt, key, v)) == Some(VArr([VStr(salt), VStr(key), v])))
    && (forall a, b :: c.hash(a) == c.hash(b) ==> a == b)
    && (forall m: Members, k :: k in m <==> k in c.order(m))
  }

  ghost predicate DistinctEncodings(rs: seq<Disclosure>) {
    forall i, j :: 0 <= i < j < |rs| ==> rs[i].encoded != rs[j].encoded
  }

  // --- Where a digest can be found ---

  /** Whether the digest is listed in an object that `Insert` can reach. */
  ghost predicate Holds(t: Value, digest: string) {
    t.VObj? && (VStr(digest) in OwnDigests(t.members) || exists k :: k in t.members && Holds(t.members[k], digest))
  }

  lemma {:induction false} CleanHoldsNothing(t: Value, digest: string)
    requires Clean(t)
    ensures !Holds(t, digest)
    decreases t
  {
    if t.VObj? {
      forall k | k in t.members
        ensures !Holds(t.members[k], digest)
      {
        CleanHoldsNothing(t.members[k], digest);
      }
    }
  }

  lemma {:induction false} HeldIsCollected(t: Value, digest: string)
    requires Holds(t, digest)
    ensures Collected(t, digest)
    decreases t
  {
    if VStr(digest) !in OwnDigests(t.members) {
      var k :| k in t.members && Holds(t.members[k], digest);
      HeldIsCollected(t.members[k], digest);
    }
  }

  lemma {:induction false} InsertMisses(c: Codec, t: Value, digest: string, key: string, v: Value)
    requires !Holds(t, digest)
    ensures Insert(c, t, digest, key, v) == None
    decreases t, 1, 0
  {
    if t.VObj? {
      BelowMisses(c, t, c.order(t.members), digest, key, v);
    }
  }

  lemma {:induction false} BelowMisses(c: Codec, t: Value, keys: seq<string>, digest: string, key: string, v: Value)
    requires t.VObj? && forall k :: k in t.members ==> !Holds(t.members[k], digest)
    ensures InsertBelow(c, t, keys, digest, key, v) == None
    decreases t, 0, |keys|
  {
    hide Holds;
    if keys != [] {
      if keys[0] in t.members {
        InsertMisses(c, t.members[keys[0]], digest, key, v);
      }
      BelowMisses(c, t, keys[1..], digest, key, v);
    }
  }

  /** When only member `k` can hold the digest, that is where it is inserted. */
  lemma {:induction false} BelowFinds(c: Codec, t: Value, keys: seq<string>, k: string, digest: string, key: string,
      v: Value)
    requires t.VObj? && k in t.members && k in keys && Insert(c, t.members[k], digest, key, v).Some?
    requires forall k' :: k' in t.members && k' != k ==> !Holds(t.members[k'], digest)
    ensures InsertBelow(c, t, keys, digest, key, v)
      == Some(VObj(t.members[k := Insert(c, t.members[k], digest, key, v).value]))
    decreases |keys|
  {
    hide Holds, Insert;
    if keys[0] != k {
      if keys[0] in t.members {
        InsertMisses(c, t.members[keys[0]], digest, key, v);
      }
      BelowFinds(c, t, keys[1..], k, digest, key, v);
    }
  }

  lemma {:induction false} InsertHits(c: Codec, t: Value, digest: string, key: string, v: Value)
    requires Ideal(c) && Holds(t, digest)
    ensures Insert(c, t, digest, key, v).Some?
    decreases t, 1, 0
  {
    if VStr(digest) !in OwnDigests(t.members) {
      var k :| k in t.members && Holds(t.members[k], digest);
      BelowHits(c, t, c.order(t.members), k, digest, key, v);
    }
  }

  lemma {:induction false} BelowHits(c: Codec, t: Value, keys: seq<string>, k: string, digest: string, key: string,
      v: Value)
    requires Ideal(c) && t.VObj? && k in t.members && k in keys && Holds(t.members[k], digest)
    ensures InsertBelow(c, t, keys, digest, key, v).Some?
    decreases t, 0, |keys|
  {
    hide Holds, Insert, Ideal;
    if keys[0] == k {
      InsertHits(c, t.members[k], digest, key, v);
    } else {
      BelowHits(c, t, keys[1..], k, digest, key, v);
    }
  }

  /** A member can be inserted exactly where its digest is listed in an object that is reached
      through objects only. */
  lemma InsertExactly(c: Codec, t: Value, digest: string, key: string, v: Value)
    requires Ideal(c)
    ensures Insert(c, t, digest, key, v).Some? <==> Holds(t, digest)
  {
    hide Insert, Holds, Ideal;
    if Holds(t, digest) {
      InsertHits(c, t, digest, key, v);
    } else {
      InsertMisses(c, t, digest, key, v);
    }
  }

  /** So a disclosure can be applied exactly when it decodes to three elements, the second a
      string, and its digest is listed in such an object. */
  lemma ApplyExactly(c: Codec, t: Value, encoded: string)
    requires Ideal(c)
    ensures ApplyDisclosure(c, t, encoded).Some? <==> Unsealed(c, encoded).Some? && Holds(t, c.hash(encoded))
  {
    hide Insert, Holds, Ideal;
    if Unsealed(c, encoded).Some? {
      var member := Unsealed(c, encoded).value;
      InsertExactly(c, t, c.hash(encoded), member.0, member.1);
    }
  }

  /** The digest of a disclosure of two elements, listed at the root, is accepted, yet the
      disclosure cannot be applied. */
  lemma TwoElementsNotApplied(c: Codec, encoded: string, salt: Value, v: Value)
    requires c.decode(encoded) == Some(VArr([salt, v]))
    ensures var payload: Members := map["_sd" := VArr([VStr(c.hash(encoded))])];
            Passes(c, payload, encoded) && ApplyDisclosure(c, VObj(payload), encoded) == None
  {
    var payload: Members := map["_sd" := VArr([VStr(c.hash(encoded))])];
    assert OwnDigests(payload)[0] == VStr(c.hash(encoded));
  }

  /** A digest listed inside a list item is accepted too, yet its disclosure cannot be applied. */
  lemma CollectedNotApplied(c: Codec, member: string, encoded: string)
    requires Ideal(c) && member != "_sd" && WellShaped(c, encoded)
    ensures var item := VObj(map["_sd" := VArr([VStr(c.hash(encoded))])]);
            var payload: Members := map[member := VArr([item])];
            Passes(c, payload, encoded) && ApplyDisclosure(c, VObj(payload), encoded) == None
  {
    var digest := c.hash(encoded);
    var item := VObj(map["_sd" := VArr([VStr(digest)])]);
    var list := VArr([item]);
    var t := VObj(map[member := list]);
    assert OwnDigests(item.members) == [VStr(digest)];
    assert Collected(item, digest) && list.items[0] == item;
    assert Collected(list, digest) && t.members[member] == list;
    assert !Holds(list, digest);
    ApplyExactly(c, t, encoded);
  }

  // --- What framing leaves at an object ---

  lemma OneHidden(c: Codec, m: Members, key: string, path: Path)
    requires key in m && key != "_sd" && ("_sd" in m ==> m["_sd"].VArr?)
    ensures var h := HideMember(c, m, key, path);
            h.Keys == m.Keys - {key} + {"_sd"} && h["_sd"].VArr? &&
            OwnDigests(h) == OwnDigests(m) + [VStr(c.hash(Seal(c, m, key, path)))] &&
            forall k :: k in h && k != "_sd" ==> h[k] == m[k]
  {
  }

  ghost predicate FromMember(c: Codec, m: Members, sd: seq<string>, path: Path, r: Disclosure) {
    r.path == path && r.key in sd && r.key in m && r.encoded == Seal(c, m, r.key, path)
  }

  /** Object `h` is `m` without the hidden members, with one digest per disclosure. */
  ghost predicate Hid(c: Codec, m: Members, sd: seq<string>, path: Path, h: Members, rs: seq<Disclosure>) {
    && h.Keys == (m.Keys - set k | k in sd) + (if rs == [] then {} else {"_sd"}) + (m.Keys * {"_sd"})
    && (forall k :: k in h && k != "_sd" ==> h[k] == m[k])
    && (forall i :: 0 <= i < |rs| ==> FromMember(c, m, sd, path, rs[i]))
    && (forall k :: k in sd && k in m ==> exists i :: 0 <= i < |rs| && rs[i].key == k)
    && (forall v :: v in OwnDigests(h) <==>
          v in OwnDigests(m) || exists i :: 0 <= i < |rs| && v == VStr(c.hash(rs[i].encoded)))
    && ("_sd" in h ==> h["_sd"].VArr?)
  }

  lemma {:induction false} HideFacts(c: Codec, m: Members, sd: seq<string>, path: Path)
    requires "_sd" !in sd && ("_sd" in m ==> m["_sd"].VArr?)
    ensures Hid(c, m, sd, path, Hide(c, m, sd, path).0, Hide(c, m, sd, path).1)
    decreases |sd|
  {
    hide HideMember;
    if sd != [] {
      assert sd == [sd[0]] + sd[1..];
      if sd[0] !in m {
        HideFacts(c, m, sd[1..], path);
      } else {
        OneHidden(c, m, sd[0], path);
        var m' := HideMember(c, m, sd[0], path);
        HideFacts(c, m', sd[1..], path);
        var rest := Hide(c, m', sd[1..], path);
        HideMore(c, m, sd, path, m', rest.0, rest.1);
      }
    }
  }

  lemma HideMore(c: Codec, m: Members, sd: seq<string>, path: Path, m': Members, h: Members, rest: seq<Disclosure>)
    requires sd != [] && sd[0] in m && sd[0] != "_sd" && m'.Keys == m.Keys - {sd[0]} + {"_sd"}
    requires forall k :: k in m' && k != "_sd" ==> m'[k] == m[k]
    requires OwnDigests(m') == OwnDigests(m) + [VStr(c.hash(Seal(c, m, sd[0], path)))]
    requires "_sd" !in sd && Hid(c, m', sd[1..], path, h, rest)
    ensures Hid(c, m, sd, path, h, [Disclosure(path, sd[0], Seal(c, m, sd[0], path))] + rest)
  {
    hide OwnDigests;
    assert sd == [sd[0]] + sd[1..];
    var rs := [Disclosure(path, sd[0], Seal(c, m, sd[0], path))] + rest;
    assert forall i :: 1 <= i < |rs| ==> rs[i] == rest[i - 1];
    assert forall i :: 0 <= i < |rest| ==> rest[i] == rs[i + 1];
    assert rs[0].key == sd[0];
  }

  // --- What framing leaves at the members of an object ---

  function Recs(c: Codec, t: Value, f: Frame, path: Path): seq<Disclosure> {
    FrameValue(c, t, f, path).1
  }

  /** Object `m2` is `m` with every framed child replaced; `rs` are the children's disclosures. */
  ghost predicate Kids(c: Codec, m: Members, children: seq<(string, Frame)>, path: Path, m2: Members,
      rs: seq<Disclosure>)
  {
    && m2.Keys == m.Keys
    && (forall k :: k in m ==>
      m2[k] == if k != "_sd" && Has(children, k) then FrameValue(c, m[k], Get(children, k).value, path + [k]).0
        else m[k])
    && (forall r :: r in rs ==> exists k :: k in m && KidHas(c, m, children, path, k, r))
    && (forall k, r :: k in m && KidHas(c, m, children, path, k, r) ==> r in rs)
  }

  ghost predicate KidHas(c: Codec, m: Members, children: seq<(string, Frame)>, path: Path, k: string, r: Disclosure)
    requires k in m
  {
    k != "_sd" && Has(children, k) && r in Recs(c, m[k], Get(children, k).value, path + [k])
  }

  lemma GetTail(children: seq<(string, Frame)>, k: string)
    requires children != [] && Distinct(children)
    ensures k != children[0].0 ==>
      Has(children, k) == Has(children[1..], k) && Get(children, k) == Get(children[1..], k)
    ensures !Has(children[1..], children[0].0) && Get(children, children[0].0) == Some(children[0].1)
  {
    if k != children[0].0 {
      assert children[0].0 != k;
    }
    assert forall i :: 0 <= i < |children| - 1 ==> children[1..][i] == children[i + 1];
  }

  lemma {:induction false} KidsFacts(c: Codec, m: Members, children: seq<(string, Frame)>, path: Path)
    requires Distinct(children)
    ensures Kids(c, m, children, path, FrameChildren(c, m, children, path).0, FrameChildren(c, m, children, path).1)
    decreases children
  {
    hide FrameValue, IndexOf;
    if children != [] {
      var (key, frame) := children[0];
      GetTail(children, key);
      assert Distinct(children[1..]);
      var m' := if key == "_sd" || key !in m then m else m[key := FrameValue(c, m[key], frame, path + [key]).0];
      var more := if key == "_sd" || key !in m then [] else Recs(c, m[key], frame, path + [key]);
      KidsFacts(c, m', children[1..], path);
      var rest := FrameChildren(c, m', children[1..], path);
      KidsMore(c, m, children, path, m', more, rest.0, rest.1);
      assert [] + rest.1 == rest.1;
    } else {
      assert forall k :: !Has(children, k);
    }
  }

  lemma KidsMore(c: Codec, m: Members, children: seq<(string, Frame)>, path: Path, m': Members,
                 more: seq<Disclosure>, m2: Members, rest: seq<Disclosure>)
    requires children != [] && Distinct(children) && Kids(c, m', children[1..], path, m2, rest)
    requires var (key, frame) := children[0];
             if key == "_sd" || key !in m then m' == m && more == []
             else
               m' == m[key := FrameValue(c, m[key], frame, path + [key]).0]
               && more == Recs(c, m[key], frame, path + [key])
    ensures Kids(c, m, children, path, m2, more + rest)
  {
    hide FrameValue, IndexOf, Get, Has, Recs;
    var (key, frame) := children[0];
    forall k
      ensures k != key ==> Has(children, k) == Has(children[1..], k) && Get(children, k) == Get(children[1..], k)
    {
      GetTail(children, k);
    }
    GetTail(children, key);
    assert Has(children, key) by { HasFirst(children); }
    forall k, r | k in m && KidHas(c, m, children, path, k, r)
      ensures r in more + rest
    {
      if k != key {
        assert KidHas(c, m', children[1..], path, k, r);
      }
    }
    forall r | r in more + rest
      ensures exists k :: k in m && KidHas(c, m, children, path, k, r)
    {
      if r in more {
        assert KidHas(c, m, children, path, key, r);
      } else {
        var k :| k in m' && KidHas(c, m', children[1..], path, k, r);
        assert KidHas(c, m, children, path, k, r);
      }
    }
  }

  lemma HasFirst(children: seq<(string, Frame)>)
    requires children != []
    ensures Has(children, children[0].0)
  {
  }

  // --- Everything about one framed object ---

  /** The frame that applies below member `k`, when `k` stays visible. */
  function ChildOf(f: Frame, k: string): Option<Frame> {
    if k == "_sd" || k in f.sd then None else Get(f.children, k)
  }

  lemma FrameUnfold(c: Codec, t: Value, f: Frame, path: Path)
    ensures !t.VObj? ==> Recs(c, t, f, path) == [] && FrameValue(c, t, f, path).0 == t
    ensures t.VObj? ==>
      var own := Hide(c, t.members, f.sd, path);
      var kids := FrameChildren(c, own.0, f.children, path);
      FrameValue(c, t, f, path) == (VObj(kids.0), own.1 + kids.1) && Recs(c, t, f, path) == own.1 + kids.1
  {
    hide Hide, FrameChildren;
  }

  lemma {:induction false} RecsUnder(c: Codec, t: Value, f: Frame, path: Path, r: Disclosure)
    requires Clean(t) && CleanFrame(f) && r in Recs(c, t, f, path)
    ensures path <= r.path
    decreases f
  {
    hide Clean, CleanFrame, Hide, FrameChildren, FrameValue, Recs, OwnDigests, Seal;
    FrameUnfold(c, t, f, path);
    var m := t.members;
    VisibleClean(t);
    FrameParts(f);
    HideFacts(c, m, f.sd, path);
    var h := Hide(c, m, f.sd, path);
    KidsFacts(c, h.0, f.children, path);
    var kids := FrameChildren(c, h.0, f.children, path);
    if r in kids.1 {
      var k :| k in h.0 && KidHas(c, h.0, f.children, path, k, r);
      ChildClean(f, k);
      RecsUnder(c, h.0[k], Get(f.children, k).value, path + [k], r);
      assert path <= path + [k] <= r.path;
    }
  }

  lemma VisibleClean(t: Value)
    requires Clean(t) && t.VObj?
    ensures "_sd" !in t.members && "_sd_alg" !in t.members && forall k :: k in t.members ==> Clean(t.members[k])
  {
  }

  lemma ChildClean(f: Frame, k: string)
    requires CleanFrame(f) && Has(f.children, k)
    ensures CleanFrame(Get(f.children, k).value) && Get(f.children, k).value < f
  {
    var i := IndexOf(f.children, k);
    assert f.children[i] in f.children && f.children[i].1 < f.children[i];
  }

  ghost predicate Own(c: Codec, m: Members, f: Frame, path: Path, r: Disclosure) {
    FromMember(c, m, f.sd, path, r)
  }

  /** Disclosure `r` belongs below the visible member `k`. */
  ghost predicate Below(c: Codec, m: Members, f: Frame, path: Path, k: string, r: Disclosure) {
    k in m && ChildOf(f, k).Some? && r in Recs(c, m[k], ChildOf(f, k).value, path + [k]) && path + [k] <= r.path
  }

  ghost predicate RootFacts(c: Codec, m: Members, f: Frame, path: Path, m2: Members, recs: seq<Disclosure>) {
    && (forall k :: k != "_sd" ==> (k in m2 <==> k in m && k !in f.sd))
    && (forall k :: k in m && k !in f.sd ==>
          k in m2 && m2[k] == if ChildOf(f, k).Some? then FrameValue(c, m[k], ChildOf(f, k).value, path + [k]).0
            else m[k])
    && ("_sd" in m2 ==> m2["_sd"].VArr?)
    && (forall r :: r in recs ==> Own(c, m, f, path, r) || exists k :: Below(c, m, f, path, k, r))
    && (forall k, r :: Below(c, m, f, path, k, r) ==> r in recs)
    && (forall k :: k in f.sd && k in m ==> exists r :: r in recs && Own(c, m, f, path, r) && r.key == k)
    && (forall r :: r in recs && r.path == path ==> VStr(c.hash(r.encoded)) in OwnDigests(m2))
    && (forall v :: v in OwnDigests(m2) ==> exists r :: r in recs && r.path == path && v == VStr(c.hash(r.encoded)))
  }

  lemma FrameFacts(c: Codec, m: Members, f: Frame, path: Path)
    requires Clean(VObj(m)) && CleanFrame(f)
    ensures FrameValue(c, VObj(m), f, path).0.VObj?
    ensures RootFacts(c, m, f, path, FrameValue(c, VObj(m), f, path).0.members, Recs(c, VObj(m), f, path))
  {
    hide Clean, CleanFrame, Hide, FrameChildren, FrameValue, Recs, OwnDigests, Seal;
    FrameUnfold(c, VObj(m), f, path);
    VisibleClean(VObj(m));
    assert "_sd" !in f.sd && Distinct(f.children) by { FrameParts(f); }
    HideFacts(c, m, f.sd, path);
    var (h, own) := Hide(c, m, f.sd, path);
    KidsFacts(c, h, f.children, path);
    var (m2, rs) := FrameChildren(c, h, f.children, path);
    forall k, r | k in h && KidHas(c, h, f.children, path, k, r)
      ensures Below(c, m, f, path, k, r)
    {
      ChildClean(f, k);
      RecsUnder(c, h[k], Get(f.children, k).value, path + [k], r);
    }
    RootFromParts(c, m, f, path, h, own, m2, rs);
  }

  lemma FrameParts(f: Frame)
    requires CleanFrame(f)
    ensures "_sd" !in f.sd && Distinct(f.children)
  {
  }

  lemma VisibleFromParts(c: Codec, m: Members, f: Frame, path: Path, h: Members, own: seq<Disclosure>, m2: Members,
      rs: seq<Disclosure>)
    requires "_sd" !in m && "_sd" !in f.sd && Hid(c, m, f.sd, path, h, own) && Kids(c, h, f.children, path, m2, rs)
    ensures forall k :: k != "_sd" ==> (k in m2 <==> k in m && k !in f.sd)
    ensures forall k :: k in m && k !in f.sd ==>
      k in m2 && m2[k] == if ChildOf(f, k).Some? then FrameValue(c, m[k], ChildOf(f, k).value, path + [k]).0 else m[k]
  {
    hide FrameValue, Get, Has, IndexOf, OwnDigests, Seal, Recs;
    forall k | k in m && k !in f.sd
      ensures k in m2 && m2[k] == if ChildOf(f, k).Some? then FrameValue(c, m[k], ChildOf(f, k).value, path + [k]).0
        else m[k]
    {
      GetHas(f.children, k);
    }
  }

  lemma RootFromParts(c: Codec, m: Members, f: Frame, path: Path, h: Members, own: seq<Disclosure>, m2: Members,
      rs: seq<Disclosure>)
    requires "_sd" !in m && "_sd" !in f.sd && Hid(c, m, f.sd, path, h, own) && Kids(c, h, f.children, path, m2, rs)
    requires "_sd" in h ==> h["_sd"].VArr?
    requires forall k, r :: k in h && KidHas(c, h, f.children, path, k, r) ==> Below(c, m, f, path, k, r)
    ensures RootFacts(c, m, f, path, m2, own + rs)
  {
    hide FrameValue, Get, Has, IndexOf, OwnDigests, Seal, Recs;
    assert OwnDigests(m2) == OwnDigests(h) by { SameOwnDigests(h, m2); }
    assert OwnDigests(m) == [] by { NoOwnDigests(m); }
    var recs := own + rs;
    forall r | r in recs
      ensures Own(c, m, f, path, r) || exists k :: Below(c, m, f, path, k, r)
      ensures r.path == path ==> r in own
    {
      if r in rs {
        var k :| k in h && KidHas(c, h, f.children, path, k, r);
        assert Below(c, m, f, path, k, r);
      }
    }
    forall k, r | Below(c, m, f, path, k, r)
      ensures r in recs
    {
      assert KidHas(c, h, f.children, path, k, r) by { GetHas(f.children, k); }
    }
    forall k | k in f.sd && k in m
      ensures exists r :: r in recs && Own(c, m, f, path, r) && r.key == k
    {
      var i :| 0 <= i < |own| && own[i].key == k;
      assert own[i] in recs;
    }
    forall v | v in OwnDigests(m2)
      ensures exists r :: r in recs && r.path == path && v == VStr(c.hash(r.encoded))
    {
      var i :| 0 <= i < |own| && v == VStr(c.hash(own[i].encoded));
      assert own[i] in recs;
    }
    VisibleFromParts(c, m, f, path, h, own, m2, rs);
  }

  lemma SameOwnDigests(h: Members, m2: Members)
    requires h.Keys == m2.Keys && ("_sd" in h ==> m2["_sd"] == h["_sd"])
    ensures OwnDigests(m2) == OwnDigests(h)
  {
  }

  lemma NoOwnDigests(m: Members)
    requires "_sd" !in m
    ensures OwnDigests(m) == []
  {
  }

  lemma GetHas(children: seq<(string, Frame)>, k: string)
    ensures Get(children, k).Some? <==> Has(children, k)
  {
  }
}
