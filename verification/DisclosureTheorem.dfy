/** Revealing members one at a time, in any order, and what is left when the metadata goes. */
module DisclosureTheorem {
  import opened Records
  import opened Json
  import opened SelectiveDisclosure
  import opened DisclosureProof

  type Shown = set<(Path, string)>

  function FramedMembers(c: Codec, m: Members, f: Frame, path: Path): Members {
    var t := FrameValue(c, VObj(m), f, path).0;
    if t.VObj? then t.members else map[]
  }

  /** Where member `k` of a partly revealed object comes from. */
  function PartialMember(c: Codec, m: Members, m2: Members, f: Frame, path: Path, shown: Shown, k: string): Value
    requires k in m || k in m2
    decreases VObj(m), 0
  {
    if k !in m then m2[k]
    else if ChildOf(f, k).Some? then Partial(c, m[k], ChildOf(f, k).value, path + [k], shown) else m[k]
  }

  /** The framed value with the members in `shown` put back. */
  function Partial(c: Codec, t: Value, f: Frame, path: Path, shown: Shown): Value
    decreases t, 1
  {
    if !t.VObj? then t
    else
      var m, m2 := t.members, FramedMembers(c, t.members, f, path);
      VObj(map k | k in m.Keys + m2.Keys && (k in m && k in f.sd ==> (path, k) in shown) ::
        PartialMember(c, m, m2, f, path, shown, k))
  }

  lemma PartialAt(c: Codec, m: Members, f: Frame, path: Path, shown: Shown, k: string)
    requires Clean(VObj(m)) && CleanFrame(f)
    ensures var p := Partial(c, VObj(m), f, path, shown).members;
            var m2 := FramedMembers(c, m, f, path);
            (k in p <==> if k == "_sd" then k in m2 else k in m && (k in f.sd ==> (path, k) in shown)) &&
            (k in p && k == "_sd" ==> p[k] == m2[k]) &&
            (k in p && k != "_sd" ==>
              p[k] == if ChildOf(f, k).Some? then Partial(c, m[k], ChildOf(f, k).value, path + [k], shown) else m[k])
  {
    hide FrameValue, Recs, Clean, CleanFrame, OwnDigests, ChildOf;
    FrameFacts(c, m, f, path);
    VisibleClean(VObj(m));
    FrameParts(f);
  }

  /** Nothing revealed: the framed value itself. */
  lemma {:induction false} PartialNone(c: Codec, t: Value, f: Frame, path: Path)
    requires Clean(t) && CleanFrame(f)
    ensures Partial(c, t, f, path, {}) == FrameValue(c, t, f, path).0
    decreases t
  {
    hide FrameValue, Recs, Clean, CleanFrame, OwnDigests, Partial;
    if t.VObj? {
      var m := t.members;
      var m2 := FramedMembers(c, m, f, path);
      FrameFacts(c, m, f, path);
      VisibleClean(t);
      FrameParts(f);
      PartialIsObject(c, m, f, path, {});
      var p := Partial(c, t, f, path, {}).members;
      forall k
        ensures k in p <==> k in m2
        ensures k in p ==> p[k] == m2[k]
      {
        PartialAt(c, m, f, path, {}, k);
        if k in m && ChildOf(f, k).Some? {
          ChildIsClean(f, k);
          PartialNone(c, m[k], ChildOf(f, k).value, path + [k]);
        }
      }
      assert p == m2;
    } else {
      FrameUnfold(c, t, f, path);
      PartialIsValue(c, t, f, path, {});
    }
  }

  lemma PartialIsObject(c: Codec, m: Members, f: Frame, path: Path, shown: Shown)
    ensures Partial(c, VObj(m), f, path, shown).VObj?
  {
  }

  lemma PartialIsValue(c: Codec, t: Value, f: Frame, path: Path, shown: Shown)
    requires !t.VObj?
    ensures Partial(c, t, f, path, shown) == t
  {
  }

  lemma ChildIsClean(f: Frame, k: string)
    requires CleanFrame(f) && ChildOf(f, k).Some?
    ensures CleanFrame(ChildOf(f, k).value) && ChildOf(f, k).value < f
  {
    hide CleanFrame;
    GetHas(f.children, k);
    ChildClean(f, k);
  }

  // --- Revealing changes nothing but the revealed member ---

  lemma {:induction false} PartialElsewhere(c: Codec, t: Value, f: Frame, path: Path, shown: Shown, p: Path,
      key: string)
    requires Clean(t) && CleanFrame(f) && !(path <= p)
    ensures Partial(c, t, f, path, shown + {(p, key)}) == Partial(c, t, f, path, shown)
    decreases t
  {
    hide FrameValue, Recs, Clean, CleanFrame, OwnDigests, Partial;
    var shown' := shown + {(p, key)};
    if t.VObj? {
      var m := t.members;
      VisibleClean(t);
      PartialIsObject(c, m, f, path, shown);
      PartialIsObject(c, m, f, path, shown');
      var a, b := Partial(c, t, f, path, shown).members, Partial(c, t, f, path, shown').members;
      forall k
        ensures k in a <==> k in b
        ensures k in a ==> a[k] == b[k]
      {
        PartialAt(c, m, f, path, shown, k);
        PartialAt(c, m, f, path, shown', k);
        if k in m && ChildOf(f, k).Some? {
          ChildIsClean(f, k);
          assert path <= path + [k];
          PartialElsewhere(c, m[k], ChildOf(f, k).value, path + [k], shown, p, key);
        }
      }
      assert a == b;
    } else {
      PartialIsValue(c, t, f, path, shown);
      PartialIsValue(c, t, f, path, shown');
    }
  }

  // --- Digests ---

  /** Revealing members changes no digest list, so digests stay exactly those of the disclosures. */
  lemma {:induction false} PartialHolds(c: Codec, t: Value, f: Frame, path: Path, shown: Shown, digest: string)
    requires Clean(t) && CleanFrame(f)
    ensures Holds(Partial(c, t, f, path, shown), digest) <==>
      exists r :: r in Recs(c, t, f, path) && c.hash(r.encoded) == digest
    decreases t
  {
    hide FrameValue, Recs, Clean, CleanFrame, Partial, FramedMembers;
    FrameUnfold(c, t, f, path);
    hide Hide, FrameChildren;
    if t.VObj? {
      var m := t.members;
      VisibleClean(t);
      PartialIsObject(c, m, f, path, shown);
      var p := Partial(c, t, f, path, shown).members;
      RootOf(c, m, f, path);
      PartialOwn(c, m, f, path, shown);
      forall k | k in p
        ensures Holds(p[k], digest) <==> exists r :: Below(c, m, f, path, k, r) && c.hash(r.encoded) == digest
      {
        MemberHolds(c, t, f, path, shown, k, digest);
      }
      forall k | k in m && ChildOf(f, k).Some?
        ensures k in p
      {
        PartialAt(c, m, f, path, shown, k);
      }
      HoldsFromMembers(c, m, f, path, p, digest);
    } else {
      PartialIsValue(c, t, f, path, shown);
    }
  }

  lemma {:induction false} MemberHolds(c: Codec, t: Value, f: Frame, path: Path, shown: Shown, k: string,
      digest: string)
    requires Clean(t) && CleanFrame(f) && t.VObj? && Partial(c, t, f, path, shown).VObj?
      && k in Partial(c, t, f, path, shown).members
    ensures Holds(Partial(c, t, f, path, shown).members[k], digest)
       <==> exists r :: Below(c, t.members, f, path, k, r) && c.hash(r.encoded) == digest
    decreases t, 0
  {
    hide FrameValue, Recs, Clean, CleanFrame, Partial, FramedMembers, OwnDigests;
    var m := t.members;
    VisibleClean(t);
    RootOf(c, m, f, path);
    PartialAt(c, m, f, path, shown, k);
    if k != "_sd" {
      if ChildOf(f, k).Some? {
        ChildIsClean(f, k);
        PartialHolds(c, m[k], ChildOf(f, k).value, path + [k], shown, digest);
        forall r | r in Recs(c, m[k], ChildOf(f, k).value, path + [k])
          ensures Below(c, m, f, path, k, r)
        {
          RecsUnder(c, m[k], ChildOf(f, k).value, path + [k], r);
        }
      } else {
        CleanHoldsNothing(m[k], digest);
      }
    }
  }

  lemma RootOf(c: Codec, m: Members, f: Frame, path: Path)
    requires Clean(VObj(m)) && CleanFrame(f)
    ensures RootFacts(c, m, f, path, FramedMembers(c, m, f, path), Recs(c, VObj(m), f, path))
    ensures FrameValue(c, VObj(m), f, path).0 == VObj(FramedMembers(c, m, f, path))
  {
    hide FrameValue, Recs, Clean, CleanFrame, RootFacts;
    FrameFacts(c, m, f, path);
  }

  lemma PartialOwn(c: Codec, m: Members, f: Frame, path: Path, shown: Shown)
    requires Clean(VObj(m)) && CleanFrame(f) && Partial(c, VObj(m), f, path, shown).VObj?
    ensures OwnDigests(Partial(c, VObj(m), f, path, shown).members) == OwnDigests(FramedMembers(c, m, f, path))
  {
    hide FrameValue, Recs, Clean, CleanFrame, Partial, FramedMembers;
    PartialAt(c, m, f, path, shown, "_sd");
  }

  lemma HoldsFromMembers(c: Codec, m: Members, f: Frame, path: Path, p: Members, digest: string)
    requires RootFacts(c, m, f, path, FramedMembers(c, m, f, path), Recs(c, VObj(m), f, path))
    requires OwnDigests(p) == OwnDigests(FramedMembers(c, m, f, path))
    requires forall k, r :: Below(c, m, f, path, k, r) ==> k in p
    requires forall k :: k in p ==>
      (Holds(p[k], digest) <==> exists r :: Below(c, m, f, path, k, r) && c.hash(r.encoded) == digest)
    ensures Holds(VObj(p), digest) <==> exists r :: r in Recs(c, VObj(m), f, path) && c.hash(r.encoded) == digest
  {
    hide FrameValue, Recs, FramedMembers, OwnDigests, ChildOf, Seal;
    var recs := Recs(c, VObj(m), f, path);
    if Holds(VObj(p), digest) {
      if VStr(digest) in OwnDigests(p) {
        var r :| r in recs && r.path == path && VStr(digest) == VStr(c.hash(r.encoded));
      } else {
        var k :| k in p && Holds(p[k], digest);
        var r :| Below(c, m, f, path, k, r) && c.hash(r.encoded) == digest;
        assert r in recs;
      }
    }
    forall r | r in recs && c.hash(r.encoded) == digest
      ensures Holds(VObj(p), digest)
    {
      if !Own(c, m, f, path, r) {
        var k :| Below(c, m, f, path, k, r);
        assert Holds(p[k], digest);
      }
    }
  }

  // --- One disclosure ---

  ghost predicate Unambiguous(rs: seq<Disclosure>) {
    forall a, b :: a in rs && b in rs && a.encoded == b.encoded ==> a == b
  }

  /** The member value a disclosure carries. */
  ghost predicate Carries(c: Codec, r: Disclosure, v: Value) {
    Unsealed(c, r.encoded) == Some((r.key, v))
  }

  lemma SealOpens(c: Codec, salt: string, key: string, v: Value)
    requires Ideal(c)
    ensures Unsealed(c, c.seal(salt, key, v)) == Some((key, v)) && WellShaped(c, c.seal(salt, key, v))
  {
    var items := [VStr(salt), VStr(key), v];
    assert c.decode(c.seal(salt, key, v)) == Some(VArr(items));
  }

  lemma OwnCarries(c: Codec, m: Members, f: Frame, path: Path, r: Disclosure, v: Value)
    requires Ideal(c) && Own(c, m, f, path, r) && Carries(c, r, v)
    ensures v == m[r.key]
  {
    SealOpens(c, c.salt(path, r.key), r.key, m[r.key]);
  }

  lemma InsertHere(c: Codec, p: Members, digest: string, key: string, v: Value)
    requires VStr(digest) in OwnDigests(p)
    ensures Insert(c, VObj(p), digest, key, v) == Some(VObj(p[key := v]))
  {
  }

  lemma InsertInMember(c: Codec, p: Members, k: string, digest: string, key: string, v: Value)
    requires Ideal(c) && VStr(digest) !in OwnDigests(p) && k in p && Insert(c, p[k], digest, key, v).Some?
    requires forall k' :: k' in p && k' != k ==> !Holds(p[k'], digest)
    ensures Insert(c, VObj(p), digest, key, v) == Some(VObj(p[k := Insert(c, p[k], digest, key, v).value]))
  {
    assert k in c.order(p);
    BelowFinds(c, VObj(p), c.order(p), k, digest, key, v);
    InsertUnfold(c, p, digest, key, v);
  }

  lemma InsertUnfold(c: Codec, p: Members, digest: string, key: string, v: Value)
    requires VStr(digest) !in OwnDigests(p)
    ensures Insert(c, VObj(p), digest, key, v) == InsertBelow(c, VObj(p), c.order(p), digest, key, v)
  {
    hide InsertBelow;
  }

  /** Members added beside the framed ones: not digest lists and not claims. */
  ghost predicate Harmless(extra: Members, m: Members) {
    "_sd" !in extra && forall k :: k in extra ==> k !in m && !extra[k].VObj?
  }

  /** Applying one disclosure of the framing puts exactly its member back, wherever the
      other disclosures have got to. */
  lemma {:induction false} RevealOne(c: Codec, t: Value, f: Frame, path: Path, shown: Shown, extra: Members,
      r: Disclosure, v: Value)
    requires Ideal(c) && Clean(t) && CleanFrame(f) && t.VObj? && Harmless(extra, t.members)
    requires r in Recs(c, t, f, path) && Unambiguous(Recs(c, t, f, path)) && Carries(c, r, v)
    ensures Partial(c, t, f, path, shown).VObj? && Partial(c, t, f, path, shown + {(r.path, r.key)}).VObj?
    ensures Insert(c, VObj(Partial(c, t, f, path, shown).members + extra), c.hash(r.encoded), r.key, v)
         == Some(VObj(Partial(c, t, f, path, shown + {(r.path, r.key)}).members + extra))
    decreases t
  {
    hide FrameValue, Recs, Clean, CleanFrame, Partial, FramedMembers, Insert, Carries, Ideal, OwnDigests, ChildOf,
      Unambiguous;
    var m := t.members;
    PartialIsObject(c, m, f, path, shown);
    PartialIsObject(c, m, f, path, shown + {(r.path, r.key)});
    RootOf(c, m, f, path);
    if Own(c, m, f, path, r) {
      RevealOwn(c, m, f, path, shown, extra, r, v);
    } else {
      var k :| Below(c, m, f, path, k, r);
      RevealBelow(c, m, f, path, shown, extra, k, r, v);
    }
  }

  lemma ExtraOwn(p: Members, extra: Members, m: Members)
    requires Harmless(extra, m)
    ensures OwnDigests(p + extra) == OwnDigests(p)
  {
  }

  /** Of the members of an object, revealing changes the disclosed one only. */
  lemma RevealMember(c: Codec, m: Members, f: Frame, path: Path, shown: Shown, r: Disclosure, v: Value, k: string)
    requires Ideal(c) && Clean(VObj(m)) && CleanFrame(f)
    requires r in Recs(c, VObj(m), f, path) && Own(c, m, f, path, r) && Carries(c, r, v)
    requires Partial(c, VObj(m), f, path, shown).VObj? && Partial(c, VObj(m), f, path, shown + {(r.path, r.key)}).VObj?
    ensures var p, p' := Partial(c, VObj(m), f, path, shown).members,
      Partial(c, VObj(m), f, path, shown + {(r.path, r.key)}).members;
            (k in p' <==> k in p || k == r.key) && (k in p' ==> p'[k] == if k == r.key then v else p[k])
  {
    hide FrameValue, Recs, Clean, CleanFrame, Partial, FramedMembers, Insert, Carries, Ideal, OwnDigests;
    RootOf(c, m, f, path);
    OwnCarries(c, m, f, path, r, v);
    VisibleClean(VObj(m));
    PartialAt(c, m, f, path, shown, k);
    PartialAt(c, m, f, path, shown + {(r.path, r.key)}, k);
    if k in m && ChildOf(f, k).Some? {
      ChildIsClean(f, k);
      PartialElsewhere(c, m[k], ChildOf(f, k).value, path + [k], shown, r.path, r.key);
    }
  }

  lemma OwnKey(c: Codec, m: Members, f: Frame, path: Path, r: Disclosure)
    requires Clean(VObj(m)) && CleanFrame(f) && r in Recs(c, VObj(m), f, path) && Own(c, m, f, path, r)
    ensures r.key in m && VStr(c.hash(r.encoded)) in OwnDigests(FramedMembers(c, m, f, path))
  {
    hide FrameValue, Recs, Clean, CleanFrame, FramedMembers, OwnDigests;
    RootOf(c, m, f, path);
  }

  lemma WriteBeside(p: Members, p': Members, extra: Members, key: string, v: Value)
    requires key !in extra && forall k ::
      (k in p' <==> k in p || k == key) && (k in p' ==> p'[k] == if k == key then v else p[k])
    ensures p' + extra == (p + extra)[key := v]
  {
  }

  lemma RevealOwn(c: Codec, m: Members, f: Frame, path: Path, shown: Shown, extra: Members, r: Disclosure, v: Value)
    requires Ideal(c) && Clean(VObj(m)) && CleanFrame(f) && Harmless(extra, m)
    requires r in Recs(c, VObj(m), f, path) && Own(c, m, f, path, r) && Carries(c, r, v)
    requires Partial(c, VObj(m), f, path, shown).VObj? && Partial(c, VObj(m), f, path, shown + {(r.path, r.key)}).VObj?
    ensures Insert(c, VObj(Partial(c, VObj(m), f, path, shown).members + extra), c.hash(r.encoded), r.key, v)
         == Some(VObj(Partial(c, VObj(m), f, path, shown + {(r.path, r.key)}).members + extra))
  {
    hide FrameValue, Recs, Clean, CleanFrame, Partial, FramedMembers, Insert, Carries, Ideal, OwnDigests, Own;
    var shown' := shown + {(r.path, r.key)};
    var p, p' := Partial(c, VObj(m), f, path, shown).members, Partial(c, VObj(m), f, path, shown').members;
    OwnKey(c, m, f, path, r);
    PartialOwn(c, m, f, path, shown);
    ExtraOwn(p, extra, m);
    InsertHere(c, p + extra, c.hash(r.encoded), r.key, v);
    forall k
      ensures k in p' <==> k in p || k == r.key
      ensures k in p' ==> p'[k] == if k == r.key then v else p[k]
    {
      RevealMember(c, m, f, path, shown, r, v, k);
    }
    WriteBeside(p, p', extra, r.key, v);
  }

  lemma NotElsewhere(c: Codec, m: Members, f: Frame, path: Path, k: string, r: Disclosure, k': string, r': Disclosure)
    requires Below(c, m, f, path, k, r) && Below(c, m, f, path, k', r') && r == r'
    ensures k == k'
  {
    hide Recs;
    assert (path + [k])[|path|] == r.path[|path|] == (path + [k'])[|path|];
  }

  lemma NotOwn(c: Codec, m: Members, f: Frame, path: Path, k: string, r: Disclosure)
    requires Below(c, m, f, path, k, r)
    ensures r.path != path
  {
    hide Recs;
    assert |path + [k]| <= |r.path|;
  }

  lemma SameDisclosure(c: Codec, rs: seq<Disclosure>, a: Disclosure, b: Disclosure)
    requires Ideal(c) && Unambiguous(rs) && a in rs && b in rs && c.hash(a.encoded) == c.hash(b.encoded)
    ensures a == b
  {
  }

  /** The digest is found below member `k` and nowhere else. */
  lemma OnlyBelow(c: Codec, m: Members, f: Frame, path: Path, shown: Shown, extra: Members, k: string, r: Disclosure)
    requires Ideal(c) && Clean(VObj(m)) && CleanFrame(f) && Harmless(extra, m)
    requires Below(c, m, f, path, k, r) && Unambiguous(Recs(c, VObj(m), f, path))
    requires Partial(c, VObj(m), f, path, shown).VObj?
    ensures var q := Partial(c, VObj(m), f, path, shown).members + extra;
            k in q && VStr(c.hash(r.encoded)) !in OwnDigests(q) && forall k' ::
              k' in q && k' != k ==> !Holds(q[k'], c.hash(r.encoded))
  {
    hide FrameValue, Recs, Clean, CleanFrame, Partial, FramedMembers, Ideal, OwnDigests, Unambiguous;
    var d := c.hash(r.encoded);
    var p := Partial(c, VObj(m), f, path, shown).members;
    var recs := Recs(c, VObj(m), f, path);
    RootOf(c, m, f, path);
    assert r in recs;
    PartialOwn(c, m, f, path, shown);
    ExtraOwn(p, extra, m);
    PartialAt(c, m, f, path, shown, k);
    if VStr(d) in OwnDigests(p + extra) {
      var r' :| r' in recs && r'.path == path && VStr(d) == VStr(c.hash(r'.encoded));
      SameDisclosure(c, recs, r, r');
      NotOwn(c, m, f, path, k, r);
    }
    forall k' | k' in p && k' != k
      ensures !Holds(p[k'], d)
    {
      MemberHolds(c, VObj(m), f, path, shown, k', d);
      if Holds(p[k'], d) {
        var r' :| Below(c, m, f, path, k', r') && c.hash(r'.encoded) == d;
        assert r' in recs;
        SameDisclosure(c, recs, r, r');
        NotElsewhere(c, m, f, path, k, r, k', r');
      }
    }
    forall k' | k' in extra
      ensures !Holds(extra[k'], d)
    {
      OnlyObjectsHold(extra[k'], d);
    }
  }

  lemma OnlyObjectsHold(t: Value, d: string)
    requires !t.VObj?
    ensures !Holds(t, d)
  {
  }

  lemma ChildUnambiguous(c: Codec, m: Members, f: Frame, path: Path, k: string)
    requires Clean(VObj(m)) && CleanFrame(f) && Unambiguous(Recs(c, VObj(m), f, path)) && k in m && ChildOf(f, k).Some?
    ensures Unambiguous(Recs(c, m[k], ChildOf(f, k).value, path + [k]))
  {
    hide FrameValue, Recs, Clean, CleanFrame, FramedMembers, ChildOf;
    VisibleClean(VObj(m));
    RootOf(c, m, f, path);
    ChildIsClean(f, k);
    forall r | r in Recs(c, m[k], ChildOf(f, k).value, path + [k])
      ensures r in Recs(c, VObj(m), f, path)
    {
      RecsUnder(c, m[k], ChildOf(f, k).value, path + [k], r);
      assert Below(c, m, f, path, k, r);
    }
  }

  /** Revealing below one member leaves the object's own members, and every other child, alone. */
  lemma RevealBeside(c: Codec, m: Members, f: Frame, path: Path, shown: Shown, k: string, r: Disclosure, other: string)
    requires Clean(VObj(m)) && CleanFrame(f) && Below(c, m, f, path, k, r)
    requires Partial(c, VObj(m), f, path, shown).VObj? && Partial(c, VObj(m), f, path, shown + {(r.path, r.key)}).VObj?
    ensures var p, p' := Partial(c, VObj(m), f, path, shown).members,
      Partial(c, VObj(m), f, path, shown + {(r.path, r.key)}).members;
            (other in p' <==> other in p) && (other in p' && other != k ==> p'[other] == p[other]) &&
            (k in p' ==> p'[k] == Partial(c, m[k], ChildOf(f, k).value, path + [k], shown + {(r.path, r.key)}))
  {
    hide FrameValue, Recs, Clean, CleanFrame, Partial, FramedMembers, Insert, Carries, Ideal, OwnDigests, Unambiguous,
      Holds;
    var shown' := shown + {(r.path, r.key)};
    VisibleClean(VObj(m));
    ChildIsClean(f, k);
    RecsOfObject(c, m[k], ChildOf(f, k).value, path + [k], r);
    NotOwn(c, m, f, path, k, r);
    PartialAt(c, m, f, path, shown, other);
    PartialAt(c, m, f, path, shown', other);
    PartialAt(c, m, f, path, shown', k);
    if other != k && other in m && ChildOf(f, other).Some? {
      ChildIsClean(f, other);
      Apart(path, k, other, r.path);
      PartialElsewhere(c, m[other], ChildOf(f, other).value, path + [other], shown, r.path, r.key);
    }
  }

  lemma {:induction false} RevealBelow(c: Codec, m: Members, f: Frame, path: Path, shown: Shown, extra: Members,
      k: string, r: Disclosure, v: Value)
    requires Ideal(c) && Clean(VObj(m)) && CleanFrame(f) && Harmless(extra, m)
    requires Unambiguous(Recs(c, VObj(m), f, path)) && Below(c, m, f, path, k, r) && Carries(c, r, v)
    requires Partial(c, VObj(m), f, path, shown).VObj? && Partial(c, VObj(m), f, path, shown + {(r.path, r.key)}).VObj?
    ensures Insert(c, VObj(Partial(c, VObj(m), f, path, shown).members + extra), c.hash(r.encoded), r.key, v)
         == Some(VObj(Partial(c, VObj(m), f, path, shown + {(r.path, r.key)}).members + extra))
    decreases VObj(m), 0
  {
    hide FrameValue, Recs, Clean, CleanFrame, Partial, FramedMembers, Insert, Carries, Ideal, OwnDigests, Unambiguous,
      Holds;
    var shown' := shown + {(r.path, r.key)};
    var p, p' := Partial(c, VObj(m), f, path, shown).members, Partial(c, VObj(m), f, path, shown').members;
    var q, d := p + extra, c.hash(r.encoded);
    VisibleClean(VObj(m));
    ChildIsClean(f, k);
    var child := ChildOf(f, k).value;
    RecsOfObject(c, m[k], child, path + [k], r);
    ChildUnambiguous(c, m, f, path, k);
    RevealOne(c, m[k], child, path + [k], shown, map[], r, v);
    PartialAt(c, m, f, path, shown, k);
    var inner, inner' := Partial(c, m[k], child, path + [k], shown), Partial(c, m[k], child, path + [k], shown');
    assert inner.members + map[] == inner.members && inner'.members + map[] == inner'.members;
    OnlyBelow(c, m, f, path, shown, extra, k, r);
    assert q[k] == inner;
    InsertInMember(c, q, k, d, r.key, v);
    NotOwn(c, m, f, path, k, r);
    forall k'
      ensures k' in p' <==> k' in p
      ensures k' in p' ==> p'[k'] == if k' == k then inner' else p[k']
    {
      RevealBeside(c, m, f, path, shown, k, r, k');
    }
    assert p' + extra == q[k := inner'];
  }

  lemma Apart(path: Path, k: string, k': string, p: Path)
    requires k != k' && path + [k] <= p
    ensures !(path + [k'] <= p)
  {
    assert (path + [k])[|path|] == k && (path + [k'])[|path|] == k';
  }

  lemma RecsOfObject(c: Codec, t: Value, f: Frame, path: Path, r: Disclosure)
    requires r in Recs(c, t, f, path)
    ensures t.VObj?
  {
    hide FrameValue, Recs;
    FrameUnfold(c, t, f, path);
  }

  // --- Many disclosures, in any order ---

  lemma {:induction false} RecOpens(c: Codec, t: Value, f: Frame, path: Path, r: Disclosure) returns (v: Value)
    requires Ideal(c) && Clean(t) && CleanFrame(f) && r in Recs(c, t, f, path)
    ensures Carries(c, r, v)
    decreases t
  {
    hide FrameValue, Recs, Clean, CleanFrame, FramedMembers, OwnDigests, ChildOf;
    RecsOfObject(c, t, f, path, r);
    var m := t.members;
    VisibleClean(t);
    RootOf(c, m, f, path);
    if Own(c, m, f, path, r) {
      v := m[r.key];
      SealOpens(c, c.salt(path, r.key), r.key, v);
    } else {
      var k :| Below(c, m, f, path, k, r);
      ChildIsClean(f, k);
      v := RecOpens(c, m[k], ChildOf(f, k).value, path + [k], r);
    }
  }

  function Places(ds: seq<Disclosure>): Shown {
    set r | r in ds :: (r.path, r.key)
  }

  lemma {:induction false} RevealMany(c: Codec, m: Members, f: Frame, extra: Members, ds: seq<Disclosure>, shown: Shown)
    requires Ideal(c) && Clean(VObj(m)) && CleanFrame(f) && Harmless(extra, m) && Unambiguous(Recs(c, VObj(m), f, []))
    requires forall r :: r in ds ==> r in Recs(c, VObj(m), f, [])
    ensures Partial(c, VObj(m), f, [], shown).VObj? && Partial(c, VObj(m), f, [], shown + Places(ds)).VObj?
    ensures ApplyAll(c, VObj(Partial(c, VObj(m), f, [], shown).members + extra), Encodings(ds))
         == Some(VObj(Partial(c, VObj(m), f, [], shown + Places(ds)).members + extra))
    decreases |ds|
  {
    hide FrameValue, Recs, Clean, CleanFrame, Partial, FramedMembers, Insert, Ideal, Unambiguous, Harmless;
    PartialIsObject(c, m, f, [], shown);
    PartialIsObject(c, m, f, [], shown + Places(ds));
    if ds == [] {
      assert shown + Places(ds) == shown;
    } else {
      var r := ds[0];
      var v := RecOpens(c, VObj(m), f, [], r);
      RevealOne(c, VObj(m), f, [], shown, extra, r, v);
      RevealMany(c, m, f, extra, ds[1..], shown + {(r.path, r.key)});
      assert ds == [r] + ds[1..] && Encodings(ds)[1..] == Encodings(ds[1..]);
      assert shown + Places(ds) == shown + {(r.path, r.key)} + Places(ds[1..]);
    }
  }

  // --- Stripping the metadata ---

  /** Stripping leaves no metadata at any depth, list items included. */
  lemma {:induction false} StripCleans(t: Value)
    ensures Clean(Strip(t))
    decreases t
  {
    match t {
      case VArr(items) =>
        forall i | 0 <= i < |items|
          ensures Clean(Strip(t).items[i])
        {
          StripCleans(items[i]);
        }
      case VObj(m) =>
        forall k | k in Strip(t).members
          ensures Clean(Strip(t).members[k])
        {
          StripCleans(m[k]);
        }
      case _ =>
    }
  }

  lemma {:induction false} StripClean(t: Value)
    requires Clean(t)
    ensures Strip(t) == t
    decreases t
  {
    match t {
      case VArr(items) =>
        forall i | 0 <= i < |items|
          ensures Strip(items[i]) == items[i]
        {
          StripClean(items[i]);
        }
        assert Strip(t).items == items;
      case VObj(m) =>
        forall k | k in m
          ensures Strip(m[k]) == m[k]
        {
          StripClean(m[k]);
        }
        assert Strip(t).members == m;
      case _ =>
    }
  }

  function ProjectedMember(m: Members, f: Frame, path: Path, presented: (Path, string) -> bool, k: string): Value
    requires k in m
  {
    if k !in f.sd && Has(f.children, k) then Project(m[k], Get(f.children, k).value, path + [k], presented) else m[k]
  }

  /** One member of a partly revealed object, stripped, is that member projected. */
  lemma StripMember(c: Codec, m: Members, f: Frame, path: Path, shown: Shown, presented: (Path, string) -> bool,
      k: string)
    requires Clean(VObj(m)) && CleanFrame(f) && Partial(c, VObj(m), f, path, shown).VObj?
    requires forall r :: r in Recs(c, VObj(m), f, path) ==> ((r.path, r.key) in shown <==> presented(r.path, r.key))
    requires k in m && ChildOf(f, k).Some? ==>
      Strip(Partial(c, m[k], ChildOf(f, k).value, path + [k], shown))
        == Project(m[k], ChildOf(f, k).value, path + [k], presented)
    ensures var p := Partial(c, VObj(m), f, path, shown).members;
            (k in p && k != "_sd" && k != "_sd_alg" <==> k in m && (k in f.sd ==> presented(path, k))) &&
            (k in p && k != "_sd" && k != "_sd_alg" ==> Strip(p[k]) == ProjectedMember(m, f, path, presented, k))
  {
    hide FrameValue, Recs, Clean, CleanFrame, Partial, FramedMembers, OwnDigests, Strip, Project;
    VisibleClean(VObj(m));
    FrameParts(f);
    RootOf(c, m, f, path);
    PartialAt(c, m, f, path, shown, k);
    GetHas(f.children, k);
    if k in m {
      StripClean(m[k]);
    }
  }

  lemma {:induction false} StripPartial(c: Codec, t: Value, f: Frame, path: Path, shown: Shown,
      presented: (Path, string) -> bool)
    requires Clean(t) && CleanFrame(f)
    requires forall r :: r in Recs(c, t, f, path) ==> ((r.path, r.key) in shown <==> presented(r.path, r.key))
    ensures Strip(Partial(c, t, f, path, shown)) == Project(t, f, path, presented)
    decreases t
  {
    hide FrameValue, Recs, Clean, CleanFrame, Partial, FramedMembers, OwnDigests, Strip, Project, ChildOf,
      ProjectedMember;
    if t.VObj? {
      var m := t.members;
      VisibleClean(t);
      PartialIsObject(c, m, f, path, shown);
      var p := Partial(c, t, f, path, shown).members;
      forall k
        ensures k in p && k != "_sd" && k != "_sd_alg" <==> k in m && (k in f.sd ==> presented(path, k))
        ensures k in p && k != "_sd" && k != "_sd_alg" ==> Strip(p[k]) == ProjectedMember(m, f, path, presented, k)
      {
        if k in m && ChildOf(f, k).Some? {
          ChildIsClean(f, k);
          ChildAgrees(c, m, f, path, k);
          StripPartial(c, m[k], ChildOf(f, k).value, path + [k], shown, presented);
        }
        StripMember(c, m, f, path, shown, presented, k);
      }
      StripMembers(p);
      ProjectMembers(m, f, path, presented);
      assert Strip(VObj(p)).members == Project(t, f, path, presented).members;
    } else {
      PartialIsValue(c, t, f, path, shown);
      StripClean(t);
      ProjectValue(t, f, path, presented);
    }
  }

  lemma ChildAgrees(c: Codec, m: Members, f: Frame, path: Path, k: string)
    requires Clean(VObj(m)) && CleanFrame(f) && k in m && ChildOf(f, k).Some?
    ensures forall r :: r in Recs(c, m[k], ChildOf(f, k).value, path + [k]) ==> r in Recs(c, VObj(m), f, path)
  {
    hide FrameValue, Recs, Clean, CleanFrame, FramedMembers, ChildOf;
    VisibleClean(VObj(m));
    RootOf(c, m, f, path);
    ChildIsClean(f, k);
    forall r | r in Recs(c, m[k], ChildOf(f, k).value, path + [k])
      ensures r in Recs(c, VObj(m), f, path)
    {
      RecsUnder(c, m[k], ChildOf(f, k).value, path + [k], r);
      assert Below(c, m, f, path, k, r);
    }
  }

  lemma StripMembers(p: Members)
    ensures Strip(VObj(p)).VObj?
    ensures forall k :: k in Strip(VObj(p)).members <==> k in p && k != "_sd" && k != "_sd_alg"
    ensures forall k :: k in Strip(VObj(p)).members ==> Strip(VObj(p)).members[k] == Strip(p[k])
  {
  }

  lemma ProjectMembers(m: Members, f: Frame, path: Path, presented: (Path, string) -> bool)
    ensures var q := Project(VObj(m), f, path, presented);
            q.VObj? && (forall k :: k in q.members <==> k in m && (k in f.sd ==> presented(path, k))) &&
            forall k :: k in q.members ==> q.members[k] == ProjectedMember(m, f, path, presented, k)
  {
  }

  lemma ProjectValue(t: Value, f: Frame, path: Path, presented: (Path, string) -> bool)
    requires !t.VObj?
    ensures Project(t, f, path, presented) == t
  {
  }

  // --- The whole token ---

  lemma DistinctIsUnambiguous(rs: seq<Disclosure>)
    requires DistinctEncodings(rs)
    ensures Unambiguous(rs)
  {
  }

  function Extra(recs: seq<Disclosure>): Members {
    if recs == [] then map[] else map["_sd_alg" := VStr("sha-256")]
  }

  lemma PayloadParts(c: Codec, claims: Members, f: Frame)
    requires Clean(VObj(claims)) && CleanFrame(f)
    ensures Partial(c, VObj(claims), f, [], {}).VObj?
    ensures Payload(c, claims, f)
      == VObj(Partial(c, VObj(claims), f, [], {}).members + Extra(Recs(c, VObj(claims), f, [])))
  {
    hide FrameValue, Clean, CleanFrame, Partial;
    PartialNone(c, VObj(claims), f, []);
    PartialIsObject(c, claims, f, [], {});
    var m := FrameValue(c, VObj(claims), f, []).0.members;
    assert m + map[] == m;
    assert m["_sd_alg" := VStr("sha-256")] == m + map["_sd_alg" := VStr("sha-256")];
  }

  lemma StripExtra(p: Members, recs: seq<Disclosure>)
    ensures Strip(VObj(p + Extra(recs))) == Strip(VObj(p))
  {
    assert Strip(VObj(p + Extra(recs))).members == Strip(VObj(p)).members;
  }

  /** Any disclosures of the framing, in any order: unpacking gives the claims without the
      framed members that are not among them. */
  lemma UnpackProjects(c: Codec, claims: Members, f: Frame, ds: seq<Disclosure>, presented: (Path, string) -> bool)
    requires Ideal(c) && Clean(VObj(claims)) && CleanFrame(f) && DistinctEncodings(Recs(c, VObj(claims), f, []))
    requires forall r :: r in ds ==> r in Recs(c, VObj(claims), f, [])
    requires forall r :: r in Recs(c, VObj(claims), f, []) ==>
      ((r.path, r.key) in Places(ds) <==> presented(r.path, r.key))
    ensures Unpack(c, Payload(c, claims, f), Encodings(ds)) == Some(Project(VObj(claims), f, [], presented))
  {
    hide FrameValue, Recs, Clean, CleanFrame, Partial, ApplyAll, Strip, Project, Payload, Ideal;
    var recs := Recs(c, VObj(claims), f, []);
    DistinctIsUnambiguous(recs);
    VisibleClean(VObj(claims));
    PayloadParts(c, claims, f);
    RevealMany(c, claims, f, Extra(recs), ds, {});
    assert {} + Places(ds) == Places(ds);
    StripExtra(Partial(c, VObj(claims), f, [], Places(ds)).members, recs);
    StripPartial(c, VObj(claims), f, [], Places(ds), presented);
  }

  lemma {:induction false} SelectedMeans(rs: seq<Disclosure>, frame: Value)
    ensures forall r :: r in Selected(rs, frame) <==> r in rs && Chosen(frame, r.path, r.key)
  {
    hide PresentationAllows, Chosen;
    if rs != [] {
      AllowsMeans(frame, rs[0].path, rs[0].key);
      SelectedMeans(rs[1..], frame);
      assert rs == [rs[0]] + rs[1..];
    }
  }

  /** Framing, presenting what the presentation frame selects and unpacking: exactly the claims
      minus the members that were framed and not chosen. */
  lemma PresentationProjects(c: Codec, claims: Members, f: Frame, frame: Value)
    requires Ideal(c) && Clean(VObj(claims)) && CleanFrame(f) && DistinctEncodings(Recs(c, VObj(claims), f, []))
    ensures Unpack(c, Payload(c, claims, f), Encodings(Selected(Recs(c, VObj(claims), f, []), frame)))
         == Some(ProjectChosen(claims, f, frame))
  {
    hide Recs, Clean, CleanFrame, Unpack, Payload, Project, Ideal, Chosen;
    var recs := Recs(c, VObj(claims), f, []);
    SelectedMeans(recs, frame);
    var ds := Selected(recs, frame);
    UnpackProjects(c, claims, f, ds, (p, k) => Chosen(frame, p, k));
  }

  ghost function ProjectChosen(claims: Members, f: Frame, frame: Value): Value {
    Project(VObj(claims), f, [], (p, k) => Chosen(frame, p, k))
  }

  /** The verifier accepts every disclosure of a framing. */
  lemma DisclosuresPass(c: Codec, claims: Members, f: Frame, r: Disclosure)
    requires Ideal(c) && Clean(VObj(claims)) && CleanFrame(f) && r in Recs(c, VObj(claims), f, [])
    ensures var payload := Payload(c, claims, f);
            payload.VObj? && KnownHash(payload.members) && Passes(c, payload.members, r.encoded)
  {
    hide FrameValue, Recs, Clean, CleanFrame, Collected, Ideal;
    DigestsCollected(c, claims, f, r);
    var v := RecOpens(c, VObj(claims), f, [], r);
    var recs := Recs(c, VObj(claims), f, []);
    PayloadParts(c, claims, f);
    assert recs != [];
  }

  /** The verifier finds every disclosure's digest in the payload. */
  lemma DigestsCollected(c: Codec, claims: Members, f: Frame, r: Disclosure)
    requires Clean(VObj(claims)) && CleanFrame(f) && r in Recs(c, VObj(claims), f, [])
    ensures Collected(Payload(c, claims, f), c.hash(r.encoded))
  {
    hide FrameValue, Recs, Clean, CleanFrame, Partial, Payload, Collected;
    var recs := Recs(c, VObj(claims), f, []);
    PayloadParts(c, claims, f);
    VisibleClean(VObj(claims));
    PartialAt(c, claims, f, [], {}, "_sd_alg");
    PartialHolds(c, VObj(claims), f, [], {}, c.hash(r.encoded));
    ExtraHolds(Partial(c, VObj(claims), f, [], {}).members, recs, c.hash(r.encoded));
    HeldIsCollected(Payload(c, claims, f), c.hash(r.encoded));
  }

  lemma ExtraHolds(p: Members, recs: seq<Disclosure>, digest: string)
    requires Holds(VObj(p), digest) && ("_sd_alg" in p ==> !p["_sd_alg"].VObj?)
    ensures Holds(VObj(p + Extra(recs)), digest)
  {
    var q := p + Extra(recs);
    assert OwnDigests(q) == OwnDigests(p);
    if VStr(digest) !in OwnDigests(p) {
      var k :| k in p && Holds(p[k], digest);
      assert q[k] == p[k];
    }
  }
}
