/** Ids for a manifest's policies: explicit ids are kept, the others are generated. */
module PolicyIds {
  import opened Records
  import opened Text

  datatype Policy = Policy(id: Option<string>, kind: string)

  /** An empty id counts as none. */
  predicate Explicit(p: Policy) {
    p.id.Some? && p.id.value != ""
  }

  /** The n-th name tried for a kind: the kind itself, then `kind-2`, `kind-3` and so on. */
  function Candidate(kind: string, n: nat): string {
    if n < 2 then kind else kind + "-" + Digits(n)
  }

  lemma CandidateText(kind: string)
    ensures Candidate(kind, 1) == kind
    ensures forall n :: n >= 2 ==> Candidate(kind, n) == kind + "-" + Digits(n)
  {
  }

  lemma CandidatesDiffer(kind: string, m: nat, n: nat)
    requires 1 <= m < n
    ensures Candidate(kind, m) != Candidate(kind, n)
  {
    hide Digits, Value;
    assert Value(Digits(m)) == m && Value(Digits(n)) == n;
    assert m >= 2 ==> Candidate(kind, m)[|kind| + 1..] == Digits(m);
    assert Candidate(kind, n)[|kind| + 1..] == Digits(n);
  }

  ghost predicate NextIs(kind: string, taken: set<string>, n: nat) {
    n >= 1 && Candidate(kind, n) !in taken && forall m :: 1 <= m < n ==> Candidate(kind, m) in taken
  }

  /** `id` is the first candidate of the kind that is not taken. */
  ghost predicate NextId(kind: string, taken: set<string>, id: string) {
    exists n :: NextIs(kind, taken, n) && id == Candidate(kind, n)
  }

  lemma NextIdUnique(kind: string, taken: set<string>, a: string, b: string)
    requires NextId(kind, taken, a) && NextId(kind, taken, b)
    ensures a == b
  {
    hide Candidate;
    var m: nat :| NextIs(kind, taken, m) && a == Candidate(kind, m);
    var n: nat :| NextIs(kind, taken, n) && b == Candidate(kind, n);
    assert !(m < n) && !(n < m);
  }

  /** The search ends: every candidate found taken is another one of the reserved ids. */
  method Unused(kind: string, reserved: set<string>) returns (candidate: string)
    ensures NextId(kind, reserved, candidate)
  {
    hide Candidate;
    candidate := kind;
    var suffix := 2;
    ghost var tried: set<string> := {};
    CandidateText(kind);
    while candidate in reserved
      invariant suffix >= 2 && candidate == Candidate(kind, suffix - 1) && tried <= reserved
      invariant forall m :: 1 <= m < suffix - 1 ==> Candidate(kind, m) in reserved
      invariant forall x :: x in tried ==> exists m :: 1 <= m < suffix - 1 && x == Candidate(kind, m)
      decreases reserved - tried
    {
      if candidate in tried {
        var m :| 1 <= m < suffix - 1 && candidate == Candidate(kind, m);
        CandidatesDiffer(kind, m, suffix - 1);
        assert false;
      }
      tried := tried + {candidate};
      candidate := kind + "-" + Digits(suffix);
      suffix := suffix + 1;
    }
    assert NextIs(kind, reserved, suffix - 1);
  }

  function ExplicitIds(policies: seq<Policy>): set<string> {
    set i | 0 <= i < |policies| && Explicit(policies[i]) :: policies[i].id.value
  }

  /** Two policies carry the same explicit id. */
  ghost predicate Clash(policies: seq<Policy>, i: nat, j: nat) {
    i < j < |policies| && policies[i].id == policies[j].id && policies[i].id.Some? && policies[i].id != Some("")
  }

  /** And no earlier policy repeats an id. */
  ghost predicate FirstClash(policies: seq<Policy>, i: nat, j: nat) {
    Clash(policies, i, j) && forall m: nat, n: nat :: n < j ==> !Clash(policies, m, n)
  }

  function TakenBefore(policies: seq<Policy>, ids: seq<string>): set<string> {
    ExplicitIds(policies) + set i | 0 <= i < |ids| :: ids[i]
  }

  lemma TakenGrows(policies: seq<Policy>, ids: seq<string>, id: string)
    ensures TakenBefore(policies, ids + [id]) == TakenBefore(policies, ids) + {id}
  {
    var longer := ids + [id];
    assert forall i :: 0 <= i < |ids| ==> longer[i] == ids[i];
    assert longer[|ids|] == id;
  }

  ghost predicate IdOk(policies: seq<Policy>, ids: seq<string>, i: nat)
    requires i < |policies| && i < |ids|
  {
    if Explicit(policies[i]) then ids[i] == policies[i].id.value
    else NextId(policies[i].kind, TakenBefore(policies, ids[..i]), ids[i])
  }

  /** Explicit ids are kept; every other id is the first of its kind that is neither explicit
      anywhere nor given earlier. */
  ghost predicate Assigned(policies: seq<Policy>, ids: seq<string>) {
    |ids| == |policies| && forall i :: 0 <= i < |ids| ==> IdOk(policies, ids, i)
  }

  method NormalizePolicies(policies: seq<Policy>) returns (r: Result<seq<string>, string>)
    ensures r.Success? ==> Assigned(policies, r.value) && forall i: nat, j: nat :: !Clash(policies, i, j)
    ensures r.Failure? ==> exists i: nat, j: nat :: FirstClash(policies, i, j) && r.error == policies[j].id.value
  {
    hide NextId, Candidate;
    var reserved: set<string> := {};
    var i := 0;
    while i < |policies|
      invariant 0 <= i <= |policies| && reserved == ExplicitIds(policies[..i])
      invariant forall m: nat, n: nat :: n < i ==> !Clash(policies, m, n)
    {
      ghost var before := policies[..i];
      assert policies[..i + 1] == before + [policies[i]];
      if Explicit(policies[i]) {
        var id := policies[i].id.value;
        if id in reserved {
          ghost var k :| 0 <= k < i && Explicit(before[k]) && before[k].id.value == id;
          assert FirstClash(policies, k, i);
          return Failure(id);
        }
        assert forall m :: 0 <= m < i && Explicit(before[m]) ==> before[m].id.value in reserved;
        reserved := reserved + {id};
      }
      i := i + 1;
    }
    assert policies[..i] == policies;
    var ids: seq<string> := [];
    i := 0;
    while i < |policies|
      invariant 0 <= i <= |policies| && |ids| == i && reserved == TakenBefore(policies, ids)
      invariant forall j :: 0 <= j < i ==> IdOk(policies, ids, j)
    {
      var id: string;
      if Explicit(policies[i]) {
        id := policies[i].id.value;
        assert id in ExplicitIds(policies);
      } else {
        id := Unused(policies[i].kind, reserved);
        reserved := reserved + {id};
      }
      TakenGrows(policies, ids, id);
      ghost var longer := ids + [id];
      assert forall j :: 0 <= j < i ==> longer[..j] == ids[..j] && longer[j] == ids[j];
      assert longer[..i] == ids;
      assert forall j :: 0 <= j < i ==> IdOk(policies, longer, j) == IdOk(policies, ids, j);
      ids := ids + [id];
      i := i + 1;
    }
    r := Success(ids);
  }

  /** The ids a manifest is given are pairwise distinct. */
  lemma IdsDistinct(policies: seq<Policy>, ids: seq<string>, i: nat, j: nat)
    requires Assigned(policies, ids) && (forall m: nat, n: nat :: !Clash(policies, m, n)) && i < j < |ids|
    ensures ids[i] != ids[j]
  {
    hide Candidate;
    assert IdOk(policies, ids, i) && IdOk(policies, ids, j);
    assert ids[i] == ids[..j][i] && ids[..j][i] in TakenBefore(policies, ids[..j]);
    if Explicit(policies[j]) {
      assert ids[j] in ExplicitIds(policies);
      if Explicit(policies[i]) {
        assert !Clash(policies, i, j);
      }
    }
  }

  /** And they are determined by the policies. */
  lemma {:induction false} IdsDetermined(policies: seq<Policy>, a: seq<string>, b: seq<string>, n: nat)
    requires Assigned(policies, a) && Assigned(policies, b) && n <= |policies|
    ensures a[..n] == b[..n]
  {
    hide NextId, TakenBefore;
    if n > 0 {
      var i := n - 1;
      IdsDetermined(policies, a, b, i);
      assert IdOk(policies, a, i) && IdOk(policies, b, i);
      if !Explicit(policies[i]) {
        NextIdUnique(policies[i].kind, TakenBefore(policies, a[..i]), a[i], b[i]);
      }
      assert a[..n] == a[..i] + [a[i]] && b[..n] == b[..i] + [b[i]];
    }
  }

  /** A name is in use for policy `i`: some policy carries it, or an earlier one was given it. */
  ghost predicate InUse(policies: seq<Policy>, ids: seq<string>, i: nat, name: string)
    requires i <= |ids|
  {
    (name != "" && exists j :: 0 <= j < |policies| && policies[j].id == Some(name)) || name in ids[..i]
  }

  /** The kind with this number is not in use, but with every number from 2 on below it is. */
  ghost predicate Numbered(policies: seq<Policy>, ids: seq<string>, i: nat, kind: string, n: nat)
    requires i <= |ids|
  {
    n >= 2 && !InUse(policies, ids, i, kind + "-" + Digits(n)) &&
    forall m: nat :: 2 <= m < n ==> InUse(policies, ids, i, kind + "-" + Digits(m))
  }

  /** `id` is the kind when that is free, and otherwise the kind with the first number that makes it so. */
  ghost predicate FirstFree(policies: seq<Policy>, ids: seq<string>, i: nat, kind: string, id: string)
    requires i <= |ids|
  {
    if !InUse(policies, ids, i, kind) then id == kind
    else exists n: nat :: Numbered(policies, ids, i, kind, n) && id == kind + "-" + Digits(n)
  }

  lemma TakenMeans(policies: seq<Policy>, ids: seq<string>, i: nat, name: string)
    requires i <= |ids|
    ensures name in TakenBefore(policies, ids[..i]) <==> InUse(policies, ids, i, name)
  {
    var before := ids[..i];
    assert name in before <==> exists j :: 0 <= j < |before| && before[j] == name;
    assert name in ExplicitIds(policies) <==>
        name != "" && exists j :: 0 <= j < |policies| && policies[j].id == Some(name);
  }

  /** Which ids the policies get, without reference to the search. */
  lemma IdsMean(policies: seq<Policy>, ids: seq<string>, i: nat)
    requires Assigned(policies, ids) && i < |ids|
    ensures var p := policies[i];
            if p.id.Some? && p.id != Some("") then p.id == Some(ids[i]) else FirstFree(policies, ids, i, p.kind, ids[i])
  {
    hide TakenBefore, InUse, Digits, Candidate;
    assert IdOk(policies, ids, i);
    var kind := policies[i].kind;
    if policies[i].id.None? || policies[i].id == Some("") {
      var n: nat :| NextIs(kind, TakenBefore(policies, ids[..i]), n) && ids[i] == Candidate(kind, n);
      forall m: nat | 1 <= m <= n
        ensures InUse(policies, ids, i, Candidate(kind, m)) <==> m < n
      {
        TakenMeans(policies, ids, i, Candidate(kind, m));
      }
      CandidateText(kind);
      assert InUse(policies, ids, i, Candidate(kind, 1)) <==> n > 1;
      forall m: nat | 2 <= m <= n
        ensures InUse(policies, ids, i, kind + "-" + Digits(m)) <==> m < n
      {
        assert Candidate(kind, m) == kind + "-" + Digits(m);
      }
      assert n > 1 ==> Numbered(policies, ids, i, kind, n);
    }
  }
}
