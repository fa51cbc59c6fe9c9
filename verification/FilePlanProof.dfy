/** Exactly when a plan is all or nothing, repeated paths included. */
module FilePlanProof {
  import opened Records
  import opened FilePlan

  // --- What the loop reaches ---

  /** The files with the entries written in order. */
  function Overlay(files: Files, plan: seq<Entry>): (r: Files)
    ensures r.Keys == files.Keys + Paths(plan)
    decreases |plan|
  {
    if plan == [] then files
    else
      var n := |plan| - 1;
      assert plan == plan[..n] + [plan[n]];
      PathsAppend(plan[..n], plan[n]);
      Overlay(files, plan[..n])[plan[n].path := plan[n].contents]
  }

  /** What was there before each write that replaced something. */
  function Remember(files: Files, plan: seq<Entry>): seq<Entry>
    decreases |plan|
  {
    if plan == [] then []
    else
      var n := |plan| - 1;
      var before := Overlay(files, plan[..n]);
      Remember(files, plan[..n]) + if plan[n].path in before then [Entry(plan[n].path, before[plan[n].path])] else []
  }

  /** Whether an entry finds its path taken, by the files or by an earlier entry. */
  predicate Taken(files: Files, plan: seq<Entry>, i: nat)
    requires i < |plan|
  {
    plan[i].path in files || plan[i].path in Paths(plan[..i])
  }

  /** Nothing in the way of entry `i`. */
  predicate Goes(files: Files, plan: seq<Entry>, i: nat, replace: bool, outcome: Outcome)
    requires i < |plan|
  {
    if Taken(files, plan, i) then replace && outcome.Works? else outcome.Works? || outcome.ReadFails?
  }

  ghost predicate AllGo(files: Files, plan: seq<Entry>, replace: bool, outcomes: seq<Outcome>, n: nat)
    requires n <= |plan| == |outcomes|
  {
    forall i :: 0 <= i < n ==> Goes(files, plan, i, replace, outcomes[i])
  }

  lemma PathsAppend(es: seq<Entry>, e: Entry)
    ensures Paths(es + [e]) == Paths(es) + {e.path}
  {
    var longer := es + [e];
    assert forall i :: 0 <= i < |es| ==> longer[i] == es[i];
    assert longer[|es|] == e;
  }

  lemma {:induction false} AttemptsGo(files: Files, plan: seq<Entry>, replace: bool, outcomes: seq<Outcome>)
    requires |outcomes| == |plan| && AllGo(files, plan, replace, outcomes, |plan|)
    ensures Attempts(files, plan, replace, outcomes) == Progress(Overlay(files, plan), |plan|, Remember(files, plan),
      false)
    decreases |plan|
  {
    hide Paths;
    if plan != [] {
      var n := |plan| - 1;
      forall i | 0 <= i < n
        ensures Goes(files, plan[..n], i, replace, outcomes[..n][i])
      {
        assert plan[..n][..i] == plan[..i] && Goes(files, plan, i, replace, outcomes[i]);
      }
      AttemptsGo(files, plan[..n], replace, outcomes[..n]);
      assert Goes(files, plan, n, replace, outcomes[n]);
      assert Remember(files, plan[..n]) + [] == Remember(files, plan[..n]);
    }
  }

  // --- What is remembered ---

  function LastSaved(saved: seq<Entry>, path: string): (r: Option<string>)
    ensures r.Some? <==> path in Paths(saved)
    decreases |saved|
  {
    if saved == [] then None
    else
      var n := |saved| - 1;
      assert saved == saved[..n] + [saved[n]];
      PathsAppend(saved[..n], saved[n]);
      if saved[n].path == path then Some(saved[n].contents) else LastSaved(saved[..n], path)
  }

  function LastRemembered(files: Files, plan: seq<Entry>, path: string): Option<string>
    decreases |plan|
  {
    if plan == [] then None
    else
      var n := |plan| - 1;
      var before := Overlay(files, plan[..n]);
      if plan[n].path == path && path in before then Some(before[path]) else LastRemembered(files, plan[..n], path)
  }

  lemma {:induction false} SavedIsRemembered(files: Files, plan: seq<Entry>, path: string)
    ensures LastSaved(Remember(files, plan), path) == LastRemembered(files, plan, path)
    decreases |plan|
  {
    hide Paths, Overlay;
    if plan != [] {
      var n := |plan| - 1;
      SavedIsRemembered(files, plan[..n], path);
      var before, saved := Overlay(files, plan[..n]), Remember(files, plan[..n]);
      if plan[n].path in before {
        assert (saved + [Entry(plan[n].path, before[plan[n].path])])[..|saved|] == saved;
      } else {
        assert saved + [] == saved;
      }
    }
  }

  /** The last entry for a path, or -1. */
  function LastIndex(plan: seq<Entry>, path: string): (j: int)
    ensures -1 <= j < |plan| && (j >= 0 ==> plan[j].path == path)
    ensures forall k :: j < k < |plan| ==> plan[k].path != path
    decreases |plan|
  {
    if plan == [] then -1
    else if plan[|plan| - 1].path == path then |plan| - 1
    else LastIndex(plan[..|plan| - 1], path)
  }

  lemma {:induction false} OverlayAt(files: Files, plan: seq<Entry>, path: string)
    ensures path in Overlay(files, plan) <==> LastIndex(plan, path) >= 0 || path in files
    ensures path in Overlay(files, plan) ==>
              Overlay(files, plan)[path] == if LastIndex(plan, path) >= 0 then plan[LastIndex(plan, path)].contents
                else files[path]
    decreases |plan|
  {
    hide Paths;
    if plan != [] {
      OverlayAt(files, plan[..|plan| - 1], path);
    }
  }

  /** Last remembered of a path is what the entry before its last one wrote, or what was there. */
  lemma {:induction false} LastRememberedIs(files: Files, plan: seq<Entry>, path: string)
    ensures var j := LastIndex(plan, path);
            if j < 0 then LastRemembered(files, plan, path) == None
            else
              var i := LastIndex(plan[..j], path);
              LastRemembered(files, plan, path) ==
              if i >= 0 then Some(plan[i].contents) else if path in files then Some(files[path]) else None
    decreases |plan|
  {
    hide Paths, Overlay;
    if plan != [] {
      var n := |plan| - 1;
      LastRememberedIs(files, plan[..n], path);
      if plan[n].path == path {
        OverlayAt(files, plan[..n], path);
      } else {
        var j := LastIndex(plan[..n], path);
        assert j >= 0 ==> plan[..n][..j] == plan[..j];
      }
    }
  }

  /** Entry `i` is the one before entry `j` for the same path, and no later one is. */
  ghost predicate LastTwo(plan: seq<Entry>, i: nat, j: nat) {
    i < j < |plan| && plan[i].path == plan[j].path && forall k ::
      i < k < |plan| && k != j ==> plan[k].path != plan[j].path
  }

  /** For every path attempted more than once, what was last written over is what was there
      to begin with. */
  ghost predicate RestoresOriginals(files: Files, attempted: seq<Entry>) {
    forall i: nat, j: nat :: LastTwo(attempted, i, j) ==>
      attempted[j].path in files && files[attempted[j].path] == attempted[i].contents
  }

  ghost predicate RemembersOriginal(files: Files, plan: seq<Entry>, path: string) {
    var last := LastRemembered(files, plan, path);
    last.Some? ==> path in files && files[path] == last.value
  }

  lemma RestoresMeans(files: Files, plan: seq<Entry>)
    ensures RestoresOriginals(files, plan) <==> forall path :: RemembersOriginal(files, plan, path)
  {
    hide LastRemembered;
    forall path | RestoresOriginals(files, plan)
      ensures RemembersOriginal(files, plan, path)
    {
      LastRememberedIs(files, plan, path);
      var j := LastIndex(plan, path);
      if j >= 0 && LastIndex(plan[..j], path) >= 0 {
        PreviousIs(plan, path, LastIndex(plan[..j], path), j);
      }
    }
    forall i: nat, j: nat | LastTwo(plan, i, j) && forall path :: RemembersOriginal(files, plan, path)
      ensures plan[j].path in files && files[plan[j].path] == plan[i].contents
    {
      var path := plan[j].path;
      LastRememberedIs(files, plan, path);
      IndexIs(plan, j);
      IndexIs(plan[..j], i);
      assert RemembersOriginal(files, plan, path);
    }
  }

  lemma PreviousIs(plan: seq<Entry>, path: string, i: nat, j: nat)
    requires LastIndex(plan, path) == j && j < |plan| && LastIndex(plan[..j], path) == i
    ensures LastTwo(plan, i, j)
  {
    forall k | i < k < |plan| && k != j
      ensures plan[k].path != path
    {
      assert k < j ==> plan[..j][k] == plan[k];
    }
  }

  lemma IndexIs(plan: seq<Entry>, j: nat)
    requires j < |plan| && forall k :: j < k < |plan| ==> plan[k].path != plan[j].path
    ensures LastIndex(plan, plan[j].path) == j
  {
    var l := LastIndex(plan, plan[j].path);
    assert l >= j;
  }

  // --- Undoing ---

  lemma {:induction false} RemovedIs(files: Files, plan: seq<Entry>, keep: set<string>)
    ensures Removed(files, plan, keep) == files - (Paths(plan) - keep)
    decreases |plan|
  {
    if plan != [] {
      var n := |plan| - 1;
      RemovedIs(files, plan[..n], keep);
      PathsAppend(plan[..n], plan[n]);
      assert plan == plan[..n] + [plan[n]];
    }
  }

  lemma {:induction false} RestoredIs(files: Files, saved: seq<Entry>)
    ensures Restored(files, saved).Keys == files.Keys + Paths(saved)
    ensures forall p :: p in Restored(files, saved) ==>
              Restored(files, saved)[p] == if LastSaved(saved, p).Some? then LastSaved(saved, p).value else files[p]
    decreases |saved|
  {
    if saved != [] {
      var n := |saved| - 1;
      RestoredIs(files, saved[..n]);
      PathsAppend(saved[..n], saved[n]);
      assert saved == saved[..n] + [saved[n]];
    }
  }

  // --- All or nothing ---

  /** The entries whose files are remembered when entry `n` fails: it too, if it got that far. */
  function Attempted(files: Files, plan: seq<Entry>, n: nat, replace: bool, outcome: Outcome): seq<Entry>
    requires n < |plan|
  {
    if Taken(files, plan, n) && replace && !outcome.ReadFails? then plan[..n + 1] else plan[..n]
  }

  /** The write that fails leaves a file where there was none. */
  predicate LeavesNewFile(files: Files, plan: seq<Entry>, n: nat, outcome: Outcome)
    requires n < |plan|
  {
    !Taken(files, plan, n) && outcome.WriteFails? && outcome.leaves.Some?
  }

  /** What the loop has when entry `n` fails. */
  function Failing(files: Files, plan: seq<Entry>, n: nat, replace: bool, outcome: Outcome): Progress
    requires n < |plan|
  {
    Attempt(Progress(Overlay(files, plan[..n]), n, Remember(files, plan[..n]), false), plan[n], replace, outcome)
  }

  function AfterRollback(files: Files, plan: seq<Entry>, n: nat, replace: bool, outcome: Outcome): Files
    requires n < |plan|
  {
    var p := Failing(files, plan, n, replace, outcome);
    Restored(Removed(p.files, plan[..n], Paths(p.preExisting)), p.preExisting)
  }

  /** Where the failing entry leaves the loop. */
  lemma FailingEntry(files: Files, plan: seq<Entry>, n: nat, replace: bool, outcome: Outcome)
    requires n < |plan| && !Goes(files, plan, n, replace, outcome)
    ensures var p := Failing(files, plan, n, replace, outcome);
            p.failed && p.done == n && p.preExisting == Remember(files, Attempted(files, plan, n, replace, outcome)) &&
            (forall x :: x != plan[n].path ==> (x in p.files <==> x in Overlay(files, plan[..n]))) &&
            (forall x :: x in p.files && x != plan[n].path ==> p.files[x] == Overlay(files, plan[..n])[x]) &&
            (plan[n].path in p.files <==> Taken(files, plan, n) || LeavesNewFile(files, plan, n, outcome))
  {
    hide Overlay, Paths;
    assert plan[..n + 1][..n] == plan[..n] && plan[..n + 1][n] == plan[n];
    assert Remember(files, plan[..n]) + [] == Remember(files, plan[..n]);
  }

  /** A path that was planned and that was there is remembered. */
  lemma PlannedRemembered(files: Files, plan: seq<Entry>, path: string)
    requires path in Paths(plan) && path in files
    ensures LastRemembered(files, plan, path).Some?
  {
    LastRememberedIs(files, plan, path);
  }

  lemma AttemptedPaths(files: Files, plan: seq<Entry>, n: nat, replace: bool, outcome: Outcome)
    requires n < |plan|
    ensures Paths(plan[..n]) <= Paths(Attempted(files, plan, n, replace, outcome)) <= Paths(plan[..n]) + {plan[n].path}
    ensures Taken(files, plan, n) && replace && !outcome.ReadFails? ==>
              LastRemembered(files, Attempted(files, plan, n, replace, outcome), plan[n].path).Some?
  {
    PathsAppend(plan[..n], plan[n]);
    assert plan[..n + 1] == plan[..n] + [plan[n]] && plan[..n + 1][..n] == plan[..n];
    hide Paths, Overlay;
  }

  /** One path after the rollback: as last remembered; or gone, as it was; or new; or untouched. */
  lemma PathAfter(files: Files, plan: seq<Entry>, n: nat, replace: bool, outcome: Outcome, x: string)
    requires n < |plan| && !Goes(files, plan, n, replace, outcome)
    ensures var last := LastRemembered(files, Attempted(files, plan, n, replace, outcome), x);
            var final := AfterRollback(files, plan, n, replace, outcome);
            if last.Some? then x in final && final[x] == last.value
            else if x == plan[n].path && LeavesNewFile(files, plan, n, outcome) then x in final && x !in files
            else (x in final <==> x in files) && (x in final ==> final[x] == files[x])
  {
    var p := Failing(files, plan, n, replace, outcome);
    var attempted := Attempted(files, plan, n, replace, outcome);
    FailingEntry(files, plan, n, replace, outcome);
    AttemptedPaths(files, plan, n, replace, outcome);
    SavedIsRemembered(files, attempted, x);
    RemovedIs(p.files, plan[..n], Paths(p.preExisting));
    RestoredIs(Removed(p.files, plan[..n], Paths(p.preExisting)), p.preExisting);
    OverlayAt(files, plan[..n], x);
    IndexPaths(plan[..n], x);
    if x in Paths(attempted) && x in files {
      PlannedRemembered(files, attempted, x);
    }
    if Taken(files, plan, n) && x == plan[n].path && LastRemembered(files, attempted, x).None? {
      Unwritten(files, plan, n, replace, outcome);
    }
    hide Paths, Overlay, Removed, Restored, LastSaved, LastRemembered, Remember, Attempted, Attempt;
  }

  lemma IndexPaths(plan: seq<Entry>, x: string)
    ensures x in Paths(plan) <==> LastIndex(plan, x) >= 0
  {
  }

  /** An entry that fails on a taken path before it remembers has not written. */
  lemma Unwritten(files: Files, plan: seq<Entry>, n: nat, replace: bool, outcome: Outcome)
    requires n < |plan| && !Goes(files, plan, n, replace, outcome) && Taken(files, plan, n)
    requires LastRemembered(files, Attempted(files, plan, n, replace, outcome), plan[n].path).None?
    ensures Failing(files, plan, n, replace, outcome).files
         == Overlay(files, plan[..n])
  {
    AttemptedPaths(files, plan, n, replace, outcome);
    hide Overlay, Paths, Remember, LastRemembered;
  }

  lemma RolledBack(files: Files, plan: seq<Entry>, n: nat, replace: bool, outcome: Outcome)
    requires n < |plan| && !Goes(files, plan, n, replace, outcome)
    ensures AfterRollback(files, plan, n, replace, outcome) == files <==>
      !LeavesNewFile(files, plan, n, outcome)
      && RestoresOriginals(files, Attempted(files, plan, n, replace, outcome))
  {
    var p := Failing(files, plan, n, replace, outcome);
    var attempted := Attempted(files, plan, n, replace, outcome);
    var final := AfterRollback(files, plan, n, replace, outcome);
    RestoresMeans(files, attempted);
    hide Attempt, Overlay, Remember, Removed, Restored, Paths, Taken, Goes, LastRemembered, Attempted,
      RestoresOriginals;
    forall x
      ensures !LeavesNewFile(files, plan, n, outcome) && RemembersOriginal(files, attempted, x) ==>
                (x in final <==> x in files) && (x in final ==> final[x] == files[x])
      ensures final == files ==> RemembersOriginal(files, attempted, x)
    {
      PathAfter(files, plan, n, replace, outcome, x);
    }
    if final == files && LeavesNewFile(files, plan, n, outcome) {
      NewFileStays(files, plan, n, replace, outcome);
    }
    if !LeavesNewFile(files, plan, n, outcome) && forall x :: RemembersOriginal(files, attempted, x) {
      assert final.Keys == files.Keys;
    }
  }

  lemma NewFileStays(files: Files, plan: seq<Entry>, n: nat, replace: bool, outcome: Outcome)
    requires n < |plan| && !Goes(files, plan, n, replace, outcome) && LeavesNewFile(files, plan, n, outcome)
    ensures AfterRollback(files, plan, n, replace, outcome) != files
  {
    var x := plan[n].path;
    PathAfter(files, plan, n, replace, outcome, x);
    LastRememberedIs(files, plan[..n], x);
    IndexPaths(plan[..n], x);
    hide Attempt, Overlay, Remember, Removed, Restored, Paths, Goes, LastRemembered;
  }

  /** After a failure at any entry the files are what they were if and only if the failing write
      leaves no new file and every path attempted more than once was last written over with its
      original contents. */
  lemma AllOrNothing(files: Files, plan: seq<Entry>, replace: bool, outcomes: seq<Outcome>, n: nat)
    requires n < |plan| == |outcomes| && AllGo(files, plan, replace, outcomes, n)
      && !Goes(files, plan, n, replace, outcomes[n])
    ensures Final(files, plan, replace, outcomes) == files <==>
      !LeavesNewFile(files, plan, n, outcomes[n])
      && RestoresOriginals(files, Attempted(files, plan, n, replace, outcomes[n]))
  {
    hide Goes, Attempt, Removed, Restored, Paths, Overlay, Remember, LeavesNewFile, RestoresOriginals, Attempted;
    forall i | 0 <= i < n
      ensures Goes(files, plan[..n], i, replace, outcomes[..n][i])
    {
      GoesPrefix(files, plan, n, i, replace, outcomes[i]);
      assert Goes(files, plan, i, replace, outcomes[i]);
    }
    AttemptsGo(files, plan[..n], replace, outcomes[..n]);
    RolledBack(files, plan, n, replace, outcomes[n]);
    FailingEntry(files, plan, n, replace, outcomes[n]);
    assert plan[..n + 1][..n] == plan[..n] && outcomes[..n + 1][..n] == outcomes[..n];
    assert plan[..n + 1][n] == plan[n] && outcomes[..n + 1][n] == outcomes[n];
    FailureStops(files, plan, n + 1, replace, outcomes);
  }

  lemma GoesPrefix(files: Files, plan: seq<Entry>, n: nat, i: nat, replace: bool, outcome: Outcome)
    requires i < n <= |plan|
    ensures Goes(files, plan[..n], i, replace, outcome) <==> Goes(files, plan, i, replace, outcome)
  {
    assert plan[..n][..i] == plan[..i];
  }

  lemma NoRepeat(files: Files, plan: seq<Entry>, i: nat, j: nat, outcome: Outcome)
    requires i < j < |plan| && Goes(files, plan, j, false, outcome)
    ensures plan[i].path != plan[j].path
  {
    assert plan[..j][i] == plan[i];
  }

  /** When existing files are not to be replaced, any plan is undone completely, repeated paths
      or not, if and only if the failing write leaves no new file. */
  lemma FailModeAllOrNothing(files: Files, plan: seq<Entry>, outcomes: seq<Outcome>, n: nat)
    requires n < |plan| == |outcomes| && AllGo(files, plan, false, outcomes, n)
      && !Goes(files, plan, n, false, outcomes[n])
    ensures Final(files, plan, false, outcomes) == files <==> !LeavesNewFile(files, plan, n, outcomes[n])
  {
    AllOrNothing(files, plan, false, outcomes, n);
    forall i, j | 0 <= i < j < n
      ensures plan[i].path != plan[j].path
    {
      NoRepeat(files, plan, i, j, outcomes[j]);
    }
    hide Final, LeavesNewFile, Goes;
  }

  /** The files with every planned file holding its contents and nothing else changed. */
  ghost predicate Written(files: Files, plan: seq<Entry>, result: Files) {
    && (forall i :: 0 <= i < |plan| ==> plan[i].path in result && result[plan[i].path] == plan[i].contents)
    && (forall p :: p !in Paths(plan) ==> (p in result <==> p in files))
    && (forall p :: p !in Paths(plan) && p in files ==> result[p] == files[p])
  }

  lemma PlannedHolds(files: Files, plan: seq<Entry>, i: nat) returns (l: nat)
    requires i < |plan|
    ensures i <= l < |plan| && plan[l].path == plan[i].path
    ensures plan[i].path in Overlay(files, plan) && Overlay(files, plan)[plan[i].path] == plan[l].contents
  {
    OverlayAt(files, plan, plan[i].path);
    l := LastIndex(plan, plan[i].path);
    hide Overlay;
  }

  lemma OthersStay(files: Files, plan: seq<Entry>, p: string)
    requires p !in Paths(plan)
    ensures (p in Overlay(files, plan) <==> p in files) && (p in files ==> Overlay(files, plan)[p] == files[p])
  {
    OverlayAt(files, plan, p);
    IndexPaths(plan, p);
    hide Overlay;
  }

  lemma OverlayWritten(files: Files, plan: seq<Entry>)
    ensures Written(files, plan, Overlay(files, plan)) <==> Agree(plan)
  {
    hide Overlay, Paths, LastIndex;
    var final := Overlay(files, plan);
    if Agree(plan) {
      forall i | 0 <= i < |plan|
        ensures plan[i].path in final && final[plan[i].path] == plan[i].contents
      {
        var l := PlannedHolds(files, plan, i);
      }
      forall p | p !in Paths(plan)
        ensures (p in final <==> p in files) && (p in files ==> final[p] == files[p])
      {
        OthersStay(files, plan, p);
      }
    }
    forall i, j | Written(files, plan, final) && 0 <= i < j < |plan| && plan[i].path == plan[j].path
      ensures plan[i].contents == plan[j].contents
    {
      assert final[plan[i].path] == plan[i].contents && final[plan[j].path] == plan[j].contents;
    }
  }

  /** Entries for one path have the same contents. */
  ghost predicate Agree(plan: seq<Entry>) {
    forall i, j :: 0 <= i < j < |plan| && plan[i].path == plan[j].path ==> plan[i].contents == plan[j].contents
  }

  /** Without a failure every planned file holds its contents if and only if entries for one
      path agree; a path planned once always does. */
  lemma AllWritten(files: Files, plan: seq<Entry>, replace: bool, outcomes: seq<Outcome>)
    requires |outcomes| == |plan| && AllGo(files, plan, replace, outcomes, |plan|)
    ensures Written(files, plan, Final(files, plan, replace, outcomes)) <==> Agree(plan)
  {
    AttemptsGo(files, plan, replace, outcomes);
    OverlayWritten(files, plan);
    hide AllGo, Overlay, Attempts, Removed, Restored, Written, Agree, Paths;
  }

  /** A new path planned twice in replace mode: a later failure leaves it behind. */
  lemma SamePathTwice(files: Files, path: string, other: string, first: string, second: string, last: string)
    requires path != other && path !in files && other !in files
    ensures Final(files, [Entry(path, first), Entry(path, second), Entry(other, last)], true,
      [Works, Works, WriteFails(None)]) != files
  {
    var plan, outcomes := [Entry(path, first), Entry(path, second), Entry(other, last)],
      [Works, Works, WriteFails(None)];
    assert plan[..0] == [] && plan[..1] == [plan[0]] && plan[..2] == [plan[0], plan[1]];
    assert forall i :: 0 <= i < 2 ==> plan[..2][i].path == path;
    assert other !in Paths(plan[..2]);
    assert plan[..1][0].path in Paths(plan[..1]);
    assert AllGo(files, plan, true, outcomes, 2);
    AllOrNothing(files, plan, true, outcomes, 2);
    assert LastTwo(plan[..2], 0, 1);
  }
}
