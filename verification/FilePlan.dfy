/** The file-plan writer: every file of the plan, or none. */
module FilePlan {
  import opened Records

  /** A planned file under its resolved path. */
  datatype Entry = Entry(path: string, contents: string)

  /** How the operations on one entry go. A write that fails may leave something behind. */
  datatype Outcome = Works | ReadFails | DirectoryFails | WriteFails(leaves: Option<string>)

  type Files = map<string, string>

  datatype Progress = Progress(files: Files, done: nat, preExisting: seq<Entry>, failed: bool)

  /** One entry: refuse or remember what is there, then write. */
  function Attempt(p: Progress, e: Entry, replace: bool, outcome: Outcome): Progress {
    var existed := e.path in p.files;
    if existed && (!replace || outcome.ReadFails?) then p.(failed := true)
    else
      var p1 := if existed then p.(preExisting := p.preExisting + [Entry(e.path, p.files[e.path])]) else p;
      match outcome
      case DirectoryFails => p1.(failed := true)
      case WriteFails(leaves) =>
        p1.(files := if leaves.Some? then p.files[e.path := leaves.value] else p.files, failed := true)
      case _ => p1.(files := p.files[e.path := e.contents], done := p.done + 1)
  }

  /** The loop over the plan, stopped by the first failure. */
  function Attempts(files: Files, plan: seq<Entry>, replace: bool, outcomes: seq<Outcome>): Progress
    requires |outcomes| == |plan|
    decreases |plan|
  {
    if plan == [] then Progress(files, 0, [], false)
    else
      var n := |plan| - 1;
      var p := Attempts(files, plan[..n], replace, outcomes[..n]);
      if p.failed then p else Attempt(p, plan[n], replace, outcomes[n])
  }

  function Removed(files: Files, plan: seq<Entry>, keep: set<string>): Files
    decreases |plan|
  {
    if plan == [] then files
    else
      var n := |plan| - 1;
      var rest := Removed(files, plan[..n], keep);
      if plan[n].path in keep then rest else rest - {plan[n].path}
  }

  function Restored(files: Files, saved: seq<Entry>): Files
    decreases |saved|
  {
    if saved == [] then files
    else
      var n := |saved| - 1;
      Restored(files, saved[..n])[saved[n].path := saved[n].contents]
  }

  function Paths(entries: seq<Entry>): set<string> {
    set i | 0 <= i < |entries| :: entries[i].path
  }

  function Final(files: Files, plan: seq<Entry>, replace: bool, outcomes: seq<Outcome>): Files
    requires |outcomes| == |plan|
  {
    var p := Attempts(files, plan, replace, outcomes);
    if p.failed && p.done <= |plan|
      then Restored(Removed(p.files, plan[..p.done], Paths(p.preExisting)), p.preExisting) else p.files
  }

  datatype WriteResult = WriteResult(ok: bool, written: seq<string>, failing: Option<string>)

  class Workspace {
    var files: Files

    constructor (initial: Files)
      ensures files == initial
    {
      files := initial;
    }

    method WritePlanTransactional(plan: seq<Entry>, replace: bool, outcomes: seq<Outcome>) returns (r: WriteResult)
      requires |outcomes| == |plan|
      modifies this
      ensures files == Final(old(files), plan, replace, outcomes)
      ensures var p := Attempts(old(files), plan, replace, outcomes);
              if p.failed then p.done < |plan| && r == WriteResult(false, [], Some(plan[p.done].path))
              else r.ok && |r.written| == |plan| && forall i :: 0 <= i < |plan| ==> r.written[i] == plan[i].path
    {
      hide Attempt, Removed, Restored, Paths;
      var written: seq<Entry>, preExisting: seq<Entry>, failed := [], [], false;
      var i := 0;
      while i < |plan| && !failed
        invariant 0 <= i <= |plan| && |written| == (if failed then i - 1 else i)
        invariant written == plan[..|written|]
        invariant Attempts(old(files), plan[..i], replace, outcomes[..i])
          == Progress(files, |written|, preExisting, failed)
      {
        assert plan[..i + 1][..i] == plan[..i] && outcomes[..i + 1][..i] == outcomes[..i];
        var done, saved := WriteEntry(|written|, preExisting, plan[i], replace, outcomes[i]);
        failed := !done;
        preExisting := preExisting + saved;
        written := if done then written + [plan[i]] else written;
        i := i + 1;
      }
      if failed {
        FailureStops(old(files), plan, i, replace, outcomes);
      }
      assert plan[..|plan|] == plan && outcomes[..|plan|] == outcomes;
      if !failed {
        return WriteResult(true, seq(|plan|, k requires 0 <= k < |plan| => plan[k].path), None);
      }
      RollBack(written, preExisting);
      r := WriteResult(false, [], Some(plan[|written|].path));
    }

    /** Looks at what is there, and writes one file. */
    method WriteEntry(ghost n: nat, ghost preExisting: seq<Entry>, e: Entry, replace: bool, outcome: Outcome)
        returns (done: bool, saved: seq<Entry>)
      modifies this
      ensures Attempt(Progress(old(files), n, preExisting, false), e, replace, outcome)
           == Progress(files, if done then n + 1 else n, preExisting + saved, !done)
    {
      saved := [];
      var existed := e.path in files;
      if existed && (!replace || outcome.ReadFails?) {
        assert preExisting + saved == preExisting;
        return false, saved;
      }
      if existed {
        saved := [Entry(e.path, files[e.path])];
      }
      assert preExisting + [] == preExisting;
      if outcome.DirectoryFails? {
        return false, saved;
      }
      if outcome.WriteFails? {
        if outcome.leaves.Some? {
          files := files[e.path := outcome.leaves.value];
        }
        return false, saved;
      }
      files := files[e.path := e.contents];
      done := true;
    }

    method RollBack(written: seq<Entry>, preExisting: seq<Entry>)
      modifies this
      ensures files == Restored(Removed(old(files), written, Paths(preExisting)), preExisting)
    {
      var keep := Paths(preExisting);
      for i := 0 to |written|
        invariant files == Removed(old(files), written[..i], keep)
      {
        assert written[..i + 1][..i] == written[..i];
        if written[i].path !in keep {
          files := files - {written[i].path};
        }
      }
      assert written[..|written|] == written;
      ghost var removed := files;
      for i := 0 to |preExisting|
        invariant files == Restored(removed, preExisting[..i])
      {
        assert preExisting[..i + 1][..i] == preExisting[..i];
        files := files[preExisting[i].path := preExisting[i].contents];
      }
      assert preExisting[..|preExisting|] == preExisting;
    }
  }

  /** Once an entry has failed the rest of the plan is not looked at. */
  lemma {:induction false} FailureStops(files: Files, plan: seq<Entry>, i: nat, replace: bool, outcomes: seq<Outcome>)
    requires i <= |plan| == |outcomes| && Attempts(files, plan[..i], replace, outcomes[..i]).failed
    ensures Attempts(files, plan, replace, outcomes) == Attempts(files, plan[..i], replace, outcomes[..i])
    decreases |plan|
  {
    var n := |plan| - 1;
    if i == |plan| {
      assert plan[..i] == plan && outcomes[..i] == outcomes;
    } else {
      assert plan[..n][..i] == plan[..i] && outcomes[..n][..i] == outcomes[..i];
      FailureStops(files, plan[..n], i, replace, outcomes[..n]);
    }
  }
}
