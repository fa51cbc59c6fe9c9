/** The promise-chain queue that serializes work per path, as interleaved steps. */
module TaskQueue {
  import opened Records

  /** What a task waits for: nothing, or the chained promise of an earlier task. */
  datatype Promise = Resolved | Queued(task: nat)

  datatype Phase = Waiting | Running | Finished

  datatype Task = Task(path: string, previous: Promise, phase: Phase)

  datatype State = State(tasks: seq<Task>, queues: map<string, nat>)

  /** A call arrives, a task whose predecessor has settled starts, a running task ends. */
  datatype Step = Arrive(path: string) | Start(task: nat) | End(task: nat, failed: bool)

  /** A task's chained promise settles once its predecessor's has and the task itself is over. */
  predicate Settled(tasks: seq<Task>, p: Promise)
    decreases if p.Queued? then p.task + 1 else 0
  {
    p.Resolved? ||
    (p.task < |tasks| && tasks[p.task].phase.Finished? &&
     match tasks[p.task].previous case Resolved => true case Queued(u) => u < p.task && Settled(tasks, Queued(u)))
  }

  predicate Enabled(s: State, step: Step) {
    match step
    case Arrive(_) => true
    case Start(t) => t < |s.tasks| && s.tasks[t].phase.Waiting? && Settled(s.tasks, s.tasks[t].previous)
    case End(t, _) => t < |s.tasks| && s.tasks[t].phase.Running?
  }

  function Next(s: State, step: Step): State
    requires Enabled(s, step)
  {
    match step
    case Arrive(path) =>
      var previous := if path in s.queues then Queued(s.queues[path]) else Resolved;
      State(s.tasks + [Task(path, previous, Waiting)], s.queues[path := |s.tasks|])
    case Start(t) => s.(tasks := s.tasks[t := s.tasks[t].(phase := Running)])
    case End(t, _) =>
      var path := s.tasks[t].path;
      State(s.tasks[t := s.tasks[t].(phase := Finished)], if path in s.queues
        && s.queues[path] == t then s.queues - {path} else s.queues)
  }

  /** The queue map and the tasks it has let in, as the module holds them. */
  class LedgerQueues {
    var queues: map<string, nat>
    var tasks: seq<Task>

    constructor ()
      ensures Snapshot() == State([], map[])
    {
      queues, tasks := map[], [];
    }

    ghost function Snapshot(): State
      reads this
    {
      State(tasks, queues)
    }

    method Enter(path: string) returns (t: nat)
      modifies this
      ensures t == old(|tasks|) && Snapshot() == Next(old(Snapshot()), Arrive(path))
    {
      t := |tasks|;
      var previous := if path in queues then Queued(queues[path]) else Resolved;
      tasks := tasks + [Task(path, previous, Waiting)];
      queues := queues[path := t];
    }

    method Begin(t: nat)
      requires Enabled(Snapshot(), Start(t))
      modifies this
      ensures Snapshot() == Next(old(Snapshot()), Start(t))
    {
      tasks := tasks[t := tasks[t].(phase := Running)];
    }

    /** The `finally` block, reached whether the task returned or threw. */
    method Leave(t: nat, ghost failed: bool)
      requires Enabled(Snapshot(), End(t, failed))
      modifies this
      ensures Snapshot() == Next(old(Snapshot()), End(t, failed))
    {
      var path := tasks[t].path;
      tasks := tasks[t := tasks[t].(phase := Finished)];
      if path in queues && queues[path] == t {
        queues := queues - {path};
      }
    }
  }

  // --- The invariant ---

  /** Every task on the path that arrived before `t` is over. */
  ghost predicate EarlierFinished(tasks: seq<Task>, path: string, t: nat) {
    forall u :: 0 <= u < t && u < |tasks| && tasks[u].path == path ==> tasks[u].phase.Finished?
  }

  /** What a task waits for is its immediate predecessor, unless every earlier task is over. */
  ghost predicate Chained(tasks: seq<Task>, t: nat)
    requires t < |tasks|
  {
    match tasks[t].previous
    case Resolved => EarlierFinished(tasks, tasks[t].path, t)
    case Queued(u) => u < t && tasks[u].path == tasks[t].path && forall v :: u < v < t ==>
      tasks[v].path != tasks[t].path
  }

  ghost predicate Inv(s: State) {
    && (forall t :: 0 <= t < |s.tasks| ==> Chained(s.tasks, t))
    && (forall t :: 0 <= t < |s.tasks| && !s.tasks[t].phase.Waiting? ==> EarlierFinished(s.tasks, s.tasks[t].path, t))
    && (forall path :: path in s.queues ==>
          s.queues[path] < |s.tasks| && s.tasks[s.queues[path]].path == path
            && !s.tasks[s.queues[path]].phase.Finished? &&
          forall v :: s.queues[path] < v < |s.tasks| ==> s.tasks[v].path != path)
    && (forall t :: 0 <= t < |s.tasks| && !s.tasks[t].phase.Finished? ==> s.tasks[t].path in s.queues)
  }

  /** A predecessor has settled exactly when everything before has finished. */
  lemma {:induction false} SettledMeans(s: State, t: nat)
    requires Inv(s) && t < |s.tasks|
    ensures Settled(s.tasks, s.tasks[t].previous) <==> EarlierFinished(s.tasks, s.tasks[t].path, t)
    decreases t
  {
    assert Chained(s.tasks, t);
    match s.tasks[t].previous {
      case Resolved =>
      case Queued(u) =>
        SettledMeans(s, u);
        assert Chained(s.tasks, u);
        forall v | 0 <= v < t && s.tasks[v].path == s.tasks[t].path && v != u
          ensures v < u
        {
        }
    }
  }

  lemma StepKeeps(s: State, step: Step)
    requires Inv(s) && Enabled(s, step)
    ensures Inv(Next(s, step))
  {
    hide Settled;
    match step {
      case Arrive(path) => ArriveKeeps(s, path);
      case Start(t) => StartKeeps(s, t);
      case End(t, failed) => EndKeeps(s, t, failed);
    }
  }

  lemma ArriveKeeps(s: State, path: string)
    requires Inv(s)
    ensures Inv(Next(s, Arrive(path)))
  {
    var s' := Next(s, Arrive(path));
    assert forall t :: 0 <= t < |s.tasks| ==> s'.tasks[t] == s.tasks[t];
    forall t | 0 <= t < |s.tasks|
      ensures Chained(s'.tasks, t)
    {
      assert Chained(s.tasks, t);
    }
  }

  lemma StartKeeps(s: State, t: nat)
    requires Inv(s) && Enabled(s, Start(t))
    ensures Inv(Next(s, Start(t)))
  {
    hide Settled;
    SettledMeans(s, t);
    var s' := Next(s, Start(t));
    forall v | 0 <= v < |s.tasks|
      ensures Chained(s'.tasks, v)
    {
      assert Chained(s.tasks, v);
    }
  }

  lemma EndKeeps(s: State, t: nat, failed: bool)
    requires Inv(s) && Enabled(s, End(t, failed))
    ensures Inv(Next(s, End(t, failed)))
  {
    var s' := Next(s, End(t, failed));
    forall v | 0 <= v < |s.tasks|
      ensures Chained(s'.tasks, v)
    {
      assert Chained(s.tasks, v);
    }
    var path := s.tasks[t].path;
    if path in s.queues && s.queues[path] == t {
      forall v | 0 <= v < |s.tasks| && s'.tasks[v].path == path
        ensures s'.tasks[v].phase.Finished?
      {
        if v < t {
          assert EarlierFinished(s.tasks, path, t);
        }
      }
    }
  }

  // --- Whole runs ---

  ghost predicate Run(s: State, steps: seq<Step>)
    decreases |steps|
  {
    steps == [] || (Enabled(s, steps[0]) && Run(Next(s, steps[0]), steps[1..]))
  }

  ghost function After(s: State, steps: seq<Step>): State
    requires Run(s, steps)
    decreases |steps|
  {
    if steps == [] then s else After(Next(s, steps[0]), steps[1..])
  }

  lemma {:induction false} RunKeeps(s: State, steps: seq<Step>)
    requires Inv(s) && Run(s, steps)
    ensures Inv(After(s, steps))
    decreases |steps|
  {
    hide Inv, Next, Enabled;
    if steps != [] {
      StepKeeps(s, steps[0]);
      RunKeeps(Next(s, steps[0]), steps[1..]);
    }
  }

  ghost predicate Reachable(s: State) {
    exists steps :: Run(State([], map[]), steps) && s == After(State([], map[]), steps)
  }

  lemma ReachableInv(s: State)
    requires Reachable(s)
    ensures Inv(s)
  {
    var steps :| Run(State([], map[]), steps) && s == After(State([], map[]), steps);
    RunKeeps(State([], map[]), steps);
  }

  /** At most one task per path runs, and whatever has started found every earlier arrival over. */
  lemma FifoLock(s: State, t: nat, u: nat)
    requires Reachable(s) && t < u < |s.tasks| && s.tasks[t].path == s.tasks[u].path && !s.tasks[u].phase.Waiting?
    ensures s.tasks[t].phase.Finished?
  {
    ReachableInv(s);
    assert EarlierFinished(s.tasks, s.tasks[u].path, u);
  }

  /** The earliest unfinished task of a path is running or may start at once, also when those
      before it failed; and no other waiting task of the path may. */
  lemma NextInLine(s: State, t: nat)
    requires Reachable(s) && t < |s.tasks| && s.tasks[t].phase.Waiting?
    ensures Enabled(s, Start(t)) <==> EarlierFinished(s.tasks, s.tasks[t].path, t)
  {
    ReachableInv(s);
    SettledMeans(s, t);
  }

  /** A path has an entry exactly while some task of it is unfinished, and the entry is the
      last arrival; so a leaving task removes it only when nobody waits behind. */
  lemma EntryWhileBusy(s: State, path: string)
    requires Reachable(s)
    ensures path in s.queues <==>
      exists t :: 0 <= t < |s.tasks| && s.tasks[t].path == path && !s.tasks[t].phase.Finished?
    ensures path in s.queues ==>
      s.queues[path] < |s.tasks| && forall t :: s.queues[path] < t < |s.tasks| ==> s.tasks[t].path != path
  {
    ReachableInv(s);
    if path in s.queues {
      assert s.tasks[s.queues[path]].path == path;
    }
  }

  // --- No task waits for ever ---

  /** A step moves the phase of one queued task, or adds a waiting one, and nothing else. */
  lemma StepMeans(s: State, step: Step)
    requires Enabled(s, step)
    ensures var tasks := Next(s, step).tasks;
            match step
            case Arrive(path) =>
              |tasks| == |s.tasks| + 1 && tasks[..|s.tasks|] == s.tasks && tasks[|s.tasks|].path == path &&
              tasks[|s.tasks|].phase.Waiting?
            case Start(t) => Moved(s.tasks, tasks, t) && s.tasks[t].phase.Waiting? && tasks[t].phase.Running?
            case End(t, _) => Moved(s.tasks, tasks, t) && s.tasks[t].phase.Running? && tasks[t].phase.Finished?
  {
    hide Settled;
  }

  predicate Moved(before: seq<Task>, after: seq<Task>, t: nat) {
    t < |before| == |after| && after[t].path == before[t].path &&
    forall u :: 0 <= u < |before| && u != t ==> after[u] == before[u]
  }

  ghost predicate AllFinished(tasks: seq<Task>, n: nat) {
    forall t :: 0 <= t < n && t < |tasks| ==> tasks[t].phase.Finished?
  }

  /** What is left to do from task `n` on: start and end each, in the order of arrival. */
  ghost function Rest(tasks: seq<Task>, n: nat): seq<Step>
    decreases |tasks| - n
  {
    if n >= |tasks| then []
    else (match tasks[n].phase
          case Waiting => [Start(n), End(n, false)]
          case Running => [End(n, false)]
          case Finished => []) + Rest(tasks, n + 1)
  }

  lemma {:induction false} RestSame(a: seq<Task>, b: seq<Task>, n: nat)
    requires |a| == |b| && forall t :: n <= t < |a| ==> a[t] == b[t]
    ensures Rest(a, n) == Rest(b, n)
    decreases |a| - n
  {
    if n < |a| {
      RestSame(a, b, n + 1);
    }
  }

  function StepOf(tasks: seq<Task>, n: nat): Step
    requires n < |tasks|
  {
    if tasks[n].phase.Waiting? then Start(n) else End(n, false)
  }

  lemma RestStep(a: seq<Task>, b: seq<Task>, n: nat)
    requires Moved(a, b, n) && !a[n].phase.Finished?
    requires if a[n].phase.Waiting? then b[n].phase.Running? else b[n].phase.Finished?
    ensures Rest(a, n) == [StepOf(a, n)] + Rest(b, n)
  {
    RestSame(a, b, n + 1);
  }

  lemma RunStep(s: State, step: Step, steps: seq<Step>)
    requires Enabled(s, step) && Run(Next(s, step), steps)
    ensures Run(s, [step] + steps) && After(s, [step] + steps) == After(Next(s, step), steps)
  {
    hide Next, Enabled;
    assert ([step] + steps)[1..] == steps;
  }

  ghost predicate Drains(s: State, steps: seq<Step>) {
    Run(s, steps) &&
    var s' := After(s, steps); Inv(s') && |s'.tasks| == |s.tasks| && AllFinished(s'.tasks, |s'.tasks|)
  }

  function Left(tasks: seq<Task>, n: nat): nat {
    if n >= |tasks| then 0 else match tasks[n].phase case Waiting => 2 case Running => 1 case Finished => 0
  }

  lemma {:induction false} DrainFrom(s: State, n: nat)
    requires Inv(s) && AllFinished(s.tasks, n) && n <= |s.tasks|
    ensures Drains(s, Rest(s.tasks, n))
    decreases |s.tasks| - n, Left(s.tasks, n)
  {
    hide Inv, Enabled, Next;
    if n < |s.tasks| {
      if s.tasks[n].phase.Finished? {
        hide Run, After;
        assert Rest(s.tasks, n) == Rest(s.tasks, n + 1);
        DrainFrom(s, n + 1);
      } else {
        hide Run, After, AllFinished;
        var step := StepOf(s.tasks, n);
        MayStep(s, n);
        var s' := Next(s, step);
        StepKeeps(s, step);
        StepMeans(s, step);
        RestStep(s.tasks, s'.tasks, n);
        hide Rest;
        StillFinished(s.tasks, s'.tasks, n);
        DrainFrom(s', n);
        RunStep(s, step, Rest(s'.tasks, n));
      }
    }
  }

  lemma StillFinished(a: seq<Task>, b: seq<Task>, n: nat)
    requires AllFinished(a, n) && Moved(a, b, n)
    ensures AllFinished(b, n)
  {
  }

  lemma MayStep(s: State, n: nat)
    requires Inv(s) && AllFinished(s.tasks, n) && n < |s.tasks| && !s.tasks[n].phase.Finished?
    ensures Enabled(s, StepOf(s.tasks, n))
  {
    SettledMeans(s, n);
  }

  /** From every reachable state all tasks can still be started and ended, one after the other in the
      order of arrival, and then no path has an entry. */
  lemma NoDeadlock(s: State)
    requires Reachable(s)
    ensures Run(s, Rest(s.tasks, 0))
    ensures var s' := After(s, Rest(s.tasks, 0));
            |s'.tasks| == |s.tasks| && AllFinished(s'.tasks, |s'.tasks|) && s'.queues == map[]
  {
    ReachableInv(s);
    DrainFrom(s, 0);
    var s' := After(s, Rest(s.tasks, 0));
    hide Run, After, Rest, Reachable;
    assert forall path :: path !in s'.queues;
  }
}
