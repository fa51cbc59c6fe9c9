/** The log refines a state machine on reservations, in which released and captured are final
    and every reservation is counted once. */
module LedgerMachine {
  import opened Records
  import opened Text
  import opened Ledger

  ghost predicate Keyed(rs: State) {
    Distinct(rs) && forall i :: 0 <= i < |rs| ==> rs[i].0 == rs[i].1.id
  }

  // --- Replay of an extended log ---

  lemma {:induction false} ReplayFromConcat(rs: State, a: seq<Row>, b: seq<Row>)
    ensures ReplayFrom(rs, a + b) == ReplayFrom(ReplayFrom(rs, a), b)
    decreases |a|
  {
    hide Apply;
    if a == [] {
      assert a + b == b;
    } else {
      assert (a + b)[1..] == a[1..] + b;
      ReplayFromConcat(Apply(rs, a[0]), a[1..], b);
    }
  }

  lemma ReplayOne(log: seq<Row>, row: Row)
    ensures Replay(log + [row]) == Apply(Replay(log), row)
  {
    hide Apply;
    ReplayFromConcat([], log, [row]);
    ReplaySingle(Replay(log), row);
  }

  lemma ReplaySingle(rs: State, row: Row)
    ensures ReplayFrom(rs, [row]) == Apply(rs, row)
  {
    hide Apply;
    assert [row][1..] == [];
  }

  lemma GetKeyed(rs: State, id: string)
    requires Keyed(rs) && Get(rs, id).Some?
    ensures Get(rs, id).value.id == id
  {
  }

  lemma PutKeyed(rs: State, id: string, r: Reservation)
    requires Keyed(rs) && r.id == id
    ensures Keyed(Put(rs, id, r))
  {
  }

  lemma ApplyKeyed(rs: State, row: Row)
    requires Keyed(rs)
    ensures Keyed(Apply(rs, row))
  {
    hide Keyed, Put, Get;
    match row.body {
      case Reserve(amount, currency, key, limits) =>
        PutKeyed(rs, row.id, Reservation(row.id, amount, currency, key, row.ts, Pending, limits, None, None, None,
          None, None, None));
      case LegacySpend(spend) =>
        PutKeyed(rs, row.id, LegacyState(row.id, spend));
      case _ =>
        if Get(rs, row.id).Some? {
          GetKeyed(rs, row.id);
          PutKeyed(rs, row.id, Updated(Get(rs, row.id).value, row));
        }
    }
  }

  lemma {:induction false} ReplayKeyed(rs: State, log: seq<Row>)
    requires Keyed(rs)
    ensures Keyed(ReplayFrom(rs, log))
    decreases |log|
  {
    hide Apply, Keyed;
    if log != [] {
      ApplyKeyed(rs, log[0]);
      ReplayKeyed(Apply(rs, log[0]), log[1..]);
    }
  }

  // --- The abstract machine: reservations edited directly ---

  function ReleaseExpired(rs: State, at: int): (r: State)
    ensures |r| == |rs|
  {
    seq(|rs|, i requires 0 <= i < |rs| =>
      if Expired(rs[i].1, at) then (rs[i].0, rs[i].1.(status := Released, releasedAt := Some(at))) else rs[i])
  }

  /** The reservation `id` replaced by what `f` makes of it, if it is active. */
  function Edit(rs: State, id: string, f: Reservation -> Reservation): (State, Answer) {
    if IsActive(rs, id) then (Put(rs, id, f(Get(rs, id).value)), Done) else (rs, Threw(NotFound(id)))
  }

  function MachineStep(rs: State, a: Action, at: int): (State, Answer) {
    match a
    case DoReserve(id, amount, currency, key, limits) =>
      var c, l := NormalizeCurrency(currency), NormalizeLimits(limits);
      var refused := CheckLimits(rs, amount, c, at, l, None, false);
      var r := Reservation(id, amount, c, key, at, Pending, l, None, None, None, None, None, None);
      if refused.Some? then (rs, Threw(refused.value)) else (Put(rs, id, r), Reserved(r))
    case DoAdjust(id, total) =>
      if !IsActive(rs, id) then (rs, Threw(NotFound(id)))
      else
        var r := Get(rs, id).value;
        var refused := CheckLimits(rs, total, r.currency, at, r.limits, Some(id), true);
        if total > r.amount then
          (Put(rs, id, r.(status := Released, releasedAt := Some(at))),
            Threw(AmountExceeded(total, r.amount, r.currency, true)))
        else if refused.Some? then (Put(rs, id, r.(status := Released, releasedAt := Some(at))), Threw(refused.value))
        else (Put(rs, id, r.(amount := total)), Done)
    case DoMarkEscalated(id, expiresAt) =>
      if IsActive(rs, id) && expiresAt.None? then (rs, Threw(InvalidTime))
      else
        Edit(rs, id, (r: Reservation) => if r.status.Pending? then r.(status := Escalated, expiresAt := expiresAt)
          else r)
    case DoRelease(id, _) => Edit(rs, id, (r: Reservation) => r.(status := Released, releasedAt := Some(at)))
    case DoSettle(id, receipt) =>
      Edit(rs, id, (r: Reservation) => r.(status := Captured, settledAt := Some(at), receipt := Some(receipt),
        amount := receipt.chargedAmount,
                           currency := NormalizeCurrency(receipt.chargedCurrency)))
    case DoWriteShadow(id, receipt) => Edit(rs, id, (r: Reservation) => r.(shadow := Some(receipt)))
    case DoReattach(id) =>
      var r := Get(rs, id);
      if r.None? || !r.value.status.Escalated? then (rs, Threw(NotEscalated(id)))
      else if Expired(r.value, at) then
        (Put(rs, id, r.value.(status := Released, releasedAt := Some(at))),
          Threw(ResumeExpired(id, r.value.expiresAt.value)))
      else (rs, Reserved(r.value))
    case DoReleaseExpired => (ReleaseExpired(rs, at), Done)
    case DoRecordSpend(id, spend) =>
      (Put(rs, id, LegacyState(id, spend.(currency := NormalizeCurrency(spend.currency)))), Done)
  }

  lemma ReleaseAt(all: State, i: nat, at: int)
    requires Keyed(all) && i < |all| && Expired(all[i].1, at)
    ensures var r := all[i].1;
            Apply(all, Row(at, r.id, Release("resume_expired")))
              == all[i := (r.id, r.(status := Released, releasedAt := Some(at)))]
  {
    hide IndexOf;
    IndexUnique(all, i);
  }

  lemma {:induction false} ExpiryReplayed(done: State, rs: State, at: int)
    requires Keyed(done + rs)
    ensures ReplayFrom(done + rs, ExpiryRows(rs, at)) == done + ReleaseExpired(rs, at)
    decreases |rs|
  {
    hide IndexOf;
    if rs == [] {
      assert done + rs == done + ReleaseExpired(rs, at);
    } else {
      var r := rs[0].1;
      var r' := if Expired(r, at) then r.(status := Released, releasedAt := Some(at)) else r;
      var done' := done + [(rs[0].0, r')];
      var all := done + rs;
      assert all[|done|] == rs[0];
      IndexUnique(all, |done|);
      if Expired(r, at) {
        var row := Row(at, r.id, Release("resume_expired"));
        ReleaseAt(all, |done|, at);
        assert all[|done| := (r.id, r')] == done' + rs[1..];
        ReplayFromConcat(all, [row], ExpiryRows(rs[1..], at));
        ReplaySingle(all, row);
      } else {
        assert done' + rs[1..] == all;
        assert [] + ExpiryRows(rs[1..], at) == ExpiryRows(rs[1..], at);
      }
      var all' := done' + rs[1..];
      assert forall i :: 0 <= i < |all| ==> all'[i].0 == all[i].0 && all'[i].1.id == all[i].1.id;
      ExpiryReplayed(done', rs[1..], at);
      assert done' + ReleaseExpired(rs[1..], at) == done + ReleaseExpired(rs, at);
    }
  }

  /** Appending what an operation writes and replaying is one step of the machine, with the
      same answer. */
  lemma LogRefinesMachine(log: seq<Row>, a: Action, at: int)
    ensures var (log', answer) := LogStep(log, a, at, NoFault);
            (Replay(log'), answer) == MachineStep(Replay(log), a, at)
  {
    hide Replay, CheckLimits, Put, Get, NormalizeLimits, NormalizeCurrency;
    var rs := Replay(log);
    var rows := Plan(rs, a, at).0;
    if a.DoReleaseExpired? {
      EmptyKeyed();
      ReplayKeyed([], log);
      ReplayUnfold(log);
      ExpiryReplayed([], rs, at);
      assert [] + rs == rs && [] + ReleaseExpired(rs, at) == ReleaseExpired(rs, at);
      ReplayFromConcat([], log, rows);
      ReplayUnfold(log + rows);
      assert rows == [] ==> ReplayFrom(rs, rows) == rs;
    } else if rows != [] {
      PlanIsOneRow(rs, a, at);
      ReplayOne(log, rows[0]);
      assert rows == [rows[0]];
    }
  }

  lemma PlanIsOneRow(rs: State, a: Action, at: int)
    requires !a.DoReleaseExpired?
    ensures |Plan(rs, a, at).0| <= 1
  {
    hide CheckLimits, NormalizeLimits, NormalizeCurrency, Get;
  }

  lemma EmptyKeyed()
    ensures Keyed([])
  {
  }

  lemma ReplayUnfold(log: seq<Row>)
    ensures Replay(log) == ReplayFrom([], log)
  {
  }

  /** An append that fails leaves the log between where it was and where it would have been. */
  lemma FaultySteps(log: seq<Row>, a: Action, at: int, fault: Fault)
    ensures var (log', answer) := LogStep(log, a, at, fault);
            log <= log' <= LogStep(log, a, at, NoFault).0 &&
            (fault.Failed? && log' != LogStep(log, a, at, NoFault).0 ==> answer == Threw(Io))
  {
    hide Plan, Replay;
    var rows := Plan(Replay(log), a, at).0;
    assert Written(rows, fault) <= rows;
  }

  // --- Final statuses ---

  ghost predicate Final(r: Reservation) {
    !r.Active()
  }

  /** Rows that could replace a reservation wholesale carry an id of their own. */
  predicate Fresh(rs: State, row: Row) {
    row.body.Reserve? || row.body.LegacySpend? ==> !Has(rs, row.id)
  }

  lemma ApplyGet(rs: State, row: Row, id: string)
    requires Keyed(rs) && Fresh(rs, row) && Get(rs, id).Some?
    ensures Get(Apply(rs, row), id) == Some(if id == row.id then Updated(Get(rs, id).value, row) else Get(rs, id).value)
  {
    hide Put, Keyed, LegacyState;
    assert Distinct(rs) by { KeyedDistinct(rs); }
    hide Distinct;
    match row.body {
      case Reserve(amount, currency, key, limits) =>
        PutGet(rs, row.id, Reservation(row.id, amount, currency, key, row.ts, Pending, limits, None, None, None, None,
          None, None), id);
      case LegacySpend(spend) =>
        PutGet(rs, row.id, LegacyState(row.id, spend), id);
      case _ =>
        if Get(rs, row.id).Some? {
          PutGet(rs, row.id, Updated(Get(rs, row.id).value, row), id);
        }
    }
  }

  lemma KeyedDistinct(rs: State)
    requires Keyed(rs)
    ensures Distinct(rs)
  {
  }

  ghost predicate FreshRows(rs: State, rows: seq<Row>)
    decreases |rows|
  {
    rows == [] || (Fresh(rs, rows[0]) && FreshRows(Apply(rs, rows[0]), rows[1..]))
  }

  /** Once released or captured, a reservation keeps its status, amount, currency, receipt and
      settlement time whatever rows follow. */
  lemma {:induction false} FinalIsAbsorbing(rs: State, rows: seq<Row>, id: string)
    requires Keyed(rs) && FreshRows(rs, rows) && Get(rs, id).Some? && Final(Get(rs, id).value)
    ensures Get(ReplayFrom(rs, rows), id).Some?
    ensures var r, r' := Get(rs, id).value, Get(ReplayFrom(rs, rows), id).value; r' == r.(shadow := r'.shadow)
    decreases |rows|
  {
    hide Apply, Keyed, Get;
    if rows != [] {
      ApplyKeyed(rs, rows[0]);
      ApplyGet(rs, rows[0], id);
      FinalIsAbsorbing(Apply(rs, rows[0]), rows[1..], id);
    }
  }

  // --- Counting ---

  function Counted(r: Reservation, w: Window, currency: string, at: int): int {
    if Counts(r, w, currency, at) && !r.status.Released? then r.amount else 0
  }

  /** What is really committed in a window: active and captured amounts, each once. */
  function TrueUsage(rs: State, w: Window, currency: string, at: int): int {
    if rs == [] then 0 else Counted(rs[0].1, w, currency, at) + TrueUsage(rs[1..], w, currency, at)
  }

  lemma {:induction false} AccumulatedOnce(rs: State, w: Window, currency: string, at: int, u: Usage)
    ensures var v := Accumulate(rs, w, currency, at, None, u);
            v.pending + v.escalated + v.captured == u.pending + u.escalated + u.captured
              + TrueUsage(rs, w, currency, at)
    decreases |rs|
  {
    hide Counts;
    if rs != [] {
      AccumulatedOnce(rs[1..], w, currency, at, if Counts(rs[0].1, w, currency, at) then AddTo(u, rs[0].1) else u);
    }
  }

  function EscalatedUsage(rs: State, w: Window, currency: string, at: int): int {
    if rs == [] then 0
    else
      (if rs[0].1.status.Escalated? then Counted(rs[0].1, w, currency, at) else 0)
      + EscalatedUsage(rs[1..], w, currency, at)
  }

  lemma {:induction false} AccumulatedEscalated(rs: State, w: Window, currency: string, at: int, u: Usage)
    ensures Accumulate(rs, w, currency, at, None, u).escalated == u.escalated + EscalatedUsage(rs, w, currency, at)
    decreases |rs|
  {
    hide Counts;
    if rs != [] {
      AccumulatedEscalated(rs[1..], w, currency, at, if Counts(rs[0].1, w, currency, at) then AddTo(u, rs[0].1) else u);
    }
  }

  /** The two reported figures add up to the true usage; the limit check's sum of three
      figures counts escalated amounts a second time. */
  lemma EachReservationOnce(rs: State, w: Window, currency: string, at: int)
    ensures var u := UsageForWindow(rs, w, currency, at, None);
            u.pending + u.captured == TrueUsage(rs, w, currency, at)
              && u.escalated == EscalatedUsage(rs, w, currency, at) &&
            u.pending + u.escalated + u.captured == TrueUsage(rs, w, currency, at) + EscalatedUsage(rs, w, currency, at)
  {
    hide TrueUsage, EscalatedUsage, Accumulate;
    AccumulatedOnce(rs, w, currency, at, Usage(0, 0, 0));
    AccumulatedEscalated(rs, w, currency, at, Usage(0, 0, 0));
  }
}
