/** What the caps of the caller mean, in the caller's own tables, currencies and milliseconds. */
module LedgerPromise {
  import opened Records
  import opened Text
  import opened Ledger
  import opened LedgerMachine
  import opened LedgerCaps

  // --- The caller's tables ---

  /** Two currencies are one if and only if, without the white space around them, they differ in case only. */
  lemma CurrencyMeans(a: string, b: string, bare: string, other: string)
    requires Inside(a, bare) && Inside(b, other)
    ensures NormalizeCurrency(a) == NormalizeCurrency(b) <==> SameButCase(bare, other)
  {
    hide Trim, Upper, Lower, SameButCase, Inside;
    TrimInside(a, bare);
    TrimInside(b, other);
    CaseMeans(bare, other);
  }

  /** The entry that decides for a currency: the last one that names it. */
  ghost predicate Decides(caps: Caps, i: nat, currency: string) {
    i < |caps| && NormalizeCurrency(caps[i].0) == currency &&
    forall j :: i < j < |caps| ==> NormalizeCurrency(caps[j].0) != currency
  }

  lemma LastNames(caps: Caps, currency: string)
    requires Decides(caps, 0, currency)
    ensures forall j: nat :: !Decides(caps[1..], j, currency)
  {
    hide NormalizeCurrency;
    assert forall j :: 1 <= j < |caps| ==> caps[1..][j - 1] == caps[j];
  }

  lemma {:induction false} CapsKept(caps: Caps, out: Caps, currency: string)
    requires Distinct(out)
    ensures Distinct(NormalizeCaps(caps, out))
    ensures (exists i: nat :: Decides(caps, i, currency))
      || Get(NormalizeCaps(caps, out), currency) == Get(out, currency)
    ensures forall i: nat :: Decides(caps, i, currency) ==> Get(NormalizeCaps(caps, out), currency) == Some(caps[i].1)
    decreases |caps|
  {
    hide Get, Put, NormalizeCurrency;
    if caps != [] {
      var c, more := NormalizeCurrency(caps[0].0), caps[1..];
      var out' := Put(out, c, caps[0].1);
      PutGet(out, c, caps[0].1, currency);
      CapsKept(more, out', currency);
      forall i: nat | Decides(caps, i, currency)
        ensures Get(NormalizeCaps(caps, out), currency) == Some(caps[i].1)
      {
        if i > 0 {
          assert more[i - 1] == caps[i] && Decides(more, i - 1, currency);
        } else {
          LastNames(caps, currency);
          assert c == currency;
        }
      }
      if exists j: nat :: Decides(more, j, currency) {
        var j: nat :| Decides(more, j, currency);
        assert Decides(caps, j + 1, currency);
      } else if c == currency {
        NoneLater(more, currency);
        assert forall j :: 0 < j < |caps| ==> caps[j] == more[j - 1];
        assert Decides(caps, 0, currency);
      }
    }
  }

  /** If no entry decides, none names the currency. */
  lemma {:induction false} NoneLater(caps: Caps, currency: string)
    requires forall i: nat :: !Decides(caps, i, currency)
    ensures forall j :: 0 <= j < |caps| ==> NormalizeCurrency(caps[j].0) != currency
    decreases |caps|
  {
    hide NormalizeCurrency;
    if caps != [] {
      var n := |caps| - 1;
      assert !Decides(caps, n, currency);
      var front := caps[..n];
      forall i: nat
        ensures !Decides(front, i, currency)
      {
        assert !Decides(caps, i, currency);
        assert Decides(front, i, currency) ==> Decides(caps, i, currency);
      }
      NoneLater(front, currency);
      assert forall j :: 0 <= j < n ==> caps[j] == front[j];
    }
  }

  /** A currency has the cap of the last entry that names it, and none when no entry does. */
  lemma CapIs(caps: Caps, currency: string)
    ensures forall i: nat :: Decides(caps, i, currency) ==> Get(NormalizeCaps(caps, []), currency) == Some(caps[i].1)
    ensures Get(NormalizeCaps(caps, []), currency).None? <==>
      forall j :: 0 <= j < |caps| ==> NormalizeCurrency(caps[j].0) != currency
  {
    CapsKept(caps, [], currency);
    if forall i: nat :: !Decides(caps, i, currency) {
      NoneLater(caps, currency);
    }
    hide NormalizeCurrency, NormalizeCaps, Get;
    assert forall i: nat :: Decides(caps, i, currency) ==> NormalizeCurrency(caps[i].0) == currency;
  }

  // --- What has been spent ---

  /** Pending, escalated or captured in the currency, at or after a time: when it was settled if it
      was, else when it was made. */
  predicate Spent(r: Reservation, currency: string, since: int) {
    !r.status.Released? && NormalizeCurrency(r.currency) == currency &&
    match r.settledAt
    case Some(settled) => settled >= since
    case None => r.ts >= since
  }

  /** The amounts spent, each reservation once, but for one id. */
  function Used(rs: State, but: Option<string>, currency: string, since: int): int {
    if rs == [] then 0
    else
      (if Some(rs[0].1.id) != but && Spent(rs[0].1, currency, since) then rs[0].1.amount else 0)
      + Used(rs[1..], but, currency, since)
  }

  function UsedEscalated(rs: State, but: Option<string>, currency: string, since: int): int {
    if rs == [] then 0
    else
      (if Some(rs[0].1.id) != but && rs[0].1.status.Escalated? && Spent(rs[0].1, currency, since)
       then rs[0].1.amount else 0)
      + UsedEscalated(rs[1..], but, currency, since)
  }

  function Since(w: Window, at: int): int {
    match w
    case Daily => at - 86_400_000
    case Weekly => at - 604_800_000
    case Monthly => at - 2_592_000_000
  }

  lemma {:induction false} AccumulatedUsed(rs: State, w: Window, currency: string, at: int, but: Option<string>,
      u: Usage)
    ensures var v := Accumulate(rs, w, currency, at, but, u);
            var c := NormalizeCurrency(currency);
            v.pending + v.escalated + v.captured
              == u.pending + u.escalated + u.captured + Used(rs, but, c, Since(w, at)) &&
            v.escalated == u.escalated + UsedEscalated(rs, but, c, Since(w, at))
    decreases |rs|
  {
    hide NormalizeCurrency;
    if rs != [] {
      var r := rs[0].1;
      AccumulatedUsed(rs[1..], w, currency, at, but,
                      if but == Some(r.id) || !Counts(r, w, currency, at) then u else AddTo(u, r));
    }
  }

  /** Whether one table lets an amount through: escalated amounts weigh twice. */
  ghost predicate Allows(caps: Caps, rs: State, but: Option<string>, currency: string, since: int, amount: int) {
    Get(caps, currency).None? || Taken(rs, but, currency, since) + amount <= Get(caps, currency).value
  }

  function Taken(rs: State, but: Option<string>, currency: string, since: int): int {
    Used(rs, but, NormalizeCurrency(currency), since) + UsedEscalated(rs, but, NormalizeCurrency(currency), since)
  }

  /** What a refusal says: the amount, and what is left of the cap. */
  function Exceeded(caps: Caps, rs: State, but: Option<string>, currency: string, since: int, amount: int,
      releases: bool): LedgerError
    requires Get(caps, currency).Some?
  {
    var left := Get(caps, currency).value - Taken(rs, but, currency, since);
    AmountExceeded(amount, if left < 0 then 0 else left, currency, releases)
  }

  lemma WindowMeans(rs: State, w: Window, caps: Caps, amount: int, currency: string, at: int, l: Limits,
      but: Option<string>, releases: bool)
    requires caps == match w case Daily => l.daily case Weekly => l.weekly case Monthly => l.monthly
    ensures var refused := CheckWindow(rs, w, amount, currency, at, l, but, releases);
            if Allows(caps, rs, but, currency, Since(w, at), amount) then refused.None?
            else refused == Some(Exceeded(caps, rs, but, currency, Since(w, at), amount, releases))
  {
    AccumulatedUsed(rs, w, currency, at, but, Usage(0, 0, 0));
    hide Accumulate, Used, UsedEscalated, NormalizeCurrency, Get, Since;
  }

  /** The check, for a new amount or in place of a reservation: it passes if and only if each of the
      three tables lets the amount through, and otherwise names the first that does not. */
  lemma LimitsAllow(rs: State, amount: int, currency: string, at: int, l: Limits, but: Option<string>, releases: bool)
    ensures var refused := CheckLimits(rs, amount, currency, at, l, but, releases);
            if !Allows(l.daily, rs, but, currency, at - 86_400_000, amount) then
              refused == Some(Exceeded(l.daily, rs, but, currency, at - 86_400_000, amount, releases))
            else if !Allows(l.weekly, rs, but, currency, at - 604_800_000, amount) then
              refused == Some(Exceeded(l.weekly, rs, but, currency, at - 604_800_000, amount, releases))
            else if !Allows(l.monthly, rs, but, currency, at - 2_592_000_000, amount) then
              refused == Some(Exceeded(l.monthly, rs, but, currency, at - 2_592_000_000, amount, releases))
            else refused.None?
  {
    WindowMeans(rs, Daily, l.daily, amount, currency, at, l, but, releases);
    WindowMeans(rs, Weekly, l.weekly, amount, currency, at, l, but, releases);
    WindowMeans(rs, Monthly, l.monthly, amount, currency, at, l, but, releases);
    hide CheckWindow, Allows, Exceeded;
  }

  // --- Whole runs ---

  lemma {:induction false} UsageIsUsed(rs: State, w: Window, currency: string, at: int)
    requires Normal(currency)
    ensures TrueUsage(rs, w, currency, at) == Used(rs, None, currency, Since(w, at))
    decreases |rs|
  {
    if rs != [] {
      UsageIsUsed(rs[1..], w, currency, at);
    }
  }

  /** Nothing beyond the caps of one of the caller's tables was spent since a time. */
  ghost predicate Kept(caps: Caps, rs: State, since: int) {
    forall i: nat, c :: Decides(caps, i, c) ==> Used(rs, None, c, since) <= if caps[i].1 < 0 then 0 else caps[i].1
  }

  lemma TableKept(ops: seq<Op>, limits: Limits, start: int, w: Window, caps: Caps, at: int)
    requires GuardedRun([], ops, NormalizeLimits(limits), start) && AllFit([], ops, NormalizeLimits(limits))
    requires LastTime(ops, start) <= at
    requires caps == match w case Daily => limits.daily case Weekly => limits.weekly case Monthly => limits.monthly
    ensures Kept(caps, Replay(RunLog([], ops)), Since(w, at))
  {
    hide GuardedRun, AllFit, Replay, RunLog, Used, TrueUsage, NormalizeCurrency, NormalizeCaps, Get, Since, LastTime;
    forall i: nat, c | Decides(caps, i, c)
      ensures Used(Replay(RunLog([], ops)), None, c, Since(w, at)) <= if caps[i].1 < 0 then 0 else caps[i].1
    {
      CapIs(caps, c);
      NormalTwice(caps[i].0);
      CapsHold(ops, NormalizeLimits(limits), start, w, c, at);
      UsageIsUsed(Replay(RunLog([], ops)), w, c, at);
    }
  }

  /** After a run in which every charge and recorded spend fits, what was spent in the last day,
      week and thirty days is within the tables the caller passed. */
  lemma CapsPromised(ops: seq<Op>, limits: Limits, start: int, at: int)
    requires GuardedRun([], ops, NormalizeLimits(limits), start) && AllFit([], ops, NormalizeLimits(limits))
    requires LastTime(ops, start) <= at
    ensures var rs := Replay(RunLog([], ops));
            Kept(limits.daily, rs, at - 86_400_000) && Kept(limits.weekly, rs, at - 604_800_000) &&
            Kept(limits.monthly, rs, at - 2_592_000_000)
  {
    TableKept(ops, limits, start, Daily, limits.daily, at);
    TableKept(ops, limits, start, Weekly, limits.weekly, at);
    TableKept(ops, limits, start, Monthly, limits.monthly, at);
    hide GuardedRun, AllFit, Kept, NormalizeLimits, LastTime;
  }

  /** An amount fits what is left in one of the caller's tables. */
  ghost predicate FitsTable(caps: Caps, rs: State, currency: string, since: int, amount: int) {
    forall i: nat :: Decides(caps, i, currency) ==>
      Used(rs, None, currency, since) + UsedEscalated(rs, None, currency, since) + amount <= caps[i].1
  }

  lemma TableAllows(caps: Caps, rs: State, currency: string, since: int, amount: int)
    ensures var c := NormalizeCurrency(currency);
            Allows(NormalizeCaps(caps, []), rs, None, c, since, amount) <==> FitsTable(caps, rs, c, since, amount)
  {
    var c := NormalizeCurrency(currency);
    CapIs(caps, c);
    NormalTwice(currency);
    hide NormalizeCaps, NormalizeCurrency, Get, Used, UsedEscalated;
    if forall i: nat :: !Decides(caps, i, c) {
      NoneLater(caps, c);
    }
  }

  /** A reservation is made if and only if the amount fits each of the caller's three tables, each
      entry read in its own currency, the last of a currency deciding. */
  lemma ReserveMeans(rs: State, id: string, amount: int, currency: string, key: string, l: Limits, at: int)
    ensures var c := NormalizeCurrency(currency);
            Plan(rs, DoReserve(id, amount, currency, key, l), at).1.Reserved? <==>
            FitsTable(l.daily, rs, c, at - 86_400_000, amount)
              && FitsTable(l.weekly, rs, c, at - 604_800_000, amount) &&
            FitsTable(l.monthly, rs, c, at - 2_592_000_000, amount)
  {
    var c, n := NormalizeCurrency(currency), NormalizeLimits(l);
    TableAllows(l.daily, rs, currency, at - 86_400_000, amount);
    TableAllows(l.weekly, rs, currency, at - 604_800_000, amount);
    TableAllows(l.monthly, rs, currency, at - 2_592_000_000, amount);
    LimitsAllow(rs, amount, c, at, n, None, false);
    hide CheckLimits, NormalizeCaps, NormalizeCurrency, Allows, FitsTable;
  }

  // --- Escalations and recorded spends ---

  /** An escalated reservation whose time has come, to the millisecond. */
  predicate Overdue(r: Reservation, at: int) {
    r.status == Escalated && match r.expiresAt case None => false case Some(until) => at >= until
  }

  /** Resuming gives an escalated reservation back until its time has come; then it is released. */
  lemma ReattachMeans(rs: State, id: string, at: int)
    ensures var r := Get(rs, id);
            var (rows, answer) := Plan(rs, DoReattach(id), at);
            if r.None? || r.value.status != Escalated then rows == [] && answer == Threw(NotEscalated(id))
            else if Overdue(r.value, at) then
              rows == [Row(at, id, Release("resume_expired"))] &&
              answer == Threw(ResumeExpired(id, r.value.expiresAt.value))
            else rows == [] && answer == Reserved(r.value)
  {
  }

  /** A reservation after a sweep. */
  function AfterSweep(r: Reservation, at: int): Reservation {
    if Overdue(r, at) then r.(status := Status.Released, releasedAt := Some(at)) else r
  }

  /** The sweep releases what is overdue and touches nothing else. */
  lemma SweepMeans(log: seq<Row>, at: int)
    ensures var rs, rs' := Replay(log), Replay(LogStep(log, DoReleaseExpired, at, NoFault).0);
            |rs'| == |rs| && forall i :: 0 <= i < |rs| ==> rs'[i] == (rs[i].0, AfterSweep(rs[i].1, at))
  {
    LogRefinesMachine(log, DoReleaseExpired, at);
    hide Replay, LogStep;
    assert MachineStep(Replay(log), DoReleaseExpired, at).0 == ReleaseExpired(Replay(log), at);
  }

  /** A recorded spend under a new id counts in full if it was completed and for nothing if not, and
      keeps the receipt it came with. */
  lemma RecordMeans(log: seq<Row>, id: string, spend: SpendReceipt, at: int)
    ensures var r := Get(Replay(LogStep(log, DoRecordSpend(id, spend), at, NoFault).0), id);
            r.Some? && r.value.id == id && r.value.ts == spend.ts && r.value.settledAt == None &&
            r.value.currency == NormalizeCurrency(spend.currency) &&
            r.value.legacy == Some(spend.(currency := NormalizeCurrency(spend.currency))) &&
            (spend.completed ==> r.value.status == Captured && r.value.amount == spend.amount) &&
            (!spend.completed ==> r.value.status == Status.Released && r.value.amount == 0)
  {
    ReplayKeyed([], log);
    var row := Row(spend.ts, id, LegacySpend(spend.(currency := NormalizeCurrency(spend.currency))));
    ReplayOne(log, row);
    hide Replay, NormalizeCurrency, Get, Put;
    PutGet(Replay(log), id, LegacyState(id, row.body.spend), id);
  }
}
