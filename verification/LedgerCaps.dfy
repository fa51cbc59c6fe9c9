/** Spend caps over whole runs: whatever operations run and however their appends fail, true
    usage stays within every window's cap. */
module LedgerCaps {
  import opened Records
  import opened Text
  import opened Ledger
  import opened LedgerMachine

  // --- Arithmetic of usage ---

  ghost predicate NonNegative(rs: State) {
    forall i :: 0 <= i < |rs| ==> rs[i].1.amount >= 0
  }

  lemma {:induction false} UsageConcat(a: State, b: State, w: Window, currency: string, at: int)
    ensures TrueUsage(a + b, w, currency, at) == TrueUsage(a, w, currency, at) + TrueUsage(b, w, currency, at)
  {
    hide Counted;
    if a == [] {
      assert a + b == b;
    } else {
      assert (a + b)[1..] == a[1..] + b;
      UsageConcat(a[1..], b, w, currency, at);
    }
  }

  lemma UsageOne(r: (string, Reservation), w: Window, currency: string, at: int)
    ensures TrueUsage([r], w, currency, at) == Counted(r.1, w, currency, at)
  {
    assert [r][1..] == [];
  }

  /** Writing one reservation changes usage by that reservation only. */
  lemma UsagePut(rs: State, id: string, r: Reservation, w: Window, currency: string, at: int)
    ensures TrueUsage(Put(rs, id, r), w, currency, at) == TrueUsage(rs, w, currency, at) + Counted(r, w, currency, at)
              - if Get(rs, id).Some? then Counted(Get(rs, id).value, w, currency, at) else 0
  {
    hide Counted, TrueUsage, IndexOf;
    var i := IndexOf(rs, id);
    UsageOne((id, r), w, currency, at);
    if i < 0 {
      UsageConcat(rs, [(id, r)], w, currency, at);
    } else {
      UsageOne(rs[i], w, currency, at);
      assert rs == rs[..i] + ([rs[i]] + rs[i + 1..]);
      assert rs[i := (id, r)] == rs[..i] + ([(id, r)] + rs[i + 1..]);
      UsageConcat(rs[..i], [rs[i]] + rs[i + 1..], w, currency, at);
      UsageConcat([rs[i]], rs[i + 1..], w, currency, at);
      UsageConcat(rs[..i], [(id, r)] + rs[i + 1..], w, currency, at);
      UsageConcat([(id, r)], rs[i + 1..], w, currency, at);
    }
  }

  /** As time passes amounts only leave the window. */
  lemma {:induction false} UsageAges(rs: State, w: Window, currency: string, at: int, later: int)
    requires NonNegative(rs) && at <= later
    ensures TrueUsage(rs, w, currency, later) <= TrueUsage(rs, w, currency, at)
  {
    if rs != [] {
      assert rs[0].1.amount >= 0;
      UsageAges(rs[1..], w, currency, at, later);
    }
  }

  lemma {:induction false} EscalatedNonNegative(rs: State, w: Window, currency: string, at: int)
    requires NonNegative(rs)
    ensures EscalatedUsage(rs, w, currency, at) >= 0
  {
    if rs != [] {
      assert rs[0].1.amount >= 0;
      EscalatedNonNegative(rs[1..], w, currency, at);
    }
  }

  /** A window lets an amount through exactly when true usage plus escalated usage plus the
      amount fits: sufficient for the cap, and stricter than it by the escalated part. */
  lemma WindowAllows(rs: State, w: Window, amount: int, currency: string, at: int, limits: Limits, releases: bool)
    ensures var cap := Get(limits.Of(w), currency);
            CheckWindow(rs, w, amount, currency, at, limits, None, releases).None? <==>
            cap.None? || TrueUsage(rs, w, currency, at) + EscalatedUsage(rs, w, currency, at) + amount <= cap.value
  {
    hide UsageForWindow, TrueUsage, EscalatedUsage;
    EachReservationOnce(rs, w, currency, at);
  }

  // --- The invariant ---

  predicate Normal(currency: string) {
    NormalizeCurrency(currency) == currency
  }

  /** The most a window may hold: its cap, or nothing when the cap is negative. */
  function Bound(cap: int): int {
    if cap < 0 then 0 else cap
  }

  ghost predicate WithinCaps(rs: State, l: Limits, at: int) {
    forall w, c :: Normal(c) && Get(l.Of(w), c).Some? ==> TrueUsage(rs, w, c, at) <= Bound(Get(l.Of(w), c).value)
  }

  ghost predicate Sound(rs: State) {
    Keyed(rs) && NonNegative(rs) && forall i :: 0 <= i < |rs| ==> Normal(rs[i].1.currency)
  }

  lemma GetSound(rs: State, id: string)
    requires Sound(rs) && Get(rs, id).Some?
    ensures var r := Get(rs, id).value; r.id == id && r.amount >= 0 && Normal(r.currency)
  {
  }

  lemma PutSound(rs: State, id: string, r: Reservation)
    requires Sound(rs) && r.id == id && r.amount >= 0 && Normal(r.currency)
    ensures Sound(Put(rs, id, r))
  {
    PutKeyed(rs, id, r);
  }

  /** The usage of a window in one currency without the reservation `id`. */
  function UsageWithout(rs: State, id: string, w: Window, currency: string, at: int): int {
    TrueUsage(rs, w, currency, at) - if Get(rs, id).Some? then Counted(Get(rs, id).value, w, currency, at) else 0
  }

  /** Room for what a reservation would count, in every window capped in its currency. */
  ghost predicate Room(rs: State, id: string, r: Reservation, l: Limits, at: int) {
    forall w: Window :: Get(l.Of(w), r.currency).Some? ==>
      UsageWithout(rs, id, w, r.currency, at) + Counted(r, w, r.currency, at) <= Bound(Get(l.Of(w), r.currency).value)
  }

  /** The check that settling does not make: in every window capped in the charged currency the
      charge, put in the place of the reservation, still fits. */
  ghost predicate ChargeFits(rs: State, id: string, receipt: Receipt, l: Limits, at: int) {
    var c := NormalizeCurrency(receipt.chargedCurrency);
    forall w: Window :: Get(l.Of(w), c).Some? ==>
      UsageWithout(rs, id, w, c, at) + receipt.chargedAmount <= Bound(Get(l.Of(w), c).value)
  }

  /** And the one that recording a spend does not make. */
  ghost predicate SpendFits(rs: State, spend: SpendReceipt, l: Limits, at: int) {
    var c := NormalizeCurrency(spend.currency);
    forall w: Window :: Get(l.Of(w), c).Some? && spend.completed && spend.ts >= at - Length(w) ==>
      TrueUsage(rs, w, c, at) + spend.amount <= Bound(Get(l.Of(w), c).value)
  }

  /** Rows the operations can write, but for whether charges and recorded spends fit. */
  ghost predicate RowGuarded(rs: State, row: Row, l: Limits, at: int) {
    match row.body
    case Reserve(amount, currency, _, limits) =>
      row.ts == at && limits == l && amount >= 0 && Normal(currency) && !Has(rs, row.id) &&
      CheckLimits(rs, amount, currency, at, l, None, false).None?
    case Adjust(amount) => IsActive(rs, row.id) ==> 0 <= amount <= Get(rs, row.id).value.amount
    case Settle(receipt, _) => row.ts == at && receipt.chargedAmount >= 0
    case LegacySpend(spend) => spend.amount >= 0 && Normal(spend.currency) && !Has(rs, row.id)
    case _ => true
  }

  ghost predicate RowFits(rs: State, row: Row, l: Limits, at: int) {
    match row.body
    case Settle(receipt, shadow) => !shadow && IsActive(rs, row.id) ==> ChargeFits(rs, row.id, receipt, l, at)
    case LegacySpend(spend) => SpendFits(rs, spend, l, at)
    case _ => true
  }

  // --- One row ---

  lemma CountedElsewhere(r: Reservation, w: Window, c: string, at: int)
    requires Normal(r.currency) && Normal(c) && c != r.currency
    ensures Counted(r, w, c, at) == 0
  {
    hide NormalizeCurrency;
  }

  lemma CountedNonNegative(r: Reservation, w: Window, c: string, at: int)
    requires r.amount >= 0
    ensures 0 <= Counted(r, w, c, at)
  {
  }

  /** Writing a reservation keeps the caps exactly when there is room for it. */
  lemma PutKeepsExactly(rs: State, id: string, r: Reservation, l: Limits, at: int)
    requires Sound(rs) && WithinCaps(rs, l, at) && Normal(r.currency)
    ensures WithinCaps(Put(rs, id, r), l, at) <==> Room(rs, id, r, l, at)
  {
    hide TrueUsage, Counted, Put, Get, Normal, Sound;
    forall w, c | Normal(c) && Get(l.Of(w), c).Some?
      ensures TrueUsage(Put(rs, id, r), w, c, at) == UsageWithout(rs, id, w, c, at) + Counted(r, w, c, at)
      ensures c != r.currency ==> TrueUsage(Put(rs, id, r), w, c, at) <= TrueUsage(rs, w, c, at)
    {
      UsagePut(rs, id, r, w, c, at);
      if c != r.currency {
        CountedElsewhere(r, w, c, at);
      }
      if Get(rs, id).Some? {
        GetSound(rs, id);
        CountedNonNegative(Get(rs, id).value, w, c, at);
      }
    }
  }

  /** Replacing a reservation by one that counts no more keeps the caps. */
  lemma ReplaceKeeps(rs: State, id: string, r: Reservation, l: Limits, at: int)
    requires Get(rs, id).Some? && WithinCaps(rs, l, at)
    requires forall w, c :: Normal(c) && Get(l.Of(w), c).Some? ==>
      Counted(r, w, c, at) <= Counted(Get(rs, id).value, w, c, at)
    ensures WithinCaps(Put(rs, id, r), l, at)
  {
    hide TrueUsage, Counted, Put, Get, Normal;
    forall w, c | Normal(c) && Get(l.Of(w), c).Some?
      ensures TrueUsage(Put(rs, id, r), w, c, at) <= Bound(Get(l.Of(w), c).value)
    {
      UsagePut(rs, id, r, w, c, at);
    }
  }

  lemma CapsAge(rs: State, l: Limits, at: int, later: int)
    requires NonNegative(rs) && WithinCaps(rs, l, at) && at <= later
    ensures WithinCaps(rs, l, later)
  {
    hide TrueUsage, Get, Normal;
    forall w, c | Normal(c) && Get(l.Of(w), c).Some?
      ensures TrueUsage(rs, w, c, later) <= Bound(Get(l.Of(w), c).value)
    {
      UsageAges(rs, w, c, at, later);
    }
  }

  lemma ReserveKeeps(rs: State, row: Row, l: Limits)
    requires Sound(rs) && WithinCaps(rs, l, row.ts) && row.body.Reserve? && RowGuarded(rs, row, l, row.ts)
    ensures Sound(Apply(rs, row)) && WithinCaps(Apply(rs, row), l, row.ts)
  {
    hide TrueUsage, Counted, Put, Get, Normal, CheckWindow, Sound, IndexOf;
    var Reserve(amount, currency, key, limits) := row.body;
    var r := Reservation(row.id, amount, currency, key, row.ts, Pending, limits, None, None, None, None, None, None);
    PutSound(rs, row.id, r);
    forall w: Window | Get(l.Of(w), currency).Some?
      ensures UsageWithout(rs, row.id, w, currency, row.ts)
        + Counted(r, w, currency, row.ts) <= Bound(Get(l.Of(w), currency).value)
    {
      WindowAllows(rs, w, amount, currency, row.ts, l, false);
      CountedNew(r, w, currency);
      NoneGet(rs, row.id);
      assert NonNegative(rs) by { SoundParts(rs); }
      EscalatedNonNegative(rs, w, currency, row.ts);
    }
    PutKeepsExactly(rs, row.id, r, l, row.ts);
  }

  lemma NoneGet(rs: State, id: string)
    requires !Has(rs, id)
    ensures Get(rs, id).None?
  {
  }

  lemma SoundParts(rs: State)
    requires Sound(rs)
    ensures NonNegative(rs) && Keyed(rs)
  {
  }

  /** A new reservation counts in its own currency and in no other. */
  lemma CountedNew(r: Reservation, w: Window, c: string)
    requires Normal(r.currency) && Normal(c) && r.status.Pending? && r.settledAt.None?
    ensures Counted(r, w, c, r.ts) == if c == r.currency then r.amount else 0
  {
    hide NormalizeCurrency;
  }

  /** Every row but a charge lets its reservation count no more than it did. */
  lemma UpdateCountsLess(r: Reservation, row: Row, w: Window, c: string, at: int)
    requires r.amount >= 0 && (row.body.Settle? ==> row.body.shadow || !r.Active())
    requires row.body.Adjust? && r.Active() ==> 0 <= row.body.amount <= r.amount
    ensures Counted(Updated(r, row), w, c, at) <= Counted(r, w, c, at)
  {
    hide NormalizeCurrency;
  }

  lemma NormalTwice(s: string)
    ensures Normal(NormalizeCurrency(s))
  {
    var t := Trim(s);
    var u := Upper(t);
    assert Upper(u) == u;
    assert Trimmed(u) by {
      if t != "" {
        UpperKeepsSpace(t[0]);
        UpperKeepsSpace(t[|t| - 1]);
      }
    }
  }

  lemma UpperKeepsSpace(c: char)
    ensures IsSpace(UpperChar(c)) <==> IsSpace(c)
  {
  }

  /** Settling an active reservation, at any time, for any amount and in any currency, keeps the
      caps if and only if the charge fits. */
  lemma SettleKeepsExactly(rs: State, id: string, receipt: Receipt, l: Limits, at: int)
    requires Sound(rs) && WithinCaps(rs, l, at) && IsActive(rs, id) && receipt.chargedAmount >= 0
    ensures var rs' := Apply(rs, Row(at, id, Settle(receipt, false)));
            Sound(rs') && (WithinCaps(rs', l, at) <==> ChargeFits(rs, id, receipt, l, at))
  {
    hide TrueUsage, Put, Get, Sound, WithinCaps, NormalizeCurrency, Counts;
    var r := Updated(Get(rs, id).value, Row(at, id, Settle(receipt, false)));
    GetSound(rs, id);
    NormalTwice(receipt.chargedCurrency);
    PutSound(rs, id, r);
    PutKeepsExactly(rs, id, r, l, at);
    forall w: Window
      ensures Counted(r, w, r.currency, at) == receipt.chargedAmount
    {
      SettledCounts(r, w, at);
    }
  }

  lemma SettledCounts(r: Reservation, w: Window, at: int)
    requires r.settledAt == Some(at) && r.status.Captured?
    ensures Counted(r, w, r.currency, at) == r.amount
  {
    hide NormalizeCurrency;
  }

  /** Recording a spend keeps the caps if and only if it fits. */
  lemma SpendKeepsExactly(rs: State, id: string, spend: SpendReceipt, ts: int, l: Limits, at: int)
    requires Sound(rs) && WithinCaps(rs, l, at) && !Has(rs, id) && spend.amount >= 0 && Normal(spend.currency)
    ensures var rs' := Apply(rs, Row(ts, id, LegacySpend(spend)));
            Sound(rs') && (WithinCaps(rs', l, at) <==> SpendFits(rs, spend, l, at))
  {
    NoneGet(rs, id);
    var r := LegacyState(id, spend);
    forall w: Window
      ensures Counted(r, w, r.currency, at) == if spend.completed && spend.ts >= at - Length(w) then spend.amount else 0
    {
    }
    hide TrueUsage, Put, Get, Sound, WithinCaps, Counted, LegacyState, Has, Bound, Length;
    PutSound(rs, id, r);
    PutKeepsExactly(rs, id, r, l, at);
    RoomForSpend(rs, id, r, spend, l, at);
  }

  lemma RoomForSpend(rs: State, id: string, r: Reservation, spend: SpendReceipt, l: Limits, at: int)
    requires Get(rs, id).None? && r.currency == spend.currency && Normal(spend.currency) && WithinCaps(rs, l, at)
    requires forall w: Window ::
      Counted(r, w, r.currency, at) == if spend.completed && spend.ts >= at - Length(w) then spend.amount else 0
    ensures Room(rs, id, r, l, at) <==> SpendFits(rs, spend, l, at)
  {
    hide TrueUsage, Get, Counted, Bound, Length, NormalizeCurrency;
    assert forall w: Window :: UsageWithout(rs, id, w, r.currency, at) == TrueUsage(rs, w, r.currency, at);
  }

  /** Every guarded row keeps the reservations sound, and the caps if and only if it fits. */
  lemma RowKeepsExactly(rs: State, row: Row, l: Limits, now: int, at: int)
    requires Sound(rs) && WithinCaps(rs, l, now) && now <= at && RowGuarded(rs, row, l, at)
    ensures Sound(Apply(rs, row)) && (WithinCaps(Apply(rs, row), l, at) <==> RowFits(rs, row, l, at))
  {
    hide Counted, Put, Get, Normal, Sound, CheckLimits, WithinCaps, NormalizeCurrency, ChargeFits, SpendFits, Has;
    SoundParts(rs);
    CapsAge(rs, l, now, at);
    if row.body.Reserve? {
      ReserveKeeps(rs, row, l);
    } else if row.body.LegacySpend? {
      SpendKeepsExactly(rs, row.id, row.body.spend, row.ts, l, at);
    } else if row.body.Settle? && !row.body.shadow && IsActive(rs, row.id) {
      SettleKeepsExactly(rs, row.id, row.body.receipt, l, at);
    } else if Get(rs, row.id).Some? {
      LesserRowKeeps(rs, row, l, at);
    }
  }

  lemma LesserRowKeeps(rs: State, row: Row, l: Limits, at: int)
    requires Sound(rs) && WithinCaps(rs, l, at) && RowGuarded(rs, row, l, at) && Get(rs, row.id).Some?
    requires !row.body.Reserve? && !row.body.LegacySpend?
      && (row.body.Settle? ==> row.body.shadow || !IsActive(rs, row.id))
    ensures Sound(Apply(rs, row)) && WithinCaps(Apply(rs, row), l, at)
  {
    hide Counted, Put, Get, Normal, Sound, CheckLimits, WithinCaps, NormalizeCurrency;
    var r := Get(rs, row.id).value;
    GetSound(rs, row.id);
    PutSound(rs, row.id, Updated(r, row));
    forall w, c | Normal(c) && Get(l.Of(w), c).Some?
      ensures Counted(Updated(r, row), w, c, at) <= Counted(r, w, c, at)
    {
      UpdateCountsLess(r, row, w, c, at);
    }
    ReplaceKeeps(rs, row.id, Updated(r, row), l, at);
  }

  // --- Runs ---

  datatype Op = Op(action: Action, at: int, fault: Fault)

  /** What a caller has to respect: one limit table, new ids, amounts that are not negative. */
  ghost predicate Guarded(rs: State, op: Op, l: Limits) {
    match op.action
    case DoReserve(id, amount, _, _, limits) => NormalizeLimits(limits) == l && amount >= 0 && !Has(rs, id)
    case DoAdjust(_, total) => total >= 0
    case DoSettle(_, receipt) => receipt.chargedAmount >= 0
    case DoWriteShadow(_, receipt) => receipt.chargedAmount >= 0
    case DoRecordSpend(id, spend) => spend.amount >= 0 && !Has(rs, id)
    case _ => true
  }

  /** A charge or recorded spend that reaches the log fits; nothing is asked of anything else. */
  ghost predicate Fits(rs: State, op: Op, l: Limits) {
    match op.action
    case DoSettle(id, receipt) => IsActive(rs, id) && RowWritten(op.fault) ==> ChargeFits(rs, id, receipt, l, op.at)
    case DoRecordSpend(_, spend) => RowWritten(op.fault) ==> SpendFits(rs, spend, l, op.at)
    case _ => true
  }

  function RunLog(log: seq<Row>, ops: seq<Op>): seq<Row>
    decreases |ops|
  {
    if ops == [] then log else RunLog(LogStep(log, ops[0].action, ops[0].at, ops[0].fault).0, ops[1..])
  }

  ghost predicate GuardedRun(log: seq<Row>, ops: seq<Op>, l: Limits, now: int)
    decreases |ops|
  {
    ops == [] ||
    (now <= ops[0].at && Guarded(Replay(log), ops[0], l) &&
     GuardedRun(LogStep(log, ops[0].action, ops[0].at, ops[0].fault).0, ops[1..], l, ops[0].at))
  }

  /** Every charge and recorded spend of the run fits when it is made. */
  ghost predicate AllFit(log: seq<Row>, ops: seq<Op>, l: Limits)
    decreases |ops|
  {
    ops == [] || (Fits(Replay(log), ops[0], l)
      && AllFit(LogStep(log, ops[0].action, ops[0].at, ops[0].fault).0, ops[1..], l))
  }

  /** The caps are respected after every operation of the run. */
  ghost predicate CapsAlong(log: seq<Row>, ops: seq<Op>, l: Limits)
    decreases |ops|
  {
    ops == [] ||
    (var log' := LogStep(log, ops[0].action, ops[0].at, ops[0].fault).0;
     WithinCaps(Replay(log'), l, ops[0].at) && CapsAlong(log', ops[1..], l))
  }

  function LastTime(ops: seq<Op>, now: int): int {
    if ops == [] then now else LastTime(ops[1..], ops[0].at)
  }

  ghost predicate IsRelease(row: Row, at: int) {
    row.body.Release? && row.ts == at
  }

  lemma {:induction false} ReleasesKeep(rs: State, rows: seq<Row>, l: Limits, at: int)
    requires Sound(rs) && WithinCaps(rs, l, at) && forall i :: 0 <= i < |rows| ==> IsRelease(rows[i], at)
    ensures Sound(ReplayFrom(rs, rows)) && WithinCaps(ReplayFrom(rs, rows), l, at)
    decreases |rows|
  {
    hide Apply, Sound, WithinCaps;
    if rows != [] {
      assert IsRelease(rows[0], at);
      RowKeepsExactly(rs, rows[0], l, at, at);
      ReleasesKeep(Apply(rs, rows[0]), rows[1..], l, at);
    }
  }

  lemma {:induction false} ExpiryRowsRelease(rs: State, at: int)
    ensures forall i :: 0 <= i < |ExpiryRows(rs, at)| ==> IsRelease(ExpiryRows(rs, at)[i], at)
  {
    if rs != [] {
      ExpiryRowsRelease(rs[1..], at);
    }
  }

  lemma PlannedRow(rs: State, op: Op, l: Limits)
    requires Guarded(rs, op, l) && !op.action.DoReleaseExpired?
    ensures var rows := Plan(rs, op.action, op.at).0;
            |rows| <= 1 && forall i :: 0 <= i < |rows| ==> RowGuarded(rs, rows[i], l, op.at)
  {
    hide CheckLimits, Get, NormalizeLimits, NormalizeCurrency, Normal, Has;
    if op.action.DoReserve? {
      NormalTwice(op.action.currency);
    } else if op.action.DoRecordSpend? {
      NormalTwice(op.action.spend.currency);
    }
  }

  /** The planned row fits when the operation does; an operation without a row always does. */
  lemma PlannedFits(rs: State, op: Op, l: Limits)
    requires Guarded(rs, op, l) && !op.action.DoReleaseExpired?
    ensures var rows := Plan(rs, op.action, op.at).0;
            if rows == [] || !RowWritten(op.fault) then Fits(rs, op, l)
              else Fits(rs, op, l) == RowFits(rs, rows[0], l, op.at)
  {
    hide CheckLimits, Get, NormalizeLimits, NormalizeCurrency, ChargeFits, Has;
    if op.action.DoRecordSpend? {
      NormalTwice(op.action.spend.currency);
      SameSpend(rs, op.action.spend, l, op.at);
    }
  }

  lemma SameSpend(rs: State, spend: SpendReceipt, l: Limits, at: int)
    requires Normal(NormalizeCurrency(spend.currency))
    ensures SpendFits(rs, spend.(currency := NormalizeCurrency(spend.currency)), l, at) <==> SpendFits(rs, spend, l, at)
  {
    hide TrueUsage, Get, NormalizeCurrency;
  }

  lemma SweepKeeps(log: seq<Row>, op: Op, l: Limits)
    requires Sound(Replay(log)) && WithinCaps(Replay(log), l, op.at) && op.action.DoReleaseExpired?
    ensures var log' := LogStep(log, op.action, op.at, op.fault).0;
            Sound(Replay(log')) && WithinCaps(Replay(log'), l, op.at)
  {
    var rs := Replay(log);
    PlanExpired(rs, op.at);
    hide Sound, WithinCaps, Plan, ReplayFrom, ExpiryRows;
    var rows := ExpiryRows(rs, op.at);
    ReplayFromConcat([], log, Written(rows, op.fault));
    ExpiryRowsRelease(rs, op.at);
    ReleasesKeep(rs, Written(rows, op.fault), l, op.at);
  }

  /** A guarded operation, its append failing or not, keeps the caps if and only if it fits. */
  lemma StepKeepsExactly(log: seq<Row>, op: Op, l: Limits, now: int)
    requires Sound(Replay(log)) && WithinCaps(Replay(log), l, now) && now <= op.at && Guarded(Replay(log), op, l)
    ensures var log' := LogStep(log, op.action, op.at, op.fault).0;
            Sound(Replay(log')) && (WithinCaps(Replay(log'), l, op.at) <==> Fits(Replay(log), op, l))
  {
    hide Sound, WithinCaps, Plan, Guarded, RowGuarded, RowFits, ReplayFrom;
    var rs := Replay(log);
    var rows := Plan(rs, op.action, op.at).0;
    SoundParts(rs);
    CapsAge(rs, l, now, op.at);
    if op.action.DoReleaseExpired? {
      SweepKeeps(log, op, l);
    } else {
      hide Fits;
      PlannedRow(rs, op, l);
      PlannedFits(rs, op, l);
      var written := Written(rows, op.fault);
      ReplayFromConcat([], log, written);
      if written == [] {
        NoRows(rs);
        assert log + written == log;
      } else {
        assert written == [rows[0]];
        ReplaySingle(rs, rows[0]);
        RowKeepsExactly(rs, rows[0], l, now, op.at);
      }
    }
  }

  lemma PlanExpired(rs: State, at: int)
    ensures Plan(rs, DoReleaseExpired, at).0 == ExpiryRows(rs, at)
  {
  }

  lemma NoRows(rs: State)
    ensures ReplayFrom(rs, []) == rs
  {
  }

  lemma {:induction false} RunKeepsExactly(log: seq<Row>, ops: seq<Op>, l: Limits, now: int)
    requires Sound(Replay(log)) && WithinCaps(Replay(log), l, now) && GuardedRun(log, ops, l, now)
    ensures CapsAlong(log, ops, l) <==> AllFit(log, ops, l)
    ensures AllFit(log, ops, l) ==>
      Sound(Replay(RunLog(log, ops))) && WithinCaps(Replay(RunLog(log, ops)), l, LastTime(ops, now))
    decreases |ops|
  {
    hide Sound, WithinCaps, LogStep, Guarded, Fits, Replay;
    if ops != [] {
      StepKeepsExactly(log, ops[0], l, now);
      var log' := LogStep(log, ops[0].action, ops[0].at, ops[0].fault).0;
      if WithinCaps(Replay(log'), l, ops[0].at) {
        RunKeepsExactly(log', ops[1..], l, ops[0].at);
      }
    }
  }

  /** Over a whole run from an empty ledger, the caps are respected after every operation if and
      only if every charge and every recorded spend fits when it is made. */
  lemma CapsExactly(ops: seq<Op>, l: Limits, start: int)
    requires GuardedRun([], ops, l, start)
    ensures CapsAlong([], ops, l) <==> AllFit([], ops, l)
  {
    hide Sound, GuardedRun, CapsAlong, AllFit, RunLog;
    assert Replay([]) == [] && Sound([]) by { EmptySound(); }
    assert WithinCaps([], l, start) by { EmptyWithin(l, start); }
    RunKeepsExactly([], ops, l, start);
  }

  /** Then the caps hold at any later time too: what is pending, escalated and captured in a
      window is within its cap. */
  lemma CapsHold(ops: seq<Op>, l: Limits, start: int, w: Window, currency: string, at: int)
    requires GuardedRun([], ops, l, start) && AllFit([], ops, l) && LastTime(ops, start) <= at
    requires Normal(currency) && Get(l.Of(w), currency).Some?
    ensures TrueUsage(Replay(RunLog([], ops)), w, currency, at) <= Bound(Get(l.Of(w), currency).value)
  {
    hide Sound, TrueUsage, RunLog, GuardedRun, AllFit, LastTime, Normal, Get;
    assert Replay([]) == [] && Sound([]) by { EmptySound(); }
    assert WithinCaps([], l, start) by { EmptyWithin(l, start); }
    RunKeepsExactly([], ops, l, start);
    SoundParts(Replay(RunLog([], ops)));
    UsageAges(Replay(RunLog([], ops)), w, currency, LastTime(ops, start), at);
  }

  /** A charge within the reserved amount, in its currency and before the reservation has aged
      out of a window capped in it, always fits. */
  lemma TimelyFits(rs: State, id: string, receipt: Receipt, l: Limits, at: int)
    requires WithinCaps(rs, l, at) && Sound(rs) && IsActive(rs, id)
    requires var r := Get(rs, id).value;
             receipt.chargedAmount <= r.amount && NormalizeCurrency(receipt.chargedCurrency) == r.currency &&
             forall w: Window :: Get(l.Of(w), r.currency).Some? ==> r.Timestamp() >= at - Length(w)
    ensures ChargeFits(rs, id, receipt, l, at)
  {
    hide TrueUsage, Get, NormalizeCurrency, Sound;
    GetSound(rs, id);
    hide Normal;
  }

  lemma EmptySound()
    ensures Replay([]) == [] && Sound([])
  {
  }

  lemma EmptyWithin(l: Limits, at: int)
    ensures WithinCaps([], l, at)
  {
    hide Normal, Get;
  }

  // --- A settlement that does not fit ---

  lemma UsdNormal()
    ensures Normal("USD") && NormalizeLimits(Limits([("USD", 100)], [], [])) == Limits([("USD", 100)], [], [])
  {
    assert Trimmed("USD") && Trim("USD") == "USD";
    assert Upper("USD") == "USD";
    var caps: Caps := [("USD", 100)];
    assert caps[1..] == [];
    assert Put([], "USD", 100) == caps;
    assert NormalizeCaps(caps, []) == NormalizeCaps(caps[1..], caps);
  }

  lemma UsageTwo(a: (string, Reservation), b: (string, Reservation), w: Window, currency: string, at: int)
    ensures TrueUsage([a, b], w, currency, at) == Counted(a.1, w, currency, at) + Counted(b.1, w, currency, at)
    ensures TrueUsage([a], w, currency, at) == Counted(a.1, w, currency, at)
    ensures EscalatedUsage([a], w, currency, at) == if a.1.status.Escalated? then Counted(a.1, w, currency, at) else 0
  {
    hide Counted;
    assert [a, b] == [a] + [b];
    UsageConcat([a], [b], w, currency, at);
    UsageOne(a, w, currency, at);
    UsageOne(b, w, currency, at);
    assert [a][1..] == [];
  }

  /** A reservation settled after it has aged out counts again, on top of what was reserved
      in its place: two accepted reservations of 100 against a daily cap of 100 end at 200. */
  lemma LateSettlementPassesCap()
    ensures var l := Limits([("USD", 100)], [], []);
            var late := DAY + 1;
            var s1 := MachineStep([], DoReserve("a", 100, "USD", "k", l), 0);
            var s2 := MachineStep(s1.0, DoReserve("b", 100, "USD", "k", l), late);
            var s3 := MachineStep(s2.0, DoSettle("a", Receipt("o", 100, "USD")), late);
            s1.1.Reserved? && s2.1.Reserved? && s3.1 == Done && TrueUsage(s3.0, Daily, "USD", late) == 200
  {
    hide NormalizeCurrency, NormalizeLimits, TrueUsage, EscalatedUsage, UsageForWindow;
    UsdNormal();
    var l := Limits([("USD", 100)], [], []);
    var late := DAY + 1;
    var ra := Reservation("a", 100, "USD", "k", 0, Pending, l, None, None, None, None, None, None);
    var rb := ra.(id := "b", ts := late);
    var settled := ra.(status := Captured, settledAt := Some(late), receipt := Some(Receipt("o", 100, "USD")));
    var none: State := [];
    assert TrueUsage(none, Daily, "USD", 0) == 0 && EscalatedUsage(none, Daily, "USD", 0) == 0 by { NothingUsed(0); }
    OnlyDaily(l);
    WindowAllows(none, Daily, 100, "USD", 0, l, false);
    assert CheckLimits(none, 100, "USD", 0, l, None, false).None?;
    assert Put(none, "a", ra) == [("a", ra)];
    assert MachineStep([], DoReserve("a", 100, "USD", "k", l), 0) == ([("a", ra)], Reserved(ra));
    UsageTwo(("a", ra), ("b", rb), Daily, "USD", late);
    assert Counted(ra, Daily, "USD", late) == 0;
    WindowAllows([("a", ra)], Daily, 100, "USD", late, l, false);
    assert CheckLimits([("a", ra)], 100, "USD", late, l, None, false).None?;
    assert IndexOf([("a", ra)], "b") < 0 && Put([("a", ra)], "b", rb) == [("a", ra), ("b", rb)];
    assert MachineStep([("a", ra)], DoReserve("b", 100, "USD", "k", l), late) == ([("a", ra), ("b", rb)], Reserved(rb));
    assert MachineStep([("a", ra), ("b", rb)], DoSettle("a", Receipt("o", 100, "USD")), late).0
      == [("a", settled), ("b", rb)];
    UsageTwo(("a", settled), ("b", rb), Daily, "USD", late);
  }

  lemma NothingUsed(at: int)
    ensures TrueUsage([], Daily, "USD", at) == 0 && EscalatedUsage([], Daily, "USD", at) == 0
  {
  }

  lemma OnlyDaily(l: Limits)
    requires l == Limits([("USD", 100)], [], [])
    ensures Get(l.daily, "USD") == Some(100) && Get(l.weekly, "USD") == None && Get(l.monthly, "USD") == None
  {
  }
}
