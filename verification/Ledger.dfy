/** The buyer's spend ledger: an append-only log of rows, replayed into reservations. */
module Ledger {
  import opened Records
  import opened Text

  datatype Window = Daily | Weekly | Monthly
  datatype Status = Pending | Escalated | Released | Captured

  /** Caps per currency, one table a window. */
  type Caps = seq<(string, int)>
  datatype Limits = Limits(daily: Caps, weekly: Caps, monthly: Caps) {
    function Of(w: Window): Caps {
      match w case Daily => daily case Weekly => weekly case Monthly => monthly
    }
  }

  datatype Receipt = Receipt(orderId: string, chargedAmount: int, chargedCurrency: string)
  datatype SpendReceipt = SpendReceipt(ts: int, amount: int, currency: string, completed: bool)

  datatype Reservation = Reservation(
    id: string, amount: int, currency: string, idempotencyKey: string, ts: int, status: Status, limits: Limits,
    expiresAt: Option<int>, releasedAt: Option<int>, settledAt: Option<int>,
    receipt: Option<Receipt>, shadow: Option<Receipt>, legacy: Option<SpendReceipt>)
  {
    predicate Active() {
      status.Pending? || status.Escalated?
    }

    function Timestamp(): int {
      settledAt.GetOr(ts)
    }
  }

  type State = seq<(string, Reservation)>

  datatype Body =
    | Reserve(amount: int, currency: string, idempotencyKey: string, limits: Limits)
    | Adjust(amount: int)
    | MarkEscalated(expiresAt: int)
    | Release(summary: string)
    | Settle(receipt: Receipt, shadow: bool)
    | LegacySpend(spend: SpendReceipt)

  datatype Row = Row(ts: int, id: string, body: Body)

  /** Times are milliseconds. */
  const DAY: nat := 24 * 60 * 60 * 1000

  function Length(w: Window): nat {
    match w case Daily => DAY case Weekly => 7 * DAY case Monthly => 30 * DAY
  }

  function NormalizeCurrency(s: string): string {
    Upper(Trim(s))
  }

  function NormalizeCaps(caps: Caps, out: Caps): Caps
    decreases |caps|
  {
    if caps == [] then out else NormalizeCaps(caps[1..], Put(out, NormalizeCurrency(caps[0].0), caps[0].1))
  }

  function NormalizeLimits(l: Limits): Limits {
    Limits(NormalizeCaps(l.daily, []), NormalizeCaps(l.weekly, []), NormalizeCaps(l.monthly, []))
  }

  // --- Replay ---

  function LegacyState(id: string, s: SpendReceipt): Reservation {
    Reservation(id, if s.completed then s.amount else 0, s.currency, id, s.ts, if s.completed then Captured
      else Released,
                Limits([], [], []), None, None, None, None, None, Some(s))
  }

  /** What a row does to the reservation it names; rows that come too late do nothing. */
  function Updated(r: Reservation, row: Row): Reservation {
    match row.body
    case Adjust(amount) => if r.Active() then r.(amount := amount) else r
    case MarkEscalated(expiresAt) =>
      if r.status.Pending? then r.(status := Escalated, expiresAt := Some(expiresAt)) else r
    case Release(_) => if r.Active() then r.(status := Released, releasedAt := Some(row.ts)) else r
    case Settle(receipt, shadow) =>
      if shadow then r.(shadow := Some(receipt))
      else if r.Active() then
        r.(status := Captured, settledAt := Some(row.ts), receipt := Some(receipt), amount := receipt.chargedAmount,
           currency := NormalizeCurrency(receipt.chargedCurrency))
      else r
    case _ => r
  }

  function Apply(rs: State, row: Row): State {
    match row.body
    case Reserve(amount, currency, key, limits) =>
      Put(rs, row.id, Reservation(row.id, amount, currency, key, row.ts, Pending, limits, None, None, None, None, None,
        None))
    case LegacySpend(spend) => Put(rs, row.id, LegacyState(row.id, spend))
    case _ =>
      var r := Get(rs, row.id);
      if r.None? then rs else Put(rs, row.id, Updated(r.value, row))
  }

  function ReplayFrom(rs: State, log: seq<Row>): State
    decreases |log|
  {
    if log == [] then rs else ReplayFrom(Apply(rs, log[0]), log[1..])
  }

  function Replay(log: seq<Row>): State {
    ReplayFrom([], log)
  }

  // --- Usage and limits ---

  datatype Usage = Usage(pending: int, escalated: int, captured: int)

  predicate Counts(r: Reservation, w: Window, currency: string, at: int) {
    NormalizeCurrency(r.currency) == NormalizeCurrency(currency) && r.Timestamp() >= at - Length(w)
  }

  function AddTo(u: Usage, r: Reservation): Usage {
    match r.status
    case Pending => u.(pending := u.pending + r.amount)
    case Escalated => u.(escalated := u.escalated + r.amount)
    case Captured => u.(captured := u.captured + r.amount)
    case Released => u
  }

  function Accumulate(rs: State, w: Window, currency: string, at: int, exclude: Option<string>, u: Usage): Usage
    decreases |rs|
  {
    if rs == [] then u
    else
      var r := rs[0].1;
      Accumulate(rs[1..], w, currency, at, exclude, if exclude == Some(r.id) || !Counts(r, w, currency, at) then u
        else AddTo(u, r))
  }

  /** The reported pending figure already includes the escalated one. */
  function UsageForWindow(rs: State, w: Window, currency: string, at: int, exclude: Option<string>): Usage {
    var u := Accumulate(rs, w, currency, at, exclude, Usage(0, 0, 0));
    Usage(u.pending + u.escalated, u.escalated, u.captured)
  }

  datatype LedgerError =
    | NotFound(id: string) | NotEscalated(id: string) | ResumeExpired(id: string, expiresAt: int) | InvalidTime | Io
    | AmountExceeded(requested: int, allowed: int, currency: string, reservationReleased: bool)

  function CheckWindow(rs: State, w: Window, amount: int, currency: string, at: int, limits: Limits,
      exclude: Option<string>,
                       releases: bool): Option<LedgerError>
  {
    var cap := Get(limits.Of(w), currency);
    if cap.None? then None
    else
      var u := UsageForWindow(rs, w, currency, at, exclude);
      var current := u.pending + u.escalated + u.captured;
      if current + amount > cap.value
        then Some(AmountExceeded(amount, if cap.value - current < 0 then 0
          else cap.value - current, currency, releases))
      else None
  }

  /** The first window whose cap would be passed. */
  function CheckLimits(rs: State, amount: int, currency: string, at: int, limits: Limits, exclude: Option<string>,
                       releases: bool): Option<LedgerError>
  {
    var d := CheckWindow(rs, Daily, amount, currency, at, limits, exclude, releases);
    var w := CheckWindow(rs, Weekly, amount, currency, at, limits, exclude, releases);
    if d.Some? then d else if w.Some? then w
      else CheckWindow(rs, Monthly, amount, currency, at, limits, exclude, releases)
  }

  // --- Operations: the rows each one appends, and what it answers ---

  datatype Action =
    | DoReserve(id: string, amount: int, currency: string, idempotencyKey: string, limits: Limits)
    | DoAdjust(id: string, total: int)
    | DoMarkEscalated(id: string, expiresAt: Option<int>)
    | DoRelease(id: string, summary: string)
    | DoSettle(id: string, receipt: Receipt)
    | DoWriteShadow(id: string, receipt: Receipt)
    | DoReattach(id: string)
    | DoReleaseExpired
    | DoRecordSpend(id: string, spend: SpendReceipt)

  datatype Answer = Done | Reserved(reservation: Reservation) | Threw(error: LedgerError)

  /** How an append ends: all rows written, or an error after the first `written` of them. */
  datatype Fault = NoFault | Failed(written: nat)

  function Written(rows: seq<Row>, fault: Fault): seq<Row> {
    if fault.NoFault? || fault.written >= |rows| then rows else rows[..fault.written]
  }

  /** Whether the row of a one-row operation reaches the log. */
  predicate RowWritten(fault: Fault) {
    fault.NoFault? || fault.written > 0
  }

  predicate IsActive(rs: State, id: string) {
    var r := Get(rs, id);
    r.Some? && r.value.Active()
  }

  predicate Expired(r: Reservation, at: int) {
    r.status.Escalated? && r.expiresAt.Some? && r.expiresAt.value <= at
  }

  function ExpiryRows(rs: State, at: int): seq<Row> {
    if rs == [] then []
    else
      (if Expired(rs[0].1, at) then [Row(at, rs[0].1.id, Release("resume_expired"))] else [])
      + ExpiryRows(rs[1..], at)
  }

  /** Rows to append and the answer when they are all written. */
  function Plan(rs: State, a: Action, at: int): (seq<Row>, Answer) {
    match a
    case DoReserve(id, amount, currency, key, limits) =>
      var c, l := NormalizeCurrency(currency), NormalizeLimits(limits);
      var refused := CheckLimits(rs, amount, c, at, l, None, false);
      if refused.Some? then ([], Threw(refused.value))
      else ([Row(at, id, Reserve(amount, c, key, l))],
            Reserved(Reservation(id, amount, c, key, at, Pending, l, None, None, None, None, None, None)))
    case DoAdjust(id, total) =>
      if !IsActive(rs, id) then ([], Threw(NotFound(id)))
      else
        var r := Get(rs, id).value;
        if total > r.amount then ([Row(at, id, Release("amount_exceeded"))],
          Threw(AmountExceeded(total, r.amount, r.currency, true)))
        else
          var refused := CheckLimits(rs, total, r.currency, at, r.limits, Some(id), true);
          if refused.Some? then ([Row(at, id, Release("cap_exceeded"))], Threw(refused.value))
          else ([Row(at, id, Adjust(total))], Done)
    case DoMarkEscalated(id, expiresAt) =>
      if !IsActive(rs, id) then ([], Threw(NotFound(id)))
      else if expiresAt.None? then ([], Threw(InvalidTime))
      else ([Row(at, id, MarkEscalated(expiresAt.value))], Done)
    case DoRelease(id, summary) =>
      if !IsActive(rs, id) then ([], Threw(NotFound(id))) else ([Row(at, id, Release(summary))], Done)
    case DoSettle(id, receipt) =>
      if !IsActive(rs, id) then ([], Threw(NotFound(id))) else ([Row(at, id, Settle(receipt, false))], Done)
    case DoWriteShadow(id, receipt) =>
      if !IsActive(rs, id) then ([], Threw(NotFound(id))) else ([Row(at, id, Settle(receipt, true))], Done)
    case DoReattach(id) =>
      var r := Get(rs, id);
      if r.None? || !r.value.status.Escalated? then ([], Threw(NotEscalated(id)))
      else if Expired(r.value, at)
        then ([Row(at, id, Release("resume_expired"))], Threw(ResumeExpired(id, r.value.expiresAt.value)))
      else ([], Reserved(r.value))
    case DoReleaseExpired => (ExpiryRows(rs, at), Done)
    case DoRecordSpend(id, spend) =>
      ([Row(spend.ts, id, LegacySpend(spend.(currency := NormalizeCurrency(spend.currency))))], Done)
  }

  /** One operation on the log, under the ledger's lock. */
  function LogStep(log: seq<Row>, a: Action, at: int, fault: Fault): (seq<Row>, Answer) {
    var (rows, answer) := Plan(Replay(log), a, at);
    if rows == [] then (log, answer)
    else (log + Written(rows, fault), if fault.NoFault? then answer else Threw(Io))
  }

  // --- As it runs ---

  class LedgerState {
    var reservations: State

    constructor ()
      ensures reservations == []
    {
      reservations := [];
    }

    method ApplyEvent(row: Row)
      modifies this
      ensures reservations == Apply(old(reservations), row)
    {
      hide Put, Get;
      match row.body {
        case Reserve(amount, currency, key, limits) =>
          reservations := Put(reservations, row.id,
                              Reservation(row.id, amount, currency, key, row.ts, Pending, limits, None, None, None,
                                None, None, None));
        case LegacySpend(spend) =>
          reservations := Put(reservations, row.id, LegacyState(row.id, spend));
        case _ =>
          var found := Get(reservations, row.id);
          if found.Some? {
            var r := found.value;
            match row.body {
              case Adjust(amount) =>
                if r.Active() {
                  r := r.(amount := amount);
                }
              case MarkEscalated(expiresAt) =>
                if r.status.Pending? {
                  r := r.(status := Escalated, expiresAt := Some(expiresAt));
                }
              case Release(_) =>
                if r.Active() {
                  r := r.(status := Released, releasedAt := Some(row.ts));
                }
              case Settle(receipt, shadow) =>
                if shadow {
                  r := r.(shadow := Some(receipt));
                } else if r.Active() {
                  r := r.(status := Captured, settledAt := Some(row.ts), receipt := Some(receipt),
                    amount := receipt.chargedAmount,
                          currency := NormalizeCurrency(receipt.chargedCurrency));
                }
            }
            reservations := Put(reservations, row.id, r);
          }
      }
    }

    method WindowUsage(w: Window, currency: string, at: int, exclude: Option<string>) returns (u: Usage)
      ensures u == UsageForWindow(reservations, w, currency, at, exclude)
    {
      hide Counts;
      var pending, escalated, captured := 0, 0, 0;
      for i := 0 to |reservations|
        invariant Accumulate(reservations, w, currency, at, exclude, Usage(0, 0, 0))
               == Accumulate(reservations[i..], w, currency, at, exclude, Usage(pending, escalated, captured))
      {
        assert reservations[i..][1..] == reservations[i + 1..];
        var r := reservations[i].1;
        if exclude == Some(r.id) || !Counts(r, w, currency, at) {
          continue;
        }
        if r.status.Pending? {
          pending := pending + r.amount;
        }
        if r.status.Escalated? {
          escalated := escalated + r.amount;
        }
        if r.status.Captured? {
          captured := captured + r.amount;
        }
      }
      u := Usage(pending + escalated, escalated, captured);
    }
  }

  method ReplayEvents(log: seq<Row>) returns (state: LedgerState)
    ensures fresh(state) && state.reservations == Replay(log)
  {
    state := new LedgerState();
    for i := 0 to |log|
      invariant fresh(state) && Replay(log) == ReplayFrom(state.reservations, log[i..])
    {
      hide Apply;
      assert log[i..][1..] == log[i + 1..];
      state.ApplyEvent(log[i]);
    }
  }

  class VaultLedger {
    var log: seq<Row>

    constructor ()
      ensures log == []
    {
      log := [];
    }

    method AppendRows(rows: seq<Row>, fault: Fault) returns (ok: bool)
      modifies this
      ensures log == old(log) + Written(rows, fault) && ok == fault.NoFault?
    {
      var i := 0;
      while i < |rows| && !(fault.Failed? && i >= fault.written)
        invariant i <= |rows| && (fault.Failed? ==> i <= fault.written) && log == old(log) + rows[..i]
      {
        log := log + [rows[i]];
        assert rows[..i + 1] == rows[..i] + [rows[i]];
        i := i + 1;
      }
      assert i == |rows| ==> rows[..i] == rows;
      ok := fault.NoFault?;
    }

    /** Reads the log, decides, appends: the shape every locked operation has. */
    method Run(a: Action, at: int, fault: Fault) returns (answer: Answer)
      modifies this
      ensures (log, answer) == LogStep(old(log), a, at, fault)
    {
      hide Plan, Replay;
      var state := ReplayEvents(log);
      var (rows, planned) := Plan(state.reservations, a, at);
      if rows == [] {
        return planned;
      }
      var ok := AppendRows(rows, fault);
      answer := if ok then planned else Threw(Io);
    }
  }
}
