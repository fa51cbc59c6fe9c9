/** A purchase over the ledger: every way out accounts for the reservation. */
module Wallet {
  import opened Records
  import opened Ledger
  import opened LedgerMachine

  datatype Decision = Allowed | ApprovalRequired | Denied

  /** One announcement of the final total; `swallow` tells whether the merchant carries on
      when the wallet refuses it. */
  datatype TotalsCall = TotalsCall(total: int, currency: string, swallow: bool)

  /** How the merchant's purchase ends once its announcements are made; an expiry that is no time is
      `None`. */
  datatype Ending = Returns(receipt: Receipt) | NeedsApproval(expiresAt: Option<int>)
    | ClaimsReleased(error: LedgerError)
    | Fails

  datatype Merchant = Merchant(totals: seq<TotalsCall>, ending: Ending)

  datatype PurchaseError =
    | WalletNotAllowed | WalletApprovalRequired | ResumableApproval(expiresAt: Option<int>)
      | LedgerThrew(error: LedgerError)
    | MerchantFailed | ReceiptPersistenceFailed(receipt: Receipt, shadowPersisted: bool)

  datatype Exit = Returned(receipt: Receipt) | Raised(error: PurchaseError)

  /** What a purchase starts from: a new reservation or one to resume. */
  datatype Start = New(id: string, amount: int, currency: string, idempotencyKey: string, limits: Limits)
    | Resume(id: string)

  /** The clock and the appends, call by call; settlement and its shadow fail separately. */
  datatype World = World(at: nat -> int, fault: nat -> Fault, settleAt: int, settleFault: Fault, shadowFault: Fault)

  function StartAction(s: Start): Action {
    match s
    case New(id, amount, currency, key, limits) => DoReserve(id, amount, currency, key, limits)
    case Resume(id) => DoReattach(id)
  }

  /** The callback the merchant reports totals to; `None` when it accepts them. */
  function OnTotalsKnown(log: seq<Row>, id: string, currency: string, call: TotalsCall, w: World,
      n: nat): (seq<Row>, Option<LedgerError>)
  {
    if NormalizeCurrency(call.currency) != currency then
      var (log', answer) := LogStep(log, DoRelease(id, "currency_mismatch"), w.at(n), w.fault(n));
      (log', Some(if answer.Threw? then answer.error
        else AmountExceeded(call.total, 0, NormalizeCurrency(call.currency), true)))
    else
      var (log', answer) := LogStep(log, DoAdjust(id, call.total), w.at(n), w.fault(n));
      (log', if answer.Threw? then Some(answer.error) else None)
  }

  /** All announcements in turn; the error that came out of the merchant, if one did. */
  function Announce(log: seq<Row>, id: string, currency: string, totals: seq<TotalsCall>, w: World,
      n: nat): (seq<Row>, Option<LedgerError>)
    decreases |totals|
  {
    if totals == [] then (log, None)
    else
      var (log', error) := OnTotalsKnown(log, id, currency, totals[0], w, n);
      if error.Some? && !totals[0].swallow then (log', error) else Announce(log', id, currency, totals[1..], w, n + 1)
  }

  predicate SaysReleased(e: LedgerError) {
    e.AmountExceeded? && e.reservationReleased
  }

  /** The error path: escalate, leave alone what is said to be released, or release. */
  function Recover(log: seq<Row>, id: string, error: PurchaseError, w: World, n: nat): (seq<Row>, Exit) {
    if error.ResumableApproval? then
      var (log', answer) := LogStep(log, DoMarkEscalated(id, error.expiresAt), w.at(n), w.fault(n));
      (log', Raised(if answer.Threw? then LedgerThrew(answer.error) else error))
    else if error.LedgerThrew? && SaysReleased(error.error) then (log, Raised(error))
    else
      var (log', answer) := LogStep(log, DoRelease(id, "purchase_failed"), w.at(n), w.fault(n));
      (log', Raised(if answer.Threw? then LedgerThrew(answer.error) else error))
  }

  function SettlePurchase(log: seq<Row>, id: string, receipt: Receipt, w: World): (seq<Row>, Exit) {
    var (log', answer) := LogStep(log, DoSettle(id, receipt), w.settleAt, w.settleFault);
    if !answer.Threw? then (log', Returned(receipt))
    else
      var (log'', shadow) := LogStep(log', DoWriteShadow(id, receipt), w.settleAt, w.shadowFault);
      (log'', Raised(ReceiptPersistenceFailed(receipt, !shadow.Threw?)))
  }

  function EndingError(e: Ending): PurchaseError
    requires !e.Returns?
  {
    match e
    case NeedsApproval(expiresAt) => ResumableApproval(expiresAt)
    case ClaimsReleased(error) => LedgerThrew(error)
    case Fails => MerchantFailed
  }

  /** The purchase after its reservation is made. */
  function Complete(log: seq<Row>, id: string, currency: string, m: Merchant, w: World): (seq<Row>, Exit) {
    var (log', error) := Announce(log, id, currency, m.totals, w, 1);
    var n := 1 + |m.totals|;
    if error.Some? then Recover(log', id, LedgerThrew(error.value), w, n)
    else if m.ending.Returns? then SettlePurchase(log', id, m.ending.receipt, w)
    else Recover(log', id, EndingError(m.ending), w, n)
  }

  function Purchase(log: seq<Row>, decision: Decision, approved: bool, s: Start, m: Merchant,
      w: World): (seq<Row>, Exit)
  {
    if decision.Denied? then (log, Raised(WalletNotAllowed))
    else if decision.ApprovalRequired? && !approved && !s.Resume? then (log, Raised(WalletApprovalRequired))
    else
      var (log', answer) := LogStep(log, StartAction(s), w.at(0), w.fault(0));
      match answer
      case Reserved(r) => Complete(log', s.id, r.currency, m, w)
      case Threw(e) => (log', Raised(LedgerThrew(e)))
      case Done => (log', Raised(MerchantFailed))
  }

  // --- As it runs, each ledger call in its place ---

  method OnTotalsKnownRun(ledger: VaultLedger, id: string, currency: string, call: TotalsCall, w: World, n: nat)
    returns (error: Option<LedgerError>)
    modifies ledger
    ensures (ledger.log, error) == OnTotalsKnown(old(ledger.log), id, currency, call, w, n)
  {
    hide LogStep;
    if NormalizeCurrency(call.currency) != currency {
      var released := ledger.Run(DoRelease(id, "currency_mismatch"), w.at(n), w.fault(n));
      return Some(if released.Threw? then released.error
        else AmountExceeded(call.total, 0, NormalizeCurrency(call.currency), true));
    }
    var adjusted := ledger.Run(DoAdjust(id, call.total), w.at(n), w.fault(n));
    error := if adjusted.Threw? then Some(adjusted.error) else None;
  }

  method RecoverRun(ledger: VaultLedger, id: string, error: PurchaseError, w: World, n: nat) returns (exit: Exit)
    modifies ledger
    ensures (ledger.log, exit) == Recover(old(ledger.log), id, error, w, n)
  {
    hide LogStep;
    if error.ResumableApproval? {
      var marked := ledger.Run(DoMarkEscalated(id, error.expiresAt), w.at(n), w.fault(n));
      return Raised(if marked.Threw? then LedgerThrew(marked.error) else error);
    }
    if !(error.LedgerThrew? && SaysReleased(error.error)) {
      var released := ledger.Run(DoRelease(id, "purchase_failed"), w.at(n), w.fault(n));
      return Raised(if released.Threw? then LedgerThrew(released.error) else error);
    }
    exit := Raised(error);
  }

  method SettleRun(ledger: VaultLedger, id: string, receipt: Receipt, w: World) returns (exit: Exit)
    modifies ledger
    ensures (ledger.log, exit) == SettlePurchase(old(ledger.log), id, receipt, w)
  {
    hide LogStep;
    var settled := ledger.Run(DoSettle(id, receipt), w.settleAt, w.settleFault);
    if settled.Threw? {
      var shadow := ledger.Run(DoWriteShadow(id, receipt), w.settleAt, w.shadowFault);
      return Raised(ReceiptPersistenceFailed(receipt, !shadow.Threw?));
    }
    exit := Returned(receipt);
  }

  method PurchaseWithMerchant(ledger: VaultLedger, decision: Decision, approved: bool, s: Start, m: Merchant, w: World)
      returns (exit: Exit)
    modifies ledger
    ensures (ledger.log, exit) == Purchase(old(ledger.log), decision, approved, s, m, w)
  {
    hide LogStep, OnTotalsKnown, Recover, SettlePurchase;
    if decision.Denied? {
      return Raised(WalletNotAllowed);
    }
    if decision.ApprovalRequired? && !approved && !s.Resume? {
      return Raised(WalletApprovalRequired);
    }
    var answer := ledger.Run(StartAction(s), w.at(0), w.fault(0));
    if !answer.Reserved? {
      return Raised(if answer.Threw? then LedgerThrew(answer.error) else MerchantFailed);
    }
    var currency := answer.reservation.currency;
    var n := 1 + |m.totals|;
    ghost var reserved := ledger.log;
    for i := 0 to |m.totals|
      invariant Announce(reserved, s.id, currency, m.totals, w, 1)
        == Announce(ledger.log, s.id, currency, m.totals[i..], w, 1 + i)
    {
      assert m.totals[i..][1..] == m.totals[i + 1..];
      var refused := OnTotalsKnownRun(ledger, s.id, currency, m.totals[i], w, 1 + i);
      if refused.Some? && !m.totals[i].swallow {
        exit := RecoverRun(ledger, s.id, LedgerThrew(refused.value), w, n);
        return;
      }
    }
    if m.ending.Returns? {
      exit := SettleRun(ledger, s.id, m.ending.receipt, w);
    } else {
      exit := RecoverRun(ledger, s.id, EndingError(m.ending), w, n);
    }
  }

  datatype Reconciliation = ReconcileRelease | ReconcileComplete(receipt: Option<Receipt>)
  datatype ReconcileAnswer = Reconciled(answer: Answer) | ReceiptRequired

  /** Releases, or settles with the given receipt or else the shadow one. */
  function Reconcile(log: seq<Row>, id: string, d: Reconciliation, at: int, fault: Fault): (seq<Row>, ReconcileAnswer) {
    match d
    case ReconcileRelease =>
      var (log', answer) := LogStep(log, DoRelease(id, "reconciled_release"), at, fault); (log', Reconciled(answer))
    case ReconcileComplete(receipt) =>
      var r := Get(Replay(log), id);
      var chosen := if receipt.Some? then receipt else if r.Some? then r.value.shadow else None;
      if chosen.None? then (log, ReceiptRequired)
      else
        var (log', answer) := LogStep(log, DoSettle(id, chosen.value), at, fault); (log', Reconciled(answer))
  }

  // --- What each call does to the reservation ---

  /** The reservation a purchase is about, read from the log. */
  function Held(log: seq<Row>, id: string): Option<Reservation> {
    Get(Replay(log), id)
  }

  lemma HeldAfter(log: seq<Row>, row: Row)
    requires row.body.Adjust? || row.body.MarkEscalated? || row.body.Release? || row.body.Settle?
    ensures Held(log + [row], row.id) == match Held(log, row.id) case None => None case Some(r) => Some(Updated(r, row))
  {
    hide Replay, Put, Updated;
    ReplayOne(log, row);
    EmptyKeyed();
    ReplayUnfold(log);
    ReplayKeyed([], log);
    KeyedDistinct(Replay(log));
    if Held(log, row.id).Some? {
      PutGet(Replay(log), row.id, Updated(Held(log, row.id).value, row), row.id);
    }
  }

  /** An operation on one reservation, when its append succeeds or fails. */
  lemma StepHeld(log: seq<Row>, a: Action, at: int, fault: Fault)
    requires a.DoAdjust? || a.DoMarkEscalated? || a.DoRelease? || a.DoSettle? || a.DoWriteShadow?
    ensures var (rows, answer) := Plan(Replay(log), a, at);
            var (log', answer') := LogStep(log, a, at, fault);
            if rows == [] then log' == log && answer' == answer
            else rows == [rows[0]] && rows[0].id == a.id && Held(log, a.id).Some? && Held(log, a.id).value.Active() &&
                 (fault.NoFault? ==> answer' == answer) && (fault.Failed? ==> answer' == Threw(Io)) &&
                 (if RowWritten(fault) then Held(log', a.id) == Some(Updated(Held(log, a.id).value, rows[0]))
                   else log' == log)
  {
    hide Replay, CheckLimits, Updated;
    var rows := Plan(Replay(log), a, at).0;
    if rows != [] {
      HeldAfter(log, rows[0]);
      hide Get;
      assert rows == [rows[0]];
      var written := Written(rows, fault);
      assert written == if RowWritten(fault) then rows else [];
      assert log + [] == log;
    }
  }

  predicate Released(r: Option<Reservation>) {
    r.Some? && r.value.status.Released?
  }

  predicate ActiveHere(r: Option<Reservation>) {
    r.Some? && r.value.Active()
  }

  /** The wallet refuses an announced total: another currency, more than was reserved, or past a cap. */
  predicate Refused(log: seq<Row>, id: string, currency: string, call: TotalsCall, at: int) {
    NormalizeCurrency(call.currency) != currency ||
    (var r := Held(log, id);
     r.Some? && (call.total > r.value.amount ||
                 CheckLimits(Replay(log), call.total, r.value.currency, at, r.value.limits, Some(id), true).Some?))
  }

  /** An announcement releases an active reservation exactly when it is refused and the row is
      written; only then, and without a fault, does the error say so. */
  lemma TotalsEffect(log: seq<Row>, id: string, currency: string, call: TotalsCall, w: World, n: nat)
    requires ActiveHere(Held(log, id)) || Released(Held(log, id))
    ensures var (log', error) := OnTotalsKnown(log, id, currency, call, w, n);
            (if ActiveHere(Held(log, id)) && !(Refused(log, id, currency, call, w.at(n)) && RowWritten(w.fault(n)))
             then ActiveHere(Held(log', id)) && Held(log', id).value.status == Held(log, id).value.status &&
                  Held(log', id).value.expiresAt == Held(log, id).value.expiresAt
             else Released(Held(log', id))) &&
            (error.Some? && SaysReleased(error.value) ==> Released(Held(log', id)))
  {
    hide NormalizeCurrency, LogStep, Held, CheckLimits;
    StepHeld(log, DoRelease(id, "currency_mismatch"), w.at(n), w.fault(n));
    StepHeld(log, DoAdjust(id, call.total), w.at(n), w.fault(n));
    AdjustPlan(log, id, call.total, w.at(n));
    ReleasePlan(log, id, "currency_mismatch", w.at(n));
    hide Plan, Replay;
  }

  lemma ReleasePlan(log: seq<Row>, id: string, summary: string, at: int)
    ensures Plan(Replay(log), DoRelease(id, summary), at)
         == if ActiveHere(Held(log, id)) then ([Row(at, id, Release(summary))], Done) else ([], Threw(NotFound(id)))
  {
    hide Replay;
  }

  lemma AdjustPlan(log: seq<Row>, id: string, total: int, at: int)
    ensures var (rows, answer) := Plan(Replay(log), DoAdjust(id, total), at);
            if !ActiveHere(Held(log, id)) then rows == [] && answer == Threw(NotFound(id))
            else |rows| == 1 && rows[0].id == id &&
                 var r := Held(log, id).value;
                 if total > r.amount || CheckLimits(Replay(log), total, r.currency, at, r.limits, Some(id), true).Some?
                 then rows[0].body.Release? && answer.Threw? && SaysReleased(answer.error)
                 else rows[0].body.Adjust? && answer == Done
  {
    hide Replay, UsageForWindow;
  }

  lemma OtherPlans(log: seq<Row>, id: string, expiresAt: Option<int>, receipt: Receipt, at: int)
    ensures Plan(Replay(log), DoMarkEscalated(id, expiresAt), at)
         == if !ActiveHere(Held(log, id)) then ([], Threw(NotFound(id)))
            else if expiresAt.None? then ([], Threw(InvalidTime))
            else ([Row(at, id, MarkEscalated(expiresAt.value))], Done)
    ensures Plan(Replay(log), DoSettle(id, receipt), at)
         == if ActiveHere(Held(log, id)) then ([Row(at, id, Settle(receipt, false))], Done)
           else ([], Threw(NotFound(id)))
    ensures Plan(Replay(log), DoWriteShadow(id, receipt), at)
         == if ActiveHere(Held(log, id)) then ([Row(at, id, Settle(receipt, true))], Done)
           else ([], Threw(NotFound(id)))
  {
    hide Replay;
  }

  /** Some announcement was refused and its row written, before the merchant was stopped. */
  predicate AnyRefused(log: seq<Row>, id: string, currency: string, totals: seq<TotalsCall>, w: World, n: nat)
    decreases |totals|
  {
    totals != [] &&
    ((Refused(log, id, currency, totals[0], w.at(n)) && RowWritten(w.fault(n))) ||
     (var (log', error) := OnTotalsKnown(log, id, currency, totals[0], w, n);
      (error.None? || totals[0].swallow) && AnyRefused(log', id, currency, totals[1..], w, n + 1)))
  }

  lemma {:induction false} ReleasedStays(log: seq<Row>, id: string, currency: string, totals: seq<TotalsCall>,
      w: World, n: nat)
    requires Released(Held(log, id))
    ensures Released(Held(Announce(log, id, currency, totals, w, n).0, id))
    decreases |totals|
  {
    hide OnTotalsKnown, Held, Refused;
    if totals != [] {
      TotalsEffect(log, id, currency, totals[0], w, n);
      ReleasedStays(OnTotalsKnown(log, id, currency, totals[0], w, n).0, id, currency, totals[1..], w, n + 1);
    }
  }

  /** The announcements release the reservation exactly when one of them was refused and its row
      written; otherwise it stays active, pending or escalated as it was. */
  lemma {:induction false} AnnounceEffect(log: seq<Row>, id: string, currency: string, totals: seq<TotalsCall>,
      w: World, n: nat)
    requires ActiveHere(Held(log, id))
    ensures var (log', error) := Announce(log, id, currency, totals, w, n);
            (if AnyRefused(log, id, currency, totals, w, n) then Released(Held(log', id))
             else ActiveHere(Held(log', id)) && Held(log', id).value.status == Held(log, id).value.status &&
                  Held(log', id).value.expiresAt == Held(log, id).value.expiresAt) &&
            (error.Some? && SaysReleased(error.value) ==> AnyRefused(log, id, currency, totals, w, n))
    decreases |totals|
  {
    hide OnTotalsKnown, Held, Refused;
    if totals != [] {
      TotalsEffect(log, id, currency, totals[0], w, n);
      var (log', error) := OnTotalsKnown(log, id, currency, totals[0], w, n);
      if ActiveHere(Held(log', id)) {
        AnnounceEffect(log', id, currency, totals[1..], w, n + 1);
      } else {
        ReleasedStays(log', id, currency, totals[1..], w, n + 1);
      }
    }
  }

  // --- Exits ---

  /** The reservation is where the exit says it is. */
  ghost predicate Accounted(exit: Exit, r: Reservation) {
    match exit
    case Returned(receipt) => r.status.Captured? && r.receipt == Some(receipt)
    case Raised(ReceiptPersistenceFailed(receipt, persisted)) =>
      (persisted ==> r.Active() && r.shadow == Some(receipt)) && (r.status.Captured? ==> r.receipt == Some(receipt))
    case Raised(ResumableApproval(_)) => r.status.Escalated?
    case _ => r.status.Released?
  }

  /** A normal return means captured with that receipt and a persisted shadow means still active
      with that shadow, however the appends before and during settlement fared. */
  lemma SettlementExits(log: seq<Row>, id: string, receipt: Receipt, w: World)
    requires ActiveHere(Held(log, id)) || Released(Held(log, id))
    ensures var (log', exit) := SettlePurchase(log, id, receipt, w);
            Held(log', id).Some? && Accounted(exit, Held(log', id).value) &&
            (exit == Returned(receipt)
              || (exit.Raised? && exit.error.ReceiptPersistenceFailed? && exit.error.receipt == receipt))
  {
    hide LogStep, Held;
    StepHeld(log, DoSettle(id, receipt), w.settleAt, w.settleFault);
    OtherPlans(log, id, None, receipt, w.settleAt);
    var log' := LogStep(log, DoSettle(id, receipt), w.settleAt, w.settleFault).0;
    StepHeld(log', DoWriteShadow(id, receipt), w.settleAt, w.shadowFault);
    OtherPlans(log', id, None, receipt, w.settleAt);
    hide Plan;
  }

  /** Recovering accounts for the reservation exactly when it is released already, or the error
      neither claims that it is nor names an expiry that is no time, and the append does what it
      has to. */
  lemma RecoverExits(log: seq<Row>, id: string, error: PurchaseError, w: World, n: nat)
    requires (ActiveHere(Held(log, id)) || Released(Held(log, id))) && !error.ReceiptPersistenceFailed?
    ensures var (log', exit) := Recover(log, id, error, w, n);
            Held(log', id).Some? && exit.Raised? && !exit.error.ReceiptPersistenceFailed? &&
            (Accounted(exit, Held(log', id).value) <==>
             Released(Held(log, id)) ||
             if error.ResumableApproval? then error.expiresAt.Some? && w.fault(n).NoFault?
             else !(error.LedgerThrew? && SaysReleased(error.error)) && RowWritten(w.fault(n)))
    ensures var (log', exit) := Recover(log, id, error, w, n);
            !Accounted(exit, Held(log', id).value) ==>
              ActiveHere(Held(log', id)) && (exit == Raised(error) || exit == Raised(LedgerThrew(Io)) ||
                                         exit == Raised(LedgerThrew(InvalidTime)))
    ensures var (log', exit) := Recover(log, id, error, w, n);
            exit.error.ResumableApproval? && ActiveHere(Held(log, id)) ==>
              exit.error.expiresAt.Some? && Held(log', id).value.expiresAt ==
              if Held(log, id).value.status.Pending? then exit.error.expiresAt else Held(log, id).value.expiresAt
  {
    hide LogStep, Held;
    if error.ResumableApproval? {
      StepHeld(log, DoMarkEscalated(id, error.expiresAt), w.at(n), w.fault(n));
      OtherPlans(log, id, error.expiresAt, Receipt("", 0, ""), w.at(n));
    } else {
      StepHeld(log, DoRelease(id, "purchase_failed"), w.at(n), w.fault(n));
      ReleasePlan(log, id, "purchase_failed", w.at(n));
    }
    hide Plan;
  }

  /** The merchant makes up a refusal: it claims that the wallet released the reservation, but no
      announcement was refused. */
  predicate MadeUpRelease(log: seq<Row>, id: string, currency: string, m: Merchant, w: World) {
    Announce(log, id, currency, m.totals, w, 1).1.None? && !AnyRefused(log, id, currency, m.totals, w, 1) &&
    m.ending.ClaimsReleased? && SaysReleased(m.ending.error)
  }

  /** The merchant asks for approval until an expiry that is no time, and nothing was refused. */
  predicate UnreadableExpiry(log: seq<Row>, id: string, currency: string, m: Merchant, w: World) {
    Announce(log, id, currency, m.totals, w, 1).1.None? && !AnyRefused(log, id, currency, m.totals, w, 1) &&
    m.ending == NeedsApproval(None)
  }

  /** The append by which the wallet recovers from an error fails: an escalation at all, a
      release before its row is written. */
  predicate LostRecovery(log: seq<Row>, id: string, currency: string, m: Merchant, w: World) {
    var error := Announce(log, id, currency, m.totals, w, 1).1;
    var fault := w.fault(1 + |m.totals|);
    !AnyRefused(log, id, currency, m.totals, w, 1) && !MadeUpRelease(log, id, currency, m, w) &&
    !UnreadableExpiry(log, id, currency, m, w) &&
    if error.None? && m.ending.Returns? then false
    else if error.None? && m.ending.NeedsApproval? then fault.Failed?
    else !RowWritten(fault)
  }

  /** Every exit accounts for its reservation if and only if the merchant neither makes up a
      release nor names an expiry that is no time, and the recovery is not lost, whatever the
      merchant does and however appends fail. The other exits leave it active: behind the
      merchant's claim, the conversion error, or an append error. */
  lemma ExitsAccount(log: seq<Row>, id: string, currency: string, m: Merchant, w: World)
    requires ActiveHere(Held(log, id))
    ensures var (log', exit) := Complete(log, id, currency, m, w);
            Held(log', id).Some? &&
            (Accounted(exit, Held(log', id).value) <==>
             !MadeUpRelease(log, id, currency, m, w) && !UnreadableExpiry(log, id, currency, m, w) &&
             !LostRecovery(log, id, currency, m, w))
    ensures var (log', exit) := Complete(log, id, currency, m, w);
            (MadeUpRelease(log, id, currency, m, w) ==>
              exit == Raised(LedgerThrew(m.ending.error)) && ActiveHere(Held(log', id))) &&
            (UnreadableExpiry(log, id, currency, m, w) ==>
              exit == Raised(LedgerThrew(InvalidTime)) && ActiveHere(Held(log', id))) &&
            (LostRecovery(log, id, currency, m, w) ==> exit == Raised(LedgerThrew(Io)) && ActiveHere(Held(log', id)))
  {
    hide Announce, AnyRefused, SettlePurchase, Held, Accounted, LogStep;
    AnnounceEffect(log, id, currency, m.totals, w, 1);
    var (log', error) := Announce(log, id, currency, m.totals, w, 1);
    var n := 1 + |m.totals|;
    if error.Some? {
      RecoverExits(log', id, LedgerThrew(error.value), w, n);
      if LostRecovery(log, id, currency, m, w) {
        LostIsIo(log', id, LedgerThrew(error.value), w, n);
      }
    } else if m.ending.Returns? {
      SettlementExits(log', id, m.ending.receipt, w);
    } else {
      RecoverExits(log', id, EndingError(m.ending), w, n);
      if UnreadableExpiry(log, id, currency, m, w) {
        UnreadableThrows(log', id, w, n);
      }
      if LostRecovery(log, id, currency, m, w) {
        LostIsIo(log', id, EndingError(m.ending), w, n);
      }
    }
  }

  lemma UnreadableThrows(log: seq<Row>, id: string, w: World, n: nat)
    requires ActiveHere(Held(log, id))
    ensures Recover(log, id, ResumableApproval(None), w, n) == (log, Raised(LedgerThrew(InvalidTime)))
  {
    hide LogStep, Held;
    StepHeld(log, DoMarkEscalated(id, None), w.at(n), w.fault(n));
    OtherPlans(log, id, None, Receipt("", 0, ""), w.at(n));
  }

  lemma LostIsIo(log: seq<Row>, id: string, error: PurchaseError, w: World, n: nat)
    requires ActiveHere(Held(log, id)) && w.fault(n).Failed? && !(error.LedgerThrew? && SaysReleased(error.error))
    requires error.ResumableApproval? ==> error.expiresAt.Some?
    ensures Recover(log, id, error, w, n).1 == Raised(LedgerThrew(Io))
  {
    hide LogStep, Held;
    if error.ResumableApproval? {
      StepHeld(log, DoMarkEscalated(id, error.expiresAt), w.at(n), w.fault(n));
      OtherPlans(log, id, error.expiresAt, Receipt("", 0, ""), w.at(n));
    } else {
      StepHeld(log, DoRelease(id, "purchase_failed"), w.at(n), w.fault(n));
      ReleasePlan(log, id, "purchase_failed", w.at(n));
    }
    hide Plan;
  }

  /** An approval error promises the expiry the ledger holds if and only if the reservation was
      pending, or escalated until that very time: an escalated one keeps the expiry it had. */
  lemma PromisedExpiry(log: seq<Row>, id: string, currency: string, m: Merchant, w: World)
    requires ActiveHere(Held(log, id))
    ensures var (log', exit) := Complete(log, id, currency, m, w);
            exit.Raised? && exit.error.ResumableApproval? ==>
              exit.error.expiresAt.Some? &&
              (Held(log', id).Some? && Held(log', id).value.expiresAt == exit.error.expiresAt <==>
               Held(log, id).value.status.Pending? || Held(log, id).value.expiresAt == exit.error.expiresAt)
  {
    hide Announce, AnyRefused, SettlePurchase, Held, LogStep;
    AnnounceEffect(log, id, currency, m.totals, w, 1);
    var (log', error) := Announce(log, id, currency, m.totals, w, 1);
    var n := 1 + |m.totals|;
    if error.Some? {
      RecoverExits(log', id, LedgerThrew(error.value), w, n);
    } else if m.ending.Returns? {
      SettlementExits(log', id, m.ending.receipt, w);
    } else {
      RecoverExits(log', id, EndingError(m.ending), w, n);
      if Released(Held(log', id)) {
        ReleasedIsNotApproval(log', id, EndingError(m.ending), w, n);
      }
    }
    hide Accounted;
  }

  lemma ReleasedIsNotApproval(log: seq<Row>, id: string, error: PurchaseError, w: World, n: nat)
    requires Released(Held(log, id))
    ensures var exit := Recover(log, id, error, w, n).1; exit.Raised? && !exit.error.ResumableApproval?
  {
    hide LogStep, Held;
    if error.ResumableApproval? {
      StepHeld(log, DoMarkEscalated(id, error.expiresAt), w.at(n), w.fault(n));
      OtherPlans(log, id, error.expiresAt, Receipt("", 0, ""), w.at(n));
    }
    hide Plan;
  }

  /** A started purchase holds an active reservation under its id. */
  lemma StartHolds(log: seq<Row>, s: Start, at: int, fault: Fault)
    requires s.New? ==> !Has(Replay(log), s.id)
    ensures var (log', answer) := LogStep(log, StartAction(s), at, fault);
            answer.Reserved? ==> ActiveHere(Held(log', s.id)) && Held(log', s.id) == Some(answer.reservation)
  {
    hide Replay, CheckLimits, NormalizeLimits, NormalizeCurrency, IndexOf, Put, Keyed, Distinct;
    var (rows, answer) := Plan(Replay(log), StartAction(s), at);
    EmptyKeyed();
    ReplayUnfold(log);
    ReplayKeyed([], log);
    KeyedDistinct(Replay(log));
    if s.New? && rows != [] {
      assert rows == [rows[0]];
      ReplayOne(log, rows[0]);
      PutGet(Replay(log), s.id, answer.reservation, s.id);
      assert fault.NoFault? ==> Written(rows, fault) == rows;
    }
  }

  /** A new reservation whose row is written by an append that fails afterwards. */
  predicate StartStrands(log: seq<Row>, s: Start, at: int, fault: Fault) {
    s.New? && fault.Failed? && RowWritten(fault) &&
    CheckLimits(Replay(log), s.amount, NormalizeCurrency(s.currency), at, NormalizeLimits(s.limits), None, false).None?
  }

  predicate LeftByStart(log: seq<Row>, s: Start, at: int, fault: Fault, log': seq<Row>, error: LedgerError) {
    if s.New? then if StartStrands(log, s, at, fault) then ActiveHere(Held(log', s.id)) && error == Io
      else Held(log', s.id).None?
    else if Held(log, s.id).Some? && Expired(Held(log, s.id).value, at)
      && RowWritten(fault) then Released(Held(log', s.id))
    else log' == log
  }

  /** Where a start that throws leaves the reservation: a new one exists exactly when its row was
      written, one to resume is untouched unless it had expired, and then released exactly when
      that row was written. */
  lemma StartThrows(log: seq<Row>, s: Start, at: int, fault: Fault)
    requires s.New? ==> !Has(Replay(log), s.id)
    ensures var (log', answer) := LogStep(log, StartAction(s), at, fault);
            !answer.Reserved? ==> answer.Threw? && LeftByStart(log, s, at, fault, log', answer.error)
  {
    hide Replay, CheckLimits, NormalizeLimits, NormalizeCurrency, IndexOf, Put, Keyed, Distinct;
    var (rows, answer) := Plan(Replay(log), StartAction(s), at);
    EmptyKeyed();
    ReplayUnfold(log);
    ReplayKeyed([], log);
    KeyedDistinct(Replay(log));
    if rows != [] {
      assert rows == [rows[0]];
      assert Written(rows, fault) == if RowWritten(fault) then rows else [];
      assert log + [] == log;
      ReplayOne(log, rows[0]);
      if s.New? {
        PutGet(Replay(log), s.id, NewReservation(rows[0]), s.id);
      } else {
        HeldAfter(log, rows[0]);
      }
    }
  }

  function NewReservation(row: Row): Reservation
    requires row.body.Reserve?
  {
    Reservation(row.id, row.body.amount, row.body.currency, row.body.idempotencyKey, row.ts, Pending, row.body.limits,
                None, None, None, None, None, None)
  }

  /** The whole purchase, entry checks included: a refused entry touches nothing, a start that
      throws leaves what it left, and from then on every exit but the three accounts for the
      reservation. */
  lemma PurchaseAccounts(log: seq<Row>, decision: Decision, approved: bool, s: Start, m: Merchant, w: World)
    requires s.New? ==> !Has(Replay(log), s.id)
    ensures var (log', exit) := Purchase(log, decision, approved, s, m, w);
            var (started, answer) := LogStep(log, StartAction(s), w.at(0), w.fault(0));
            if decision.Denied? || (decision.ApprovalRequired? && !approved && s.New?) then log' == log && exit.Raised?
            else if !answer.Reserved? then
              log' == started && answer.Threw? && exit == Raised(LedgerThrew(answer.error)) &&
              LeftByStart(log, s, w.at(0), w.fault(0), log', answer.error)
            else
              var currency := answer.reservation.currency;
              Held(log', s.id).Some? &&
              (Accounted(exit, Held(log', s.id).value) <==>
               !MadeUpRelease(started, s.id, currency, m, w) && !UnreadableExpiry(started, s.id, currency, m, w) &&
               !LostRecovery(started, s.id, currency, m, w))
  {
    hide Complete, LogStep, Held, Accounted, MadeUpRelease, UnreadableExpiry, LostRecovery, LeftByStart, Replay;
    StartHolds(log, s, w.at(0), w.fault(0));
    StartThrows(log, s, w.at(0), w.fault(0));
    var (started, answer) := LogStep(log, StartAction(s), w.at(0), w.fault(0));
    if answer.Reserved? {
      ExitsAccount(started, s.id, answer.reservation.currency, m, w);
    }
  }

  /** A new purchase without caps whose first append fails once its row is written throws, and
      leaves an active reservation that nobody was told about. */
  lemma StrandedStart(log: seq<Row>, id: string, amount: int, currency: string, key: string, m: Merchant, w: World,
      written: nat)
    requires !Has(Replay(log), id) && w.fault(0) == Failed(written) && written > 0
    ensures var s := New(id, amount, currency, key, Limits([], [], []));
            var (log', exit) := Purchase(log, Allowed, false, s, m, w);
            exit == Raised(LedgerThrew(Io)) && ActiveHere(Held(log', id))
  {
    var s := New(id, amount, currency, key, Limits([], [], []));
    StartThrows(log, s, w.at(0), w.fault(0));
    NoCaps(log, amount, currency, w.at(0));
    hide Held, Replay, CheckLimits, NormalizeCurrency, NormalizeLimits, Complete;
  }

  lemma NoCaps(log: seq<Row>, amount: int, currency: string, at: int)
    ensures CheckLimits(Replay(log), amount, NormalizeCurrency(currency), at, NormalizeLimits(Limits([], [], [])),
      None, false).None?
  {
    hide Replay, UsageForWindow, NormalizeCurrency;
  }

  /** A merchant that fails, and a release that cannot be written, leave the reservation active
      behind the append error. */
  lemma StrandedRelease(log: seq<Row>, id: string, currency: string, w: World)
    requires ActiveHere(Held(log, id)) && w.fault(1) == Failed(0)
    ensures var (log', exit) := Complete(log, id, currency, Merchant([], Fails), w);
            exit == Raised(LedgerThrew(Io)) && ActiveHere(Held(log', id))
  {
    hide Held, LogStep, Complete;
    ExitsAccount(log, id, currency, Merchant([], Fails), w);
  }

  /** An approval error whose expiry is no time: the wallet fails to escalate, appends nothing, and
      leaves the reservation active behind an error about the time. */
  lemma UnreadableExpiryStrands(log: seq<Row>, id: string, currency: string, w: World)
    requires ActiveHere(Held(log, id))
    ensures var (log', exit) := Complete(log, id, currency, Merchant([], NeedsApproval(None)), w);
            log' == log && exit == Raised(LedgerThrew(InvalidTime)) && ActiveHere(Held(log', id))
  {
    hide Held, LogStep, Recover;
    UnreadableThrows(log, id, w, 1);
  }

  /** After a persisted shadow, reconciling as complete captures exactly the shadow receipt. */
  lemma ReconcileCapturesShadow(log: seq<Row>, id: string, receipt: Receipt, at: int)
    requires Held(log, id).Some? && Accounted(Raised(ReceiptPersistenceFailed(receipt, true)), Held(log, id).value)
    ensures var (log', answer) := Reconcile(log, id, ReconcileComplete(None), at, NoFault);
            answer == Reconciled(Done) && Held(log', id).Some? && Accounted(Returned(receipt), Held(log', id).value)
  {
    hide LogStep, Replay;
    StepHeld(log, DoSettle(id, receipt), at, NoFault);
    OtherPlans(log, id, None, receipt, at);
    hide Plan, Get;
  }

  /** What a refused total is told: nothing is allowed in another currency, what was reserved at most,
      or what is left of a cap. */
  function RefusedWith(log: seq<Row>, r: Reservation, currency: string, call: TotalsCall, at: int): LedgerError {
    var capped := CheckLimits(Replay(log), call.total, r.currency, at, r.limits, Some(r.id), true);
    if NormalizeCurrency(call.currency) != currency
    then AmountExceeded(call.total, 0, NormalizeCurrency(call.currency), true)
    else if call.total > r.amount || capped.None? then AmountExceeded(call.total, r.amount, r.currency, true)
    else capped.value
  }

  lemma HeldId(log: seq<Row>, id: string)
    requires Held(log, id).Some?
    ensures Held(log, id).value.id == id
  {
    EmptyKeyed();
    ReplayUnfold(log);
    ReplayKeyed([], log);
    GetKeyed(Replay(log), id);
  }

  /** What one announcement does: when it is accepted the total becomes the reserved amount, when it
      is refused the reservation is released, provided that the row is written; a failed append
      throws. */
  lemma TotalsMeans(log: seq<Row>, id: string, currency: string, call: TotalsCall, w: World, n: nat)
    requires ActiveHere(Held(log, id))
    ensures var r := Held(log, id).value;
            var (log', error) := OnTotalsKnown(log, id, currency, call, w, n);
            var refused := Refused(log, id, currency, call, w.at(n));
            Held(log', id) == Some(if !RowWritten(w.fault(n)) then r
                                   else if refused then r.(status := Status.Released, releasedAt := Some(w.at(n)))
                                   else r.(amount := call.total)) &&
            if w.fault(n).Failed? then error == Some(Io)
            else (error.Some? <==> refused) &&
                 (refused ==> error == Some(RefusedWith(log, r, currency, call, w.at(n))))
  {
    StepHeld(log, DoRelease(id, "currency_mismatch"), w.at(n), w.fault(n));
    StepHeld(log, DoAdjust(id, call.total), w.at(n), w.fault(n));
    AdjustAsks(log, id, call.total, w.at(n));
    ReleasePlan(log, id, "currency_mismatch", w.at(n));
    HeldId(log, id);
    hide LogStep, Held, Plan, CheckLimits, NormalizeCurrency;
  }

  lemma AdjustAsks(log: seq<Row>, id: string, total: int, at: int)
    requires ActiveHere(Held(log, id))
    ensures var (rows, answer) := Plan(Replay(log), DoAdjust(id, total), at);
            var r := Held(log, id).value;
            if total > r.amount || CheckLimits(Replay(log), total, r.currency, at, r.limits, Some(id), true).Some?
            then rows == [Row(at, id, rows[0].body)] && rows[0].body.Release? &&
                 answer == Threw(if total > r.amount then AmountExceeded(total, r.amount, r.currency, true)
                                 else CheckLimits(Replay(log), total, r.currency, at, r.limits, Some(id), true).value)
            else rows == [Row(at, id, Adjust(total))] && answer == Done
  {
    hide Replay, UsageForWindow, NormalizeCurrency;
  }

  function CapturedWith(r: Reservation, receipt: Receipt, at: int): Reservation {
    r.(status := Captured, settledAt := Some(at), receipt := Some(receipt), amount := receipt.chargedAmount,
       currency := NormalizeCurrency(receipt.chargedCurrency))
  }

  /** Where settlement leaves an active reservation: captured once its row is written, with the shadow
      receipt when instead that row is, and returned exactly when the first append did not fail. */
  function AfterSettlement(r: Reservation, receipt: Receipt, w: World): Reservation {
    if RowWritten(w.settleFault) then CapturedWith(r, receipt, w.settleAt)
    else if RowWritten(w.shadowFault) then r.(shadow := Some(receipt))
    else r
  }

  lemma SettlementMeans(log: seq<Row>, id: string, receipt: Receipt, w: World)
    requires ActiveHere(Held(log, id))
    ensures var (log', exit) := SettlePurchase(log, id, receipt, w);
            var kept := !RowWritten(w.settleFault) && w.shadowFault.NoFault?;
            Held(log', id) == Some(AfterSettlement(Held(log, id).value, receipt, w)) &&
            exit == if w.settleFault.NoFault? then Returned(receipt)
              else Raised(ReceiptPersistenceFailed(receipt, kept))
  {
    hide LogStep, Held, Replay;
    StepHeld(log, DoSettle(id, receipt), w.settleAt, w.settleFault);
    OtherPlans(log, id, None, receipt, w.settleAt);
    var log' := LogStep(log, DoSettle(id, receipt), w.settleAt, w.settleFault).0;
    StepHeld(log', DoWriteShadow(id, receipt), w.settleAt, w.shadowFault);
    OtherPlans(log', id, None, receipt, w.settleAt);
    hide Plan;
  }

  /** Where recovering leaves an active reservation: escalated until the promised expiry, alone behind an
      error that says it is released, and released behind any other. */
  function AfterRecovery(r: Reservation, error: PurchaseError, at: int): Reservation {
    if error.ResumableApproval? then
      if r.status.Pending? && error.expiresAt.Some? then r.(status := Escalated, expiresAt := error.expiresAt) else r
    else if error.LedgerThrew? && SaysReleased(error.error) then r
    else r.(status := Status.Released, releasedAt := Some(at))
  }

  /** The error is raised as it came, unless the row that the recovery writes cannot be had. */
  lemma RecoverMeans(log: seq<Row>, id: string, error: PurchaseError, w: World, n: nat)
    requires ActiveHere(Held(log, id))
    ensures var (log', exit) := Recover(log, id, error, w, n);
            var r := Held(log, id).value;
            Held(log', id) == Some(if RowWritten(w.fault(n)) then AfterRecovery(r, error, w.at(n)) else r) &&
            exit == Raised(if error.LedgerThrew? && SaysReleased(error.error) then error
                           else if error == ResumableApproval(None) then LedgerThrew(InvalidTime)
                           else if w.fault(n).Failed? then LedgerThrew(Io)
                           else error)
  {
    hide LogStep, Held, Replay;
    if error.ResumableApproval? {
      StepHeld(log, DoMarkEscalated(id, error.expiresAt), w.at(n), w.fault(n));
      OtherPlans(log, id, error.expiresAt, Receipt("", 0, ""), w.at(n));
    } else {
      StepHeld(log, DoRelease(id, "purchase_failed"), w.at(n), w.fault(n));
      ReleasePlan(log, id, "purchase_failed", w.at(n));
    }
    hide Plan;
  }

  /** Reconciling: a release releases, completing captures with the given receipt or else the shadow
      one, without either it asks for one, and only an active reservation is touched. */
  lemma ReconcileMeans(log: seq<Row>, id: string, d: Reconciliation, at: int)
    ensures var (log', answer) := Reconcile(log, id, d, at, NoFault);
            var held := Held(log, id);
            match d
            case ReconcileRelease =>
              if ActiveHere(held) then
                answer == Reconciled(Done) &&
                Held(log', id) == Some(held.value.(status := Status.Released, releasedAt := Some(at)))
              else answer == Reconciled(Threw(NotFound(id))) && log' == log
            case ReconcileComplete(receipt) =>
              if receipt.None? && (held.None? || held.value.shadow.None?) then answer == ReceiptRequired && log' == log
              else
                var chosen := if receipt.Some? then receipt.value else held.value.shadow.value;
                if ActiveHere(held) then
                  answer == Reconciled(Done) && Held(log', id) == Some(CapturedWith(held.value, chosen, at))
                else answer == Reconciled(Threw(NotFound(id))) && log' == log
  {
    hide Replay, Get, Put, LogStep;
    var none := Receipt("", 0, "");
    ReleasePlan(log, id, "reconciled_release", at);
    StepHeld(log, DoRelease(id, "reconciled_release"), at, NoFault);
    if d.ReconcileComplete? {
      var chosen := if d.receipt.Some? then d.receipt.value
                    else if Held(log, id).Some? then Held(log, id).value.shadow.GetOr(none) else none;
      OtherPlans(log, id, None, chosen, at);
      StepHeld(log, DoSettle(id, chosen), at, NoFault);
    }
    hide Plan;
  }

  /** The family left out is real: on an active reservation such a merchant leaves it active
      with an error that says it was released. */
  lemma MadeUpReleaseStrands(log: seq<Row>, id: string, currency: string, w: World)
    requires ActiveHere(Held(log, id))
    ensures var claim := AmountExceeded(1, 0, currency, true);
            var (log', exit) := Complete(log, id, currency, Merchant([], ClaimsReleased(claim)), w);
            log' == log && exit == Raised(LedgerThrew(claim)) && Held(log', id).value.Active()
  {
    hide Held, LogStep;
  }
}
