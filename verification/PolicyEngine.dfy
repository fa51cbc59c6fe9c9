/** Approvals and credentials over the snapshot store. Handlers run one at a time; what the
    evaluator, the rail, the approval channel and the limit check answer are parameters. */
module PolicyEngine {
  import opened Records
  import opened Snapshots

  datatype PromptState = PendingApproval | Approved | Denied | Expired | Cancelled | Stale

  /** `held` is the reservation the prompt was created with, `reservation` what it still holds. */
  datatype Prompt = Prompt(
    intentId: string, hash: string, nonce: string, expiresAt: int, held: string,
    state: PromptState, reservation: Option<string>, retained: bool, credential: Option<string>)

  /** `prompt` names the approval a credential was minted for. */
  datatype Credential = Credential(hash: string, released: bool, prompt: Option<string>)

  datatype ReservationStatus = Reserved | Committed | Freed

  datatype Intent = ForPrompt(promptId: string) | Allowed(credential: string) | Refused

  datatype Envelope = Deny(reason: string) | Allow(credential: string) | PendingEnvelope(promptId: string)

  datatype Engine = Engine(
    store: Store, prompts: seq<(string, Prompt)>, credentials: seq<(string, Credential)>,
    reservations: map<string, ReservationStatus>, intents: map<string, Intent>, idempotency: map<string, Envelope>)

  datatype ApprovalOutcome =
    | NoChannel | NoBudget | ApprovalLimited(limit: string) | PromptFails(reservation: string)
    | Prompted(promptId: string, nonce: string, expiresAt: int, reservation: string)
  datatype AllowOutcome = AllowLimited(limit: string) | MintFails(reservation: string)
    | Minted(credential: string, reservation: string)
  datatype Evaluation = DenyRule(reason: string) | RailMismatch | RequireApproval(approval: ApprovalOutcome)
    | AllowRule(allow: AllowOutcome)

  datatype Reason = UnknownPrompt | NonceMismatch | ReplayedNonce | CancelledPrompt | ExpiredPrompt | SnapshotStale

  datatype ApprovalStatus = ReportedPending | ReportedApproved | ReportedDenied | ReportedExpired

  datatype Reply =
    | Decided(envelope: Envelope) | Rejected(reason: Reason) | Resolved(state: PromptState, credential: Option<string>)
    | Status(status: ApprovalStatus, promptId: Option<string>, credential: Option<string>) | Ok | Threw

  // --- Releasing ---

  /** Frees a reservation that is still pending; anything else is left as it is. */
  function FreeReservation(rs: map<string, ReservationStatus>, id: string): map<string, ReservationStatus> {
    if id in rs && rs[id].Reserved? then rs[id := Freed] else rs
  }

  function ReleaseReservation(e: Engine, p: Prompt): (Engine, Prompt) {
    if p.reservation.None? then (e, p)
    else (e.(reservations := FreeReservation(e.reservations, p.reservation.value)), p.(reservation := None))
  }

  /** Drops the prompt's reference and collects; the store refuses when nothing is retained. */
  function ReleaseSnapshot(e: Engine, p: Prompt): (Engine, Prompt) {
    if !p.retained then (e, p)
    else match Release(e.store, p.hash)
      case None => (e, p)
      case Some(store) => (e.(store := Gc(store)), p.(retained := false))
  }

  function Close(e: Engine, id: string, p: Prompt, state: PromptState): Engine {
    var (e1, p1) := ReleaseReservation(e, p.(state := state));
    var (e2, p2) := ReleaseSnapshot(e1, p1);
    e2.(prompts := Put(e2.prompts, id, p2))
  }

  predicate IsExpired(p: Prompt, now: int) {
    p.expiresAt <= now
  }

  function ExpirePrompt(e: Engine, id: string, p: Prompt): Engine {
    if p.state.PendingApproval? then Close(e, id, p, Expired) else e
  }

  // --- Handlers ---

  function Reload(e: Engine, hash: string): Engine {
    e.(store := Gc(Add(e.store, hash)))
  }

  function Remember(e: Engine, key: string, envelope: Envelope): (Engine, Reply) {
    (e.(idempotency := e.idempotency[key := envelope]), Decided(envelope))
  }

  /** Reserve, retain, then undo both: what a failing prompt or mint leaves. */
  function Undone(e: Engine, reservation: string, hash: string): Engine {
    match Retain(e.store, hash)
    case None => e.(reservations := e.reservations[reservation := Reserved])
    case Some(kept) =>
      e.(reservations := e.reservations[reservation := Freed], store := Gc(Release(kept, hash).GetOr(kept)))
  }

  function Propose(e: Engine, key: string, intentId: string, evaluation: Evaluation): (Engine, Reply) {
    if key in e.idempotency then (e, Decided(e.idempotency[key]))
    else if e.store.current.None? then (e, Threw)
    else
      var hash := e.store.current.value;
      match evaluation
      case DenyRule(reason) => Remember(e.(intents := e.intents[intentId := Refused]), key, Deny(reason))
      case RailMismatch => Remember(e, key, Deny("rail_env_mismatch"))
      case RequireApproval(NoChannel) => Remember(e, key, Deny("approval_channel_missing"))
      case RequireApproval(NoBudget) => Remember(e, key, Deny("approval_budget_exhausted"))
      case RequireApproval(ApprovalLimited(limit)) => Remember(e, key, Deny(limit))
      case RequireApproval(PromptFails(reservation)) => (Undone(e, reservation, hash), Threw)
      case RequireApproval(Prompted(promptId, nonce, expiresAt, reservation)) =>
        (match Retain(e.store, hash)
         case None => (Undone(e, reservation, hash), Threw)
         case Some(store) =>
           var p := Prompt(intentId, hash, nonce, expiresAt, reservation, PendingApproval, Some(reservation), true,
             None);
           Remember(e.(store := store, reservations := e.reservations[reservation := Reserved],
             prompts := Put(e.prompts, promptId, p),
                       intents := e.intents[intentId := ForPrompt(promptId)]), key, PendingEnvelope(promptId)))
      case AllowRule(AllowLimited(limit)) => Remember(e, key, Deny(limit))
      case AllowRule(MintFails(reservation)) => (Undone(e, reservation, hash), Threw)
      case AllowRule(Minted(credential, reservation)) =>
        (match Retain(e.store, hash)
         case None => (Undone(e, reservation, hash), Threw)
         case Some(store) =>
           Remember(e.(store := store, reservations := e.reservations[reservation := Committed],
                       credentials := Put(e.credentials, credential, Credential(hash, false, None)),
                       intents := e.intents[intentId := Allowed(credential)]), key, Allow(credential)))
  }

  /** Minting for an approved prompt: the rail fails, or the credential is recorded and the
      reservation committed. A commit that is refused throws after the credential is recorded. */
  function Mint(e: Engine, id: string, p: Prompt, minted: Option<string>): (Engine, Reply) {
    if minted.None? then (e, Threw)
    else
      var e1 := e.(credentials := Put(e.credentials, minted.value, Credential(p.hash, false, Some(id))));
      if p.reservation.None? || p.reservation.value !in e.reservations
        || !e.reservations[p.reservation.value].Reserved? then (e1, Threw)
      else
        (e1.(reservations := e.reservations[p.reservation.value := Committed],
             prompts := Put(e.prompts, id, p.(state := Approved, credential := minted))), Resolved(Approved, minted))
  }

  function Callback(e: Engine, id: string, nonce: string, approve: bool, givenHash: Option<string>, now: int,
                    minted: Option<string>): (Engine, Reply)
  {
    var found := Get(e.prompts, id);
    if found.None? then (e, Rejected(UnknownPrompt))
    else
      var p := found.value;
      if p.nonce != nonce then (e, Rejected(NonceMismatch))
      else if p.state.Approved? || p.state.Denied? then (e, Rejected(ReplayedNonce))
      else if p.state.Cancelled? then (e, Rejected(CancelledPrompt))
      else if IsExpired(p, now) then (ExpirePrompt(e, id, p), Rejected(ExpiredPrompt))
      else if Some(p.hash) != e.store.current || (givenHash.Some? && givenHash != e.store.current)
        then (Close(e, id, p, Stale), Rejected(SnapshotStale))
      else if !approve then (Close(e, id, p, Denied), Resolved(Denied, None))
      else Mint(e, id, p, minted)
  }

  function Cancel(e: Engine, intentId: string): (Engine, Reply) {
    if intentId !in e.intents then (e, Threw)
    else match e.intents[intentId]
      case ForPrompt(id) =>
        var p := Get(e.prompts, id);
        (if p.Some? && p.value.state.PendingApproval? then Close(e, id, p.value, Cancelled) else e, Ok)
      case _ => (e, Ok)
  }

  function Reported(state: PromptState): ApprovalStatus {
    match state
    case Approved => ReportedApproved
    case Expired => ReportedExpired
    case PendingApproval => ReportedPending
    case _ => ReportedDenied
  }

  function StatusOf(id: string, p: Prompt): Reply {
    Status(Reported(p.state), Some(id), p.credential)
  }

  function GetStatus(e: Engine, intentId: string, now: int): (Engine, Reply) {
    if intentId !in e.intents then (e, Threw)
    else match e.intents[intentId]
      case Refused => (e, Status(ReportedDenied, None, None))
      case Allowed(credential) => (e, Status(ReportedApproved, None, Some(credential)))
      case ForPrompt(id) =>
        var p := Get(e.prompts, id);
        if p.None? then (e, Threw)
        else
          var e' := if p.value.state.PendingApproval? && IsExpired(p.value, now) then ExpirePrompt(e, id, p.value)
            else e;
          (e', StatusOf(id, Get(e'.prompts, id).GetOr(p.value)))
  }

  /** Revocation and settlement both end a credential's hold on its snapshot. */
  function ReleaseCredential(e: Engine, id: string): (Engine, Reply) {
    var c := Get(e.credentials, id);
    if c.None? then (e, Threw)
    else if c.value.released then (e, Ok)
    else match Release(e.store, c.value.hash)
      case None => (e, Threw)
      case Some(store) => (e.(store := Gc(store), credentials := Put(e.credentials, id, c.value.(released := true))),
        Ok)
  }

  datatype Event =
    | DoReload(hash: string)
    | DoPropose(key: string, intentId: string, evaluation: Evaluation)
    | DoCallback(id: string, nonce: string, approve: bool, givenHash: Option<string>, minted: Option<string>)
    | DoCancel(intentId: string)
    | DoStatus(intentId: string)
    | DoReleaseCredential(id: string)

  function Step(e: Engine, ev: Event, now: int): (Engine, Reply) {
    match ev
    case DoReload(hash) => (Reload(e, hash), Ok)
    case DoPropose(key, intentId, evaluation) => Propose(e, key, intentId, evaluation)
    case DoCallback(id, nonce, approve, givenHash, minted) => Callback(e, id, nonce, approve, givenHash, now, minted)
    case DoCancel(intentId) => Cancel(e, intentId)
    case DoStatus(intentId) => GetStatus(e, intentId, now)
    case DoReleaseCredential(id) => ReleaseCredential(e, id)
  }

  // --- As it runs ---

  class Approvals {
    const snapshots: PolicySnapshotStore
    var prompts: seq<(string, Prompt)>
    var credentials: seq<(string, Credential)>
    var reservations: map<string, ReservationStatus>
    var intents: map<string, Intent>
    var idempotency: map<string, Envelope>

    constructor ()
      ensures fresh(snapshots) && snapshots.Valid()
        && Value() == Engine(Store(map[], None), [], [], map[], map[], map[])
    {
      snapshots := new PolicySnapshotStore();
      prompts, credentials, reservations, intents, idempotency := [], [], map[], map[], map[];
    }

    ghost function Value(): Engine
      reads this, snapshots
    {
      Engine(snapshots.Value(), prompts, credentials, reservations, intents, idempotency)
    }

    method ReloadPolicy(hash: string, yaml: string)
      requires snapshots.Valid()
      modifies snapshots
      ensures snapshots.Valid() && Value() == Reload(old(Value()), hash)
    {
      snapshots.AddPolicy(hash, yaml);
      var _ := snapshots.Collect();
    }

    /** Releases the prompt's reservation and snapshot and stores it in its final state. */
    method ClosePrompt(id: string, record: Prompt, state: PromptState)
      requires snapshots.Valid()
      modifies this, snapshots
      ensures snapshots.Valid() && Value() == Close(old(Value()), id, record, state)
    {
      var p := record.(state := state);
      if p.reservation.Some? {
        var held := p.reservation.value;
        if held in reservations && reservations[held].Reserved? {
          reservations := reservations[held := Freed];
        }
        p := p.(reservation := None);
      }
      if p.retained {
        var ok := snapshots.ReleaseHash(p.hash);
        if ok {
          p := p.(retained := false);
          var _ := snapshots.Collect();
        }
      }
      prompts := Put(prompts, id, p);
    }

    method HandleApprovalCallback(id: string, nonce: string, approve: bool, givenHash: Option<string>, now: int,
        minted: Option<string>)
      returns (reply: Reply)
      requires snapshots.Valid()
      modifies this, snapshots
      ensures snapshots.Valid()
        && (Value(), reply) == Callback(old(Value()), id, nonce, approve, givenHash, now, minted)
    {
      hide Close, Put, Get;
      var found := Get(prompts, id);
      if found.None? {
        return Rejected(UnknownPrompt);
      }
      var p := found.value;
      if p.nonce != nonce {
        return Rejected(NonceMismatch);
      }
      if p.state.Approved? || p.state.Denied? {
        return Rejected(ReplayedNonce);
      }
      if p.state.Cancelled? {
        return Rejected(CancelledPrompt);
      }
      if IsExpired(p, now) {
        if p.state.PendingApproval? {
          ClosePrompt(id, p, Expired);
        }
        return Rejected(ExpiredPrompt);
      }
      if Some(p.hash) != snapshots.currentHash || (givenHash.Some? && givenHash != snapshots.currentHash) {
        ClosePrompt(id, p, Stale);
        return Rejected(SnapshotStale);
      }
      if !approve {
        ClosePrompt(id, p, Denied);
        return Resolved(Denied, None);
      }
      if minted.None? {
        return Threw;
      }
      credentials := Put(credentials, minted.value, Credential(p.hash, false, Some(id)));
      if p.reservation.None? || p.reservation.value !in reservations || !reservations[p.reservation.value].Reserved? {
        return Threw;
      }
      reservations := reservations[p.reservation.value := Committed];
      prompts := Put(prompts, id, p.(state := Approved, credential := minted));
      reply := Resolved(Approved, minted);
    }

    method CancelIntent(intentId: string) returns (reply: Reply)
      requires snapshots.Valid()
      modifies this, snapshots
      ensures snapshots.Valid() && (Value(), reply) == Cancel(old(Value()), intentId)
    {
      hide Close, Get;
      if intentId !in intents {
        return Threw;
      }
      if intents[intentId].ForPrompt? {
        var id := intents[intentId].promptId;
        var p := Get(prompts, id);
        if p.Some? && p.value.state.PendingApproval? {
          ClosePrompt(id, p.value, Cancelled);
        }
      }
      reply := Ok;
    }

    method ReleaseCredentialSnapshot(id: string) returns (reply: Reply)
      requires snapshots.Valid()
      modifies this, snapshots
      ensures snapshots.Valid() && (Value(), reply) == ReleaseCredential(old(Value()), id)
    {
      hide Put, Get;
      var c := Get(credentials, id);
      if c.None? {
        return Threw;
      }
      if c.value.released {
        return Ok;
      }
      var ok := snapshots.ReleaseHash(c.value.hash);
      if !ok {
        return Threw;
      }
      credentials := Put(credentials, id, c.value.(released := true));
      var _ := snapshots.Collect();
      reply := Ok;
    }

    /** The approval branch of a proposal: reserve, retain, prompt, record. */
    method CreateApproval(key: string, intentId: string, outcome: ApprovalOutcome) returns (reply: Reply)
      requires snapshots.Valid() && key !in idempotency && snapshots.currentHash.Some?
      modifies this, snapshots
      ensures snapshots.Valid() && (Value(), reply) == Propose(old(Value()), key, intentId, RequireApproval(outcome))
    {
      hide Put, Get;
      if !outcome.PromptFails? && !outcome.Prompted? {
        var envelope := Deny(if outcome.NoChannel? then "approval_channel_missing"
                             else if outcome.NoBudget? then "approval_budget_exhausted" else outcome.limit);
        idempotency := idempotency[key := envelope];
        return Decided(envelope);
      }
      var hash := snapshots.currentHash.value;
      var held := outcome.reservation;
      reservations := reservations[held := Reserved];
      var ok := snapshots.RetainHash(hash);
      if !ok {
        return Threw;
      }
      if outcome.PromptFails? {
        assert reservations[held := Freed] == old(reservations)[held := Freed];
        reservations := reservations[held := Freed];
        var _ := snapshots.ReleaseHash(hash);
        var _ := snapshots.Collect();
        return Threw;
      }
      prompts := Put(prompts, outcome.promptId,
                     Prompt(intentId, hash, outcome.nonce, outcome.expiresAt, held, PendingApproval, Some(held), true,
                       None));
      intents := intents[intentId := ForPrompt(outcome.promptId)];
      idempotency := idempotency[key := PendingEnvelope(outcome.promptId)];
      reply := Decided(PendingEnvelope(outcome.promptId));
    }

    /** The allow branch of a proposal: reserve, retain, mint, commit, record. */
    method AllowIntent(key: string, intentId: string, outcome: AllowOutcome) returns (reply: Reply)
      requires snapshots.Valid() && key !in idempotency && snapshots.currentHash.Some?
      modifies this, snapshots
      ensures snapshots.Valid() && (Value(), reply) == Propose(old(Value()), key, intentId, AllowRule(outcome))
    {
      hide Put, Get;
      if outcome.AllowLimited? {
        idempotency := idempotency[key := Deny(outcome.limit)];
        return Decided(Deny(outcome.limit));
      }
      var hash := snapshots.currentHash.value;
      var held := outcome.reservation;
      reservations := reservations[held := Reserved];
      var ok := snapshots.RetainHash(hash);
      if !ok {
        return Threw;
      }
      if outcome.MintFails? {
        assert reservations[held := Freed] == old(reservations)[held := Freed];
        reservations := reservations[held := Freed];
        var _ := snapshots.ReleaseHash(hash);
        var _ := snapshots.Collect();
        return Threw;
      }
      credentials := Put(credentials, outcome.credential, Credential(hash, false, None));
      assert reservations[held := Committed] == old(reservations)[held := Committed];
      reservations := reservations[held := Committed];
      intents := intents[intentId := Allowed(outcome.credential)];
      idempotency := idempotency[key := Allow(outcome.credential)];
      reply := Decided(Allow(outcome.credential));
    }

    method GetApprovalStatus(intentId: string, now: int) returns (reply: Reply)
      requires snapshots.Valid()
      modifies this, snapshots
      ensures snapshots.Valid() && (Value(), reply) == GetStatus(old(Value()), intentId, now)
    {
      hide Close, Get;
      if intentId !in intents {
        return Threw;
      }
      match intents[intentId] {
        case Refused =>
          return Status(ReportedDenied, None, None);
        case Allowed(credential) =>
          return Status(ReportedApproved, None, Some(credential));
        case ForPrompt(id) =>
          var p := Get(prompts, id);
          if p.None? {
            return Threw;
          }
          if p.value.state.PendingApproval? && IsExpired(p.value, now) {
            ClosePrompt(id, p.value, Expired);
          }
          reply := StatusOf(id, Get(prompts, id).GetOr(p.value));
      }
    }
  }
}
