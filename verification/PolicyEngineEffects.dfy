/** What each request does, in what can be looked up afterwards: prompts, reservations, reference
    counts, credentials, intents and remembered envelopes. */
module PolicyEngineEffects {
  import opened Records
  import opened Snapshots
  import opened PolicyEngine
  import opened PolicyEngineProof

  // --- What stays ---

  ghost predicate OtherPrompts(e: Engine, e': Engine, id: string) {
    forall other :: other != id ==> Get(e'.prompts, other) == Get(e.prompts, other)
  }

  ghost predicate OtherCredentials(e: Engine, e': Engine, id: string) {
    forall other :: other != id ==> Get(e'.credentials, other) == Get(e.credentials, other)
  }

  /** One reservation has a status, and no other changed. */
  ghost predicate NowHas(e: Engine, e': Engine, r: string, status: ReservationStatus) {
    && r in e'.reservations && e'.reservations[r] == status
    && forall x :: x != r ==>
         (x in e'.reservations <==> x in e.reservations)
           && (x in e.reservations ==> e'.reservations[x] == e.reservations[x])
  }

  /** One snapshot has so many references more, and no other changed; the policy in force is the same. */
  ghost predicate Counted(s: Store, s': Store, hash: string, more: int) {
    s'.current == s.current && forall h :: Refs(s', h) == Refs(s, h) + if h == hash then more else 0
  }

  /** Nothing unreferenced is kept but the policy in force, and nothing else is dropped. */
  ghost predicate Swept(s: Store, s': Store) {
    forall h :: h in s'.refcounts <==> h in s.refcounts && (Refs(s', h) > 0 || s'.current == Some(h))
  }

  // --- Prompts ---

  /** The prompt ended in a state: its reservation freed, its snapshot's count one less. */
  ghost predicate Ended(e: Engine, e': Engine, id: string, p: Prompt, state: PromptState) {
    && Get(e'.prompts, id) == Some(p.(state := state, reservation := None, retained := false))
    && NowHas(e, e', p.held, Freed) && Counted(e.store, e'.store, p.hash, -1) && Swept(e.store, e'.store)
    && OtherPrompts(e, e', id)
    && e'.credentials == e.credentials && e'.intents == e.intents && e'.idempotency == e.idempotency
  }

  /** The prompt was approved with a credential: its reservation committed, its reference handed on
      to the credential. */
  ghost predicate ApprovedWith(e: Engine, e': Engine, id: string, p: Prompt, credential: string) {
    && Get(e'.prompts, id) == Some(p.(state := Approved, credential := Some(credential)))
    && Get(e'.credentials, credential) == Some(Credential(p.hash, false, Some(id)))
    && NowHas(e, e', p.held, Committed) && e'.store == e.store
    && OtherPrompts(e, e', id) && OtherCredentials(e, e', credential)
    && e'.intents == e.intents && e'.idempotency == e.idempotency
  }

  lemma ReleaseSweeps(s: Store, hash: string)
    requires Release(s, hash).Some?
    ensures var s' := Gc(Release(s, hash).value); Counted(s, s', hash, -1) && Swept(s, s')
  {
    forall h
      ensures Refs(Gc(Release(s, hash).value), h) == Refs(s, h) + if h == hash then -1 else 0
    {
      GcRefs(Release(s, hash).value, h);
      ReleaseRefs(s, hash, h);
    }
  }

  lemma PutOthers<V>(es: seq<(string, V)>, id: string, v: V)
    requires Distinct(es)
    ensures Get(Put(es, id, v), id) == Some(v)
    ensures forall other :: other != id ==> Get(Put(es, id, v), other) == Get(es, other)
  {
    forall other
      ensures Get(Put(es, id, v), other) == if other == id then Some(v) else Get(es, other)
    {
      PutGet(es, id, v, other);
    }
  }

  lemma InvDistinct(e: Engine, now: int)
    requires Inv(e, now)
    ensures Distinct(e.prompts) && Distinct(e.credentials)
  {
  }

  /** Closing a pending prompt ends it. */
  lemma CloseEnds(e: Engine, now: int, id: string, state: PromptState)
    requires Inv(e, now) && Get(e.prompts, id).Some? && Get(e.prompts, id).value.state.PendingApproval?
    requires !state.PendingApproval? && !state.Approved?
    ensures Ended(e, Close(e, id, Get(e.prompts, id).value, state), id, Get(e.prompts, id).value, state)
  {
    Closed(e, now, id, state);
    InvDistinct(e, now);
    hide Inv, Close, Get, Put, Gc, Release, Counted, Swept;
    var p := Get(e.prompts, id).value;
    ReleaseSweeps(e.store, p.hash);
    PutOthers(e.prompts, id, p.(state := state, reservation := None, retained := false));
  }

  /** The prompt's snapshot is in force, and the caller names no other. */
  predicate InForce(e: Engine, p: Prompt, givenHash: Option<string>) {
    e.store.current == Some(p.hash) && (givenHash.None? || givenHash == Some(p.hash))
  }

  /** What becomes of a pending prompt: a wrong nonce changes nothing, and otherwise the first of
      expiry, another policy, the decision and the rail applies. */
  ghost predicate PendingAnswer(e: Engine, e': Engine, ev: Event, now: int, p: Prompt, reply: Reply)
    requires ev.DoCallback?
  {
    if ev.nonce != p.nonce then e' == e && reply == Rejected(NonceMismatch)
    else if p.expiresAt <= now then Ended(e, e', ev.id, p, Expired) && reply == Rejected(ExpiredPrompt)
    else if !InForce(e, p, ev.givenHash) then Ended(e, e', ev.id, p, Stale) && reply == Rejected(SnapshotStale)
    else if !ev.approve then Ended(e, e', ev.id, p, Denied) && reply == Resolved(Denied, None)
    else if ev.minted.None? then e' == e && reply == Threw
    else ApprovedWith(e, e', ev.id, p, ev.minted.value) && reply == Resolved(Approved, ev.minted)
  }

  lemma PendingCallback(e: Engine, now: int, ev: Event)
    requires Inv(e, now) && ev.DoCallback?
    requires Get(e.prompts, ev.id).Some? && Get(e.prompts, ev.id).value.state.PendingApproval?
    ensures PendingAnswer(e, Step(e, ev, now).0, ev, now, Get(e.prompts, ev.id).value, Step(e, ev, now).1)
  {
    hide Inv, Close, Get, Ended, ApprovedWith, Mint;
    var p := Get(e.prompts, ev.id).value;
    CloseEnds(e, now, ev.id, Expired);
    CloseEnds(e, now, ev.id, Stale);
    CloseEnds(e, now, ev.id, Denied);
    MintNothing(e, ev.id, p);
    if ev.minted.Some? {
      MintApproves(e, now, ev.id, ev.minted.value);
    }
  }

  lemma MintNothing(e: Engine, id: string, p: Prompt)
    ensures Mint(e, id, p, None) == (e, Threw)
  {
  }

  lemma MintApproves(e: Engine, now: int, id: string, credential: string)
    requires Inv(e, now) && Get(e.prompts, id).Some? && Get(e.prompts, id).value.state.PendingApproval?
    ensures var p := Get(e.prompts, id).value;
            var (e', reply) := Mint(e, id, p, Some(credential));
            ApprovedWith(e, e', id, p, credential) && reply == Resolved(Approved, Some(credential))
  {
    PromptAt(e, now, id);
    InvDistinct(e, now);
    var p := Get(e.prompts, id).value;
    assert p.reservation == Some(p.held) && p.held in e.reservations && e.reservations[p.held].Reserved?;
    hide Inv, Get, Put;
    PutOthers(e.prompts, id, p.(state := Approved, credential := Some(credential)));
    PutOthers(e.credentials, credential, Credential(p.hash, false, Some(id)));
  }

  /** A prompt that is not pending: whoever calls back learns why, and only a stale one changes, to
      denied. Minting for a stale one is the step that goes wrong. */
  lemma LateCallback(e: Engine, now: int, ev: Event)
    requires Inv(e, now) && ev.DoCallback? && !MintsForStale(e, ev, now)
    requires Get(e.prompts, ev.id).Some? ==> !Get(e.prompts, ev.id).value.state.PendingApproval?
    ensures var found := Get(e.prompts, ev.id);
            var (e', reply) := Step(e, ev, now);
            if found.None? then e' == e && reply == Rejected(UnknownPrompt)
            else
              var p := found.value;
              (ev.nonce != p.nonce ==> e' == e && reply == Rejected(NonceMismatch)) &&
              (ev.nonce == p.nonce ==>
                match p.state
                case Approved => e' == e && reply == Rejected(ReplayedNonce)
                case Denied => e' == e && reply == Rejected(ReplayedNonce)
                case Cancelled => e' == e && reply == Rejected(CancelledPrompt)
                case Expired => e' == e && reply == Rejected(ExpiredPrompt)
                case _ => StaleAnswer(e, e', ev, now, p, reply))
  {
    if Get(e.prompts, ev.id).Some? {
      PromptAt(e, now, ev.id);
      var p := Get(e.prompts, ev.id).value;
      if p.state.Stale? {
        Reclosed(e, now, ev.id, Stale);
        Reclosed(e, now, ev.id, Denied);
        MintNothing(e, ev.id, p);
      }
      hide Close, Get, Put, Mint;
    }
  }

  ghost predicate StaleAnswer(e: Engine, e': Engine, ev: Event, now: int, p: Prompt, reply: Reply)
    requires ev.DoCallback?
  {
    if p.expiresAt <= now then e' == e && reply == Rejected(ExpiredPrompt)
    else if !InForce(e, p, ev.givenHash) then e' == e && reply == Rejected(SnapshotStale)
    else if ev.approve then e' == e && reply == Threw
    else
      reply == Resolved(Denied, None) && Get(e'.prompts, ev.id) == Some(p.(state := Denied)) &&
      OtherPrompts(e, e', ev.id) && e' == e.(prompts := e'.prompts)
  }

  lemma Reclosed(e: Engine, now: int, id: string, state: PromptState)
    requires Inv(e, now) && Get(e.prompts, id).Some? && Get(e.prompts, id).value.state.Stale?
    ensures var p := Get(e.prompts, id).value;
            var e' := Close(e, id, p, state);
            e' == e.(prompts := e'.prompts) && Get(e'.prompts, id) == Some(p.(state := state)) &&
            OtherPrompts(e, e', id) && (state.Stale? ==> e' == e)
  {
    PromptAt(e, now, id);
    InvDistinct(e, now);
    var p := Get(e.prompts, id).value;
    PutOthers(e.prompts, id, p.(state := state));
    var i := IndexOf(e.prompts, id);
    assert e.prompts[i] == (id, p);
    assert p.state.Stale? && (state.Stale? ==> p.(state := state) == p);
    assert state.Stale? ==> e.prompts[i := (id, p)] == e.prompts;
    hide Inv;
  }

  // --- Proposals ---

  /** The reason a proposal is refused for, when it is. */
  function RefusedFor(evaluation: Evaluation): Option<string> {
    match evaluation
    case DenyRule(reason) => Some(reason)
    case RailMismatch => Some("rail_env_mismatch")
    case RequireApproval(NoChannel) => Some("approval_channel_missing")
    case RequireApproval(NoBudget) => Some("approval_budget_exhausted")
    case RequireApproval(ApprovalLimited(limit)) => Some(limit)
    case AllowRule(AllowLimited(limit)) => Some(limit)
    case _ => None
  }

  /** Only the intent and the envelope were written down. */
  ghost predicate Noted(e: Engine, e': Engine, key: string, envelope: Envelope, intentId: string,
      intent: Option<Intent>, reply: Reply)
  {
    reply == Decided(envelope) && e'.idempotency == e.idempotency[key := envelope] &&
    e'.intents == if intent.Some? then e.intents[intentId := intent.value] else e.intents
  }

  /** Reserving and retaining were both undone, and nothing was written down. */
  ghost predicate TakenBack(e: Engine, e': Engine, reservation: string, reply: Reply) {
    && reply == Threw && NowHas(e, e', reservation, Freed)
    && (forall h :: Refs(e'.store, h) == Refs(e.store, h)) && e'.store.current == e.store.current
    && Swept(e.store, e'.store)
    && e'.prompts == e.prompts && e'.credentials == e.credentials
    && e'.intents == e.intents && e'.idempotency == e.idempotency
  }

  /** A prompt was raised: pending, its reservation made and its snapshot's count one more. */
  ghost predicate Raised(e: Engine, e': Engine, hash: string, intentId: string, a: ApprovalOutcome)
    requires a.Prompted?
  {
    && Get(e'.prompts, a.promptId) == Some(Prompt(intentId, hash, a.nonce, a.expiresAt, a.reservation, PendingApproval,
         Some(a.reservation), true, None))
    && NowHas(e, e', a.reservation, Reserved) && Counted(e.store, e'.store, hash, 1)
    && OtherPrompts(e, e', a.promptId) && e'.credentials == e.credentials
  }

  /** A credential was minted: its reservation committed and its snapshot's count one more. */
  ghost predicate Issued(e: Engine, e': Engine, hash: string, a: AllowOutcome)
    requires a.Minted?
  {
    && Get(e'.credentials, a.credential) == Some(Credential(hash, false, None))
    && NowHas(e, e', a.reservation, Committed) && Counted(e.store, e'.store, hash, 1)
    && OtherCredentials(e, e', a.credential) && e'.prompts == e.prompts
  }

  /** What a proposal under a new key does, by what the evaluator, the channel and the rail say. */
  ghost predicate ProposalAnswer(e: Engine, e': Engine, key: string, intentId: string, evaluation: Evaluation,
      reply: Reply)
    requires e.store.current.Some?
  {
    var hash := e.store.current.value;
    match evaluation
    case RequireApproval(PromptFails(r)) => TakenBack(e, e', r, reply)
    case AllowRule(MintFails(r)) => TakenBack(e, e', r, reply)
    case RequireApproval(Prompted(promptId, _, _, _)) =>
      Raised(e, e', hash, intentId, evaluation.approval) &&
      Noted(e, e', key, PendingEnvelope(promptId), intentId, Some(ForPrompt(promptId)), reply)
    case AllowRule(Minted(credential, _)) =>
      Issued(e, e', hash, evaluation.allow) &&
      Noted(e, e', key, Allow(credential), intentId, Some(Allowed(credential)), reply)
    case _ =>
      RefusedFor(evaluation).Some? &&
      e' == e.(intents := e'.intents, idempotency := e'.idempotency) &&
      Noted(e, e', key, Deny(RefusedFor(evaluation).value), intentId,
            if evaluation.DenyRule? then Some(Refused) else None, reply)
  }

  lemma RetainCounts(s: Store, hash: string)
    requires Retain(s, hash).Some?
    ensures Counted(s, Retain(s, hash).value, hash, 1)
  {
    forall h
      ensures Refs(Retain(s, hash).value, h) == Refs(s, h) + if h == hash then 1 else 0
    {
      RetainRefs(s, hash, h);
    }
  }

  lemma UndoneTakesBack(e: Engine, now: int, reservation: string)
    requires Inv(e, now) && e.store.current.Some?
    ensures TakenBack(e, Undone(e, reservation, e.store.current.value), reservation, Threw)
  {
    var hash := e.store.current.value;
    var kept := Retain(e.store, hash).value;
    hide Inv, Gc;
    RetainCounts(e.store, hash);
    assert Release(kept, hash).Some?;
    ReleaseSweeps(kept, hash);
    hide Release, Retain;
  }

  lemma RaisedBy(e: Engine, now: int, key: string, intentId: string, a: ApprovalOutcome)
    requires Inv(e, now) && a.Prompted? && key !in e.idempotency && e.store.current.Some?
    ensures var (e', reply) := Propose(e, key, intentId, RequireApproval(a));
            Raised(e, e', e.store.current.value, intentId, a) &&
            Noted(e, e', key, PendingEnvelope(a.promptId), intentId, Some(ForPrompt(a.promptId)), reply)
  {
    var hash := e.store.current.value;
    assert Retain(e.store, hash).Some?;
    InvDistinct(e, now);
    RetainCounts(e.store, hash);
    hide Inv, Get, Put, Counted, Retain;
    PutOthers(e.prompts, a.promptId, Prompt(intentId, hash, a.nonce, a.expiresAt, a.reservation, PendingApproval,
      Some(a.reservation), true, None));
  }

  lemma IssuedBy(e: Engine, now: int, key: string, intentId: string, a: AllowOutcome)
    requires Inv(e, now) && a.Minted? && key !in e.idempotency && e.store.current.Some?
    ensures var (e', reply) := Propose(e, key, intentId, AllowRule(a));
            Issued(e, e', e.store.current.value, a) &&
            Noted(e, e', key, Allow(a.credential), intentId, Some(Allowed(a.credential)), reply)
  {
    var hash := e.store.current.value;
    assert Retain(e.store, hash).Some?;
    InvDistinct(e, now);
    RetainCounts(e.store, hash);
    hide Inv, Get, Put, Counted, Retain;
    PutOthers(e.credentials, a.credential, Credential(hash, false, None));
  }

  /** A proposal is answered from memory when its key was used, throws without a policy, and
      otherwise does what the evaluation calls for. */
  lemma ProposeMeans(e: Engine, now: int, key: string, intentId: string, evaluation: Evaluation)
    requires Inv(e, now)
    ensures var (e', reply) := Step(e, DoPropose(key, intentId, evaluation), now);
            if key in e.idempotency then e' == e && reply == Decided(e.idempotency[key])
            else if e.store.current.None? then e' == e && reply == Threw
            else ProposalAnswer(e, e', key, intentId, evaluation, reply)
  {
    if key !in e.idempotency && e.store.current.Some? {
      hide Inv, Undone, Raised, Issued, TakenBack, Retain, Put;
      match evaluation {
        case RequireApproval(PromptFails(r)) => UndoneTakesBack(e, now, r);
        case AllowRule(MintFails(r)) => UndoneTakesBack(e, now, r);
        case RequireApproval(Prompted(_, _, _, _)) => RaisedBy(e, now, key, intentId, evaluation.approval);
        case AllowRule(Minted(_, _)) => IssuedBy(e, now, key, intentId, evaluation.allow);
        case _ =>
      }
    }
  }

  // --- The other requests ---

  /** Cancelling ends a pending prompt of the intent and changes nothing else. */
  lemma CancelMeans(e: Engine, now: int, intentId: string)
    requires Inv(e, now)
    ensures var (e', reply) := Step(e, DoCancel(intentId), now);
            var id := EventPrompt(e, DoCancel(intentId));
            reply == (if intentId in e.intents then Ok else Threw) &&
            if id.Some? && Get(e.prompts, id.value).Some? && Get(e.prompts, id.value).value.state.PendingApproval?
            then Ended(e, e', id.value, Get(e.prompts, id.value).value, Cancelled)
            else e' == e
  {
    hide Inv, Close, Get, Ended;
    var id := EventPrompt(e, DoCancel(intentId));
    if id.Some? && Get(e.prompts, id.value).Some? && Get(e.prompts, id.value).value.state.PendingApproval? {
      CloseEnds(e, now, id.value, Cancelled);
    }
  }

  /** Asking for a status ends a pending prompt whose time has come and changes nothing else. */
  lemma StatusEnds(e: Engine, now: int, intentId: string)
    requires Inv(e, now)
    ensures var e' := Step(e, DoStatus(intentId), now).0;
            var id := EventPrompt(e, DoStatus(intentId));
            if id.Some? && Get(e.prompts, id.value).Some? && Get(e.prompts, id.value).value.state.PendingApproval? &&
               Get(e.prompts, id.value).value.expiresAt <= now
            then Ended(e, e', id.value, Get(e.prompts, id.value).value, Expired)
            else e' == e
  {
    hide Inv, Close, Get, Ended;
    var id := EventPrompt(e, DoStatus(intentId));
    if id.Some? && Get(e.prompts, id.value).Some? && Get(e.prompts, id.value).value.state.PendingApproval? {
      CloseEnds(e, now, id.value, Expired);
    }
  }

  /** Intents without a prompt report what was decided. */
  lemma DecidedStatus(e: Engine, now: int, intentId: string)
    requires intentId in e.intents && !e.intents[intentId].ForPrompt?
    ensures Step(e, DoStatus(intentId), now).1 == match e.intents[intentId]
      case Allowed(credential) => Status(ReportedApproved, None, Some(credential))
      case _ => Status(ReportedDenied, None, None)
  {
  }

  /** A credential gives its reference back the first time, and only then. */
  lemma ReleaseMeans(e: Engine, now: int, id: string)
    requires Inv(e, now)
    ensures var (e', reply) := Step(e, DoReleaseCredential(id), now);
            var c := Get(e.credentials, id);
            if c.None? then e' == e && reply == Threw
            else if c.value.released then e' == e && reply == Ok
            else
              reply == Ok && Get(e'.credentials, id) == Some(c.value.(released := true))
                && OtherCredentials(e, e', id) &&
              Counted(e.store, e'.store, c.value.hash, -1) && Swept(e.store, e'.store) &&
              e' == e.(store := e'.store, credentials := e'.credentials)
  {
    var c := Get(e.credentials, id);
    if c.Some? && !c.value.released {
      CredentialCounted(e, now, id);
      InvDistinct(e, now);
      assert Release(e.store, c.value.hash).Some?;
      hide Inv, Get, Put, Gc, Release, Counted, Swept;
      ReleaseSweeps(e.store, c.value.hash);
      PutOthers(e.credentials, id, c.value.(released := true));
    }
  }

  /** A new policy is in force; every count stays, and what is neither in force nor referenced goes. */
  lemma ReloadMeans(e: Engine, now: int, hash: string)
    ensures var (e', reply) := Step(e, DoReload(hash), now);
            reply == Ok && e' == e.(store := e'.store) && e'.store.current == Some(hash) &&
            hash in e'.store.refcounts && (forall h :: Refs(e'.store, h) == Refs(e.store, h)) &&
            forall h :: h in e'.store.refcounts <==> h == hash || (h in e.store.refcounts && Refs(e.store, h) > 0)
  {
  }

  // --- Over runs ---

  /** An envelope once remembered is the answer to its key for good. */
  lemma EnvelopeStays(e: Engine, now: int, ev: Event, key: string)
    requires Inv(e, now) && !MintsForStale(e, ev, now) && key in e.idempotency
    ensures var e' := Step(e, ev, now).0; key in e'.idempotency && e'.idempotency[key] == e.idempotency[key]
  {
    hide Inv, MintsForStale, Step, Get;
    match ev {
      case DoReload(hash) => ReloadMeans(e, now, hash);
      case DoPropose(k, intentId, evaluation) => ProposeMeans(e, now, k, intentId, evaluation);
      case DoCallback(id, _, _, _, _) =>
        if Get(e.prompts, id).Some? && Get(e.prompts, id).value.state.PendingApproval? {
          PendingCallback(e, now, ev);
        } else {
          LateCallback(e, now, ev);
        }
      case DoCancel(intentId) => CancelMeans(e, now, intentId);
      case DoStatus(intentId) => StatusEnds(e, now, intentId);
      case DoReleaseCredential(id) => ReleaseMeans(e, now, id);
    }
  }

  lemma {:induction false} FinalStaysAlong(e: Engine, before: int, events: seq<(Event, int)>, id: string)
    requires Inv(e, before) && Run(e, before, events)
    requires Get(e.prompts, id).Some? && FinalState(Get(e.prompts, id).value.state)
    ensures Get(After(e, events).prompts, id) == Get(e.prompts, id)
    decreases |events|
  {
    hide Inv, Step, FreshIds, MintsForStale, Get;
    if events != [] {
      var (ev, now) := events[0];
      StepKeepsExactly(e, before, ev, now);
      FinalPromptsStay(e, before, ev, now, id);
      FinalStaysAlong(Step(e, ev, now).0, now, events[1..], id);
    }
  }

  /** A prompt is answered once: after a denial or an approval, and whatever happens then, a callback
      with its nonce is a replay and changes nothing. */
  lemma AnsweredOnce(e: Engine, before: int, events: seq<(Event, int)>, now: int, ev: Event)
    requires Inv(e, before) && Run(e, before, events)
    requires ev.DoCallback? && Get(e.prompts, ev.id).Some? && Get(e.prompts, ev.id).value.nonce == ev.nonce
    requires Get(e.prompts, ev.id).value.state.Approved? || Get(e.prompts, ev.id).value.state.Denied?
    ensures Step(After(e, events), ev, now) == (After(e, events), Rejected(ReplayedNonce))
  {
    hide Inv, Run, After, Get;
    FinalStaysAlong(e, before, events, ev.id);
  }
}
