/** Reference counts stay exact and approvals final, in every run in which no stale prompt is
    called back to a mint; and that one step does break them. */
module PolicyEngineProof {
  import opened Records
  import opened Snapshots
  import opened PolicyEngine

  // --- What the counts should be ---

  function PendingWith(hash: string): Prompt -> int {
    (p: Prompt) => if p.state.PendingApproval? && p.hash == hash then 1 else 0
  }

  function HeldWith(hash: string): Credential -> int {
    (c: Credential) => if !c.released && c.hash == hash then 1 else 0
  }

  /** Live pending prompts plus unreleased credentials of a snapshot. */
  function Holders(e: Engine, hash: string): int {
    Total(e.prompts, PendingWith(hash)) + Total(e.credentials, HeldWith(hash))
  }

  ghost predicate Exact(e: Engine) {
    forall h :: Refs(e.store, h) == Holders(e, h)
  }

  ghost predicate HeldIs(e: Engine, p: Prompt, status: ReservationStatus) {
    p.held in e.reservations && e.reservations[p.held] == status
  }

  /** The reservation and the snapshot are where the prompt's state says they are. */
  ghost predicate PromptOk(e: Engine, p: Prompt, now: int) {
    match p.state
    case PendingApproval => p.retained && p.reservation == Some(p.held) && HeldIs(e, p, Reserved)
    case Approved => HeldIs(e, p, Committed) && p.credential.Some?
    case _ => !p.retained && p.reservation.None? && HeldIs(e, p, Freed) && (p.state.Expired? ==> IsExpired(p, now))
  }

  /** A credential minted for a prompt is the one credential of an approved prompt. */
  ghost predicate CredentialOk(e: Engine, id: string, c: Credential) {
    c.prompt.Some? ==>
      var p := Get(e.prompts, c.prompt.value); p.Some? && p.value.state.Approved? && p.value.credential == Some(id)
  }

  ghost predicate Structured(e: Engine, now: int) {
    && Distinct(e.prompts) && Distinct(e.credentials)
    && (e.store.current.Some? ==> e.store.current.value in e.store.refcounts)
    && (forall i :: 0 <= i < |e.prompts| ==> PromptOk(e, e.prompts[i].1, now))
    && (forall i, j :: 0 <= i < j < |e.prompts| ==> e.prompts[i].1.held != e.prompts[j].1.held)
    && (forall i :: 0 <= i < |e.credentials| ==> CredentialOk(e, e.credentials[i].0, e.credentials[i].1))
  }

  ghost predicate Inv(e: Engine, now: int) {
    Structured(e, now) && Exact(e)
  }

  // --- Counting lemmas ---

  lemma GcRefs(s: Store, h: string)
    ensures Refs(Gc(s), h) == Refs(s, h)
  {
  }

  lemma ReleaseRefs(s: Store, hash: string, h: string)
    requires Release(s, hash).Some?
    ensures Refs(Release(s, hash).value, h) == Refs(s, h) - if h == hash then 1 else 0
  {
  }

  lemma RetainRefs(s: Store, hash: string, h: string)
    requires Retain(s, hash).Some?
    ensures Refs(Retain(s, hash).value, h) == Refs(s, h) + if h == hash then 1 else 0
  {
  }

  lemma {:induction false} TotalNonNegative<V>(es: seq<(string, V)>, weight: V -> int)
    requires forall v :: weight(v) >= 0
    ensures Total(es, weight) >= 0
    ensures forall i :: 0 <= i < |es| ==> Total(es, weight) >= weight(es[i].1)
  {
    if es != [] {
      TotalNonNegative(es[1..], weight);
      assert forall i :: 1 <= i < |es| ==> es[i] == es[1..][i - 1];
    }
  }

  /** A pending prompt's snapshot is counted at least once. */
  lemma PendingCounted(e: Engine, now: int, id: string)
    requires Inv(e, now) && Get(e.prompts, id).Some? && Get(e.prompts, id).value.state.PendingApproval?
    ensures Refs(e.store, Get(e.prompts, id).value.hash) > 0
  {
    var p := Get(e.prompts, id).value;
    TotalNonNegative(e.prompts, PendingWith(p.hash));
    TotalNonNegative(e.credentials, HeldWith(p.hash));
    assert Refs(e.store, p.hash) == Holders(e, p.hash);
    assert PendingWith(p.hash)(p) == 1;
  }

  lemma CredentialCounted(e: Engine, now: int, id: string)
    requires Inv(e, now) && Get(e.credentials, id).Some? && !Get(e.credentials, id).value.released
    ensures Refs(e.store, Get(e.credentials, id).value.hash) > 0
  {
    var c := Get(e.credentials, id).value;
    TotalNonNegative(e.prompts, PendingWith(c.hash));
    TotalNonNegative(e.credentials, HeldWith(c.hash));
    assert Refs(e.store, c.hash) == Holders(e, c.hash);
    assert HeldWith(c.hash)(c) == 1;
  }

  // --- Looking things up ---

  lemma PromptAt(e: Engine, now: int, id: string)
    requires Structured(e, now) && Get(e.prompts, id).Some?
    ensures PromptOk(e, Get(e.prompts, id).value, now)
  {
    hide PromptOk, CredentialOk;
  }

  // --- Closing a pending prompt ---

  /** What closing does: the reservation freed, one reference dropped, the prompt final. */
  lemma Closed(e: Engine, now: int, id: string, state: PromptState)
    requires Inv(e, now) && Get(e.prompts, id).Some? && Get(e.prompts, id).value.state.PendingApproval?
    requires !state.PendingApproval? && !state.Approved?
    ensures var p := Get(e.prompts, id).value;
            var e' := Close(e, id, p, state);
            Release(e.store, p.hash).Some? &&
            e' == e.(reservations := e.reservations[p.held := Freed], store := Gc(Release(e.store, p.hash).value),
                     prompts := Put(e.prompts, id, p.(state := state, reservation := None, retained := false)))
  {
    PromptAt(e, now, id);
    PendingCounted(e, now, id);
    hide Inv, Get, Put, Gc;
  }

  lemma CloseKeepsCounts(e: Engine, now: int, id: string, state: PromptState)
    requires Inv(e, now) && Get(e.prompts, id).Some? && Get(e.prompts, id).value.state.PendingApproval?
    requires !state.PendingApproval? && !state.Approved?
    ensures Exact(Close(e, id, Get(e.prompts, id).value, state))
  {
    Closed(e, now, id, state);
    var p := Get(e.prompts, id).value;
    var p' := p.(state := state, reservation := None, retained := false);
    var e' := Close(e, id, p, state);
    hide Get, Put, Gc, Release, Close, Structured, Refs;
    forall h
      ensures Refs(e'.store, h) == Holders(e', h)
    {
      GcRefs(Release(e.store, p.hash).value, h);
      ReleaseRefs(e.store, p.hash, h);
      TotalPut(e.prompts, id, p', PendingWith(h));
    }
  }

  /** Replacing one prompt, and the status of its reservation, disturbs no other. */
  lemma ReplacePrompt(e: Engine, e': Engine, now: int, id: string, p': Prompt)
    requires Structured(e, now) && Get(e.prompts, id).Some?
    requires e'.prompts == Put(e.prompts, id, p') && e'.credentials == e.credentials
    requires p'.held == Get(e.prompts, id).value.held && !Get(e.prompts, id).value.state.Approved?
    requires forall r :: r in e.reservations && r != p'.held ==>
      r in e'.reservations && e'.reservations[r] == e.reservations[r]
    requires PromptOk(e', p', now)
    requires e'.store.current.Some? ==> e'.store.current.value in e'.store.refcounts
    ensures Structured(e', now)
  {
    var i := IndexOf(e.prompts, id);
    forall j | 0 <= j < |e.credentials|
      ensures CredentialOk(e', e.credentials[j].0, e.credentials[j].1)
    {
      assert CredentialOk(e, e.credentials[j].0, e.credentials[j].1);
      if e.credentials[j].1.prompt.Some? {
        PutGet(e.prompts, id, p', e.credentials[j].1.prompt.value);
      }
    }
    hide Get, CredentialOk, IsExpired;
    forall j | 0 <= j < |e.prompts|
      ensures PromptOk(e', e'.prompts[j].1, now)
    {
      if j != i {
        assert e'.prompts[j] == e.prompts[j];
        assert PromptOk(e, e.prompts[j].1, now);
        assert e.prompts[j].1.held != e.prompts[i].1.held;
      }
    }
  }

  lemma CurrentKept(s: Store, hash: string)
    requires s.current.Some? ==> s.current.value in s.refcounts
    requires Release(s, hash).Some?
    ensures var s' := Gc(Release(s, hash).value);
      s'.current == s.current && (s'.current.Some? ==> s'.current.value in s'.refcounts)
  {
  }

  lemma CloseKeeps(e: Engine, now: int, id: string, state: PromptState)
    requires Inv(e, now) && Get(e.prompts, id).Some? && Get(e.prompts, id).value.state.PendingApproval?
    requires !state.PendingApproval? && !state.Approved?
      && (state.Expired? ==> IsExpired(Get(e.prompts, id).value, now))
    ensures Inv(Close(e, id, Get(e.prompts, id).value, state), now)
  {
    Closed(e, now, id, state);
    CloseKeepsCounts(e, now, id, state);
    PromptAt(e, now, id);
    var p := Get(e.prompts, id).value;
    CurrentKept(e.store, p.hash);
    var e' := Close(e, id, p, state);
    hide Get, Put, Close, Gc, Release, Exact, IsExpired;
    ReplacePrompt(e, e', now, id, p.(state := state, reservation := None, retained := false));
  }

  // --- Time passing ---

  lemma LaterOk(e: Engine, now: int, later: int)
    requires Inv(e, now) && now <= later
    ensures Inv(e, later)
  {
    hide CredentialOk, Exact;
    forall i | 0 <= i < |e.prompts|
      ensures PromptOk(e, e.prompts[i].1, later)
    {
      assert PromptOk(e, e.prompts[i].1, now);
    }
  }

  // --- The steps ---

  lemma ReloadKeeps(e: Engine, now: int, hash: string)
    requires Inv(e, now)
    ensures Inv(Reload(e, hash), now)
  {
    var e' := Reload(e, hash);
    forall h
      ensures Refs(e'.store, h) == Holders(e', h)
    {
      assert Refs(e.store, h) == Holders(e, h);
      GcRefs(Add(e.store, hash), h);
    }
    hide Holders, Get;
    assert forall i :: 0 <= i < |e.prompts| ==> PromptOk(e, e.prompts[i].1, now);
    assert forall i :: 0 <= i < |e.credentials| ==> CredentialOk(e, e.credentials[i].0, e.credentials[i].1);
  }

  /** Adding a reservation nobody holds changes nothing for the prompts. */
  lemma OtherReservations(e: Engine, e': Engine, now: int)
    requires Structured(e, now) && e'.prompts == e.prompts && e'.credentials == e.credentials
    requires forall r :: r in e.reservations ==> r in e'.reservations && e'.reservations[r] == e.reservations[r]
    requires e'.store.current.Some? ==> e'.store.current.value in e'.store.refcounts
    ensures Structured(e', now)
  {
    hide Get, IsExpired;
    forall i | 0 <= i < |e.prompts|
      ensures PromptOk(e', e.prompts[i].1, now)
    {
      assert PromptOk(e, e.prompts[i].1, now);
    }
    forall i | 0 <= i < |e.credentials|
      ensures CredentialOk(e', e.credentials[i].0, e.credentials[i].1)
    {
      assert CredentialOk(e, e.credentials[i].0, e.credentials[i].1);
    }
  }

  lemma UndoneKeeps(e: Engine, now: int, reservation: string)
    requires Inv(e, now) && e.store.current.Some? && reservation !in e.reservations
    ensures Inv(Undone(e, reservation, e.store.current.value), now)
  {
    var hash := e.store.current.value;
    var e' := Undone(e, reservation, hash);
    var kept := Retain(e.store, hash).value;
    assert Release(kept, hash).Some?;
    CurrentKept(kept, hash);
    forall h
      ensures Refs(e'.store, h) == Holders(e', h)
    {
      assert Refs(e.store, h) == Holders(e, h);
      RetainRefs(e.store, hash, h);
      ReleaseRefs(kept, hash, h);
      GcRefs(Release(kept, hash).value, h);
    }
    hide Holders, Gc, Release;
    OtherReservations(e, e', now);
  }

  /** Ids a proposal brings are new. */
  ghost predicate FreshIds(e: Engine, ev: Event) {
    match ev
    case DoPropose(_, _, RequireApproval(PromptFails(reservation))) => reservation !in e.reservations
    case DoPropose(_, _, RequireApproval(Prompted(promptId, _, _, reservation))) =>
      !Has(e.prompts, promptId) && reservation !in e.reservations
    case DoPropose(_, _, AllowRule(MintFails(reservation))) => reservation !in e.reservations
    case DoPropose(_, _, AllowRule(Minted(credential, reservation))) =>
      !Has(e.credentials, credential) && reservation !in e.reservations
    case DoCallback(_, _, _, _, Some(credential)) => !Has(e.credentials, credential)
    case _ => true
  }

  lemma PromptedKeeps(e: Engine, now: int, key: string, intentId: string, promptId: string, nonce: string,
      expiresAt: int, reservation: string)
    requires Inv(e, now) && e.store.current.Some? && key !in e.idempotency
    requires !Has(e.prompts, promptId) && reservation !in e.reservations
    ensures Inv(Propose(e, key, intentId, RequireApproval(Prompted(promptId, nonce, expiresAt, reservation))).0, now)
  {
    var hash := e.store.current.value;
    var e' := Propose(e, key, intentId, RequireApproval(Prompted(promptId, nonce, expiresAt, reservation))).0;
    var p := Prompt(intentId, hash, nonce, expiresAt, reservation, PendingApproval, Some(reservation), true, None);
    forall h
      ensures Refs(e'.store, h) == Holders(e', h)
    {
      assert Refs(e.store, h) == Holders(e, h);
      RetainRefs(e.store, hash, h);
      TotalPut(e.prompts, promptId, p, PendingWith(h));
    }
    hide Holders, IsExpired;
    assert e'.prompts == e.prompts + [(promptId, p)];
    forall i | 0 <= i < |e.prompts|
      ensures PromptOk(e', e'.prompts[i].1, now) && e'.prompts[i].1.held != reservation
    {
      assert e'.prompts[i] == e.prompts[i];
      assert PromptOk(e, e.prompts[i].1, now);
    }
    forall i | 0 <= i < |e.credentials|
      ensures CredentialOk(e', e.credentials[i].0, e.credentials[i].1)
    {
      assert CredentialOk(e, e.credentials[i].0, e.credentials[i].1);
      if e.credentials[i].1.prompt.Some? {
        PutGet(e.prompts, promptId, p, e.credentials[i].1.prompt.value);
      }
    }
  }

  /** A new credential that no prompt is responsible for, or an approved one is. */
  lemma AddCredential(e: Engine, id: string, c: Credential, h: string)
    requires !Has(e.credentials, id) && !c.released
    ensures Total(Put(e.credentials, id, c), HeldWith(h)) == Total(e.credentials, HeldWith(h)) + if h == c.hash then 1
      else 0
  {
    TotalPut(e.credentials, id, c, HeldWith(h));
  }

  lemma MintedKeeps(e: Engine, now: int, key: string, intentId: string, credential: string, reservation: string)
    requires Inv(e, now) && e.store.current.Some? && key !in e.idempotency
    requires !Has(e.credentials, credential) && reservation !in e.reservations
    ensures Inv(Propose(e, key, intentId, AllowRule(Minted(credential, reservation))).0, now)
  {
    var hash := e.store.current.value;
    var c := Credential(hash, false, None);
    var e' := Propose(e, key, intentId, AllowRule(Minted(credential, reservation))).0;
    forall h
      ensures Refs(e'.store, h) == Holders(e', h)
    {
      assert Refs(e.store, h) == Holders(e, h);
      RetainRefs(e.store, hash, h);
      AddCredential(e, credential, c, h);
    }
    hide Holders, Get, IsExpired;
    assert e'.credentials == e.credentials + [(credential, c)];
    forall i | 0 <= i < |e.prompts|
      ensures PromptOk(e', e.prompts[i].1, now)
    {
      assert PromptOk(e, e.prompts[i].1, now);
    }
    forall i | 0 <= i < |e'.credentials|
      ensures CredentialOk(e', e'.credentials[i].0, e'.credentials[i].1)
    {
      assert i < |e.credentials| ==>
        e'.credentials[i] == e.credentials[i] && CredentialOk(e, e.credentials[i].0, e.credentials[i].1);
    }
  }

  lemma ProposeKeeps(e: Engine, now: int, key: string, intentId: string, evaluation: Evaluation)
    requires Inv(e, now) && FreshIds(e, DoPropose(key, intentId, evaluation))
    ensures Inv(Propose(e, key, intentId, evaluation).0, now)
  {
    hide Inv;
    if key !in e.idempotency && e.store.current.Some? {
      match evaluation {
        case RequireApproval(PromptFails(reservation)) => UndoneKeeps(e, now, reservation);
        case RequireApproval(Prompted(promptId, nonce, expiresAt, reservation)) =>
          PromptedKeeps(e, now, key, intentId, promptId, nonce, expiresAt, reservation);
        case AllowRule(MintFails(reservation)) => UndoneKeeps(e, now, reservation);
        case AllowRule(Minted(credential, reservation)) => MintedKeeps(e, now, key, intentId, credential, reservation);
        case _ => SameButIntents(e, Propose(e, key, intentId, evaluation).0, now);
      }
    }
  }

  lemma SameButIntents(e: Engine, e': Engine, now: int)
    requires Inv(e, now) && e' == e.(intents := e'.intents, idempotency := e'.idempotency)
    ensures Inv(e', now)
  {
    hide Get, IsExpired;
    OtherReservations(e, e', now);
    assert forall h :: Holders(e', h) == Holders(e, h);
  }

  lemma ApproveKeeps(e: Engine, now: int, id: string, credential: string)
    requires Inv(e, now) && Get(e.prompts, id).Some? && Get(e.prompts, id).value.state.PendingApproval?
      && !Has(e.credentials, credential)
    ensures Inv(Mint(e, id, Get(e.prompts, id).value, Some(credential)).0, now)
    ensures Mint(e, id, Get(e.prompts, id).value, Some(credential)).1 == Resolved(Approved, Some(credential))
  {
    PromptAt(e, now, id);
    var p := Get(e.prompts, id).value;
    var p' := p.(state := Approved, credential := Some(credential));
    var c := Credential(p.hash, false, Some(id));
    var middle := e.(reservations := e.reservations[p.held := Committed], prompts := Put(e.prompts, id, p'));
    var e' := Mint(e, id, p, Some(credential)).0;
    assert e' == middle.(credentials := Put(e.credentials, credential, c));
    forall h
      ensures Refs(e'.store, h) == Holders(e', h)
    {
      assert Refs(e.store, h) == Holders(e, h);
      TotalPut(e.prompts, id, p', PendingWith(h));
      AddCredential(e, credential, c, h);
    }
    hide Holders, IsExpired;
    ReplacePrompt(e, middle, now, id, p');
    PutGet(e.prompts, id, p', id);
    assert e'.credentials == e.credentials + [(credential, c)];
    hide Get, Put;
    forall i | 0 <= i < |e'.prompts|
      ensures PromptOk(e', e'.prompts[i].1, now)
    {
      assert PromptOk(middle, middle.prompts[i].1, now);
    }
    forall i | 0 <= i < |e'.credentials|
      ensures CredentialOk(e', e'.credentials[i].0, e'.credentials[i].1)
    {
      assert i < |e.credentials| ==>
        e'.credentials[i] == e.credentials[i] && CredentialOk(middle, e.credentials[i].0, e.credentials[i].1);
    }
  }

  /** The one case that goes wrong: an approval of a prompt already marked stale, while its
      snapshot is in force, for which the rail mints. */
  ghost predicate MintsForStale(e: Engine, ev: Event, now: int) {
    ev.DoCallback? && ev.approve && ev.minted.Some? &&
    var p := Get(e.prompts, ev.id);
    p.Some? && p.value.state.Stale? && p.value.nonce == ev.nonce && !IsExpired(p.value, now) &&
    Some(p.value.hash) == e.store.current && (ev.givenHash.None? || ev.givenHash == e.store.current)
  }

  /** Closing again what is already closed only renames the state. */
  lemma RecloseKeeps(e: Engine, now: int, id: string, state: PromptState)
    requires Inv(e, now) && Get(e.prompts, id).Some? && Get(e.prompts, id).value.state.Stale?
      && (state.Stale? || state.Denied?)
    ensures Inv(Close(e, id, Get(e.prompts, id).value, state), now)
  {
    PromptAt(e, now, id);
    var p := Get(e.prompts, id).value;
    var e' := Close(e, id, p, state);
    var p' := p.(state := state);
    assert e' == e.(prompts := Put(e.prompts, id, p'));
    forall h
      ensures Refs(e'.store, h) == Holders(e', h)
    {
      assert Refs(e.store, h) == Holders(e, h);
      TotalPut(e.prompts, id, p', PendingWith(h));
    }
    hide Holders, Get, Put, IsExpired, Close;
    ReplacePrompt(e, e', now, id, p');
  }

  lemma PendingCallbackKeeps(e: Engine, now: int, ev: Event)
    requires Inv(e, now) && ev.DoCallback? && FreshIds(e, ev)
    requires Get(e.prompts, ev.id).Some? && Get(e.prompts, ev.id).value.state.PendingApproval?
    ensures Inv(Callback(e, ev.id, ev.nonce, ev.approve, ev.givenHash, now, ev.minted).0, now)
  {
    hide Inv, Close, Get, Mint, Has, IsExpired;
    var p := Get(e.prompts, ev.id).value;
    if IsExpired(p, now) {
      CloseKeeps(e, now, ev.id, Expired);
    }
    CloseKeeps(e, now, ev.id, Stale);
    CloseKeeps(e, now, ev.id, Denied);
    if ev.minted.Some? {
      ApproveKeeps(e, now, ev.id, ev.minted.value);
    } else {
      NoMint(e, ev.id, p);
    }
  }

  lemma NoMint(e: Engine, id: string, p: Prompt)
    ensures Mint(e, id, p, None).0 == e
  {
  }

  /** Anything but a pending or a stale prompt is answered without a change. */
  lemma FinalCallback(e: Engine, now: int, ev: Event)
    requires Inv(e, now) && ev.DoCallback?
    requires var p := Get(e.prompts, ev.id); p.Some? ==> !p.value.state.PendingApproval? && !p.value.state.Stale?
    ensures Callback(e, ev.id, ev.nonce, ev.approve, ev.givenHash, now, ev.minted).0 == e
  {
    if Get(e.prompts, ev.id).Some? {
      PromptAt(e, now, ev.id);
    }
    hide Inv, Close, Get, Mint;
  }

  lemma StaleCallbackKeeps(e: Engine, now: int, ev: Event)
    requires Inv(e, now) && ev.DoCallback? && !MintsForStale(e, ev, now)
    requires Get(e.prompts, ev.id).Some? && Get(e.prompts, ev.id).value.state.Stale?
    ensures Inv(Callback(e, ev.id, ev.nonce, ev.approve, ev.givenHash, now, ev.minted).0, now)
  {
    hide Inv, Close, Get, Mint, IsExpired;
    RecloseKeeps(e, now, ev.id, Stale);
    RecloseKeeps(e, now, ev.id, Denied);
    NoMint(e, ev.id, Get(e.prompts, ev.id).value);
  }

  lemma CallbackKeeps(e: Engine, now: int, ev: Event)
    requires Inv(e, now) && ev.DoCallback? && FreshIds(e, ev) && !MintsForStale(e, ev, now)
    ensures Inv(Callback(e, ev.id, ev.nonce, ev.approve, ev.givenHash, now, ev.minted).0, now)
  {
    hide Inv, Get, Callback, FreshIds, MintsForStale;
    var found := Get(e.prompts, ev.id);
    if found.Some? && found.value.state.PendingApproval? {
      PendingCallbackKeeps(e, now, ev);
    } else if found.Some? && found.value.state.Stale? {
      StaleCallbackKeeps(e, now, ev);
    } else {
      FinalCallback(e, now, ev);
    }
  }

  lemma ReleaseCredentialKeeps(e: Engine, now: int, id: string)
    requires Inv(e, now)
    ensures Inv(ReleaseCredential(e, id).0, now)
    ensures Get(e.credentials, id).Some? ==> ReleaseCredential(e, id).1 == Ok
  {
    var found := Get(e.credentials, id);
    if found.Some? && !found.value.released {
      var c := found.value;
      CredentialCounted(e, now, id);
      CurrentKept(e.store, c.hash);
      var e' := ReleaseCredential(e, id).0;
      var c' := c.(released := true);
      forall h
        ensures Refs(e'.store, h) == Holders(e', h)
      {
        assert Refs(e.store, h) == Holders(e, h);
        ReleaseRefs(e.store, c.hash, h);
        GcRefs(Release(e.store, c.hash).value, h);
        TotalPut(e.credentials, id, c', HeldWith(h));
      }
      hide Holders, Gc, Release, IsExpired;
      var n := IndexOf(e.credentials, id);
      assert e'.credentials == e.credentials[n := (id, c')];
      hide Get, Put, IndexOf;
      forall i | 0 <= i < |e.prompts|
        ensures PromptOk(e', e.prompts[i].1, now)
      {
        assert PromptOk(e, e.prompts[i].1, now);
      }
      forall i | 0 <= i < |e'.credentials|
        ensures CredentialOk(e', e'.credentials[i].0, e'.credentials[i].1)
      {
        assert CredentialOk(e, e.credentials[i].0, e.credentials[i].1);
      }
    }
  }

  lemma CancelKeeps(e: Engine, now: int, intentId: string)
    requires Inv(e, now)
    ensures Inv(Cancel(e, intentId).0, now)
  {
    hide Inv, Close, Get;
    if intentId in e.intents && e.intents[intentId].ForPrompt? {
      var id := e.intents[intentId].promptId;
      if Get(e.prompts, id).Some? && Get(e.prompts, id).value.state.PendingApproval? {
        CloseKeeps(e, now, id, Cancelled);
      }
    }
  }

  lemma StatusKeeps(e: Engine, now: int, intentId: string)
    requires Inv(e, now)
    ensures Inv(GetStatus(e, intentId, now).0, now)
  {
    hide Inv, Close, Get, IsExpired;
    if intentId in e.intents && e.intents[intentId].ForPrompt? {
      var id := e.intents[intentId].promptId;
      if Get(e.prompts, id).Some? && Get(e.prompts, id).value.state.PendingApproval?
        && IsExpired(Get(e.prompts, id).value, now) {
        CloseKeeps(e, now, id, Expired);
      }
    }
  }

  lemma MintForStaleBreaks(e: Engine, now: int, ev: Event)
    requires Inv(e, now) && FreshIds(e, ev) && MintsForStale(e, ev, now)
    ensures !Exact(Step(e, ev, now).0) && Step(e, ev, now).1 == Threw
  {
    PromptAt(e, now, ev.id);
    var p := Get(e.prompts, ev.id).value;
    var c := Credential(p.hash, false, Some(ev.id));
    var e' := Step(e, ev, now).0;
    assert e' == e.(credentials := Put(e.credentials, ev.minted.value, c));
    AddCredential(e, ev.minted.value, c, p.hash);
    assert Refs(e.store, p.hash) == Holders(e, p.hash);
    assert Refs(e'.store, p.hash) != Holders(e', p.hash);
  }

  /** One step of the engine keeps the counts exact and the records consistent if and only if
      it does not mint for a stale prompt. */
  lemma StepKeepsExactly(e: Engine, before: int, ev: Event, now: int)
    requires Inv(e, before) && before <= now && FreshIds(e, ev)
    ensures Inv(Step(e, ev, now).0, now) <==> !MintsForStale(e, ev, now)
  {
    LaterOk(e, before, now);
    if MintsForStale(e, ev, now) {
      MintForStaleBreaks(e, now, ev);
    } else {
      hide Inv, MintsForStale, Reload, Propose, Callback, Cancel, GetStatus, ReleaseCredential;
      match ev {
        case DoReload(hash) => ReloadKeeps(e, now, hash);
        case DoPropose(key, intentId, evaluation) => ProposeKeeps(e, now, key, intentId, evaluation);
        case DoCallback(_, _, _, _, _) => CallbackKeeps(e, now, ev);
        case DoCancel(intentId) => CancelKeeps(e, now, intentId);
        case DoStatus(intentId) => StatusKeeps(e, now, intentId);
        case DoReleaseCredential(id) => ReleaseCredentialKeeps(e, now, id);
      }
    }
  }

  // --- Finality ---

  ghost predicate FinalState(s: PromptState) {
    s.Approved? || s.Denied? || s.Expired? || s.Cancelled?
  }

  lemma CloseOther(e: Engine, id: string, p: Prompt, state: PromptState, other: string)
    requires Distinct(e.prompts) && id != other
    ensures Get(Close(e, id, p, state).prompts, other) == Get(e.prompts, other)
  {
    var p1 := ReleaseReservation(e, p.(state := state));
    var p2 := ReleaseSnapshot(p1.0, p1.1);
    assert p2.0.prompts == e.prompts;
    PutGet(e.prompts, id, p2.1, other);
  }

  /** Approved, denied, expired and cancelled prompts never change again, in any respect. */
  lemma FinalPromptsStay(e: Engine, before: int, ev: Event, now: int, id: string)
    requires Inv(e, before) && before <= now && FreshIds(e, ev)
    requires Get(e.prompts, id).Some? && FinalState(Get(e.prompts, id).value.state)
    ensures Get(Step(e, ev, now).0.prompts, id) == Get(e.prompts, id)
  {
    LaterOk(e, before, now);
    PromptAt(e, now, id);
    var target := EventPrompt(e, ev);
    if target.Some? && target.value != id {
      if ev.DoCallback? {
        CallbackTouchesOnly(e, ev, now, id);
      } else {
        CloseTouchesOnly(e, ev, now, target.value, id);
      }
    } else if ev.DoPropose? && ev.evaluation.RequireApproval? && ev.evaluation.approval.Prompted? {
      NewPromptOther(e, ev, now, id);
    }
    hide Inv, Put, Close;
  }

  /** The prompt an event is about. */
  function EventPrompt(e: Engine, ev: Event): Option<string> {
    match ev
    case DoCallback(id, _, _, _, _) => Some(id)
    case DoCancel(intentId) =>
      if intentId in e.intents && e.intents[intentId].ForPrompt? then Some(e.intents[intentId].promptId) else None
    case DoStatus(intentId) =>
      if intentId in e.intents && e.intents[intentId].ForPrompt? then Some(e.intents[intentId].promptId) else None
    case _ => None
  }

  lemma CallbackTouchesOnly(e: Engine, ev: Event, now: int, other: string)
    requires Distinct(e.prompts) && ev.DoCallback? && ev.id != other
    ensures Get(Callback(e, ev.id, ev.nonce, ev.approve, ev.givenHash, now, ev.minted).0.prompts, other)
      == Get(e.prompts, other)
  {
    hide Close, Get, Put, IsExpired;
    if Get(e.prompts, ev.id).Some? {
      var p := Get(e.prompts, ev.id).value;
      CloseOther(e, ev.id, p, Expired, other);
      CloseOther(e, ev.id, p, Stale, other);
      CloseOther(e, ev.id, p, Denied, other);
      PutGet(e.prompts, ev.id, p.(state := Approved, credential := ev.minted), other);
    }
  }

  lemma CloseTouchesOnly(e: Engine, ev: Event, now: int, id: string, other: string)
    requires Distinct(e.prompts) && EventPrompt(e, ev) == Some(id) && id != other && !ev.DoCallback?
    ensures Get(Step(e, ev, now).0.prompts, other) == Get(e.prompts, other)
  {
    hide Close, Get, Put, IsExpired;
    if Get(e.prompts, id).Some? {
      var p := Get(e.prompts, id).value;
      CloseOther(e, id, p, Expired, other);
      CloseOther(e, id, p, Cancelled, other);
    }
  }

  lemma NewPromptOther(e: Engine, ev: Event, now: int, other: string)
    requires Distinct(e.prompts) && FreshIds(e, ev) && Has(e.prompts, other)
    requires ev.DoPropose? && ev.evaluation.RequireApproval? && ev.evaluation.approval.Prompted?
    ensures Get(Step(e, ev, now).0.prompts, other) == Get(e.prompts, other)
  {
    var a := ev.evaluation.approval;
    if e.store.current.Some? {
      PutGet(e.prompts, a.promptId,
             Prompt(ev.intentId, e.store.current.value, a.nonce, a.expiresAt, a.reservation, PendingApproval,
               Some(a.reservation),
                    true, None), other);
    }
    hide Get, Put;
  }

  ghost predicate StillFinal(rs: map<string, ReservationStatus>, rs': map<string, ReservationStatus>, r: string) {
    r in rs && !rs[r].Reserved? ==> r in rs' && rs'[r] == rs[r]
  }

  lemma CloseFinal(e: Engine, id: string, p: Prompt, state: PromptState, r: string)
    ensures StillFinal(e.reservations, Close(e, id, p, state).reservations, r)
  {
    hide Put, Gc, Release;
  }

  lemma CallbackFinal(e: Engine, ev: Event, now: int, r: string)
    requires ev.DoCallback?
    ensures StillFinal(e.reservations,
      Callback(e, ev.id, ev.nonce, ev.approve, ev.givenHash, now, ev.minted).0.reservations, r)
  {
    hide Close, Get, Put, IsExpired;
    if Get(e.prompts, ev.id).Some? {
      var p := Get(e.prompts, ev.id).value;
      CloseFinal(e, ev.id, p, Expired, r);
      CloseFinal(e, ev.id, p, Stale, r);
      CloseFinal(e, ev.id, p, Denied, r);
    }
  }

  lemma ProposeFinal(e: Engine, ev: Event, now: int, r: string)
    requires ev.DoPropose? && FreshIds(e, ev)
    ensures StillFinal(e.reservations, Propose(e, ev.key, ev.intentId, ev.evaluation).0.reservations, r)
  {
    hide Put, Gc, Release, Has;
  }

  /** A reservation is committed or freed at most once, never both. */
  lemma ReservationsFinal(e: Engine, ev: Event, now: int, r: string)
    requires FreshIds(e, ev) && r in e.reservations && !e.reservations[r].Reserved?
    ensures var e' := Step(e, ev, now).0; r in e'.reservations && e'.reservations[r] == e.reservations[r]
  {
    hide Close, Get, Put, IsExpired, Callback, Propose, FreshIds;
    if ev.DoCallback? {
      CallbackFinal(e, ev, now, r);
    } else if ev.DoPropose? {
      ProposeFinal(e, ev, now, r);
    } else {
      var id := EventPrompt(e, ev);
      if id.Some? && Get(e.prompts, id.value).Some? {
        CloseFinal(e, id.value, Get(e.prompts, id.value).value, Expired, r);
        CloseFinal(e, id.value, Get(e.prompts, id.value).value, Cancelled, r);
      }
    }
  }

  // --- Whole runs ---

  ghost predicate Run(e: Engine, before: int, events: seq<(Event, int)>)
    decreases |events|
  {
    events == [] ||
    (before <= events[0].1 && FreshIds(e, events[0].0) && !MintsForStale(e, events[0].0, events[0].1) &&
     Run(Step(e, events[0].0, events[0].1).0, events[0].1, events[1..]))
  }

  function After(e: Engine, events: seq<(Event, int)>): Engine
    decreases |events|
  {
    if events == [] then e else After(Step(e, events[0].0, events[0].1).0, events[1..])
  }

  function LastTime(before: int, events: seq<(Event, int)>): int
    decreases |events|
  {
    if events == [] then before else LastTime(events[0].1, events[1..])
  }

  lemma {:induction false} RunKeeps(e: Engine, before: int, events: seq<(Event, int)>)
    requires Inv(e, before) && Run(e, before, events)
    ensures Inv(After(e, events), LastTime(before, events))
    decreases |events|
  {
    hide Inv, Step, FreshIds, MintsForStale;
    if events != [] {
      StepKeepsExactly(e, before, events[0].0, events[0].1);
      RunKeeps(Step(e, events[0].0, events[0].1).0, events[0].1, events[1..]);
    }
  }

  const EMPTY := Engine(Store(map[], None), [], [], map[], map[], map[])

  /** In every such run from an empty engine, each count is pending prompts plus unreleased
      credentials; so no release is refused and nothing held or in force is collected. */
  lemma CountsExact(start: int, events: seq<(Event, int)>, hash: string)
    requires Run(EMPTY, start, events)
    ensures var e := After(EMPTY, events);
            Refs(e.store, hash) == Holders(e, hash) && (Holders(e, hash) > 0 || e.store.current == Some(hash) ==>
              hash in e.store.refcounts)
    ensures var e := After(EMPTY, events);
            forall id :: Get(e.credentials, id).Some? ==> ReleaseCredential(e, id).1 == Ok
  {
    assert Inv(EMPTY, start);
    RunKeeps(EMPTY, start, events);
    var e, now := After(EMPTY, events), LastTime(start, events);
    forall id | Get(e.credentials, id).Some?
      ensures ReleaseCredential(e, id).1 == Ok
    {
      ReleaseCredentialKeeps(e, now, id);
    }
    assert Refs(e.store, hash) == Holders(e, hash);
  }

  ghost predicate MintedFor(e: Engine, credential: string, promptId: string) {
    Get(e.credentials, credential).Some? && Get(e.credentials, credential).value.prompt == Some(promptId)
  }

  /** And every prompt's reservation is where its state says; it has at most one credential. */
  lemma PromptsConsistent(start: int, events: seq<(Event, int)>, id: string)
    requires Run(EMPTY, start, events) && Get(After(EMPTY, events).prompts, id).Some?
    ensures var e := After(EMPTY, events);
            var p := Get(e.prompts, id).value;
            HeldIs(e, p, if p.state.PendingApproval? then Reserved else if p.state.Approved? then Committed else Freed)
    ensures forall c, d :: MintedFor(After(EMPTY, events), c, id) && MintedFor(After(EMPTY, events), d, id) ==> c == d
  {
    assert Inv(EMPTY, start);
    RunKeeps(EMPTY, start, events);
    var e, now := After(EMPTY, events), LastTime(start, events);
    PromptAt(e, now, id);
    forall c | Get(e.credentials, c).Some?
      ensures CredentialOk(e, c, Get(e.credentials, c).value)
    {
      var i := IndexOf(e.credentials, c);
      assert CredentialOk(e, e.credentials[i].0, e.credentials[i].1);
    }
  }

  /** What a status query reports: approved prompts with their one credential, pending ones only
      until they expire, and stale, cancelled and denied ones alike as denied. */
  lemma StatusMeans(e: Engine, before: int, intentId: string, now: int)
    requires Inv(e, before) && before <= now && intentId in e.intents && e.intents[intentId].ForPrompt?
    requires Get(e.prompts, e.intents[intentId].promptId).Some?
    ensures var p := Get(e.prompts, e.intents[intentId].promptId).value;
            var reply := GetStatus(e, intentId, now).1;
            reply.Status? && reply.promptId == Some(e.intents[intentId].promptId) &&
            (reply.status.ReportedPending? <==> p.state.PendingApproval? && now < p.expiresAt) &&
            (reply.status.ReportedApproved? <==> p.state.Approved?) &&
            (reply.status.ReportedExpired? <==> p.state.Expired? || (p.state.PendingApproval? && p.expiresAt <= now)) &&
            (p.state.Approved? ==> reply.credential == p.credential && reply.credential.Some?)
  {
    LaterOk(e, before, now);
    var id := e.intents[intentId].promptId;
    PromptAt(e, now, id);
    var p := Get(e.prompts, id).value;
    if p.state.PendingApproval? && IsExpired(p, now) {
      Closed(e, now, id, Expired);
      PutGet(e.prompts, id, p.(state := Expired, reservation := None, retained := false), id);
    }
    hide Inv, Close, Get, Put;
  }

  // --- The step that breaks the counts is reachable ---

  /** The engine after a policy is loaded and a prompt is raised under it. */
  function Prompting(hash: string, key: string, intentId: string, promptId: string, nonce: string, expiresAt: int,
      reservation: string): Engine
  {
    Engine(Store(map[hash := 1], Some(hash)),
           [(promptId, Prompt(intentId, hash, nonce, expiresAt, reservation, PendingApproval, Some(reservation), true,
             None))], [],
           map[reservation := Reserved], map[intentId := ForPrompt(promptId)], map[key := PendingEnvelope(promptId)])
  }

  /** And after a callback that names another policy. */
  function Staled(hash: string, key: string, intentId: string, promptId: string, nonce: string, expiresAt: int,
      reservation: string): Engine
  {
    Engine(Store(map[hash := 0], Some(hash)),
           [(promptId, Prompt(intentId, hash, nonce, expiresAt, reservation, PromptState.Stale, None, false, None))],
             [],
           map[reservation := Freed], map[intentId := ForPrompt(promptId)], map[key := PendingEnvelope(promptId)])
  }

  lemma PromptRaised(hash: string, key: string, intentId: string, promptId: string, nonce: string, expiresAt: int,
      reservation: string)
    ensures Step(Step(EMPTY, DoReload(hash), 0).0,
                 DoPropose(key, intentId, RequireApproval(Prompted(promptId, nonce, expiresAt, reservation))), 1).0
         == Prompting(hash, key, intentId, promptId, nonce, expiresAt, reservation)
  {
    var e1 := Step(EMPTY, DoReload(hash), 0).0;
    assert e1.store.refcounts == map[hash := 0];
  }

  lemma CallbackStales(hash: string, other: string, key: string, intentId: string, promptId: string, nonce: string,
      expiresAt: int, reservation: string)
    requires other != hash && expiresAt > 2
    ensures var e := Prompting(hash, key, intentId, promptId, nonce, expiresAt, reservation);
            Step(e, DoCallback(promptId, nonce, true, Some(other), None), 2).0
            == Staled(hash, key, intentId, promptId, nonce, expiresAt, reservation)
  {
    var e := Prompting(hash, key, intentId, promptId, nonce, expiresAt, reservation);
    var p := e.prompts[0].1;
    assert Get(e.prompts, promptId) == Some(p);
    var closed := Close(e, promptId, p, PromptState.Stale);
    assert closed.store.refcounts == map[hash := 0];
    assert closed.reservations == map[reservation := Freed];
  }

  lemma Ends(e: Engine, before: int)
    ensures Run(e, before, []) && After(e, []) == e && LastTime(before, []) == before
  {
  }

  lemma Unrolls(e: Engine, before: int, ev: Event, at: int, rest: seq<(Event, int)>)
    requires before <= at && FreshIds(e, ev) && !MintsForStale(e, ev, at) && Run(Step(e, ev, at).0, at, rest)
    ensures Run(e, before, [(ev, at)] + rest)
    ensures After(e, [(ev, at)] + rest) == After(Step(e, ev, at).0, rest)
    ensures LastTime(before, [(ev, at)] + rest) == LastTime(at, rest)
  {
    hide Step, FreshIds, MintsForStale;
    var events := [(ev, at)] + rest;
    assert events[0] == (ev, at) && events[1..] == rest;
  }

  /** From an empty engine: a policy is loaded, a prompt raised, and a callback names another
      policy; that run keeps the counts, and approving the prompt next breaks them. */
  lemma MintForStaleReachable(hash: string, other: string, key: string, intentId: string, promptId: string,
      nonce: string, expiresAt: int, reservation: string, credential: string)
    requires other != hash && expiresAt > 3
    ensures var events := [(DoReload(hash), 0),
                           (DoPropose(key, intentId,
                             RequireApproval(Prompted(promptId, nonce, expiresAt, reservation))), 1),
                           (DoCallback(promptId, nonce, true, Some(other), None), 2)];
            var approval := DoCallback(promptId, nonce, true, None, Some(credential));
            Run(EMPTY, 0, events) && MintsForStale(After(EMPTY, events), approval, 3) &&
            !Exact(Step(After(EMPTY, events), approval, 3).0)
  {
    var propose := DoPropose(key, intentId, RequireApproval(Prompted(promptId, nonce, expiresAt, reservation)));
    var stale := DoCallback(promptId, nonce, true, Some(other), None);
    var approval := DoCallback(promptId, nonce, true, None, Some(credential));
    var events := [(DoReload(hash), 0), (propose, 1), (stale, 2)];
    var e1 := Step(EMPTY, DoReload(hash), 0).0;
    var e2 := Prompting(hash, key, intentId, promptId, nonce, expiresAt, reservation);
    var e3 := Staled(hash, key, intentId, promptId, nonce, expiresAt, reservation);
    PromptRaised(hash, key, intentId, promptId, nonce, expiresAt, reservation);
    CallbackStales(hash, other, key, intentId, promptId, nonce, expiresAt, reservation);
    assert FreshIds(EMPTY, DoReload(hash)) && FreshIds(e1, propose) && FreshIds(e2, stale) && FreshIds(e3, approval);
    assert !MintsForStale(e2, stale, 2);
    assert MintsForStale(e3, approval, 3);
    assert Inv(EMPTY, 0);
    NotCallbacks(EMPTY, DoReload(hash), 0);
    NotCallbacks(e1, propose, 1);
    hide Step, FreshIds, MintsForStale, Inv, Prompting, Staled, Exact, Run, After, LastTime;
    var last: seq<(Event, int)> := [(stale, 2)];
    Ends(e3, 2);
    Unrolls(e2, 1, stale, 2, []);
    Unrolls(e1, 0, propose, 1, last);
    Unrolls(EMPTY, 0, DoReload(hash), 0, [(propose, 1)] + last);
    assert events == [(DoReload(hash), 0)] + ([(propose, 1)] + last) && last + [] == last;
    RunKeeps(EMPTY, 0, events);
    LaterOk(e3, 2, 3);
    MintForStaleBreaks(e3, 3, approval);
  }

  lemma NotCallbacks(e: Engine, ev: Event, now: int)
    requires !ev.DoCallback?
    ensures !MintsForStale(e, ev, now)
  {
  }
}
