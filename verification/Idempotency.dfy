/** The in-memory idempotency store, as interleaved steps: a step is what runs between two awaits. */
module Idempotency {
  import opened Records

  datatype Response = Response(status: int, body: string)

  /** What the guarded function comes back with. */
  datatype FnResult = Returns(status: real, body: string) | Throws(error: string)

  datatype Outcome = Pending | Done(response: Response, expiresAt: int) | Failed(error: string)

  /** One run of the guarded function; `over` once its owner has cleared the in-flight entry. */
  datatype Flight = Flight(key: string, hash: string, start: int, outcome: Outcome, over: bool)

  datatype CacheRecord = CacheRecord(hash: string, response: Response, expiresAt: int)

  datatype Entry = Entry(hash: string, promise: nat)

  datatype Reply = Answer(response: Response) | Conflict | Error(error: string)

  /** A caller, the run it was referred to, and what it was told, once it was told. */
  datatype Call = Call(key: string, hash: string, time: int, flight: nat, owner: bool, reply: Option<Reply>)

  datatype State = State(
    ttl: int, now: int, cache: map<string, CacheRecord>, inFlight: map<string, Entry>, flights: seq<Flight>,
      calls: seq<Call>)

  datatype Step = Arrive(key: string, hash: string, time: int) | Settle(flight: nat, result: FnResult, time: int)
    | Resume(call: nat)

  /** The latest run for a key, or -1. */
  function Last(flights: seq<Flight>, key: string): (f: int)
    ensures -1 <= f < |flights|
    ensures f >= 0 ==> flights[f].key == key
    ensures forall g :: f < g < |flights| ==> flights[g].key != key
  {
    if flights == [] then -1
    else if flights[|flights| - 1].key == key then |flights| - 1
    else Last(flights[..|flights| - 1], key)
  }

  function Prune(cache: map<string, CacheRecord>, now: int): map<string, CacheRecord> {
    map k | k in cache && now < cache[k].expiresAt :: cache[k]
  }

  function ReplyOf(outcome: Outcome): Option<Reply> {
    match outcome
    case Pending => None
    case Done(response, _) => Some(Answer(response))
    case Failed(error) => Some(Error(error))
  }

  predicate IsInteger(x: real) {
    x.Floor as real == x
  }

  function OutcomeOf(result: FnResult, now: int, ttl: int): Outcome {
    match result
    case Throws(error) => Failed(error)
    case Returns(status, body) =>
      if IsInteger(status) then Done(Response(status.Floor, body), now + 1000 * ttl)
      else Failed("idempotency response status must be an integer")
  }

  predicate Enabled(s: State, step: Step) {
    match step
    case Arrive(_, _, time) => s.now <= time
    case Settle(f, _, time) => s.now <= time && f < |s.flights| && s.flights[f].outcome.Pending?
    case Resume(c) =>
      c < |s.calls| && s.calls[c].reply.None? && s.calls[c].flight < |s.flights|
      && !s.flights[s.calls[c].flight].outcome.Pending?
  }

  /** The start of `remember`, up to its first await. */
  function Arrived(s: State, key: string, hash: string, time: int): State {
    var s1 := s.(now := time, cache := Prune(s.cache, time));
    var last := Last(s.flights, key);
    var f := if last < 0 then 0 else last;
    if key in s1.cache then
      var record := s1.cache[key];
      s1.(calls := s.calls + [Call(key, hash, time, f, false,
        Some(if record.hash != hash then Conflict else Answer(record.response)))])
    else if key in s.inFlight then
      var entry := s.inFlight[key];
      s1.(calls := s.calls + [Call(key, hash, time, entry.promise, false, if entry.hash != hash then Some(Conflict)
        else None)])
    else
      s1.(flights := s.flights + [Flight(key, hash, time, Pending, false)],
          inFlight := s.inFlight[key := Entry(hash, |s.flights|)],
          calls := s.calls + [Call(key, hash, time, |s.flights|, true, None)])
  }

  /** The run has come to something; a response is stored. */
  function Settled(s: State, f: nat, outcome: Outcome, time: int): State
    requires f < |s.flights|
  {
    var flight := s.flights[f];
    s.(now := time, flights := s.flights[f := flight.(outcome := outcome)],
       cache := if outcome.Done?
         then s.cache[flight.key := CacheRecord(flight.hash, outcome.response, outcome.expiresAt)] else s.cache)
  }

  function Next(s: State, step: Step): State
    requires Enabled(s, step)
  {
    match step
    case Arrive(key, hash, time) => Arrived(s, key, hash, time)
    case Settle(f, result, time) => Settled(s, f, OutcomeOf(result, time, s.ttl), time)
    case Resume(c) =>
      var call := s.calls[c];
      var flight := s.flights[call.flight];
      var s1 := s.(calls := s.calls[c := call.(reply := ReplyOf(flight.outcome))]);
      if call.owner then s1.(inFlight := s.inFlight - {call.key},
        flights := s.flights[call.flight := flight.(over := true)]) else s1
  }

  // --- As it runs ---

  class MemoryIdempotencyStore {
    const ttlSeconds: int
    var cache: map<string, CacheRecord>
    var inFlight: map<string, Entry>
    var flights: seq<Flight>
    var calls: seq<Call>
    ghost var now: int

    constructor (ttl: int, start: int)
      ensures Value() == Initial(ttl, start)
    {
      ttlSeconds, cache, inFlight, flights, calls, now := ttl, map[], map[], [], [], start;
    }

    ghost function Value(): State
      reads this
    {
      State(ttlSeconds, now, cache, inFlight, flights, calls)
    }

    method PruneExpired(time: int)
      modifies `cache
      ensures cache == Prune(old(cache), time)
    {
      var rest := cache.Keys;
      while rest != {}
        invariant rest <= old(cache.Keys)
        invariant forall k :: k in cache <==> k in old(cache) && (k in rest || time < old(cache)[k].expiresAt)
        invariant forall k :: k in cache ==> cache[k] == old(cache)[k]
        decreases rest
      {
        var key :| key in rest;
        rest := rest - {key};
        if cache[key].expiresAt <= time {
          cache := cache - {key};
        }
      }
    }

    /** Answers at once, joins a run, or starts one; `reply` is `None` while the caller awaits. */
    method Remember(key: string, hash: string, time: int) returns (reply: Option<Reply>)
      requires Enabled(Value(), Arrive(key, hash, time))
      modifies this
      ensures Value() == Next(old(Value()), Arrive(key, hash, time)) && reply == calls[|calls| - 1].reply
    {
      now := time;
      PruneExpired(time);
      var last := Last(flights, key);
      if key in cache {
        var record := cache[key];
        reply := Some(if record.hash != hash then Conflict else Answer(record.response));
        calls := calls + [Call(key, hash, time, if last < 0 then 0 else last, false, reply)];
        return;
      }
      if key in inFlight {
        var entry := inFlight[key];
        reply := if entry.hash != hash then Some(Conflict) else None;
        calls := calls + [Call(key, hash, time, entry.promise, false, reply)];
        return;
      }
      flights := flights + [Flight(key, hash, time, Pending, false)];
      inFlight := inFlight[key := Entry(hash, |flights| - 1)];
      reply := None;
      calls := calls + [Call(key, hash, time, |flights| - 1, true, None)];
    }

    /** The guarded function has come back: its response is stored unless it is unusable. */
    method FinishRun(f: nat, result: FnResult, time: int)
      requires Enabled(Value(), Settle(f, result, time))
      modifies this
      ensures Value() == Next(old(Value()), Settle(f, result, time))
    {
      now := time;
      var flight := flights[f];
      if result.Throws? {
        flights := flights[f := flight.(outcome := Failed(result.error))];
        return;
      }
      if !IsInteger(result.status) {
        flights := flights[f := flight.(outcome := Failed("idempotency response status must be an integer"))];
        return;
      }
      var response := Response(result.status.Floor, result.body);
      cache := cache[flight.key := CacheRecord(flight.hash, response, time + 1000 * ttlSeconds)];
      flights := flights[f := flight.(outcome := Done(response, time + 1000 * ttlSeconds))];
    }

    /** A caller's await returns; the one that started the run clears the in-flight entry. */
    method ResumeCall(c: nat) returns (reply: Reply)
      requires Enabled(Value(), Resume(c))
      modifies this
      ensures Value() == Next(old(Value()), Resume(c)) && calls[c].reply == Some(reply)
    {
      var call := calls[c];
      var flight := flights[call.flight];
      reply := if flight.outcome.Done? then Answer(flight.outcome.response) else Error(flight.outcome.error);
      if call.owner {
        inFlight := inFlight - {call.key};
        flights := flights[call.flight := flight.(over := true)];
      }
      calls := calls[c := call.(reply := Some(reply))];
    }
  }

  // --- The invariant ---

  ghost predicate EntriesOk(s: State) {
    && (forall k :: k in s.inFlight ==>
          var e := s.inFlight[k];
          e.promise == Last(s.flights, k) && !s.flights[e.promise].over && s.flights[e.promise].hash == e.hash)
    && (forall f :: 0 <= f < |s.flights| && !s.flights[f].over ==>
          s.flights[f].key in s.inFlight && s.inFlight[s.flights[f].key].promise == f)
  }

  ghost predicate RecordOf(flight: Flight, r: CacheRecord) {
    flight.outcome == Done(r.response, r.expiresAt) && flight.hash == r.hash
  }

  /** What is cached for a key is the response of its latest run. */
  ghost predicate CachedOk(s: State, key: string) {
    key in s.cache ==> Last(s.flights, key) >= 0 && RecordOf(s.flights[Last(s.flights, key)], s.cache[key])
  }

  /** The latest run's response stays cached until it expires. */
  ghost predicate KeptOk(s: State, f: nat)
    requires f < |s.flights|
  {
    var flight := s.flights[f];
    flight.outcome.Done? && s.now < flight.outcome.expiresAt && f == Last(s.flights, flight.key) ==>
      flight.key in s.cache
  }

  ghost predicate CacheOk(s: State) {
    (forall k :: CachedOk(s, k)) && (forall f :: 0 <= f < |s.flights| ==> KeptOk(s, f))
  }

  /** `earlier` was over, and its record gone, by the time `later` began. */
  ghost predicate Before(earlier: Flight, later: Flight) {
    earlier.over && !earlier.outcome.Pending? && (earlier.outcome.Done? ==> earlier.outcome.expiresAt <= later.start)
  }

  ghost predicate FlightsOk(s: State) {
    && (forall i, j :: 0 <= i < j < |s.flights| && s.flights[i].key == s.flights[j].key ==>
      Before(s.flights[i], s.flights[j]))
    && (forall f :: 0 <= f < |s.flights| ==>
      s.flights[f].start <= s.now && (s.flights[f].over ==> !s.flights[f].outcome.Pending?))
  }

  /** What a caller was told is what its run came to; a different body hash conflicts. */
  ghost predicate CallOk(flights: seq<Flight>, c: Call) {
    c.flight < |flights| &&
    var f := flights[c.flight];
    f.key == c.key && f.start <= c.time && (f.hash != c.hash ==> c.reply == Some(Conflict) && !c.owner) &&
    (f.hash == c.hash && c.reply.Some? ==> c.reply == ReplyOf(f.outcome)) &&
    (c.owner ==> (c.reply.Some? <==> f.over))
  }

  ghost predicate CallsOk(s: State) {
    && (forall c :: 0 <= c < |s.calls| ==> CallOk(s.flights, s.calls[c]))
    && (forall c, d :: 0 <= c < d < |s.calls| && s.calls[c].owner && s.calls[d].owner ==>
      s.calls[c].flight != s.calls[d].flight)
  }

  ghost predicate Inv(s: State) {
    EntriesOk(s) && CacheOk(s) && FlightsOk(s) && CallsOk(s)
  }

  // --- Every step keeps it ---

  lemma LastIs(flights: seq<Flight>, key: string, f: nat)
    requires f < |flights| && flights[f].key == key && forall g :: f < g < |flights| ==> flights[g].key != key
    ensures Last(flights, key) == f
  {
    var l := Last(flights, key);
    assert l >= f;
  }

  lemma LastAppend(flights: seq<Flight>, flight: Flight, key: string)
    ensures Last(flights + [flight], key) == if flight.key == key then |flights| else Last(flights, key)
  {
    assert (flights + [flight])[..|flights|] == flights;
  }

  lemma PruneKeeps(s: State, time: int)
    requires Inv(s) && s.now <= time
    ensures Inv(s.(now := time, cache := Prune(s.cache, time)))
  {
    hide Last, CallOk, Before;
    var s' := s.(now := time, cache := Prune(s.cache, time));
    forall k
      ensures CachedOk(s', k)
    {
      assert CachedOk(s, k);
    }
    forall f | 0 <= f < |s.flights|
      ensures KeptOk(s', f)
    {
      assert KeptOk(s, f);
      assert CachedOk(s, s.flights[f].key);
    }
  }

  /** A caller that is answered at once, or joins a run, is told about the latest run. */
  lemma JoinKeeps(s: State, c: Call)
    requires Inv(s) && CallOk(s.flights, c) && !c.owner
    ensures Inv(s.(calls := s.calls + [c]))
  {
    hide Last, CallOk, Before, RecordOf;
    var s' := s.(calls := s.calls + [c]);
    assert forall k :: CachedOk(s, k) ==> CachedOk(s', k);
    assert forall f :: 0 <= f < |s.flights| && KeptOk(s, f) ==> KeptOk(s', f);
  }

  lemma LaunchFlights(s: State, key: string, hash: string, time: int)
    requires Inv(s) && s.now <= time && key !in s.inFlight && key !in Prune(s.cache, time)
    ensures forall f :: 0 <= f < |s.flights| && s.flights[f].key == key ==>
      Before(s.flights[f], Flight(key, hash, time, Pending, false))
  {
    hide CallOk;
    PruneKeeps(s, time);
    var s1 := s.(now := time, cache := Prune(s.cache, time));
    var l := Last(s.flights, key);
    hide Last;
    forall f | 0 <= f < |s.flights| && s.flights[f].key == key
      ensures Before(s.flights[f], Flight(key, hash, time, Pending, false))
    {
      assert l >= f;
      if f < l {
        assert Before(s.flights[f], s.flights[l]);
      } else {
        assert KeptOk(s1, f);
      }
    }
  }

  function Launched(s: State, key: string, hash: string): State {
    s.(flights := s.flights + [Flight(key, hash, s.now, Pending, false)],
       inFlight := s.inFlight[key := Entry(hash, |s.flights|)],
       calls := s.calls + [Call(key, hash, s.now, |s.flights|, true, None)])
  }

  lemma LaunchEntries(s: State, key: string, hash: string)
    requires EntriesOk(s) && key !in s.inFlight
    ensures EntriesOk(Launched(s, key, hash))
  {
    var s' := Launched(s, key, hash);
    hide Last;
    forall k
      ensures Last(s'.flights, k) == if k == key then |s.flights| else Last(s.flights, k)
    {
      LastAppend(s.flights, s'.flights[|s.flights|], k);
    }
  }

  lemma LaunchCache(s: State, key: string, hash: string)
    requires CacheOk(s) && key !in s.cache
    ensures CacheOk(Launched(s, key, hash))
  {
    var s' := Launched(s, key, hash);
    hide Last, RecordOf;
    forall k
      ensures CachedOk(s', k)
    {
      LastAppend(s.flights, s'.flights[|s.flights|], k);
      assert CachedOk(s, k);
    }
    forall f | 0 <= f < |s'.flights|
      ensures KeptOk(s', f)
    {
      LastAppend(s.flights, s'.flights[|s.flights|], s'.flights[f].key);
      assert f < |s.flights| ==> KeptOk(s, f);
    }
  }

  lemma LaunchCalls(s: State, key: string, hash: string)
    requires CallsOk(s)
    ensures CallsOk(Launched(s, key, hash))
  {
    var s' := Launched(s, key, hash);
    forall c | 0 <= c < |s.calls|
      ensures CallOk(s'.flights, s.calls[c]) && s.calls[c].flight < |s.flights|
    {
      assert CallOk(s.flights, s.calls[c]);
    }
  }

  lemma LaunchKeeps(s: State, key: string, hash: string)
    requires Inv(s) && key !in s.inFlight && key !in s.cache
    ensures Inv(Launched(s, key, hash))
  {
    PruneTwice(s, key);
    LaunchFlights(s, key, hash, s.now);
    LaunchEntries(s, key, hash);
    LaunchCache(s, key, hash);
    LaunchCalls(s, key, hash);
    hide Before, EntriesOk, CacheOk, CallsOk, Last, Prune;
  }

  lemma PruneTwice(s: State, key: string)
    requires key !in s.cache
    ensures key !in Prune(s.cache, s.now)
  {
  }

  lemma CachedKeeps(s: State, key: string, hash: string)
    requires Inv(s) && key in s.cache && Last(s.flights, key) >= 0
    ensures Inv(s.(calls := s.calls + [Call(key, hash, s.now, Last(s.flights, key), false,
                                            Some(if s.cache[key].hash != hash then Conflict
                                              else Answer(s.cache[key].response)))]))
  {
    hide Last, CallsOk;
    var f := Last(s.flights, key);
    assert CachedOk(s, key);
    JoinKeeps(s, Call(key, hash, s.now, f, false, Some(if s.cache[key].hash != hash then Conflict
      else Answer(s.cache[key].response))));
  }

  lemma JoinedKeeps(s: State, key: string, hash: string)
    requires Inv(s) && key in s.inFlight
    ensures var e := s.inFlight[key];
            Inv(s.(calls := s.calls + [Call(key, hash, s.now, e.promise, false, if e.hash != hash then Some(Conflict)
              else None)]))
  {
    hide Last, CallsOk, CacheOk;
    var e := s.inFlight[key];
    assert e.promise == Last(s.flights, key);
    JoinKeeps(s, Call(key, hash, s.now, e.promise, false, if e.hash != hash then Some(Conflict) else None));
  }

  lemma CachedHasRun(s: State, key: string)
    requires Inv(s) && key in s.cache
    ensures Last(s.flights, key) >= 0
  {
    hide Last, CallsOk, FlightsOk, EntriesOk;
    assert CachedOk(s, key);
  }

  lemma ArriveKeeps(s: State, key: string, hash: string, time: int)
    requires Inv(s) && s.now <= time
    ensures Inv(Arrived(s, key, hash, time))
  {
    PruneKeeps(s, time);
    hide Last, Prune, Inv;
    var s1 := s.(now := time, cache := Prune(s.cache, time));
    if key in s1.cache {
      CachedHasRun(s1, key);
      CachedKeeps(s1, key, hash);
    } else if key in s.inFlight {
      JoinedKeeps(s1, key, hash);
    } else {
      LaunchKeeps(s1, key, hash);
    }
  }

  /** While a run is pending its key has no record and no other run. */
  lemma PendingAlone(s: State, f: nat)
    requires Inv(s) && f < |s.flights| && s.flights[f].outcome.Pending?
    ensures f == Last(s.flights, s.flights[f].key) && s.flights[f].key !in s.cache && !s.flights[f].over
  {
    hide Last, CallOk;
    assert CachedOk(s, s.flights[f].key);
  }

  /** A run that changes its outcome or its `over` mark is still the same run of the same key. */
  ghost predicate SameRuns(a: seq<Flight>, b: seq<Flight>) {
    |a| == |b| && forall f ::
      0 <= f < |a| ==> a[f].key == b[f].key && a[f].hash == b[f].hash && a[f].start == b[f].start
  }

  lemma SameLast(a: seq<Flight>, b: seq<Flight>, key: string)
    requires SameRuns(a, b)
    ensures Last(b, key) == Last(a, key)
  {
    var l := Last(a, key);
    hide Last;
    if l >= 0 {
      LastIs(b, key, l);
    }
  }

  ghost predicate Settles(s: State, f: nat, outcome: Outcome, time: int) {
    s.now <= time && f < |s.flights| && s.flights[f].outcome.Pending? && !outcome.Pending?
  }

  lemma SettleEntries(s: State, f: nat, outcome: Outcome, time: int)
    requires Inv(s) && Settles(s, f, outcome, time)
    ensures EntriesOk(Settled(s, f, outcome, time))
  {
    hide Last, CacheOk, CallsOk, FlightsOk;
    var s' := Settled(s, f, outcome, time);
    forall k
      ensures Last(s'.flights, k) == Last(s.flights, k)
    {
      SameLast(s.flights, s'.flights, k);
    }
  }

  lemma SettleCached(s: State, f: nat, outcome: Outcome, time: int, key: string)
    requires Inv(s) && Settles(s, f, outcome, time)
    ensures CachedOk(Settled(s, f, outcome, time), key)
  {
    PendingAlone(s, f);
    assert CachedOk(s, key);
    hide Last, CallsOk, EntriesOk, FlightsOk, CacheOk;
    SameLast(s.flights, Settled(s, f, outcome, time).flights, key);
  }

  lemma SettleKept(s: State, f: nat, outcome: Outcome, time: int, g: nat)
    requires Inv(s) && Settles(s, f, outcome, time) && g < |s.flights|
    ensures KeptOk(Settled(s, f, outcome, time), g)
  {
    PendingAlone(s, f);
    assert KeptOk(s, g);
    hide Last, CallsOk, EntriesOk, FlightsOk, CacheOk;
    SameLast(s.flights, Settled(s, f, outcome, time).flights, s.flights[g].key);
  }

  lemma SettleCache(s: State, f: nat, outcome: Outcome, time: int)
    requires Inv(s) && Settles(s, f, outcome, time)
    ensures CacheOk(Settled(s, f, outcome, time))
  {
    hide Inv, CachedOk, KeptOk;
    var s' := Settled(s, f, outcome, time);
    forall k
      ensures CachedOk(s', k)
    {
      SettleCached(s, f, outcome, time, k);
    }
    forall g | 0 <= g < |s'.flights|
      ensures KeptOk(s', g)
    {
      SettleKept(s, f, outcome, time, g);
    }
  }

  lemma SettleCalls(s: State, f: nat, outcome: Outcome, time: int)
    requires Inv(s) && Settles(s, f, outcome, time)
    ensures CallsOk(Settled(s, f, outcome, time))
  {
    PendingAlone(s, f);
    hide Last, EntriesOk, CacheOk, FlightsOk;
    var s' := Settled(s, f, outcome, time);
    forall c | 0 <= c < |s.calls|
      ensures CallOk(s'.flights, s.calls[c])
    {
      assert CallOk(s.flights, s.calls[c]);
    }
  }

  lemma SettleFlights(s: State, f: nat, outcome: Outcome, time: int)
    requires Inv(s) && Settles(s, f, outcome, time)
    ensures FlightsOk(Settled(s, f, outcome, time))
  {
    PendingAlone(s, f);
    hide Last, EntriesOk, CacheOk, CallsOk;
  }

  lemma SettleKeeps(s: State, f: nat, outcome: Outcome, time: int)
    requires Inv(s) && Settles(s, f, outcome, time)
    ensures Inv(Settled(s, f, outcome, time))
  {
    SettleEntries(s, f, outcome, time);
    SettleCache(s, f, outcome, time);
    SettleCalls(s, f, outcome, time);
    SettleFlights(s, f, outcome, time);
    hide EntriesOk, CacheOk, CallsOk, FlightsOk;
  }

  lemma OutcomeSettled(result: FnResult, now: int, ttl: int)
    ensures !OutcomeOf(result, now, ttl).Pending?
  {
  }

  lemma ResumeEntries(s: State, c: nat)
    requires Inv(s) && Enabled(s, Resume(c))
    ensures EntriesOk(Next(s, Resume(c)))
  {
    hide Arrived, Last, FlightsOk, CacheOk, ReplyOf;
    var s' := Next(s, Resume(c));
    assert CallOk(s.flights, s.calls[c]);
    forall k
      ensures Last(s'.flights, k) == Last(s.flights, k)
    {
      SameLast(s.flights, s'.flights, k);
    }
  }

  lemma ResumeCache(s: State, c: nat)
    requires CacheOk(s) && Enabled(s, Resume(c))
    ensures CacheOk(Next(s, Resume(c)))
  {
    hide Arrived, Last, ReplyOf;
    var s' := Next(s, Resume(c));
    forall k
      ensures CachedOk(s', k)
    {
      SameLast(s.flights, s'.flights, k);
      assert CachedOk(s, k);
    }
    forall g | 0 <= g < |s'.flights|
      ensures KeptOk(s', g)
    {
      SameLast(s.flights, s'.flights, s.flights[g].key);
      assert KeptOk(s, g);
    }
  }

  lemma ResumeCalls(s: State, c: nat)
    requires Inv(s) && Enabled(s, Resume(c))
    ensures CallsOk(Next(s, Resume(c)))
  {
    hide Arrived, Last, EntriesOk, CacheOk, FlightsOk;
    var s' := Next(s, Resume(c));
    assert CallOk(s.flights, s.calls[c]);
    forall d | 0 <= d < |s.calls|
      ensures CallOk(s'.flights, s'.calls[d])
    {
      assert CallOk(s.flights, s.calls[d]);
    }
  }

  lemma ResumeKeeps(s: State, c: nat)
    requires Inv(s) && Enabled(s, Resume(c))
    ensures Inv(Next(s, Resume(c)))
  {
    ResumeEntries(s, c);
    ResumeCache(s, c);
    ResumeCalls(s, c);
    hide Arrived, Last, EntriesOk, CacheOk, CallsOk, ReplyOf;
  }

  lemma StepKeeps(s: State, step: Step)
    requires Inv(s) && Enabled(s, step)
    ensures Inv(Next(s, step))
  {
    hide Inv, Arrived, Settled, OutcomeOf;
    match step {
      case Arrive(key, hash, time) => ArriveKeeps(s, key, hash, time);
      case Settle(f, result, time) =>
        OutcomeSettled(result, time, s.ttl);
        SettleKeeps(s, f, OutcomeOf(result, time, s.ttl), time);
      case Resume(c) => ResumeKeeps(s, c);
    }
  }

  // --- Whole runs ---

  function Initial(ttl: int, start: int): State {
    State(ttl, start, map[], map[], [], [])
  }

  ghost predicate Run(s: State, steps: seq<Step>)
    decreases |steps|
  {
    steps == [] || (Enabled(s, steps[0]) && Run(Next(s, steps[0]), steps[1..]))
  }

  ghost function After(s: State, steps: seq<Step>): State
    requires Run(s, steps)
    decreases |steps|
  {
    if steps == [] then s else After(Next(s, steps[0]), steps[1..])
  }

  lemma {:induction false} RunKeeps(s: State, steps: seq<Step>)
    requires Inv(s) && Run(s, steps)
    ensures Inv(After(s, steps))
    decreases |steps|
  {
    hide Inv, Next, Enabled;
    if steps != [] {
      StepKeeps(s, steps[0]);
      RunKeeps(Next(s, steps[0]), steps[1..]);
    }
  }

  ghost predicate Reachable(s: State) {
    exists ttl, start, steps :: Run(Initial(ttl, start), steps) && s == After(Initial(ttl, start), steps)
  }

  lemma ReachableInv(s: State)
    requires Reachable(s)
    ensures Inv(s)
  {
    var ttl, start, steps :| Run(Initial(ttl, start), steps) && s == After(Initial(ttl, start), steps);
    assert Inv(Initial(ttl, start));
    RunKeeps(Initial(ttl, start), steps);
  }

  /** Two runs for one key: the earlier one had settled, its caller had been served, and its
      record had expired before the later one began. */
  lemma NoSecondRun(s: State, i: nat, j: nat)
    requires Reachable(s) && i < j < |s.flights| && s.flights[i].key == s.flights[j].key
    ensures !s.flights[i].outcome.Pending? && s.flights[i].over
    ensures s.flights[i].outcome.Done? ==> s.flights[i].outcome.expiresAt <= s.flights[j].start
  {
    ReachableInv(s);
    assert Before(s.flights[i], s.flights[j]);
  }

  /** A caller was given the response, or the error, that a run came to. */
  ghost predicate Tells(reply: Reply, outcome: Outcome) {
    (outcome.Done? && reply == Answer(outcome.response)) || (outcome.Failed? && reply == Error(outcome.error))
  }

  /** Every caller is referred to one run of its key. With the run's body hash it is told what
      the run came to, or nothing yet; with another hash it is told of the conflict. Each run
      has at most one owner. */
  lemma CallersAgree(s: State, c: nat)
    requires Reachable(s) && c < |s.calls|
    ensures s.calls[c].flight < |s.flights| && s.flights[s.calls[c].flight].key == s.calls[c].key
    ensures var f := s.flights[s.calls[c].flight];
            if f.hash == s.calls[c].hash then s.calls[c].reply.None? || Tells(s.calls[c].reply.value, f.outcome)
            else s.calls[c].reply == Some(Conflict)
    ensures forall d :: 0 <= d < |s.calls| && d != c && s.calls[c].owner && s.calls[d].owner ==>
      s.calls[d].flight != s.calls[c].flight
  {
    ReachableInv(s);
    assert CallOk(s.flights, s.calls[c]);
  }

  /** A run still has a say over its key: it is in flight, or its record has not expired. */
  ghost predicate InForce(flight: Flight, time: int) {
    !flight.over || (flight.outcome.Done? && time < flight.outcome.expiresAt)
  }

  /** The function runs if and only if no run of the key is in force; otherwise the caller is
      referred to the latest run, and a different hash conflicts without running anything. */
  lemma ArriveMeans(s: State, key: string, hash: string, time: int)
    requires Reachable(s) && s.now <= time
    ensures var s' := Next(s, Arrive(key, hash, time));
            var f := Last(s.flights, key);
            var c := s'.calls[|s'.calls| - 1];
            if f < 0 || !InForce(s.flights[f], time) then
              s'.flights == s.flights + [Flight(key, hash, time, Pending, false)] && c.flight == |s.flights| && c.owner
            else
              s'.flights == s.flights && c.flight == f && !c.owner &&
              (c.reply == if s.flights[f].hash != hash then Some(Conflict)
                          else if s.flights[f].outcome.Done? && time < s.flights[f].outcome.expiresAt
                            then Some(Answer(s.flights[f].outcome.response))
                          else None)
  {
    ReachableInv(s);
    PruneKeeps(s, time);
    var s1 := s.(now := time, cache := Prune(s.cache, time));
    var f := Last(s.flights, key);
    hide Last, CallsOk, FlightsOk;
    if key in s1.cache {
      assert CachedOk(s1, key);
    } else if f >= 0 {
      assert KeptOk(s1, f);
    }
  }

  /** Clearing an in-flight entry clears the caller's own entry, and no other. */
  lemma ClearsOwnEntry(s: State, c: nat)
    requires Reachable(s) && Enabled(s, Resume(c))
    ensures var key := s.calls[c].key;
            if s.calls[c].owner
            then key in s.inFlight && s.inFlight[key].promise == s.calls[c].flight
              && Next(s, Resume(c)).inFlight == s.inFlight - {key}
            else Next(s, Resume(c)).inFlight == s.inFlight
  {
    ReachableInv(s);
    assert CallOk(s.flights, s.calls[c]);
  }

  /** What the guarded function came back with is usable: a response with an integer status. */
  ghost predicate Usable(result: FnResult, status: int) {
    result.Returns? && result.status == status as real
  }

  /** What a run that is back comes to: a usable response is the outcome, is stored for the key alone
      and expires so many seconds later; anything else fails with the error and stores nothing. */
  lemma SettleMeans(s: State, f: nat, result: FnResult, time: int)
    requires Enabled(s, Settle(f, result, time))
    ensures var s', key := Next(s, Settle(f, result, time)), s.flights[f].key;
            (forall status: int :: Usable(result, status) ==>
              var response, until := Response(status, result.body), time + 1000 * s.ttl;
              s'.flights == s.flights[f := s.flights[f].(outcome := Done(response, until))] &&
              s'.cache == s.cache[key := CacheRecord(s.flights[f].hash, response, until)]) &&
            ((forall status: int :: !Usable(result, status)) ==>
              s'.cache == s.cache && s'.flights == s.flights[f := s.flights[f].(outcome := s'.flights[f].outcome)] &&
              s'.flights[f].outcome == Failed(if result.Throws? then result.error
                                              else "idempotency response status must be an integer")) &&
            s' == s.(now := time, cache := s'.cache, flights := s'.flights)
  {
    if result.Returns? {
      assert IsInteger(result.status) ==> Usable(result, result.status.Floor);
    }
  }

  /** What resuming a caller does: it is told what its run came to, and when it started the run, the
      entry of its key goes and the run is over. */
  lemma ResumeMeans(s: State, c: nat)
    requires Reachable(s) && Enabled(s, Resume(c))
    ensures var s', call := Next(s, Resume(c)), s.calls[c];
            s'.calls[c].reply.Some? && Tells(s'.calls[c].reply.value, s.flights[call.flight].outcome) &&
            s'.calls == s.calls[c := call.(reply := s'.calls[c].reply)] &&
            s' == s.(calls := s'.calls, inFlight := s'.inFlight, flights := s'.flights) &&
            if call.owner then
              s'.inFlight == s.inFlight - {call.key} &&
              s'.flights == s.flights[call.flight := s.flights[call.flight].(over := true)]
            else s'.inFlight == s.inFlight && s'.flights == s.flights
  {
    ReachableInv(s);
    assert CallOk(s.flights, s.calls[c]);
  }

  /** After a run that failed is over, the next arrival for its key runs the function again. */
  lemma FailedRunsAgain(s: State, f: nat, key: string, hash: string, time: int)
    requires Reachable(s) && s.now <= time && Last(s.flights, key) == f
    requires s.flights[f].outcome.Failed? && s.flights[f].over
    ensures var s' := Next(s, Arrive(key, hash, time));
            s'.flights == s.flights + [Flight(key, hash, time, Pending, false)] &&
            s'.calls[|s'.calls| - 1].owner && s'.calls[|s'.calls| - 1].reply.None?
  {
    hide Last;
    ArriveMeans(s, key, hash, time);
    ArriveCalls(s, key, hash, time);
  }

  /** An arrival adds one call, of its key and hash; one that starts a run is not answered yet. */
  lemma ArriveCalls(s: State, key: string, hash: string, time: int)
    requires s.now <= time
    ensures var s' := Next(s, Arrive(key, hash, time));
            |s'.calls| == |s.calls| + 1 && s'.calls[..|s.calls|] == s.calls && s'.now == time &&
            var c := s'.calls[|s.calls|];
            c.key == key && c.hash == hash && c.time == time && (c.owner ==> c.reply.None?)
  {
    hide Last, Prune;
  }

  /** While a stored response has not expired, every arrival with its hash gets it and nothing runs. */
  lemma Replays(s: State, f: nat, hash: string, time: int)
    requires Reachable(s) && s.now <= time && f < |s.flights| && Last(s.flights, s.flights[f].key) == f
    requires s.flights[f].outcome.Done? && time < s.flights[f].outcome.expiresAt
    ensures var s' := Next(s, Arrive(s.flights[f].key, hash, time));
            s'.flights == s.flights &&
            s'.calls[|s'.calls| - 1].reply
              == Some(if hash == s.flights[f].hash then Answer(s.flights[f].outcome.response)
                                                   else Conflict)
  {
    hide Last;
    ArriveMeans(s, s.flights[f].key, hash, time);
  }
}
