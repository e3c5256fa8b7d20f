/** Runs of the byte cache: callers, executions and evictions in any order.
 */
module CacheRuns {
  import opened Wrappers
  import opened CacheModel
  import opened CacheProtocol

  /** A caller waiting for the `capacityChanged` channel of `epoch` to be closed. */
  datatype Parked = Parked(epoch: nat, reservation: nat)

  /** The cache, the callers blocked in `Load`, and, for every snapshot evicted so far,
      how many flights had been started when it was last evicted. */
  datatype World = World(
    cache: Cache, parked: map<Caller, Parked>, waiting: map<Caller, nat>, barrier: map<SnapshotId, nat>)

  datatype Event =
    | Load(caller: Caller, request: Request)
    | Wake(caller: Caller)
    | GiveUp(caller: Caller)
    | Finish(flight: nat, loaded: LoaderResult)
    | Leave(caller: Caller)
    | Evict(snapshot: SnapshotId)

  function NewCache(limits: Limits): Cache
  {
    var flightEntries := if limits.flightEntries == 0 then limits.entries else limits.flightEntries;
    var flightBytes := if limits.flightBytes == 0 then limits.bytes else limits.flightBytes;
    Cache(Limits(limits.entries, limits.bytes, flightEntries, flightBytes), map[], [], 0, map[], [], 0, 0, 0, 0)
  }

  function Initial(limits: Limits): World
  {
    World(NewCache(limits), map[], map[], map[])
  }

  predicate WellFormed(request: Request)
  {
    && request.key.snapshot != "" && request.expectedLength > 0
    && request.maximumDecodedWeight <= MAX_UINT64 - request.expectedLength
  }

  /** When each section may run. A caller leaves a flight when the flight is done or when
      its own context is cancelled, which may happen at any time. */
  predicate Enabled(w: World, e: Event)
  {
    match e
    case Load(caller, request) =>
      caller !in w.parked && caller !in w.waiting && WellFormed(request) && Wired(w.cache)
    case Wake(caller) => caller in w.parked && w.parked[caller].epoch != w.cache.epoch
    case GiveUp(caller) => caller in w.parked
    case Finish(id, _) => id < |w.cache.table| && !w.cache.table[id].done
    case Leave(caller) => caller in w.waiting && w.waiting[caller] < |w.cache.table|
    case Evict(_) => true
  }

  function AfterLoad(w: World, caller: Caller, c: Cache, answer: Answer): World
  {
    match answer
    case Join(id) => w.(cache := c, waiting := w.waiting[caller := id])
    case Park(epoch, reservation) => w.(cache := c, parked := w.parked[caller := Parked(epoch, reservation)])
    case Hit(_) => w.(cache := c)
    case TooLarge => w.(cache := c)
  }

  function Next(env: Env, w: World, e: Event): World
    requires Enabled(w, e)
  {
    match e
    case Load(caller, request) =>
      var (c, answer) := LoadSection(w.cache, request);
      AfterLoad(w, caller, c, answer)
    case Wake(caller) => w.(parked := w.parked - {caller})
    case GiveUp(caller) => w.(parked := w.parked - {caller})
    case Finish(id, loaded) => w.(cache := Complete(w.cache, id, Execute(env, w.cache.table[id], loaded)))
    case Leave(caller) =>
      w.(cache := ReleaseWaiter(w.cache, w.waiting[caller]), waiting := w.waiting - {caller})
    case Evict(snapshot) =>
      w.(cache := EvictSnapshot(w.cache, snapshot), barrier := w.barrier[snapshot := |w.cache.table|])
  }

  // ---------------------------------------------------------------- the invariant

  /** An attached flight is running, uncancelled and waited for, and its key is not cached. */
  ghost predicate Attached(c: Cache, k: Key)
    requires k in c.flights
  {
    var id := c.flights[k];
    && id < |c.table|
    && c.table[id].key == k && !c.table[id].done && !c.table[id].cancelled && c.table[id].waiters >= 1
    && k !in c.entries
  }

  ghost predicate FlightsOk(c: Cache)
  {
    forall k :: k in c.flights ==> Attached(c, k)
  }

  ghost function WaitingOn(waiting: map<Caller, nat>, id: nat): set<Caller>
  {
    set caller | caller in waiting && waiting[caller] == id
  }

  /** The waiter counts are the numbers of callers in `Load`. */
  ghost predicate WaitersOk(w: World)
  {
    && w.cache.waiters == |w.waiting|
    && (forall caller :: caller in w.waiting ==> w.waiting[caller] < |w.cache.table|)
    && (forall id :: 0 <= id < |w.cache.table| ==> w.cache.table[id].waiters == |WaitingOn(w.waiting, id)|)
  }

  predicate Lacks(c: Cache, reservation: nat)
  {
    c.flightEntries >= c.limits.flightEntries || c.flightBytes > c.limits.flightBytes - reservation
  }

  /** A caller whose channel is still open still lacks capacity: no wake-up was lost. */
  ghost predicate ParkedOk(w: World)
  {
    forall caller :: caller in w.parked ==>
      var p := w.parked[caller];
      && p.epoch <= w.cache.epoch
      && p.reservation <= w.cache.limits.flightBytes && w.cache.limits.flightEntries > 0
      && (p.epoch == w.cache.epoch ==> Lacks(w.cache, p.reservation))
  }

  function BarrierOf(w: World, s: SnapshotId): nat
  {
    if s in w.barrier then w.barrier[s] else 0
  }

  /** Entries are authentic, and neither entries nor attached flights come from before
      the last eviction of their snapshot. */
  ghost predicate HistoryOk(env: Env, w: World)
  {
    && (forall k :: k in w.cache.flights ==> BarrierOf(w, k.snapshot) <= w.cache.flights[k])
    && (forall k :: k in w.cache.entries ==>
      && Authentic(env, w.cache.entries[k])
      && BarrierOf(w, k.snapshot) <= w.cache.entries[k].origin.flight)
  }

  ghost predicate Inv(env: Env, w: World)
  {
    && StoreOk(w.cache) && CapacityOk(w.cache) && FlightsOk(w.cache)
    && WaitersOk(w) && ParkedOk(w) && HistoryOk(env, w)
  }

  lemma InitialInv(env: Env, limits: Limits)
    ensures Inv(env, Initial(limits))
  {
  }

  // ---------------------------------------------------------------- joining and starting

  lemma {:induction false} WaitingOnJoin(waiting: map<Caller, nat>, caller: Caller, id: nat, i: nat)
    requires caller !in waiting
    ensures |WaitingOn(waiting[caller := id], i)| == |WaitingOn(waiting, i)| + if i == id then 1 else 0
  {
    var s, s' := WaitingOn(waiting, i), WaitingOn(waiting[caller := id], i);
    assert s' == if i == id then s + {caller} else s;
  }

  lemma {:induction false} WaitingOnLeave(waiting: map<Caller, nat>, caller: Caller, i: nat)
    requires caller in waiting
    ensures |WaitingOn(waiting - {caller}, i)| == |WaitingOn(waiting, i)| - if i == waiting[caller] then 1 else 0
  {
    var s, s' := WaitingOn(waiting, i), WaitingOn(waiting - {caller}, i);
    assert s' == s - {caller};
    assert caller in s <==> i == waiting[caller];
  }

  lemma {:induction false} JoinWaiters(w: World, caller: Caller, id: nat)
    requires WaitersOk(w) && caller !in w.waiting && id < |w.cache.table|
    ensures WaitersOk(w.(cache := AddWaiter(w.cache, id), waiting := w.waiting[caller := id]))
  {
    var waiting' := w.waiting[caller := id];
    assert waiting'.Keys == w.waiting.Keys + {caller};
    forall i | 0 <= i < |w.cache.table|
      ensures AddWaiter(w.cache, id).table[i].waiters == |WaitingOn(waiting', i)|
    {
      WaitingOnJoin(w.waiting, caller, id, i);
    }
  }

  lemma {:induction false} StartWaiters(w: World, request: Request, reservation: nat)
    requires WaitersOk(w)
    ensures WaitersOk(w.(cache := StartFlight(w.cache, request, reservation)))
  {
    var n := |w.cache.table|;
    assert WaitingOn(w.waiting, n) == {};
  }

  lemma {:induction false} JoinCapacity(c: Cache, id: nat)
    requires CapacityOk(c) && id < |c.table|
    ensures CapacityOk(AddWaiter(c, id))
  {
    UpdateLive(c.table, id, c.table[id].(waiters := c.table[id].waiters + 1));
  }

  lemma {:induction false} StartCapacity(c: Cache, request: Request, reservation: nat)
    requires CapacityOk(c) && !Lacks(c, reservation)
    ensures CapacityOk(StartFlight(c, request, reservation))
  {
    AppendLive(c.table, StartFlight(c, request, reservation).table[|c.table|]);
  }

  lemma {:induction false} JoinFlights(c: Cache, k: Key)
    requires FlightsOk(c) && k in c.flights
    ensures c.flights[k] < |c.table| && FlightsOk(AddWaiter(c, c.flights[k]))
  {
    assert Attached(c, k);
    var c' := AddWaiter(c, c.flights[k]);
    forall k' | k' in c'.flights ensures Attached(c', k') {
      assert Attached(c, k');
    }
  }

  lemma {:induction false} StartFlights(c: Cache, request: Request, reservation: nat)
    requires FlightsOk(c) && request.key !in c.flights && request.key !in c.entries
    ensures FlightsOk(AddWaiter(StartFlight(c, request, reservation), |c.table|))
  {
    var c' := AddWaiter(StartFlight(c, request, reservation), |c.table|);
    forall k | k in c'.flights ensures Attached(c', k) {
      if k != request.key {
        assert Attached(c, k);
      }
    }
  }

  /** An eviction can only have seen the flights started so far. */
  ghost predicate BarriersBelow(w: World)
  {
    forall s :: s in w.barrier ==> w.barrier[s] <= |w.cache.table|
  }

  lemma {:induction false} HitKeepsInv(env: Env, w: World, key: Key)
    requires Inv(env, w) && key in w.cache.entries
    ensures Inv(env, w.(cache := w.cache.(lru := [w.cache.entries[key]] + Without(w.cache.lru, key))))
  {
    HitKeepsStore(w.cache, key);
    MovedLru(env, w, [w.cache.entries[key]] + Without(w.cache.lru, key));
  }

  /** Only the store looks at the order of the list. */
  lemma {:induction false} MovedLru(env: Env, w: World, lru: seq<Entry>)
    requires Inv(env, w) && StoreOk(w.cache.(lru := lru))
    ensures Inv(env, w.(cache := w.cache.(lru := lru)))
  {
    var c, c' := w.cache, w.cache.(lru := lru);
    forall k | k in c'.flights ensures Attached(c', k) {
      assert Attached(c, k);
    }
  }

  lemma {:induction false} JoinKeepsInv(env: Env, w: World, caller: Caller, key: Key)
    requires Inv(env, w) && key in w.cache.flights && caller !in w.waiting && Wired(w.cache)
    ensures Inv(env, w.(
      cache := AddWaiter(w.cache, w.cache.flights[key]),
      waiting := w.waiting[caller := w.cache.flights[key]]))
  {
    JoinFlights(w.cache, key);
    JoinWaiters(w, caller, w.cache.flights[key]);
    JoinCapacity(w.cache, w.cache.flights[key]);
  }

  lemma {:induction false} ParkKeepsInv(env: Env, w: World, caller: Caller, reservation: nat)
    requires Inv(env, w) && Lacks(w.cache, reservation)
    requires reservation <= w.cache.limits.flightBytes && w.cache.limits.flightEntries > 0
    ensures Inv(env, w.(parked := w.parked[caller := Parked(w.cache.epoch, reservation)]))
  {
  }

  function Started(w: World, caller: Caller, request: Request, reservation: nat): World
  {
    w.(cache := AddWaiter(StartFlight(w.cache, request, reservation), |w.cache.table|),
       waiting := w.waiting[caller := |w.cache.table|])
  }

  lemma {:induction false} StartedWaiters(w: World, caller: Caller, request: Request, reservation: nat)
    requires WaitersOk(w) && caller !in w.waiting
    ensures WaitersOk(Started(w, caller, request, reservation))
  {
    StartWaiters(w, request, reservation);
    JoinWaiters(w.(cache := StartFlight(w.cache, request, reservation)), caller, |w.cache.table|);
  }

  lemma {:induction false} StartedCapacity(w: World, caller: Caller, request: Request, reservation: nat)
    requires CapacityOk(w.cache) && !Lacks(w.cache, reservation)
    ensures CapacityOk(Started(w, caller, request, reservation).cache)
  {
    StartCapacity(w.cache, request, reservation);
    JoinCapacity(StartFlight(w.cache, request, reservation), |w.cache.table|);
  }

  lemma {:induction false} StartedRest(env: Env, w: World, caller: Caller, request: Request, reservation: nat)
    requires StoreOk(w.cache) && ParkedOk(w) && HistoryOk(env, w) && BarriersBelow(w)
    ensures StoreOk(Started(w, caller, request, reservation).cache)
    ensures ParkedOk(Started(w, caller, request, reservation))
    ensures HistoryOk(env, Started(w, caller, request, reservation))
  {
  }

  lemma {:induction false} Assemble(env: Env, w: World)
    requires StoreOk(w.cache) && CapacityOk(w.cache) && FlightsOk(w.cache)
    requires WaitersOk(w) && ParkedOk(w) && HistoryOk(env, w)
    ensures Inv(env, w)
  {
  }

  lemma {:induction false} StartKeepsInv(env: Env, w: World, caller: Caller, request: Request, reservation: nat)
    requires Inv(env, w) && BarriersBelow(w) && caller !in w.waiting && !Lacks(w.cache, reservation)
    requires request.key !in w.cache.flights && request.key !in w.cache.entries
    ensures Inv(env, Started(w, caller, request, reservation))
  {
    StartFlights(w.cache, request, reservation);
    StartedWaiters(w, caller, request, reservation);
    StartedCapacity(w, caller, request, reservation);
    StartedRest(env, w, caller, request, reservation);
    Assemble(env, Started(w, caller, request, reservation));
  }

  lemma {:induction false} LoadHit(env: Env, w: World, caller: Caller, request: Request)
    requires Inv(env, w) && Enabled(w, Load(caller, request)) && request.key in w.cache.entries
    ensures Inv(env, Next(env, w, Load(caller, request)))
  {
    HitKeepsInv(env, w, request.key);
  }

  lemma {:induction false} LoadJoin(env: Env, w: World, caller: Caller, request: Request)
    requires Inv(env, w) && Enabled(w, Load(caller, request))
    requires request.key !in w.cache.entries && request.key in w.cache.flights
    ensures Inv(env, Next(env, w, Load(caller, request)))
  {
    JoinKeepsInv(env, w, caller, request.key);
  }

  predicate NeedsFlight(c: Cache, request: Request)
  {
    request.key !in c.entries && request.key !in c.flights
  }

  function Reservation(request: Request): nat
  {
    request.expectedLength + request.maximumDecodedWeight
  }

  predicate NeverFits(c: Cache, request: Request)
  {
    Reservation(request) > c.limits.flightBytes || c.limits.flightEntries == 0 || c.limits.flightBytes == 0
  }

  lemma {:induction false} LoadPark(env: Env, w: World, caller: Caller, request: Request)
    requires Inv(env, w) && Enabled(w, Load(caller, request))
    requires NeedsFlight(w.cache, request) && !NeverFits(w.cache, request) && Lacks(w.cache, Reservation(request))
    ensures Inv(env, Next(env, w, Load(caller, request)))
  {
    ParkKeepsInv(env, w, caller, Reservation(request));
  }

  lemma {:induction false} LoadStart(env: Env, w: World, caller: Caller, request: Request)
    requires Inv(env, w) && BarriersBelow(w) && Enabled(w, Load(caller, request))
    requires NeedsFlight(w.cache, request) && !NeverFits(w.cache, request) && !Lacks(w.cache, Reservation(request))
    ensures Inv(env, Next(env, w, Load(caller, request)))
  {
    StartShape(env, w, caller, request);
    StartKeepsInv(env, w, caller, request, Reservation(request));
  }

  lemma {:induction false} StartShape(env: Env, w: World, caller: Caller, request: Request)
    requires Enabled(w, Load(caller, request))
    requires NeedsFlight(w.cache, request) && !NeverFits(w.cache, request) && !Lacks(w.cache, Reservation(request))
    ensures Next(env, w, Load(caller, request)) == Started(w, caller, request, Reservation(request))
  {
  }

  lemma {:induction false} LoadKeepsInv(env: Env, w: World, caller: Caller, request: Request)
    requires Inv(env, w) && BarriersBelow(w) && Enabled(w, Load(caller, request))
    ensures Inv(env, Next(env, w, Load(caller, request)))
  {
    if request.key in w.cache.entries {
      LoadHit(env, w, caller, request);
    } else if request.key in w.cache.flights {
      LoadJoin(env, w, caller, request);
    } else if NeverFits(w.cache, request) {
      assert Next(env, w, Load(caller, request)) == w;
    } else if Lacks(w.cache, Reservation(request)) {
      LoadPark(env, w, caller, request);
    } else {
      LoadStart(env, w, caller, request);
    }
  }

  // ---------------------------------------------------------------- completing

  /** Only the flight that a key is attached to is touched by the key's removal. */
  lemma {:induction false} OthersStayAttached(c: Cache, id: nat, k: Key)
    requires FlightsOk(c) && id < |c.table| && k in c.flights && (Owns(c, id) ==> k != c.table[id].key)
    ensures Attached(c, k) && c.flights[k] != id
  {
    assert Attached(c, k);
  }

  lemma {:induction false} CompleteCapacity(c: Cache, id: nat, outcome: Outcome)
    requires CapacityOk(c) && id < |c.table| && !c.table[id].done
    ensures CapacityOk(Complete(c, id, outcome))
  {
    UpdateLive(c.table, id, c.table[id].(done := true, cancelled := true, outcome := Some(outcome)));
  }

  lemma {:induction false} CompleteStore(c: Cache, id: nat, outcome: Outcome)
    requires StoreOk(c) && id < |c.table|
    ensures StoreOk(Complete(c, id, outcome))
    ensures forall k :: k in Complete(c, id, outcome).entries ==>
      || (k in c.entries && Complete(c, id, outcome).entries[k] == c.entries[k])
      || (k == c.table[id].key && Owns(c, id) && outcome.Loaded?
          && Complete(c, id, outcome).entries[k] == EntryOf(id, c.table[id], outcome))
  {
    var d := Detach(c, id);
    if outcome.Loaded? && Owns(c, id) && Cacheable(c.limits, outcome.weight) {
      assert StoreOk(d);
      AdmitKeepsStore(d, EntryOf(id, c.table[id], outcome));
    }
  }

  lemma {:induction false} CompleteFlights(c: Cache, id: nat, outcome: Outcome)
    requires StoreOk(c) && FlightsOk(c) && id < |c.table|
    ensures FlightsOk(Complete(c, id, outcome))
  {
    CompleteStore(c, id, outcome);
    var c' := Complete(c, id, outcome);
    forall k | k in c'.flights ensures Attached(c', k) {
      OthersStayAttached(c, id, k);
    }
  }

  lemma {:induction false} FinishKeepsInv(env: Env, w: World, id: nat, loaded: LoaderResult)
    requires Inv(env, w) && Enabled(w, Finish(id, loaded))
    ensures Inv(env, Next(env, w, Finish(id, loaded)))
  {
    var c, outcome := w.cache, Execute(env, w.cache.table[id], loaded);
    CompleteCapacity(c, id, outcome);
    CompleteStore(c, id, outcome);
    CompleteFlights(c, id, outcome);
    CompleteHistory(env, w, id, loaded);
    CompleteWaiters(w, id, outcome);
  }

  lemma {:induction false} CompleteWaiters(w: World, id: nat, outcome: Outcome)
    requires WaitersOk(w) && ParkedOk(w) && id < |w.cache.table|
    ensures WaitersOk(w.(cache := Complete(w.cache, id, outcome)))
    ensures ParkedOk(w.(cache := Complete(w.cache, id, outcome)))
  {
    var c' := Complete(w.cache, id, outcome);
    assert c'.waiters == w.cache.waiters && |c'.table| == |w.cache.table|;
    forall i | 0 <= i < |c'.table| ensures c'.table[i].waiters == |WaitingOn(w.waiting, i)| {
      assert c'.table[i].waiters == w.cache.table[i].waiters;
    }
  }

  lemma {:induction false} CompleteHistory(env: Env, w: World, id: nat, loaded: LoaderResult)
    requires StoreOk(w.cache) && HistoryOk(env, w) && id < |w.cache.table|
    ensures HistoryOk(env, w.(cache := Complete(w.cache, id, Execute(env, w.cache.table[id], loaded))))
  {
    var flight := w.cache.table[id];
    var outcome := Execute(env, flight, loaded);
    CompleteStore(w.cache, id, outcome);
    CompleteKeepsFlights(w.cache, id, outcome);
    if outcome.Loaded? {
      LoadedIsAuthentic(env, id, flight, loaded);
    }
    HistoryMoves(env, w, id, outcome, Complete(w.cache, id, outcome));
  }

  lemma {:induction false} CompleteKeepsFlights(c: Cache, id: nat, outcome: Outcome)
    requires id < |c.table|
    ensures forall k :: k in Complete(c, id, outcome).flights ==> k in c.flights && Complete(c, id, outcome).flights[k] == c.flights[k]
  {
  }

  /** Fewer flights, and at most one new entry, which an attached flight loaded. */
  lemma {:induction false} HistoryMoves(env: Env, w: World, id: nat, outcome: Outcome, c': Cache)
    requires HistoryOk(env, w) && id < |w.cache.table|
    requires forall k :: k in c'.flights ==> k in w.cache.flights && c'.flights[k] == w.cache.flights[k]
    requires forall k :: k in c'.entries ==>
      || (k in w.cache.entries && c'.entries[k] == w.cache.entries[k])
      || (k == w.cache.table[id].key && Owns(w.cache, id) && outcome.Loaded?
          && c'.entries[k] == EntryOf(id, w.cache.table[id], outcome))
    requires outcome.Loaded? ==> Authentic(env, EntryOf(id, w.cache.table[id], outcome))
    ensures HistoryOk(env, w.(cache := c'))
  {
  }

  // ---------------------------------------------------------------- leaving and evicting

  /** The caller that leaves was counted: neither guard against underflow is needed. */
  lemma {:induction false} GuardsNeverNeeded(w: World, caller: Caller)
    requires WaitersOk(w) && caller in w.waiting
    ensures w.cache.waiters > 0 && w.cache.table[w.waiting[caller]].waiters > 0
  {
    assert caller in WaitingOn(w.waiting, w.waiting[caller]);
    assert caller in w.waiting.Keys;
  }

  lemma {:induction false} LeaveWaiters(w: World, caller: Caller)
    requires WaitersOk(w) && caller in w.waiting
    ensures WaitersOk(w.(
      cache := ReleaseWaiter(w.cache, w.waiting[caller]), waiting := w.waiting - {caller}))
  {
    GuardsNeverNeeded(w, caller);
    var c', waiting' := ReleaseWaiter(w.cache, w.waiting[caller]), w.waiting - {caller};
    assert waiting'.Keys == w.waiting.Keys - {caller};
    forall i | 0 <= i < |c'.table| ensures c'.table[i].waiters == |WaitingOn(waiting', i)| {
      WaitingOnLeave(w.waiting, caller, i);
    }
  }

  lemma {:induction false} LeaveFlights(c: Cache, id: nat)
    requires FlightsOk(c) && id < |c.table| && c.table[id].waiters > 0
    ensures FlightsOk(ReleaseWaiter(c, id))
  {
    var c' := ReleaseWaiter(c, id);
    forall k | k in c'.flights ensures Attached(c', k) {
      assert Attached(c, k);
    }
  }

  lemma {:induction false} LeaveKeepsInv(env: Env, w: World, caller: Caller)
    requires Inv(env, w) && Enabled(w, Leave(caller))
    ensures Inv(env, Next(env, w, Leave(caller)))
  {
    var id := w.waiting[caller];
    GuardsNeverNeeded(w, caller);
    LeaveWaiters(w, caller);
    LeaveFlights(w.cache, id);
    UpdateLive(w.cache.table, id, ReleaseWaiter(w.cache, id).table[id]);
  }

  lemma {:induction false} EvictFlights(c: Cache, s: SnapshotId)
    requires FlightsOk(c)
    ensures FlightsOk(EvictSnapshot(c, s))
  {
    var c' := EvictSnapshot(c, s);
    forall k | k in c'.flights ensures Attached(c', k) {
      assert Attached(c, k);
    }
  }

  lemma {:induction false} EvictHistory(env: Env, w: World, s: SnapshotId)
    requires HistoryOk(env, w)
    ensures HistoryOk(env, Next(env, w, Evict(s)))
  {
  }

  lemma {:induction false} EvictCallers(env: Env, w: World, s: SnapshotId)
    requires WaitersOk(w) && ParkedOk(w) && CapacityOk(w.cache)
    ensures var w' := Next(env, w, Evict(s)); WaitersOk(w') && ParkedOk(w') && CapacityOk(w'.cache)
  {
    EvictSameTable(w.cache, s);
    CallersUntouched(w, EvictSnapshot(w.cache, s), Next(env, w, Evict(s)).barrier);
  }

  /** What waiters, parked callers and reservations depend on is unchanged. */
  lemma {:induction false} CallersUntouched(w: World, c': Cache, barrier: map<SnapshotId, nat>)
    requires WaitersOk(w) && ParkedOk(w) && CapacityOk(w.cache)
    requires |c'.table| == |w.cache.table|
    requires forall i :: 0 <= i < |c'.table| ==> c'.table[i] == w.cache.table[i].(cancelled := c'.table[i].cancelled)
    requires c'.waiters == w.cache.waiters && c'.epoch == w.cache.epoch && c'.limits == w.cache.limits
    requires c'.flightEntries == w.cache.flightEntries && c'.flightBytes == w.cache.flightBytes
    ensures var w' := w.(cache := c', barrier := barrier); WaitersOk(w') && ParkedOk(w') && CapacityOk(c')
  {
    SameLive(w.cache.table, c'.table);
  }

  lemma {:induction false} EvictSameTable(c: Cache, s: SnapshotId)
    ensures var table := EvictSnapshot(c, s).table;
      |table| == |c.table| && forall i :: 0 <= i < |table| ==> table[i] == c.table[i].(cancelled := table[i].cancelled)
  {
  }

  lemma {:induction false} EvictShape(env: Env, w: World, s: SnapshotId)
    ensures Next(env, w, Evict(s)).cache == EvictSnapshot(w.cache, s)
  {
  }

  lemma {:induction false} EvictKeepsInv(env: Env, w: World, s: SnapshotId)
    requires Inv(env, w)
    ensures Inv(env, Next(env, w, Evict(s)))
  {
    EvictKeepsStore(w.cache, s);
    EvictFlights(w.cache, s);
    EvictHistory(env, w, s);
    EvictCallers(env, w, s);
    EvictShape(env, w, s);
    Assemble(env, Next(env, w, Evict(s)));
  }

  // ---------------------------------------------------------------- every run

  /** What a flight loaded, and hands to everyone who waits for it, is authentic. */
  ghost predicate OutcomeOk(env: Env, id: nat, flight: Flight)
  {
    flight.outcome.Some? && flight.outcome.value.Loaded? ==> Authentic(env, EntryOf(id, flight, flight.outcome.value))
  }

  ghost predicate OutcomesOk(env: Env, table: seq<Flight>)
  {
    forall id :: 0 <= id < |table| ==> OutcomeOk(env, id, table[id])
  }

  /** The flight is for the same load and has the same outcome. */
  predicate SameResult(f: Flight, g: Flight)
  {
    f.key == g.key && f.expectedLength == g.expectedLength && f.decoder == g.decoder && f.outcome == g.outcome
  }

  ghost predicate Continues(table: seq<Flight>, table': seq<Flight>)
  {
    && |table| <= |table'|
    && (forall i :: 0 <= i < |table| ==> SameResult(table[i], table'[i]))
    && (forall i :: |table| <= i < |table'| ==> table'[i].outcome.None?)
  }

  lemma {:induction false} TableContinues(env: Env, w: World, e: Event)
    requires Enabled(w, e) && !e.Finish?
    ensures Continues(w.cache.table, Next(env, w, e).cache.table)
  {
    if e.Evict? {
      EvictSameTable(w.cache, e.snapshot);
    }
  }

  lemma {:induction false} FinishTable(env: Env, w: World, id: nat, loaded: LoaderResult)
    requires Enabled(w, Finish(id, loaded))
    ensures var f := w.cache.table[id];
      Next(env, w, Finish(id, loaded)).cache.table ==
        w.cache.table[id := f.(done := true, cancelled := true, outcome := Some(Execute(env, f, loaded)))]
  {
  }

  lemma {:induction false} StepKeepsOutcomes(env: Env, w: World, e: Event)
    requires Enabled(w, e) && OutcomesOk(env, w.cache.table)
    ensures OutcomesOk(env, Next(env, w, e).cache.table)
  {
    var table, table' := w.cache.table, Next(env, w, e).cache.table;
    if e.Finish? {
      FinishTable(env, w, e.flight, e.loaded);
      if Execute(env, table[e.flight], e.loaded).Loaded? {
        LoadedIsAuthentic(env, e.flight, table[e.flight], e.loaded);
      }
    } else {
      TableContinues(env, w, e);
    }
    forall i | 0 <= i < |table'| ensures OutcomeOk(env, i, table'[i]) {
      assert i < |table| ==> OutcomeOk(env, i, table[i]);
    }
  }

  ghost predicate Safe(env: Env, w: World)
  {
    Inv(env, w) && BarriersBelow(w) && OutcomesOk(env, w.cache.table)
  }

  /** The table of flights only grows, and an eviction is never forgotten. */
  lemma {:induction false} StepGrows(env: Env, w: World, e: Event)
    requires Enabled(w, e) && BarriersBelow(w)
    ensures |w.cache.table| <= |Next(env, w, e).cache.table| && BarriersBelow(Next(env, w, e))
    ensures forall s :: BarrierOf(w, s) <= BarrierOf(Next(env, w, e), s)
    ensures e.Evict? ==> BarrierOf(Next(env, w, e), e.snapshot) == |w.cache.table|
  {
    StepKeepsBarriers(env, w, e);
    if e.Finish? {
      FinishTable(env, w, e.flight, e.loaded);
    } else {
      TableContinues(env, w, e);
    }
  }

  lemma {:induction false} StepKeepsBarriers(env: Env, w: World, e: Event)
    requires Enabled(w, e)
    ensures Next(env, w, e).barrier == if e.Evict? then w.barrier[e.snapshot := |w.cache.table|] else w.barrier
  {
  }

  lemma {:induction false} UnparkKeepsInv(env: Env, w: World, caller: Caller)
    requires Inv(env, w)
    ensures Inv(env, w.(parked := w.parked - {caller}))
  {
  }

  /** Every step keeps the invariant. */
  lemma {:induction false} StepKeepsSafe(env: Env, w: World, e: Event)
    requires Safe(env, w) && Enabled(w, e)
    ensures Safe(env, Next(env, w, e))
  {
    StepGrows(env, w, e);
    StepKeepsOutcomes(env, w, e);
    match e {
      case Load(caller, request) => LoadKeepsInv(env, w, caller, request);
      case Wake(caller) => UnparkKeepsInv(env, w, caller);
      case GiveUp(caller) => UnparkKeepsInv(env, w, caller);
      case Finish(id, loaded) => FinishKeepsInv(env, w, id, loaded);
      case Leave(caller) => LeaveKeepsInv(env, w, caller);
      case Evict(s) => EvictKeepsInv(env, w, s);
    }
  }

  /** The worlds that a sequence of events leads through. */
  ghost predicate IsRun(env: Env, worlds: seq<World>, events: seq<Event>)
  {
    && |worlds| == |events| + 1
    && forall i :: 0 <= i < |events| ==> Enabled(worlds[i], events[i]) && worlds[i + 1] == Next(env, worlds[i], events[i])
  }

  /** Every world of every run is safe. */
  lemma {:induction false} RunsAreSafe(env: Env, limits: Limits, worlds: seq<World>, events: seq<Event>, i: nat)
    requires IsRun(env, worlds, events) && worlds[0] == Initial(limits) && i < |worlds|
    ensures Safe(env, worlds[i])
  {
    if i == 0 {
      InitialInv(env, limits);
    } else {
      RunsAreSafe(env, limits, worlds, events, i - 1);
      assert Enabled(worlds[i - 1], events[i - 1]);
      StepKeepsSafe(env, worlds[i - 1], events[i - 1]);
    }
  }

  lemma {:induction false} RunsKeepBarriersBelow(
    env: Env, limits: Limits, worlds: seq<World>, events: seq<Event>, i: nat)
    requires IsRun(env, worlds, events) && worlds[0] == Initial(limits) && i < |worlds|
    ensures BarriersBelow(worlds[i])
  {
    if i > 0 {
      RunsKeepBarriersBelow(env, limits, worlds, events, i - 1);
      assert Enabled(worlds[i - 1], events[i - 1]);
      StepGrows(env, worlds[i - 1], events[i - 1]);
    }
  }

  lemma {:induction false} BarriersRise(
    env: Env, limits: Limits, worlds: seq<World>, events: seq<Event>, i: nat, j: nat, s: SnapshotId)
    requires IsRun(env, worlds, events) && worlds[0] == Initial(limits) && i <= j < |worlds|
    ensures BarrierOf(worlds[i], s) <= BarrierOf(worlds[j], s)
  {
    if i < j {
      BarriersRise(env, limits, worlds, events, i, j - 1, s);
      RunsKeepBarriersBelow(env, limits, worlds, events, j - 1);
      assert Enabled(worlds[j - 1], events[j - 1]);
      StepGrows(env, worlds[j - 1], events[j - 1]);
    }
  }

  /** Eviction is a barrier: at any later time, whatever is cached or attached for the
      snapshot was started after the eviction. */
  lemma {:induction false} EvictionIsBarrier(
    env: Env, limits: Limits, worlds: seq<World>, events: seq<Event>, i: nat, j: nat, s: SnapshotId)
    requires IsRun(env, worlds, events) && worlds[0] == Initial(limits)
    requires i < j < |worlds| && events[i] == Evict(s)
    ensures forall k :: k in worlds[j].cache.entries && k.snapshot == s ==>
      worlds[j].cache.entries[k].origin.flight >= |worlds[i].cache.table|
    ensures forall k :: k in worlds[j].cache.flights && k.snapshot == s ==>
      worlds[j].cache.flights[k] >= |worlds[i].cache.table|
  {
    RunsKeepBarriersBelow(env, limits, worlds, events, i);
    assert Enabled(worlds[i], events[i]);
    StepGrows(env, worlds[i], events[i]);
    BarriersRise(env, limits, worlds, events, i + 1, j, s);
    RunsAreSafe(env, limits, worlds, events, j);
  }

  /** An execution from before the last eviction of its snapshot changes neither the
      entries nor the attached flights when it completes, and no other flight. */
  lemma {:induction false} StaleFinishIsHarmless(env: Env, w: World, id: nat, loaded: LoaderResult)
    requires Safe(env, w) && Enabled(w, Finish(id, loaded))
    requires id < BarrierOf(w, w.cache.table[id].key.snapshot)
    ensures
      var c, c' := w.cache, Next(env, w, Finish(id, loaded)).cache;
      && c'.entries == c.entries && c'.lru == c.lru && c'.bytes == c.bytes && c'.flights == c.flights
      && forall i :: 0 <= i < |c.table| && i != id ==> c'.table[i] == c.table[i]
  {
    assert !Owns(w.cache, id);
  }

  /** Nor does a caller that leaves such an execution. */
  lemma {:induction false} StaleLeaveIsHarmless(env: Env, w: World, caller: Caller)
    requires Safe(env, w) && Enabled(w, Leave(caller))
    requires w.waiting[caller] < BarrierOf(w, w.cache.table[w.waiting[caller]].key.snapshot)
    ensures
      var c, c' := w.cache, Next(env, w, Leave(caller)).cache;
      && c'.entries == c.entries && c'.lru == c.lru && c'.flights == c.flights
      && forall i :: 0 <= i < |c.table| && i != w.waiting[caller] ==> c'.table[i] == c.table[i]
  {
    assert !Owns(w.cache, w.waiting[caller]);
  }

  /** A caller that cannot be woken yet waits for some unfinished execution, and the end
      of any execution wakes it. */
  lemma {:induction false} NoLostWakeUp(env: Env, w: World, caller: Caller)
    requires Safe(env, w) && caller in w.parked && !Enabled(w, Wake(caller))
    ensures exists id :: 0 <= id < |w.cache.table| && !w.cache.table[id].done
    ensures forall id, loaded :: Enabled(w, Finish(id, loaded)) ==>
      Enabled(Next(env, w, Finish(id, loaded)), Wake(caller))
  {
    SomeoneIsLive(w.cache.table);
  }

  /** A hit returns what a decoder made of bytes with the length and digest asked for. */
  lemma {:induction false} HitsAreAuthentic(env: Env, w: World, request: Request)
    requires Safe(env, w) && Wired(w.cache) && LoadSection(w.cache, request).1.Hit?
    ensures exists o: Origin ::
      && env.hash(o.data) == request.key.digest && |o.data| == o.expectedLength
      && env.decode(o.decoder, o.data).Decoded?
      && env.decode(o.decoder, o.data).value == LoadSection(w.cache, request).1.value
  {
    var e := w.cache.entries[request.key];
    assert Authentic(env, e);
    assert e.key == request.key;
    assert env.hash(e.origin.data) == request.key.digest;
  }

  /** A caller that joins waits for a flight of the key it asked for. */
  lemma {:induction false} JoinsForItsKey(env: Env, w: World, request: Request)
    requires Safe(env, w) && Wired(w.cache) && LoadSection(w.cache, request).1.Join?
    ensures var (c, answer) := LoadSection(w.cache, request); answer.flight < |c.table| && c.table[answer.flight].key == request.key
  {
    assert request.key in w.cache.flights ==> Attached(w.cache, request.key);
  }

  /** What a waiting caller receives from its flight is what a decoder made of bytes with the
      length and digest asked for. */
  lemma {:induction false} WaitersGetAuthentic(env: Env, w: World, caller: Caller)
    requires Safe(env, w) && caller in w.waiting
    ensures var f := w.cache.table[w.waiting[caller]];
      f.outcome.Some? && f.outcome.value.Loaded? ==>
      && env.hash(f.outcome.value.data) == f.key.digest && |f.outcome.value.data| == f.expectedLength
      && env.decode(f.decoder, f.outcome.value.data).Decoded?
      && env.decode(f.decoder, f.outcome.value.data).value == f.outcome.value.value
  {
    var id := w.waiting[caller];
    assert OutcomeOk(env, id, w.cache.table[id]);
  }
}
