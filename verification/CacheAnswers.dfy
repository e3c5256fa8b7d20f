/** What callers of the byte cache are served: when a load is a hit, what a completed load
    leaves behind, and what each section must leave alone.
 */
module CacheAnswers {
  import opened Wrappers
  import opened CacheModel
  import opened CacheProtocol
  import opened CacheRuns

  // ---------------------------------------------------------------- loads

  predicate FitsNow(c: Cache, size: nat)
  {
    c.flightEntries < c.limits.flightEntries && c.flightBytes + size <= c.limits.flightBytes
  }

  /** A cached value is served; a load under way is joined; a load that could never be
      admitted is refused; one that cannot be admitted now parks its caller; every other
      starts an execution for just this request. */
  lemma {:induction false} LoadAnswers(c: Cache, request: Request)
    requires Wired(c)
    ensures
      var (c', answer) := LoadSection(c, request);
      var key, size := request.key, request.expectedLength + request.maximumDecodedWeight;
      var absent := key !in c.entries && key !in c.flights;
      var possible := size <= c.limits.flightBytes && c.limits.flightEntries > 0 && c.limits.flightBytes > 0;
      && (answer.Hit? <==> key in c.entries)
      && (answer.Hit? ==> answer.value == c.entries[key].value)
      && (key !in c.entries && key in c.flights ==> answer == Join(c.flights[key]))
      && (answer.TooLarge? <==> absent && !possible)
      && (answer.Park? <==> absent && possible && !FitsNow(c, size))
      && (absent && possible && FitsNow(c, size) ==> answer == Join(|c.table|) && StartsFor(c, c', request))
      && c'.entries == c.entries && c'.bytes == c.bytes && c'.epoch == c.epoch
  {
  }

  /** One more execution, attached to the key asked for, with one waiter. */
  ghost predicate StartsFor(c: Cache, c': Cache, request: Request)
  {
    && |c'.table| == |c.table| + 1 && c'.table[..|c.table|] == c.table
    && c'.flights == c.flights[request.key := |c.table|]
    && var f := c'.table[|c.table|];
      && f.key == request.key && f.expectedLength == request.expectedLength
      && f.maximumDecodedWeight == request.maximumDecodedWeight && f.decoder == request.decoder
      && f.waiters == 1 && !f.done && !f.cancelled && f.outcome.None?
  }

  /** A fresh cache without limits of its own on flights starts every load that its byte limit
      could hold. */
  lemma {:induction false} FreshCacheStarts(limits: Limits, request: Request)
    requires limits.entries > 0 && limits.bytes > 0 && limits.flightEntries == 0 && limits.flightBytes == 0
    requires request.expectedLength + request.maximumDecodedWeight <= limits.bytes
    ensures LoadSection(NewCache(limits), request).1 == Join(0)
  {
    LoadAnswers(NewCache(limits), request);
  }

  /** A hit makes its entry the most recent one and changes the order of no others. */
  lemma {:induction false} HitRefreshes(c: Cache, request: Request) returns (i: nat)
    requires StoreOk(c) && Wired(c) && LoadSection(c, request).1.Hit?
    ensures i < |c.lru| && c.lru[i] == c.entries[request.key]
    ensures LoadSection(c, request).0 == c.(lru := [c.lru[i]] + (c.lru[..i] + c.lru[i + 1..]))
  {
    i := PlaceInStore(c, request.key);
    WithoutAt(c.lru, i);
  }

  lemma {:induction false} PlaceInStore(c: Cache, key: Key) returns (i: nat)
    requires StoreOk(c) && key in c.entries
    ensures i < |c.lru| && c.lru[i] == c.entries[key] && c.lru[i].key == key
  {
    assert c.entries[key] in c.lru;
    i :| 0 <= i < |c.lru| && c.lru[i] == c.entries[key];
  }

  lemma {:induction false} WithoutAt(lru: seq<Entry>, i: nat)
    requires KeysDistinct(lru) && i < |lru|
    ensures Without(lru, lru[i].key) == lru[..i] + lru[i + 1..]
  {
    if i > 0 {
      RestDiffers(lru);
      var rest := lru[1..];
      WithoutAt(rest, i - 1);
      assert rest[i - 1] == lru[i];
      assert Without(lru, lru[i].key) == [lru[0]] + Without(rest, lru[i].key);
      assert lru[..i] == [lru[0]] + rest[..i - 1];
      assert lru[i + 1..] == rest[i..];
    }
  }

  // ---------------------------------------------------------------- completions

  /** The bytes have the length and digest asked for, and decode to `value` within the
      weight that was promised. */
  predicate Delivers(env: Env, f: Flight, bytes: seq<nat>, value: Value, weight: nat)
  {
    && |bytes| == f.expectedLength && env.hash(bytes) == f.key.digest
    && env.decode(f.decoder, bytes) == Decoded(value, weight)
    && weight <= f.maximumDecodedWeight && |bytes| + weight <= MAX_UINT64
  }

  /** Every execution whose bytes are right succeeds, and only those. */
  lemma {:induction false} ExecutionSucceedsIff(env: Env, f: Flight, bytes: seq<nat>, value: Value, weight: nat)
    ensures Delivers(env, f, bytes, value, weight) <==>
      Execute(env, f, Data(bytes)) == Loaded(value, |bytes| + weight, bytes)
  {
  }

  lemma {:induction false} CompleteAdmits(c: Cache, id: nat, outcome: Outcome)
    requires id < |c.table| && Owns(c, id) && outcome.Loaded? && Cacheable(c.limits, outcome.weight)
    ensures Complete(c, id, outcome) ==
      Settle(Admit(Detach(c, id), EntryOf(id, c.table[id], outcome)), id, outcome)
  {
  }

  /** Once an attached execution has delivered a value that fits the cache, the next load of
      its key is a hit of that very value. */
  lemma {:induction false} DeliveredIsServed(
    env: Env, w: World, id: nat, bytes: seq<nat>, value: Value, weight: nat, request: Request)
    requires Safe(env, w) && Enabled(w, Finish(id, Data(bytes)))
    requires request.key in w.cache.flights && w.cache.flights[request.key] == id
    requires Delivers(env, w.cache.table[id], bytes, value, weight)
    requires |bytes| + weight <= w.cache.limits.bytes && w.cache.limits.entries > 0 && w.cache.limits.bytes > 0
    ensures
      var c' := Next(env, w, Finish(id, Data(bytes))).cache;
      Wired(c') && LoadSection(c', request).1 == Hit(value)
  {
    var c, outcome := w.cache, Execute(env, w.cache.table[id], Data(bytes));
    assert Attached(c, request.key);
    ExecutionSucceedsIff(env, c.table[id], bytes, value, weight);
    CompleteAdmits(c, id, outcome);
    assert StoreOk(Detach(c, id));
    AdmitKeepsStore(Detach(c, id), EntryOf(id, c.table[id], outcome));
    CompleteKeepsFlights(c, id, outcome);
    FinishTable(env, w, id, Data(bytes));
    StillWired(c, Complete(c, id, outcome));
  }

  lemma {:induction false} StillWired(c: Cache, c': Cache)
    requires FlightsOk(c) && |c'.table| == |c.table|
    requires forall k :: k in c'.flights ==> k in c.flights && c'.flights[k] == c.flights[k]
    ensures Wired(c')
  {
    forall k | k in c'.flights ensures c'.flights[k] < |c'.table| {
      assert Attached(c, k);
    }
  }

  lemma {:induction false} WeightOfPrefix(lru: seq<Entry>, m: nat, n: nat)
    requires m <= n <= |lru|
    ensures Weight(lru[..m]) <= Weight(lru[..n])
  {
    if m > 0 {
      WeightOfPrefix(lru[1..], m - 1, n - 1);
      assert lru[..m][1..] == lru[1..][..m - 1];
      assert lru[..n][1..] == lru[1..][..n - 1];
    }
  }

  /** The key is that of one of the `n` most recent entries. */
  ghost predicate IsRecent(lru: seq<Entry>, n: nat, k: Key)
    requires n <= |lru|
  {
    exists i :: 0 <= i < n && lru[i].key == k
  }

  /** An entry of this weight, the entry at place `i` and all that are more recent than that
      exceed a limit together. */
  predicate NoRoomFor(limits: Limits, lru: seq<Entry>, weight: nat, i: nat)
    requires i < |lru|
  {
    i + 2 > limits.entries || weight + Weight(lru[..i + 1]) > limits.bytes
  }

  /** A cacheable delivery puts its entry in front of the `n` most recent ones, drops the rest
      and changes nothing else in the store; keeping any entry that it drops would have
      exceeded a limit. */
  lemma {:induction false} DeliveryDropsOnlyWhatItMust(c: Cache, id: nat, outcome: Outcome) returns (n: nat)
    requires StoreOk(c) && FlightsOk(c) && id < |c.table| && Owns(c, id)
    requires outcome.Loaded? && Cacheable(c.limits, outcome.weight)
    ensures n <= |c.lru| && Complete(c, id, outcome).lru == [EntryOf(id, c.table[id], outcome)] + c.lru[..n]
    ensures forall k :: k in c.entries || k == c.table[id].key ==>
      (k in Complete(c, id, outcome).entries <==> k == c.table[id].key || IsRecent(c.lru, n, k))
    ensures forall k :: k in Complete(c, id, outcome).entries && k != c.table[id].key ==>
      k in c.entries && Complete(c, id, outcome).entries[k] == c.entries[k]
    ensures forall i :: n <= i < |c.lru| ==> NoRoomFor(c.limits, c.lru, outcome.weight, i)
  {
    var e, d := EntryOf(id, c.table[id], outcome), Detach(c, id);
    assert Attached(c, e.key);
    CompleteAdmits(c, id, outcome);
    n := AdmittedInFront(d, e);
    KeptKeys(d, e, n);
    AdmitKeepsStore(d, e);
  }

  lemma {:induction false} AdmittedInFront(c: Cache, e: Entry) returns (n: nat)
    requires StoreOk(c) && e.key !in c.entries && Cacheable(c.limits, e.weight)
    ensures n <= |c.lru| && KeptBy(c, e) == [e] + c.lru[..n] == Admit(c, e).lru
    ensures Admit(c, e).entries == Restrict(c.entries[e.key := e], KeysOf([e] + c.lru[..n]))
    ensures forall i :: n <= i < |c.lru| ==> NoRoomFor(c.limits, c.lru, e.weight, i)
  {
    KeptOfAll(c, e);
    AdmitShape(c, e);
    n := |KeptBy(c, e)| - 1;
    FrontOf(KeptBy(c, e), e, c.lru);
    DroppedHadNoRoom(c, e, n);
  }

  lemma {:induction false} KeptOfAll(c: Cache, e: Entry)
    requires StoreOk(c) && e.key !in c.entries
    ensures KeptBy(c, e) == Shrink(c.limits, [e] + c.lru, Weight([e] + c.lru)).0 && Without(c.lru, e.key) == c.lru
  {
    NotListed(c, e.key);
    WithoutAbsent(c.lru, e.key);
  }

  lemma {:induction false} FrontOf(kept: seq<Entry>, e: Entry, lru: seq<Entry>)
    requires kept <= [e] + lru && kept != []
    ensures kept == [e] + lru[..|kept| - 1]
  {
  }

  lemma {:induction false} DroppedHadNoRoom(c: Cache, e: Entry, n: nat)
    requires n <= |c.lru| && Shrink(c.limits, [e] + c.lru, Weight([e] + c.lru)).0 == [e] + c.lru[..n]
    ensures forall i :: n <= i < |c.lru| ==> NoRoomFor(c.limits, c.lru, e.weight, i)
  {
    var order := [e] + c.lru;
    ShrinkFacts(c.limits, order);
    forall i | n <= i < |c.lru| ensures NoRoomFor(c.limits, c.lru, e.weight, i) {
      WeightOfPrefix(order, n + 2, i + 2);
      assert order[..i + 2][1..] == c.lru[..i + 1];
    }
  }

  lemma {:induction false} NotListed(c: Cache, key: Key)
    requires StoreOk(c) && key !in c.entries
    ensures forall x :: x in c.lru ==> x.key != key
  {
    forall x | x in c.lru ensures x.key != key {
      var i :| 0 <= i < |c.lru| && c.lru[i] == x;
    }
  }

  lemma {:induction false} KeptKeys(c: Cache, e: Entry, n: nat)
    requires n <= |c.lru|
    ensures forall k :: k in KeysOf([e] + c.lru[..n]) <==> k == e.key || IsRecent(c.lru, n, k)
  {
    var kept := [e] + c.lru[..n];
    forall k ensures k in KeysOf(kept) <==> k == e.key || IsRecent(c.lru, n, k) {
      assert kept[0] == e;
      if IsRecent(c.lru, n, k) {
        var i :| 0 <= i < n && c.lru[i].key == k;
        assert kept[i + 1] == c.lru[i];
        assert kept[i + 1] in kept;
      }
      if x :| x in kept && x.key == k {
        var j :| 0 <= j < |kept| && kept[j] == x;
        assert j > 0 ==> c.lru[j - 1] == x;
      }
    }
  }

  /** Any other completion leaves the store alone: one that failed, one whose flight was
      detached, and one too heavy to cache. */
  lemma {:induction false} OtherwiseNothingIsStored(env: Env, w: World, id: nat, loaded: LoaderResult)
    requires Enabled(w, Finish(id, loaded))
    ensures
      var c, c' := w.cache, Next(env, w, Finish(id, loaded)).cache;
      var outcome := Execute(env, c.table[id], loaded);
      || (c'.entries == c.entries && c'.lru == c.lru && c'.bytes == c.bytes)
      || (outcome.Loaded? && Owns(c, id) && outcome.weight <= c.limits.bytes && c.limits.entries > 0 && c.limits.bytes > 0)
  {
  }

  /** Whatever a completion delivers, it ends its own flight and no other one notices. */
  lemma {:induction false} OnlyItsFlightEnds(env: Env, w: World, id: nat, loaded: LoaderResult)
    requires FlightsOk(w.cache) && Enabled(w, Finish(id, loaded))
    ensures
      var c, c' := w.cache, Next(env, w, Finish(id, loaded)).cache;
      && (forall k :: k in c'.flights <==> k in c.flights && c.flights[k] != id)
      && (forall k :: k in c'.flights ==> c'.flights[k] == c.flights[k])
      && c'.table == c.table[id := c.table[id].(
        done := true, cancelled := true, outcome := Some(Execute(env, c.table[id], loaded)))]
  {
    CompleteDetaches(w.cache, id, Execute(env, w.cache.table[id], loaded));
    FinishTable(env, w, id, loaded);
    assert forall k :: k in w.cache.flights ==> Attached(w.cache, k);
  }

  lemma {:induction false} CompleteDetaches(c: Cache, id: nat, outcome: Outcome)
    requires id < |c.table|
    ensures Complete(c, id, outcome).flights == if Owns(c, id) then c.flights - {c.table[id].key} else c.flights
  {
  }

  // ---------------------------------------------------------------- leaving and evicting

  /** A caller that leaves gives up only its own interest: the flight goes on for the others,
      and only the last one to leave an attached flight detaches and cancels it. */
  lemma {:induction false} LastOneCancels(env: Env, w: World, caller: Caller)
    requires Safe(env, w) && Enabled(w, Leave(caller))
    ensures
      var c, c', id := w.cache, Next(env, w, Leave(caller)).cache, w.waiting[caller];
      var f, f' := c.table[id], c'.table[id];
      && f' == f.(waiters := f.waiters - 1, cancelled := f'.cancelled)
      && ((exists other :: other != caller && other in w.waiting && w.waiting[other] == id) ==>
        c'.flights == c.flights && f'.cancelled == f.cancelled)
      && (f.key in c.flights && c.flights[f.key] == id
          && (forall other :: other != caller && other in w.waiting ==> w.waiting[other] != id) ==>
        c'.flights == c.flights - {f.key} && f'.cancelled)
      && c'.entries == c.entries && c'.lru == c.lru && c'.bytes == c.bytes && c'.waiters == c.waiters - 1
      && (forall i :: 0 <= i < |c.table| && i != id ==> c'.table[i] == c.table[i])
  {
    var id := w.waiting[caller];
    GuardsNeverNeeded(w, caller);
    var all := WaitingOn(w.waiting, id);
    assert w.cache.table[id].waiters == |all|;
    if other :| other != caller && other in w.waiting && w.waiting[other] == id {
      assert {caller, other} <= all;
      SubsetSmaller({caller, other}, all);
      assert |{caller, other}| == 2;
    } else {
      assert all == {caller};
    }
  }

  lemma {:induction false} SubsetSmaller<T>(a: set<T>, b: set<T>)
    requires a <= b
    ensures |a| <= |b|
  {
    assert b == a + (b - a);
  }

  /** An eviction takes exactly what belongs to its snapshot: those entries, and those attached
      flights, which it cancels. Everything of other snapshots stays as it is. */
  lemma {:induction false} EvictionIsExact(env: Env, w: World, s: SnapshotId)
    requires Safe(env, w)
    ensures
      var c, c' := w.cache, Next(env, w, Evict(s)).cache;
      && (forall k :: k in c'.entries <==> k in c.entries && k.snapshot != s)
      && (forall k :: k in c'.entries ==> c'.entries[k] == c.entries[k])
      && (forall k :: k in c'.flights <==> k in c.flights && k.snapshot != s)
      && (forall k :: k in c'.flights ==> c'.flights[k] == c.flights[k])
      && |c'.table| == |c.table|
      && (forall i :: 0 <= i < |c.table| ==> c'.table[i] == c.table[i].(cancelled := c'.table[i].cancelled))
      && (forall i :: 0 <= i < |c.table| ==>
        (c'.table[i].cancelled <==> c.table[i].cancelled || exists k :: k in c.flights && k.snapshot == s && c.flights[k] == i))
  {
    var c := w.cache;
    var c' := Next(env, w, Evict(s)).cache;
    EvictSameTable(c, s);
    forall i | 0 <= i < |c.table|
      ensures c'.table[i].cancelled <==> c.table[i].cancelled || exists k :: k in c.flights && k.snapshot == s && c.flights[k] == i
    {
      if k :| k in c.flights && k.snapshot == s && c.flights[k] == i {
        assert Attached(c, k);
      }
    }
  }
}
