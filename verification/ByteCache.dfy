/** The cache object itself: its methods update maps, list and counters in place, and each
    is proved to take the step that the protocol describes.
 */
module ByteCache {
  import opened Wrappers
  import opened CacheModel
  import opened CacheProtocol
  import CacheRuns

  lemma {:induction false} DropOldest(entries: map<Key, Entry>, lru: seq<Entry>)
    requires Listed(entries, lru) && lru != []
    ensures Listed(entries - {lru[|lru| - 1].key}, lru[..|lru| - 1])
  {
    var n := |lru| - 1;
    var fewer, rest := entries - {lru[n].key}, lru[..n];
    forall k | k in fewer ensures fewer[k] in rest && fewer[k].key == k {
      assert entries[k] in lru;
      var i :| 0 <= i < |lru| && lru[i] == entries[k];
      assert i != n;
      assert rest[i] == entries[k];
    }
  }

  lemma {:induction false} RestrictListed(all: map<Key, Entry>, entries: map<Key, Entry>, lru: seq<Entry>)
    requires Listed(entries, lru)
    requires forall k :: k in entries ==> k in all && all[k] == entries[k]
    ensures entries == Restrict(all, KeysOf(lru))
  {
    forall k ensures k in entries <==> k in Restrict(all, KeysOf(lru)) {
      if k in entries {
        assert entries[k] in lru && entries[k].key == k;
      }
      if k in Restrict(all, KeysOf(lru)) {
        var e :| e in lru && e.key == k;
        var i :| 0 <= i < |lru| && lru[i] == e;
      }
    }
  }

  /** The map and the list hold the same entries, all of them among `all`. */
  ghost predicate Tracks(entries: map<Key, Entry>, lru: seq<Entry>, all: map<Key, Entry>)
  {
    && Listed(entries, lru) && |entries| == |lru|
    && forall k :: k in entries ==> k in all && all[k] == entries[k]
  }

  lemma {:induction false} NotListed(entries: map<Key, Entry>, lru: seq<Entry>, key: Key)
    requires Listed(entries, lru) && key !in entries
    ensures Without(lru, key) == lru
  {
    forall e | e in lru ensures e.key != key {
      var i :| 0 <= i < |lru| && lru[i] == e;
    }
    WithoutAbsent(lru, key);
  }

  lemma {:induction false} AdmitIs(
    c: Cache, entry: Entry, pushed: int, entries: map<Key, Entry>, lru: seq<Entry>, bytes: int)
    requires pushed == c.bytes + entry.weight - if entry.key in c.entries then c.entries[entry.key].weight else 0
    requires (lru, bytes) == Shrink(c.limits, [entry] + Without(c.lru, entry.key), pushed)
    requires Tracks(entries, lru, c.entries[entry.key := entry])
    ensures Admit(c, entry) == c.(entries := entries, lru := lru, bytes := bytes)
  {
    RestrictListed(c.entries[entry.key := entry], entries, lru);
  }

  /** Pushed to the front, then shrunk: that is admission. */
  lemma {:induction false} PushedThenShrunk(
    c: Cache, entry: Entry, pushed: Cache, entries: map<Key, Entry>, lru: seq<Entry>, bytes: int)
    requires pushed.lru == [entry] + Without(c.lru, entry.key) && pushed.entries == c.entries[entry.key := entry]
    requires pushed.bytes == c.bytes + entry.weight - if entry.key in c.entries then c.entries[entry.key].weight else 0
    requires (lru, bytes) == Shrink(c.limits, pushed.lru, pushed.bytes) && Tracks(entries, lru, pushed.entries)
    ensures Admit(c, entry) == c.(entries := entries, lru := lru, bytes := bytes)
  {
    AdmitIs(c, entry, pushed.bytes, entries, lru, bytes);
  }

  lemma {:induction false} ListedTracks(entries: map<Key, Entry>, lru: seq<Entry>)
    requires Listed(entries, lru)
    ensures Tracks(entries, lru, entries)
  {
    ListedCount(entries, lru);
  }

  lemma {:induction false} WithoutStaysListed(entries: map<Key, Entry>, lru: seq<Entry>, key: Key)
    requires Listed(entries, lru)
    ensures Listed(entries - {key}, Without(lru, key))
  {
    WithoutFacts(lru, key);
    var fewer, w := entries - {key}, Without(lru, key);
    forall i | 0 <= i < |w| ensures w[i].key in fewer && fewer[w[i].key] == w[i] {
      assert w[i] in w;
      var j :| 0 <= j < |lru| && lru[j] == w[i];
    }
    forall k | k in fewer ensures fewer[k] in w && fewer[k].key == k {
      assert entries[k] in lru;
    }
  }

  lemma {:induction false} WithoutThenSnapshot(lru: seq<Entry>, key: Key)
    ensures WithoutSnapshot(Without(lru, key), key.snapshot) == WithoutSnapshot(lru, key.snapshot)
  {
    if lru != [] && lru[0].key != key {
      WithoutThenSnapshot(lru[1..], key);
      assert Without(lru, key)[1..] == Without(lru[1..], key);
    }
  }

  /** What is left of the entries while the loop has `pending` keys to visit. */
  ghost predicate Left(entries: map<Key, Entry>, all: map<Key, Entry>, pending: set<Key>, snapshot: SnapshotId)
  {
    && pending <= entries.Keys
    && (forall k :: k in entries ==> k in all && all[k] == entries[k] && (k.snapshot != snapshot || k in pending))
    && (forall k :: k in all && k.snapshot != snapshot ==> k in entries)
  }

  lemma {:induction false} LeftStep(
    entries: map<Key, Entry>, all: map<Key, Entry>, pending: set<Key>, snapshot: SnapshotId, key: Key)
    requires Left(entries, all, pending, snapshot) && key in pending
    ensures key.snapshot == snapshot ==> Left(entries - {key}, all, pending - {key}, snapshot)
    ensures key.snapshot != snapshot ==> Left(entries, all, pending - {key}, snapshot)
  {
  }

  lemma {:induction false} LeftDone(entries: map<Key, Entry>, all: map<Key, Entry>, snapshot: SnapshotId)
    requires Left(entries, all, {}, snapshot)
    ensures entries == map k | k in all && k.snapshot != snapshot :: all[k]
  {
  }

  lemma {:induction false} NoneLeft(entries: map<Key, Entry>, lru: seq<Entry>, snapshot: SnapshotId)
    requires Listed(entries, lru) && forall k :: k in entries ==> k.snapshot != snapshot
    ensures WithoutSnapshot(lru, snapshot) == lru
  {
    forall e | e in lru ensures e.key.snapshot != snapshot {
      var i :| 0 <= i < |lru| && lru[i] == e;
    }
    NoneOf(lru, snapshot);
  }

  lemma {:induction false} NoneOf(lru: seq<Entry>, snapshot: SnapshotId)
    requires forall e :: e in lru ==> e.key.snapshot != snapshot
    ensures WithoutSnapshot(lru, snapshot) == lru
  {
    if lru != [] {
      assert lru[0] in lru;
      NoneOf(lru[1..], snapshot);
      assert lru == [lru[0]] + lru[1..];
    }
  }

  /** Flight `i` while the loop still has `pending` keys to visit. */
  function Cancelled(f: Flight, i: nat, all: map<Key, nat>, snapshot: SnapshotId, pending: set<Key>): Flight
  {
    f.(cancelled := f.cancelled ||
      (f.key.snapshot == snapshot && f.key in all && all[f.key] == i && f.key !in pending))
  }

  class ByteCache {
    const limits: Limits
    var entries: map<Key, Entry>
    var lru: seq<Entry>
    var bytes: int
    var flights: map<Key, nat>
    var table: seq<Flight>
    var waiters: int
    var flightEntries: int
    var flightBytes: int
    var epoch: nat

    function View(): Cache
      reads this
    {
      Cache(limits, entries, lru, bytes, flights, table, waiters, flightEntries, flightBytes, epoch)
    }

    constructor (limits: Limits)
      ensures View() == CacheRuns.NewCache(limits)
    {
      var flightEntries := if limits.flightEntries == 0 then limits.entries else limits.flightEntries;
      var flightBytes := if limits.flightBytes == 0 then limits.bytes else limits.flightBytes;
      this.limits := Limits(limits.entries, limits.bytes, flightEntries, flightBytes);
      entries, lru, bytes := map[], [], 0;
      flights, table, waiters := map[], [], 0;
      this.flightEntries, this.flightBytes, epoch := 0, 0, 0;
    }

    /** Lines 133-176. */
    method LoadLocked(request: Request) returns (answer: Answer)
      requires Wired(View())
      modifies this
      ensures (View(), answer) == LoadSection(old(View()), request)
    {
      var reservation := request.expectedLength + request.maximumDecodedWeight;
      if request.key in entries {
        var entry := entries[request.key];
        lru := [entry] + Without(lru, request.key);
        return Hit(entry.value);
      }
      var id;
      if request.key !in flights {
        if reservation > limits.flightBytes || limits.flightEntries == 0 || limits.flightBytes == 0 {
          return TooLarge;
        }
        if flightEntries >= limits.flightEntries || flightBytes > limits.flightBytes - reservation {
          return Park(epoch, reservation);
        }
        id := |table|;
        table := table + [Flight(
          request.key, request.expectedLength, request.maximumDecodedWeight, request.decoder, reservation,
          0, false, false, None)];
        flights := flights[request.key := id];
        flightEntries := flightEntries + 1;
        flightBytes := flightBytes + reservation;
      } else {
        id := flights[request.key];
      }
      table := table[id := table[id].(waiters := table[id].waiters + 1)];
      waiters := waiters + 1;
      answer := Join(id);
    }

    /** Lines 280-287: the least recent entry leaves. */
    method DropBack(ghost all: map<Key, Entry>)
      requires Tracks(entries, lru, all) && lru != []
      modifies this`entries, this`lru, this`bytes
      ensures Tracks(entries, lru, all) && |lru| < |old(lru)|
      ensures Over(limits, old(lru), old(bytes)) ==>
        Shrink(limits, lru, bytes) == Shrink(limits, old(lru), old(bytes))
    {
      var n := |lru| - 1;
      var oldest := lru[n];
      DropOldest(entries, lru);
      entries := entries - {oldest.key};
      bytes := bytes - oldest.weight;
      lru := lru[..n];
      ListedCount(entries, lru);
    }

    /** The eviction loop of `admit`, lines 279-288. */
    method ShrinkToLimits(ghost all: map<Key, Entry>)
      requires Tracks(entries, lru, all)
      modifies this`entries, this`lru, this`bytes
      ensures Tracks(entries, lru, all)
      ensures (lru, bytes) == Shrink(limits, old(lru), old(bytes))
    {
      while (|entries| > limits.entries || bytes > limits.bytes) && lru != []
        invariant Tracks(entries, lru, all)
        invariant Shrink(limits, lru, bytes) == Shrink(limits, old(lru), old(bytes))
        decreases |lru|
      {
        DropBack(all);
      }
    }

    /** Lines 268-278: the entry goes to the front, in place of an older one for its key. */
    method PushFront(entry: Entry)
      requires Listed(entries, lru)
      modifies this`entries, this`lru, this`bytes
      ensures Listed(entries, lru) && lru == [entry] + Without(old(lru), entry.key)
      ensures entries == old(entries)[entry.key := entry]
      ensures bytes == old(bytes) + entry.weight -
        if entry.key in old(entries) then old(entries)[entry.key].weight else 0
    {
      WithoutFacts(lru, entry.key);
      MovedIsListed(entries, lru, Without(lru, entry.key), entry);
      if entry.key in entries {
        bytes := bytes - entries[entry.key].weight;
        bytes := bytes + entry.weight;
        lru := [entry] + Without(lru, entry.key);
      } else {
        NotListed(entries, lru, entry.key);
        bytes := bytes + entry.weight;
        lru := [entry] + lru;
      }
      entries := entries[entry.key := entry];
    }

    /** `admit`. */
    method AdmitEntry(entry: Entry)
      requires Listed(entries, lru)
      modifies this`entries, this`lru, this`bytes
      ensures View() == Admit(old(View()), entry)
    {
      ghost var before := View();
      PushFront(entry);
      ghost var pushed := View();
      ListedTracks(entries, lru);
      ShrinkToLimits(pushed.entries);
      PushedThenShrunk(before, entry, pushed, entries, lru, bytes);
    }

    /** `complete`. */
    method CompleteFlight(id: nat, outcome: Outcome)
      requires id < |table| && Listed(entries, lru)
      modifies this
      ensures View() == Complete(old(View()), id, outcome)
    {
      var flight := table[id];
      var ownsFlight := flight.key in flights && flights[flight.key] == id;
      if ownsFlight {
        flights := flights - {flight.key};
      }
      flightEntries := flightEntries - 1;
      flightBytes := flightBytes - flight.reservation;
      epoch := epoch + 1;
      assert View() == Detach(old(View()), id);
      if outcome.Loaded? && ownsFlight {
        if !(outcome.weight > limits.bytes || limits.entries == 0 || limits.bytes == 0) {
          AdmitEntry(EntryOf(id, flight, outcome));
        }
      }
      table := table[id := flight.(done := true, cancelled := true, outcome := Some(outcome))];
    }

    /** `releaseWaiter`. */
    method Release(id: nat)
      requires id < |table|
      modifies this
      ensures View() == ReleaseWaiter(old(View()), id)
    {
      if waiters > 0 {
        waiters := waiters - 1;
      }
      if table[id].waiters > 0 {
        table := table[id := table[id].(waiters := table[id].waiters - 1)];
      }
      if table[id].waiters == 0 {
        if table[id].key in flights && flights[table[id].key] == id {
          flights := flights - {table[id].key};
          table := table[id := table[id].(cancelled := true)];
        }
      }
    }

    /** Lines 315-318: one entry of the snapshot leaves. */
    method DropEntry(key: Key, ghost snapshot: SnapshotId)
      requires Listed(entries, lru) && key in entries && key.snapshot == snapshot
      modifies this`entries, this`lru, this`bytes
      ensures Listed(entries, lru) && entries == old(entries) - {key}
      ensures WithoutSnapshot(lru, snapshot) == WithoutSnapshot(old(lru), snapshot)
      ensures bytes - Weight(lru) == old(bytes) - Weight(old(lru))
    {
      var entry := entries[key];
      WithoutWeight(lru, entry);
      WithoutStaysListed(entries, lru, key);
      WithoutThenSnapshot(lru, key);
      bytes := bytes - entry.weight;
      lru := Without(lru, key);
      entries := entries - {key};
    }

    /** Lines 311-319. The keys of a Go map come in any order. */
    method DropEntries(snapshot: SnapshotId)
      requires Listed(entries, lru)
      modifies this`entries, this`lru, this`bytes
      ensures lru == WithoutSnapshot(old(lru), snapshot)
      ensures entries == map k | k in old(entries) && k.snapshot != snapshot :: old(entries)[k]
      ensures bytes == old(bytes) - (Weight(old(lru)) - Weight(lru))
    {
      var pending := entries.Keys;
      while pending != {}
        invariant Listed(entries, lru)
        invariant WithoutSnapshot(lru, snapshot) == WithoutSnapshot(old(lru), snapshot)
        invariant bytes - Weight(lru) == old(bytes) - Weight(old(lru))
        invariant Left(entries, old(entries), pending, snapshot)
        decreases pending
      {
        var key :| key in pending;
        LeftStep(entries, old(entries), pending, snapshot, key);
        if key.snapshot == snapshot {
          DropEntry(key, snapshot);
        }
        pending := pending - {key};
      }
      LeftDone(entries, old(entries), snapshot);
      NoneLeft(entries, lru, snapshot);
    }

    /** Lines 320-325. */
    method DetachFlights(snapshot: SnapshotId)
      requires forall k :: k in flights ==> flights[k] < |table| && table[flights[k]].key == k
      modifies this`flights, this`table
      ensures flights == map k | k in old(flights) && k.snapshot != snapshot :: old(flights)[k]
      ensures table == CancelSnapshot(old(table), old(flights), snapshot)
    {
      var all := flights;
      var pending := flights.Keys;
      while pending != {}
        invariant pending <= all.Keys
        invariant |table| == |old(table)|
        invariant forall k :: k in flights <==> k in all && (k.snapshot != snapshot || k in pending)
        invariant forall k :: k in flights ==> flights[k] == all[k]
        invariant forall i :: 0 <= i < |table| ==>
          table[i] == Cancelled(old(table)[i], i, all, snapshot, pending)
        decreases pending
      {
        var key :| key in pending;
        if key.snapshot == snapshot {
          flights := flights - {key};
          table := table[all[key] := table[all[key]].(cancelled := true)];
        }
        pending := pending - {key};
      }
    }

    /** `EvictSnapshot`. */
    method Evict(snapshot: SnapshotId)
      requires Listed(entries, lru)
      requires forall k :: k in flights ==> flights[k] < |table| && table[flights[k]].key == k
      modifies this
      ensures View() == EvictSnapshot(old(View()), snapshot)
    {
      DropEntries(snapshot);
      DetachFlights(snapshot);
    }
  }
}
