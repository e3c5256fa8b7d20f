/** What the byte cache keeps over every interleaving of loads, completions,
    cancellations and evictions.
 */
module CacheProtocol {
  import opened CacheModel

  // ---------------------------------------------------------------- the store of entries

  ghost predicate KeysDistinct(lru: seq<Entry>)
  {
    forall i, j :: 0 <= i < j < |lru| ==> lru[i].key != lru[j].key
  }

  /** The list holds exactly the entries of the map, each once. */
  ghost predicate Listed(entries: map<Key, Entry>, lru: seq<Entry>)
  {
    && KeysDistinct(lru)
    && (forall i :: 0 <= i < |lru| ==> lru[i].key in entries && entries[lru[i].key] == lru[i])
    && (forall k :: k in entries ==> entries[k] in lru && entries[k].key == k)
  }

  ghost predicate StoreOk(c: Cache)
  {
    && Listed(c.entries, c.lru)
    && c.bytes == Weight(c.lru)
    && |c.lru| <= c.limits.entries
    && c.bytes <= c.limits.bytes
  }

  lemma {:induction false} ListedCount(entries: map<Key, Entry>, lru: seq<Entry>)
    requires Listed(entries, lru)
    ensures |entries| == |lru|
  {
    if lru != [] {
      var e, rest := lru[0], lru[1..];
      var fewer := entries - {e.key};
      forall k | k in fewer ensures fewer[k] in rest {
        assert entries[k] in lru && entries[k] != e;
      }
      ListedCount(fewer, rest);
      assert entries.Keys == fewer.Keys + {e.key};
    } else {
      assert forall k :: k !in entries;
      assert entries == map[];
    }
  }

  lemma {:induction false} WithoutFacts(lru: seq<Entry>, key: Key)
    requires KeysDistinct(lru)
    ensures KeysDistinct(Without(lru, key))
    ensures forall e :: e in Without(lru, key) <==> e in lru && e.key != key
    ensures |Without(lru, key)| <= |lru|
  {
    if lru != [] {
      var rest := lru[1..];
      WithoutFacts(rest, key);
      assert lru == [lru[0]] + rest;
      RestDiffers(lru);
      if lru[0].key != key {
        assert Without(lru, key) == [lru[0]] + Without(rest, key);
      }
    }
  }

  lemma {:induction false} RestDiffers(lru: seq<Entry>)
    requires KeysDistinct(lru) && lru != []
    ensures KeysDistinct(lru[1..]) && forall e :: e in lru[1..] ==> e.key != lru[0].key
  {
    forall e | e in lru[1..] ensures e.key != lru[0].key {
      var i :| 0 <= i < |lru[1..]| && lru[1..][i] == e;
      assert e == lru[i + 1];
    }
  }

  lemma {:induction false} WithoutWeight(lru: seq<Entry>, e: Entry)
    requires KeysDistinct(lru) && e in lru
    ensures Weight(Without(lru, e.key)) + e.weight == Weight(lru)
    ensures |Without(lru, e.key)| + 1 == |lru|
  {
    if lru[0].key != e.key {
      var i :| 0 <= i < |lru| && lru[i] == e;
      assert lru[1..][i - 1] == e;
      WithoutWeight(lru[1..], e);
      assert Without(lru, e.key)[1..] == Without(lru[1..], e.key);
    } else {
      var i :| 0 <= i < |lru| && lru[i] == e;
      assert i == 0;
    }
  }

  lemma {:induction false} WithoutAbsent(lru: seq<Entry>, key: Key)
    requires forall e :: e in lru ==> e.key != key
    ensures Without(lru, key) == lru
  {
    if lru != [] {
      assert lru[0] in lru;
      WithoutAbsent(lru[1..], key);
      assert lru == [lru[0]] + lru[1..];
    }
  }

  /** A hit only moves its entry to the front. */
  lemma {:induction false} HitKeepsStore(c: Cache, key: Key)
    requires StoreOk(c) && key in c.entries
    ensures StoreOk(c.(lru := [c.entries[key]] + Without(c.lru, key)))
  {
    var e := c.entries[key];
    var w := Without(c.lru, key);
    var lru := [e] + w;
    WithoutFacts(c.lru, key);
    WithoutWeight(c.lru, e);
    assert lru[1..] == w;
    assert Weight(lru) == e.weight + Weight(w);
    MovedIsListed(c.entries, c.lru, w, e);
    assert c.entries[key := e] == c.entries;
  }

  lemma {:induction false} MovedIsListed(entries: map<Key, Entry>, lru: seq<Entry>, w: seq<Entry>, e: Entry)
    requires Listed(entries, lru) && KeysDistinct(w)
    requires forall x :: x in w <==> x in lru && x.key != e.key
    ensures Listed(entries[e.key := e], [e] + w)
  {
    var lru', entries' := [e] + w, entries[e.key := e];
    forall i | 0 <= i < |w| ensures w[i].key != e.key && w[i].key in entries && entries[w[i].key] == w[i] {
      assert w[i] in w;
      assert w[i] in lru;
      var j :| 0 <= j < |lru| && lru[j] == w[i];
    }
    forall k | k in entries' ensures entries'[k] in lru' && entries'[k].key == k {
      if k != e.key {
        assert entries[k] in lru;
        assert entries[k] in w;
      }
    }
  }

  lemma {:induction false} WeightLast(lru: seq<Entry>)
    requires lru != []
    ensures Weight(lru) == Weight(lru[..|lru| - 1]) + lru[|lru| - 1].weight
  {
    var n := |lru| - 1;
    if n > 0 {
      WeightLast(lru[1..]);
      assert lru[1..][..n - 1] == lru[..n][1..];
    }
  }

  /** Eviction keeps the most recent entries and drops no more than it must: the list
      shrinks to its longest prefix within the limits. */
  lemma {:induction false} ShrinkFacts(limits: Limits, lru: seq<Entry>)
    ensures
      var (kept, bytes) := Shrink(limits, lru, Weight(lru));
      && kept <= lru && bytes == Weight(kept)
      && !Over(limits, kept, bytes)
      && (|kept| < |lru| ==> Over(limits, lru[..|kept| + 1], Weight(lru[..|kept| + 1])))
      && (lru != [] && Cacheable(limits, lru[0].weight) ==> kept != [])
    decreases |lru|
  {
    if Over(limits, lru, Weight(lru)) && lru != [] {
      var n := |lru| - 1;
      WeightLast(lru);
      ShrinkFacts(limits, lru[..n]);
      var (kept, bytes) := Shrink(limits, lru[..n], Weight(lru[..n]));
      if |kept| < n {
        assert lru[..n][..|kept| + 1] == lru[..|kept| + 1];
      } else {
        assert lru[..n + 1] == lru;
      }
    }
  }

  lemma {:induction false} PrefixIsListed(entries: map<Key, Entry>, lru: seq<Entry>, kept: seq<Entry>)
    requires Listed(entries, lru) && kept <= lru
    ensures Listed(Restrict(entries, KeysOf(kept)), kept)
  {
    var entries' := Restrict(entries, KeysOf(kept));
    forall i | 0 <= i < |kept| ensures kept[i].key in entries' && entries'[kept[i].key] == kept[i] {
      assert kept[i] == lru[i];
      assert kept[i] in kept;
    }
    forall k | k in entries' ensures entries'[k] in kept && entries'[k].key == k {
      var e :| e in kept && e.key == k;
      var i :| 0 <= i < |kept| && kept[i] == e;
      assert lru[i] == e;
    }
  }

  /** The list that the eviction loop of an admission leaves. */
  function KeptBy(c: Cache, e: Entry): seq<Entry>
  {
    Shrink(c.limits, [e] + Without(c.lru, e.key), Weight([e] + Without(c.lru, e.key))).0
  }

  lemma {:induction false} AdmitShape(c: Cache, e: Entry)
    requires StoreOk(c)
    ensures Admit(c, e) == c.(
      lru := KeptBy(c, e), bytes := Weight(KeptBy(c, e)),
      entries := Restrict(c.entries[e.key := e], KeysOf(KeptBy(c, e))))
    ensures KeptBy(c, e) <= [e] + Without(c.lru, e.key)
    ensures !Over(c.limits, KeptBy(c, e), Weight(KeptBy(c, e)))
    ensures Cacheable(c.limits, e.weight) ==> KeptBy(c, e) != [] && KeptBy(c, e)[0] == e
  {
    AdmittedWeight(c, e);
    ShrinkFacts(c.limits, [e] + Without(c.lru, e.key));
  }

  lemma {:induction false} KeptIsListed(c: Cache, e: Entry)
    requires StoreOk(c)
    ensures Listed(Restrict(c.entries[e.key := e], KeysOf(KeptBy(c, e))), KeptBy(c, e))
  {
    AdmitShape(c, e);
    WithoutFacts(c.lru, e.key);
    MovedIsListed(c.entries, c.lru, Without(c.lru, e.key), e);
    PrefixIsListed(c.entries[e.key := e], [e] + Without(c.lru, e.key), KeptBy(c, e));
  }

  /** Admission keeps the store within its limits and always keeps the admitted entry. */
  lemma {:induction false} AdmitKeepsStore(c: Cache, e: Entry)
    requires StoreOk(c) && Cacheable(c.limits, e.weight)
    ensures StoreOk(Admit(c, e))
    ensures e.key in Admit(c, e).entries && Admit(c, e).entries[e.key] == e
    ensures Admit(c, e).lru != [] && Admit(c, e).lru[0] == e
    ensures forall k :: k in Admit(c, e).entries && k != e.key ==>
      k in c.entries && Admit(c, e).entries[k] == c.entries[k]
  {
    AdmitShape(c, e);
    KeptIsListed(c, e);
    assert Admit(c, e).lru[0] == e;
  }

  /** The counter passes through this value before the eviction loop, never above twice
      the byte limit. */
  lemma {:induction false} AdmittedWeight(c: Cache, e: Entry)
    requires StoreOk(c)
    ensures
      c.bytes - (if e.key in c.entries then c.entries[e.key].weight else 0) + e.weight
        == Weight([e] + Without(c.lru, e.key))
    ensures Cacheable(c.limits, e.weight) ==> Weight([e] + Without(c.lru, e.key)) <= 2 * c.limits.bytes
  {
    assert ([e] + Without(c.lru, e.key))[1..] == Without(c.lru, e.key);
    if e.key in c.entries {
      WithoutWeight(c.lru, c.entries[e.key]);
    } else {
      forall x | x in c.lru ensures x.key != e.key {
        var i :| 0 <= i < |c.lru| && c.lru[i] == x;
      }
      WithoutAbsent(c.lru, e.key);
    }
  }

  lemma {:induction false} WithoutSnapshotMembers(lru: seq<Entry>, s: SnapshotId)
    ensures forall e :: e in WithoutSnapshot(lru, s) <==> e in lru && e.key.snapshot != s
    ensures |WithoutSnapshot(lru, s)| <= |lru|
  {
    if lru != [] {
      WithoutSnapshotMembers(lru[1..], s);
      assert lru == [lru[0]] + lru[1..];
    }
  }

  lemma {:induction false} WithoutSnapshotFacts(lru: seq<Entry>, s: SnapshotId)
    requires KeysDistinct(lru)
    ensures KeysDistinct(WithoutSnapshot(lru, s)) && Weight(WithoutSnapshot(lru, s)) <= Weight(lru)
  {
    if lru != [] {
      var rest := lru[1..];
      WithoutSnapshotFacts(rest, s);
      WithoutSnapshotMembers(rest, s);
      var w := WithoutSnapshot(lru, s);
      if lru[0].key.snapshot != s {
        assert w == [lru[0]] + WithoutSnapshot(rest, s);
        assert w[1..] == WithoutSnapshot(rest, s);
        forall i | 0 < i < |w| ensures w[i].key != w[0].key {
          assert w[i] in WithoutSnapshot(rest, s);
          var j :| 0 <= j < |rest| && rest[j] == w[i];
          assert lru[j + 1] == w[i];
        }
      } else {
        assert w == WithoutSnapshot(rest, s);
      }
    }
  }

  lemma {:induction false} EvictKeepsStore(c: Cache, s: SnapshotId)
    requires StoreOk(c)
    ensures StoreOk(EvictSnapshot(c, s))
  {
    WithoutSnapshotFacts(c.lru, s);
    WithoutSnapshotMembers(c.lru, s);
    var c' := EvictSnapshot(c, s);
    forall i | 0 <= i < |c'.lru| ensures c'.lru[i].key in c'.entries && c'.entries[c'.lru[i].key] == c'.lru[i] {
      assert c'.lru[i] in c'.lru;
      assert c'.lru[i] in c.lru;
      var j :| 0 <= j < |c.lru| && c.lru[j] == c'.lru[i];
    }
    forall k | k in c'.entries ensures c'.entries[k] in c'.lru && c'.entries[k].key == k {
      assert c.entries[k] in c.lru;
    }
  }

  // ---------------------------------------------------------------- the reservations of flights

  function LiveCount(table: seq<Flight>): nat
  {
    if table == [] then 0 else LiveCount(table[..|table| - 1]) + if table[|table| - 1].done then 0 else 1
  }

  function LiveBytes(table: seq<Flight>): nat
  {
    if table == [] then 0
    else LiveBytes(table[..|table| - 1]) + if table[|table| - 1].done then 0 else table[|table| - 1].reservation
  }

  /** The admission counters are those of the unfinished executions, attached or not. */
  ghost predicate CapacityOk(c: Cache)
  {
    && c.flightEntries == LiveCount(c.table) <= c.limits.flightEntries
    && c.flightBytes == LiveBytes(c.table) <= c.limits.flightBytes
  }

  lemma {:induction false} UpdateLive(table: seq<Flight>, id: nat, f: Flight)
    requires id < |table| && f.reservation == table[id].reservation
    ensures LiveCount(table[id := f]) ==
      LiveCount(table) - (if table[id].done then 0 else 1) + if f.done then 0 else 1
    ensures LiveBytes(table[id := f]) ==
      LiveBytes(table) - (if table[id].done then 0 else f.reservation) + if f.done then 0 else f.reservation
  {
    var n := |table| - 1;
    if id < n {
      UpdateLive(table[..n], id, f);
      assert table[id := f][..n] == table[..n][id := f];
    } else {
      assert table[id := f][..n] == table[..n];
    }
  }

  lemma {:induction false} AppendLive(table: seq<Flight>, f: Flight)
    ensures LiveCount(table + [f]) == LiveCount(table) + if f.done then 0 else 1
    ensures LiveBytes(table + [f]) == LiveBytes(table) + if f.done then 0 else f.reservation
  {
    assert (table + [f])[..|table|] == table;
  }

  lemma {:induction false} SameLive(table: seq<Flight>, table': seq<Flight>)
    requires |table| == |table'|
    requires forall i :: 0 <= i < |table| ==>
      table[i].done == table'[i].done && table[i].reservation == table'[i].reservation
    ensures LiveCount(table) == LiveCount(table') && LiveBytes(table) == LiveBytes(table')
  {
    if table != [] {
      SameLive(table[..|table| - 1], table'[..|table| - 1]);
    }
  }

  /** Reserved capacity is held by some unfinished execution. */
  lemma {:induction false} SomeoneIsLive(table: seq<Flight>)
    requires LiveCount(table) > 0 || LiveBytes(table) > 0
    ensures exists i :: 0 <= i < |table| && !table[i].done
  {
    var n := |table| - 1;
    if table[n].done {
      SomeoneIsLive(table[..n]);
      var i :| 0 <= i < |table[..n]| && !table[..n][i].done;
      assert !table[i].done;
    }
  }
}
