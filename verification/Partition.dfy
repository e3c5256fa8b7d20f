/** Greedy sharding in application/catalog/partition.go. The encoded size of a run of records
    is an envelope, the records' own sizes and the commas between them; the envelope of a
    schema-node shard also spells its first ordinal. */
module Partition {
  import opened Ordering
  import opened Greedy

  datatype Limits = Limits(records: nat, bytes: nat)

  datatype Encoding = Encoding(envelope: nat -> nat, sizes: seq<nat>)

  datatype Result<T> = Ok(value: T) | TooLarge(record: nat) | NoProgress | OutOfOrder

  function Sum(sizes: seq<nat>, start: nat, end: nat): nat
    requires start <= end <= |sizes|
    decreases end - start
  {
    if start == end then 0 else Sum(sizes, start, end - 1) + sizes[end - 1]
  }

  function Bytes(e: Encoding, start: nat, end: nat): nat
    requires start < end <= |e.sizes|
  {
    e.envelope(start) + Sum(e.sizes, start, end) + (end - start - 1)
  }

  /** Every record takes some space, and starting one record later lengthens the envelope by
      no more than a digit. */
  ghost predicate Additive(e: Encoding)
  {
    && (forall k: nat :: e.envelope(k) > 0)
    && (forall k: nat, m: nat :: m == k + 1 ==> e.envelope(m) <= e.envelope(k) + 1)
    && (forall k :: 0 <= k < |e.sizes| ==> e.sizes[k] > 0)
  }

  /** The records form a shard within both limits. */
  function Within(e: Encoding, limits: Limits): Fits
  {
    (s: nat, t: nat) => s < t <= |e.sizes| && t - s <= limits.records && Bytes(e, s, t) <= limits.bytes
  }

  // ----- Sizes ---------------------------------------------------------------------------

  lemma {:induction false} SumFront(sizes: seq<nat>, start: nat, end: nat)
    requires start < end <= |sizes|
    ensures Sum(sizes, start, end) == sizes[start] + Sum(sizes, start + 1, end)
    decreases end - start
  {
    if start < end - 1 {
      SumFront(sizes, start, end - 1);
    }
  }

  lemma {:induction false} LaterStartIsSmaller(e: Encoding, s: nat, t: nat, end: nat)
    requires Additive(e) && s <= t < end <= |e.sizes|
    ensures Bytes(e, t, end) <= Bytes(e, s, end)
    decreases t - s
  {
    if s < t {
      SumFront(e.sizes, s, end);
      assert e.envelope(s + 1) <= e.envelope(s) + 1;
      LaterStartIsSmaller(e, s + 1, t, end);
    }
  }

  lemma {:induction false} EarlierEndIsSmaller(e: Encoding, start: nat, a: nat, b: nat)
    requires start < a <= b <= |e.sizes|
    ensures Bytes(e, start, a) <= Bytes(e, start, b)
    decreases b - a
  {
    if a < b {
      EarlierEndIsSmaller(e, start, a, b - 1);
    }
  }

  /** A shard within the limits stays within them when records are left out at its ends. */
  lemma {:induction false} WithinNarrows(e: Encoding, limits: Limits)
    requires Additive(e)
    ensures IsNarrowing(Within(e, limits), |e.sizes|)
  {
    var fits := Within(e, limits);
    forall s: nat, t: nat, a: nat, b: nat | s <= t < a <= b <= |e.sizes| && fits(s, b) ensures fits(t, a) {
      LaterStartIsSmaller(e, s, t, b);
      EarlierEndIsSmaller(e, t, a, b);
    }
  }

  /** Digits of a number written in decimal. */
  function DigitCount(n: nat): (d: nat)
    ensures d > 0
  {
    if n < 10 then 1 else 1 + DigitCount(n / 10)
  }

  lemma {:induction false} DigitCountGrowsSlowly(n: nat)
    ensures DigitCount(n) <= DigitCount(n + 1) <= DigitCount(n) + 1
  {
    if n >= 10 {
      if (n + 1) % 10 == 0 {
        DigitCountGrowsSlowly(n / 10);
        assert (n + 1) / 10 == n / 10 + 1;
      } else {
        assert (n + 1) / 10 == n / 10;
      }
    }
  }

  /** Detail shards: the envelope does not depend on where the shard starts. */
  function DetailEncoding(envelope: nat, sizes: seq<nat>): Encoding
  {
    Encoding(k => envelope, sizes)
  }

  /** Schema-node shards: the envelope spells the first ordinal. */
  function NodeEncoding(envelope: nat, sizes: seq<nat>): Encoding
  {
    Encoding(k => envelope + DigitCount(k), sizes)
  }

  lemma {:induction false} EncodingsAreAdditive(envelope: nat, sizes: seq<nat>)
    requires envelope > 0 && forall k :: 0 <= k < |sizes| ==> sizes[k] > 0
    ensures Additive(DetailEncoding(envelope, sizes)) && Additive(NodeEncoding(envelope, sizes))
  {
    var e := NodeEncoding(envelope, sizes);
    forall k: nat, m: nat | m == k + 1 ensures e.envelope(m) <= e.envelope(k) + 1 {
      DigitCountGrowsSlowly(k);
    }
  }

  // ----- The greedy partition ------------------------------------------------------------

  predicate IsOversized(e: Encoding, limits: Limits, k: nat)
    requires k < |e.sizes|
  {
    Bytes(e, k, k + 1) > limits.bytes
  }

  /** The inner loop: the longest run from `start` within the limits; `end == start` when
      even the first record does not fit. */
  method LongestRun(e: Encoding, limits: Limits, start: nat) returns (end: nat)
    requires start < |e.sizes|
    ensures start <= end <= |e.sizes|
    ensures end == start <==> limits.records == 0 || IsOversized(e, limits, start)
    ensures end > start ==> Within(e, limits)(start, end) && IsMaximal(Within(e, limits), |e.sizes|, Shard(start, end))
  {
    end := start;
    while end < |e.sizes| && end - start < limits.records
      invariant start <= end <= |e.sizes| && end - start <= limits.records
      invariant end > start ==> Bytes(e, start, end) <= limits.bytes && !IsOversized(e, limits, start)
    {
      if Bytes(e, start, end + 1) > limits.bytes {
        break;
      }
      end := end + 1;
    }
  }

  /** The shards concatenate to the input, keep both limits, and no partition that does has
      fewer. */
  ghost predicate IsBest(e: Encoding, limits: Limits, shards: seq<Shard>)
  {
    && IsPartition(shards, |e.sizes|) && AllFit(Within(e, limits), |e.sizes|, shards)
    && forall other :: IsPartition(other, |e.sizes|) && AllFit(Within(e, limits), |e.sizes|, other) ==> |shards| <= |other|
  }

  /** Some partition keeps the limits. */
  ghost predicate CanShard(e: Encoding, limits: Limits)
  {
    exists shards :: IsPartition(shards, |e.sizes|) && AllFit(Within(e, limits), |e.sizes|, shards)
  }

  /** That is so exactly when every record fits by itself. */
  lemma {:induction false} CanShardIff(e: Encoding, limits: Limits)
    requires Additive(e)
    ensures CanShard(e, limits) <==>
      |e.sizes| == 0 || (limits.records > 0 && forall k :: 0 <= k < |e.sizes| ==> !IsOversized(e, limits, k))
  {
    var fits, n := Within(e, limits), |e.sizes|;
    WithinNarrows(e, limits);
    if CanShard(e, limits) && n > 0 {
      var shards :| IsPartition(shards, n) && AllFit(fits, n, shards);
      forall k | 0 <= k < n ensures !IsOversized(e, limits, k) && limits.records > 0 {
        if !fits(k, k + 1) {
          StuckMeansNone(fits, n, k, shards);
        }
      }
      assert !IsOversized(e, limits, 0) && limits.records > 0;
    }
    if n == 0 || (limits.records > 0 && forall k :: 0 <= k < n ==> !IsOversized(e, limits, k)) {
      var ones := seq(n, i requires 0 <= i < n => Shard(i, i + 1));
      forall i | 0 <= i < n ensures fits(ones[i].start, ones[i].end) {
        assert !IsOversized(e, limits, i);
      }
      assert IsPartition(ones, n) && AllFit(fits, n, ones);
    }
  }

  lemma {:induction false} GreedyIsBest(e: Encoding, limits: Limits, shards: seq<Shard>)
    requires Additive(e) && IsGreedy(Within(e, limits), |e.sizes|, shards) && IsPartition(shards, |e.sizes|)
    ensures IsBest(e, limits, shards) && CanShard(e, limits)
  {
    WithinNarrows(e, limits);
    forall other | IsPartition(other, |e.sizes|) && AllFit(Within(e, limits), |e.sizes|, other) ensures |shards| <= |other| {
      GreedyIsOptimal(Within(e, limits), |e.sizes|, shards, other);
    }
  }

  /** The outer loop of `partitionDetailRecords` and `partitionSchemaNodes`: it succeeds
      exactly when some partition keeps the limits, and then with the fewest shards. */
  method Shards(e: Encoding, limits: Limits) returns (r: Result<seq<Shard>>)
    requires Additive(e)
    ensures !r.OutOfOrder?
    ensures r.Ok? <==> CanShard(e, limits)
    ensures r.Ok? ==> IsBest(e, limits, r.value)
    ensures r.NoProgress? <==> limits.records == 0 && |e.sizes| > 0
    ensures r.TooLarge? ==> r.record < |e.sizes| && IsOversized(e, limits, r.record)
  {
    ghost var fits := Within(e, limits);
    var shards: seq<Shard> := [];
    var start := 0;
    CanShardIff(e, limits);
    while start < |e.sizes|
      invariant start <= |e.sizes| && start == End(shards) && (start > 0 ==> limits.records > 0)
      invariant IsGreedy(fits, |e.sizes|, shards)
      decreases |e.sizes| - start
    {
      var end := LongestRun(e, limits, start);
      if end == start {
        return if limits.records == 0 then NoProgress else TooLarge(start);
      }
      GreedyGrows(fits, |e.sizes|, shards, Shard(start, end));
      shards := shards + [Shard(start, end)];
      start := end;
    }
    GreedyIsBest(e, limits, shards);
    return Ok(shards);
  }

  // ----- Detail records: where each one went ---------------------------------------------

  /** Record `k` is the last of its identity among the first `n`. */
  ghost predicate IsLast<Id(!new)>(ids: seq<Id>, k: nat, n: nat)
    requires k < n <= |ids|
  {
    forall h :: k < h < n ==> ids[h] != ids[k]
  }

  /** Each identity among the first `n` records points to the shard of the last record that
      has it. */
  ghost predicate Placed<Id(!new)>(ids: seq<Id>, shards: seq<Shard>, path: Shard -> string, byId: map<Id, string>, n: nat)
    requires n <= |ids|
  {
    && (forall id :: id in byId ==> id in ids)
    && (forall k :: 0 <= k < n ==> ids[k] in byId)
    && forall k, i :: 0 <= k < n && 0 <= i < |shards| && shards[i].start <= k < shards[i].end && IsLast(ids, k, n) ==>
      byId[ids[k]] == path(shards[i])
  }

  /** Lines 161-163. */
  method PlaceShard<Id(!new, ==)>(
    ids: seq<Id>, shards: seq<Shard>, path: Shard -> string, before: map<Id, string>, i: nat)
    returns (byId: map<Id, string>)
    requires IsPartition(shards, |ids|) && i < |shards| && shards[i].end <= |ids|
    requires Placed(ids, shards, path, before, shards[i].start)
    ensures Placed(ids, shards, path, byId, shards[i].end)
  {
    byId := before;
    for k := shards[i].start to shards[i].end
      invariant Placed(ids, shards, path, byId, k)
    {
      PlacedStep(ids, shards, path, byId, k, i);
      byId := byId[ids[k] := path(shards[i])];
    }
  }

  lemma {:induction false} PlacedStep<Id(!new)>(
    ids: seq<Id>, shards: seq<Shard>, path: Shard -> string, byId: map<Id, string>, k: nat, i: nat)
    requires Consecutive(shards) && i < |shards| && shards[i].start <= k < shards[i].end && k < |ids|
    requires Placed(ids, shards, path, byId, k)
    ensures Placed(ids, shards, path, byId[ids[k] := path(shards[i])], k + 1)
  {
    forall h, j | 0 <= h < k + 1 && 0 <= j < |shards| && shards[j].start <= h < shards[j].end && IsLast(ids, h, k + 1)
      ensures h < k ==> ids[h] != ids[k] && IsLast(ids, h, k)
      ensures h == k ==> j == i
    {
      if h == k {
        OneHolder(shards, k, i, j);
      }
    }
  }

  method PlaceAll<Id(!new, ==)>(ids: seq<Id>, shards: seq<Shard>, path: Shard -> string) returns (byId: map<Id, string>)
    requires IsPartition(shards, |ids|)
    ensures Placed(ids, shards, path, byId, |ids|)
  {
    byId := map[];
    var start := 0;
    for i := 0 to |shards|
      invariant start == (if i == 0 then 0 else shards[i - 1].end) && start <= |ids|
      invariant Placed(ids, shards, path, byId, start)
    {
      EndsGrow(shards, i, |shards| - 1);
      byId := PlaceShard(ids, shards, path, byId, i);
      start := shards[i].end;
    }
  }

  /** `partitionDetailRecords`: besides the shards, where each record went. */
  method PartitionDetails<Id(!new, ==)>(
    ids: seq<Id>, envelope: nat, sizes: seq<nat>, limits: Limits, path: Shard -> string)
    returns (r: Result<seq<Shard>>, byId: map<Id, string>)
    requires envelope > 0 && |ids| == |sizes| && forall k :: 0 <= k < |sizes| ==> sizes[k] > 0
    ensures r.Ok? <==> CanShard(DetailEncoding(envelope, sizes), limits)
    ensures r.Ok? ==> IsBest(DetailEncoding(envelope, sizes), limits, r.value)
    ensures r.Ok? ==> Placed(ids, r.value, path, byId, |ids|)
  {
    EncodingsAreAdditive(envelope, sizes);
    byId := map[];
    r := Shards(DetailEncoding(envelope, sizes), limits);
    if r.Ok? {
      byId := PlaceAll(ids, r.value, path);
    }
  }

  // ----- Schema nodes: which shard an ordinal is in --------------------------------------

  datatype Reference = Reference(first: nat, last: nat, records: nat)

  function ReferenceTo(shard: Shard): Reference
    requires shard.start < shard.end
  {
    Reference(shard.start, shard.end - 1, shard.end - shard.start)
  }

  /** The shards that references describe. */
  function ShardsOf(references: seq<Reference>): seq<Shard>
  {
    seq(|references|, i requires 0 <= i < |references| => Shard(references[i].first, references[i].first + references[i].records))
  }

  predicate InRange(reference: Reference, ordinal: nat)
  {
    reference.first <= ordinal <= reference.last
  }

  /** Exactly one reference covers the ordinal. */
  ghost predicate IsReferencedOnce(references: seq<Reference>, ordinal: nat)
  {
    && (exists i :: 0 <= i < |references| && InRange(references[i], ordinal))
    && forall i, j ::
      0 <= i < |references| && 0 <= j < |references| && InRange(references[i], ordinal) && InRange(references[j], ordinal) ==> i == j
  }

  /** Lines 181-185. */
  method CountUp(ordinals: seq<nat>) returns (ok: bool)
    ensures ok <==> forall k :: 0 <= k < |ordinals| ==> ordinals[k] == k
  {
    for k := 0 to |ordinals|
      invariant forall j :: 0 <= j < k ==> ordinals[j] == j
    {
      if ordinals[k] != k {
        return false;
      }
    }
    return true;
  }

  /** `partitionSchemaNodes`: ordinals must count up from zero; then every ordinal lies in
      exactly one referenced range, and the references partition the nodes as above. */
  method PartitionNodes(ordinals: seq<nat>, envelope: nat, sizes: seq<nat>, limits: Limits)
    returns (r: Result<seq<Reference>>)
    requires envelope > 0 && |ordinals| == |sizes| && forall k :: 0 <= k < |sizes| ==> sizes[k] > 0
    ensures r.OutOfOrder? <==> exists k :: 0 <= k < |ordinals| && ordinals[k] != k
    ensures r.Ok? <==> !r.OutOfOrder? && CanShard(NodeEncoding(envelope, sizes), limits)
    ensures r.Ok? ==> IsBest(NodeEncoding(envelope, sizes), limits, ShardsOf(r.value))
    ensures r.Ok? ==> forall k :: 0 <= k < |ordinals| ==> IsReferencedOnce(r.value, ordinals[k])
  {
    var counted := CountUp(ordinals);
    if !counted {
      return OutOfOrder;
    }
    EncodingsAreAdditive(envelope, sizes);
    var shards := Shards(NodeEncoding(envelope, sizes), limits);
    if !shards.Ok? {
      return if shards.TooLarge? then TooLarge(shards.record) else NoProgress;
    }
    var references := seq(|shards.value|, i requires 0 <= i < |shards.value| => ReferenceTo(shards.value[i]));
    ReferencesFind(shards.value, references, |sizes|);
    assert ShardsOf(references) == shards.value;
    return Ok(references);
  }

  lemma {:induction false} ReferencesFind(shards: seq<Shard>, references: seq<Reference>, n: nat)
    requires IsPartition(shards, n) && |references| == |shards|
    requires forall i :: 0 <= i < |shards| ==> references[i] == ReferenceTo(shards[i])
    ensures forall k: nat :: k < n ==> IsReferencedOnce(references, k)
  {
    forall k: nat | k < n ensures IsReferencedOnce(references, k) {
      var h := HolderOf(shards, n, k);
      assert InRange(references[h], k);
      forall i, j
        | 0 <= i < |references| && 0 <= j < |references| && InRange(references[i], k) && InRange(references[j], k)
        ensures i == j
      {
        OneHolder(shards, k, i, j);
      }
    }
  }
}
