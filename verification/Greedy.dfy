/** Greedy partition of a list into consecutive shards, for any notion of what fits that is
    kept by shorter stretches. */
module Greedy {
  import opened Ordering

  /** Elements `start` up to, not including, `end`. */
  datatype Shard = Shard(start: nat, end: nat)

  type Fits = (nat, nat) -> bool

  /** Whatever fits still fits when elements are left out at either end. */
  ghost predicate IsNarrowing(fits: Fits, n: nat)
  {
    forall s: nat, t: nat, a: nat, b: nat :: s <= t < a <= b <= n && fits(s, b) ==> fits(t, a)
  }

  function End(shards: seq<Shard>): nat
  {
    if shards == [] then 0 else shards[|shards| - 1].end
  }

  /** The shards follow one another without gaps, from the first element. */
  ghost predicate Consecutive(shards: seq<Shard>)
  {
    && (forall i :: 0 <= i < |shards| ==> shards[i].start < shards[i].end)
    && (|shards| > 0 ==> shards[0].start == 0)
    && (forall i, j :: 0 <= i < |shards| && j == i + 1 && j < |shards| ==> shards[j].start == shards[i].end)
  }

  ghost predicate IsPartition(shards: seq<Shard>, n: nat)
  {
    Consecutive(shards) && End(shards) == n
  }

  ghost predicate AllFit(fits: Fits, n: nat, shards: seq<Shard>)
  {
    forall i :: 0 <= i < |shards| ==> shards[i].start < shards[i].end <= n && fits(shards[i].start, shards[i].end)
  }

  lemma {:induction false} EndsGrow(shards: seq<Shard>, i: nat, j: nat)
    requires Consecutive(shards) && i <= j < |shards|
    ensures shards[i].end <= shards[j].end && shards[i].start <= shards[j].start
    ensures i < j ==> shards[i].end <= shards[j].start
  {
    if i < j {
      EndsGrow(shards, i, j - 1);
    }
  }

  /** Which shard holds element `k`. */
  lemma {:induction false} HolderOf(shards: seq<Shard>, n: nat, k: nat) returns (i: nat)
    requires IsPartition(shards, n) && k < n
    ensures i < |shards| && shards[i].start <= k < shards[i].end
  {
    i := 0;
    while shards[i].end <= k
      invariant i < |shards| && shards[i].start <= k
      decreases |shards| - i
    {
      i := i + 1;
    }
  }

  /** Each element is in one shard only. */
  lemma {:induction false} OneHolder(shards: seq<Shard>, k: nat, i: nat, j: nat)
    requires Consecutive(shards) && i < |shards| && j < |shards|
    requires shards[i].start <= k < shards[i].end && shards[j].start <= k < shards[j].end
    ensures i == j
  {
    if i < j {
      EndsGrow(shards, i, j);
    } else {
      EndsGrow(shards, j, i);
    }
  }

  // ----- Greedy shards -------------------------------------------------------------------

  /** One more element would not fit. */
  ghost predicate IsMaximal(fits: Fits, n: nat, shard: Shard)
  {
    shard.end < n ==> !fits(shard.start, shard.end + 1)
  }

  ghost predicate IsGreedy(fits: Fits, n: nat, shards: seq<Shard>)
  {
    Consecutive(shards) && AllFit(fits, n, shards) && forall i :: 0 <= i < |shards| ==> IsMaximal(fits, n, shards[i])
  }

  lemma {:induction false} GreedyGrows(fits: Fits, n: nat, shards: seq<Shard>, next: Shard)
    requires IsGreedy(fits, n, shards) && next.start == End(shards) && next.start < next.end <= n
    requires fits(next.start, next.end) && IsMaximal(fits, n, next)
    ensures IsGreedy(fits, n, shards + [next])
  {
    var longer := shards + [next];
    forall i | 0 <= i < |longer|
      ensures longer[i].start < longer[i].end <= n && fits(longer[i].start, longer[i].end) && IsMaximal(fits, n, longer[i])
    {
      if i < |shards| {
        assert longer[i] == shards[i];
      } else {
        assert longer[i] == next;
      }
    }
  }

  /** The greedy shards are never behind those of any other partition. */
  lemma {:induction false} GreedyStaysAhead(fits: Fits, n: nat, greedy: seq<Shard>, other: seq<Shard>, i: nat)
    requires IsNarrowing(fits, n) && IsGreedy(fits, n, greedy)
    requires Consecutive(other) && AllFit(fits, n, other) && i < |greedy| && i < |other|
    ensures other[i].end <= greedy[i].end
  {
    if i > 0 {
      GreedyStaysAhead(fits, n, greedy, other, i - 1);
      assert greedy[i].start == greedy[i - 1].end && other[i].start == other[i - 1].end;
    }
    var g, o := greedy[i], other[i];
    assert o.start <= g.start && IsMaximal(fits, n, g) && fits(o.start, o.end);
    var m: nat := g.end + 1;
    assert o.end > g.end ==> fits(g.start, m);
  }

  /** No partition that fits has fewer shards. */
  lemma {:induction false} GreedyIsOptimal(fits: Fits, n: nat, greedy: seq<Shard>, other: seq<Shard>)
    requires IsNarrowing(fits, n) && IsGreedy(fits, n, greedy) && IsPartition(greedy, n)
    requires IsPartition(other, n) && AllFit(fits, n, other)
    ensures |greedy| <= |other|
  {
    if |other| < |greedy| {
      EndsGrow(greedy, |other|, |greedy| - 1);
      if |other| > 0 {
        assert greedy[|other|].start == greedy[|other| - 1].end;
        GreedyStaysAhead(fits, n, greedy, other, |other| - 1);
      }
    }
  }

  /** Some partition fits and has at most `most` shards. */
  ghost predicate IsPartitionable(fits: Fits, n: nat, most: nat)
  {
    exists shards :: IsPartition(shards, n) && AllFit(fits, n, shards) && |shards| <= most
  }

  /** An element that does not fit alone leaves no partition that fits. */
  lemma {:induction false} StuckMeansNone(fits: Fits, n: nat, k: nat, shards: seq<Shard>)
    requires IsNarrowing(fits, n) && k < n && !fits(k, k + 1) && IsPartition(shards, n)
    ensures !AllFit(fits, n, shards)
  {
    var i := HolderOf(shards, n, k);
    EndsGrow(shards, i, |shards| - 1);
    var m: nat := k + 1;
    assert fits(shards[i].start, shards[i].end) ==> fits(k, m);
  }

  /** Greedy shards that do not reach the end cannot be beaten with as many. */
  lemma {:induction false} FullMeansNone(fits: Fits, n: nat, greedy: seq<Shard>, shards: seq<Shard>)
    requires IsNarrowing(fits, n) && IsGreedy(fits, n, greedy) && End(greedy) < n
    requires IsPartition(shards, n) && AllFit(fits, n, shards)
    ensures |shards| > |greedy|
  {
    if |shards| <= |greedy| {
      var last := |shards| - 1;
      assert shards != [] && shards[last].end == n;
      EndsGrow(greedy, last, |greedy| - 1);
      assert greedy[last].end < n;
      GreedyStaysAhead(fits, n, greedy, shards, last);
    }
  }
}
