/** Token search: posting lists built from the records, cut into routed segments
    (application/catalog/search_model.go), and the candidates that a query of several
    tokens selects (application/catalog/search.go).
 */
module TokenSearch {
  import opened Ordering
  import EditDistance
  import Greedy

  datatype Posting = Posting(key: string, records: seq<nat>)

  datatype Route = Route(key: string, segment: nat)

  const MAX_POSTINGS_PER_SEGMENT := 2000
  const MAX_SEGMENT_ORDINALS := 65535
  const MAX_FUZZY_ROUTES := 8
  const MAX_TOKEN_SEGMENTS := 8

  // ---------------------------------------------------------------- sorted record lists

  ghost predicate Increasing(xs: seq<nat>)
  {
    forall i, j :: 0 <= i < j < |xs| ==> xs[i] < xs[j]
  }

  lemma {:induction false} IncreasingAppend(xs: seq<nat>, x: nat)
    requires Increasing(xs) && forall y :: y in xs ==> y < x
    ensures Increasing(xs + [x])
  {
    forall i | 0 <= i < |xs| ensures xs[i] < x {
      assert xs[i] in xs;
    }
  }

  /** Everything before index `n`. */
  ghost predicate InFirst(r: nat, xs: seq<nat>, n: nat)
    requires n <= |xs|
  {
    exists i :: 0 <= i < n && xs[i] == r
  }

  /** `unionRecordIDs`. */
  method Union(left: seq<nat>, right: seq<nat>) returns (result: seq<nat>)
    requires Increasing(left) && Increasing(right)
    ensures Increasing(result)
    ensures forall r :: r in result <==> r in left || r in right
  {
    result := [];
    var i, j := 0, 0;
    while i < |left| || j < |right|
      invariant 0 <= i <= |left| && 0 <= j <= |right|
      invariant Increasing(result)
      invariant forall r :: r in result <==> InFirst(r, left, i) || InFirst(r, right, j)
      invariant forall r :: r in result ==> (i < |left| ==> r < left[i]) && (j < |right| ==> r < right[j])
      decreases |left| - i + |right| - j
    {
      if j == |right| || (i < |left| && left[i] < right[j]) {
        IncreasingAppend(result, left[i]);
        InFirstStep(left, i);
        result := result + [left[i]];
        i := i + 1;
      } else if i == |left| || right[j] < left[i] {
        IncreasingAppend(result, right[j]);
        InFirstStep(right, j);
        result := result + [right[j]];
        j := j + 1;
      } else {
        IncreasingAppend(result, left[i]);
        InFirstStep(left, i);
        InFirstStep(right, j);
        result := result + [left[i]];
        i := i + 1;
        j := j + 1;
      }
    }
  }

  lemma {:induction false} InFirstStep(xs: seq<nat>, n: nat)
    requires n < |xs|
    ensures forall r :: InFirst(r, xs, n + 1) <==> InFirst(r, xs, n) || r == xs[n]
  {
    forall r ensures InFirst(r, xs, n + 1) <==> InFirst(r, xs, n) || r == xs[n] {
      if InFirst(r, xs, n) {
        var i :| 0 <= i < n && xs[i] == r;
        assert 0 <= i < n + 1 && xs[i] == r;
      }
    }
  }

  /** `intersectRecordIDs`. */
  method Intersect(left: seq<nat>, right: seq<nat>) returns (result: seq<nat>)
    requires Increasing(left) && Increasing(right)
    ensures Increasing(result)
    ensures forall r :: r in result <==> r in left && r in right
  {
    result := [];
    var i, j := 0, 0;
    while i < |left| && j < |right|
      invariant 0 <= i <= |left| && 0 <= j <= |right|
      invariant Increasing(result)
      invariant forall r :: r in result ==> r in left && r in right
      invariant forall r :: r in result ==> (i < |left| ==> r < left[i]) && (j < |right| ==> r < right[j])
      invariant forall r :: r in left && r in right ==> r in result || (InFrom(r, left, i) && InFrom(r, right, j))
      decreases |left| - i + |right| - j
    {
      Beyond(left, i, i + 1);
      Beyond(right, j, j + 1);
      if left[i] < right[j] {
        i := i + 1;
      } else if right[j] < left[i] {
        j := j + 1;
      } else {
        IncreasingAppend(result, left[i]);
        result := result + [left[i]];
        i := i + 1;
        j := j + 1;
      }
    }
  }

  /** Everything from index `n` on. */
  ghost predicate InFrom(r: nat, xs: seq<nat>, n: nat)
    requires n <= |xs|
  {
    exists i :: n <= i < |xs| && xs[i] == r
  }

  /** From index `n` on there is the element at `n`, and then only larger ones. */
  lemma {:induction false} Beyond(xs: seq<nat>, n: nat, m: nat)
    requires Increasing(xs) && n < |xs| && m == n + 1
    ensures forall r :: InFrom(r, xs, n) <==> r == xs[n] || InFrom(r, xs, m)
    ensures forall r :: InFrom(r, xs, m) ==> r > xs[n]
  {
    forall r | InFrom(r, xs, n) ensures r == xs[n] || InFrom(r, xs, m) {
      var i :| n <= i < |xs| && xs[i] == r;
      assert i == n || m <= i < |xs|;
    }
  }

  // ---------------------------------------------------------------- posting lists

  predicate Listed(lists: map<string, seq<nat>>, t: string, r: nat)
  {
    t in lists && r in lists[t]
  }

  /** Record `r` carries token `t`. */
  predicate Carries(records: seq<seq<string>>, r: nat, t: string)
  {
    r < |records| && t in records[r]
  }

  /** `lists` gives each token the records that carry it, in order: an inverted index of
      the first `n` records. */
  ghost predicate Inverts(lists: map<string, seq<nat>>, records: seq<seq<string>>, n: nat)
    requires n <= |records|
  {
    && (forall t :: t in lists ==> lists[t] != [] && Increasing(lists[t]))
    && (forall t, r: nat :: Listed(lists, t, r) <==> r < n && Carries(records, r, t))
  }

  ghost predicate NoRepeats(tokens: seq<string>)
  {
    forall i, j :: 0 <= i < j < |tokens| ==> tokens[i] != tokens[j]
  }

  ghost predicate Seen(t: string, tokens: seq<string>, k: nat)
    requires k <= |tokens|
  {
    exists i :: 0 <= i < k && tokens[i] == t
  }

  /** While record `n` is being indexed, its first `k` tokens are done. */
  ghost predicate InvertsPart(lists: map<string, seq<nat>>, records: seq<seq<string>>, n: nat, k: nat)
    requires n < |records| && k <= |records[n]|
  {
    && (forall t :: t in lists ==> lists[t] != [] && Increasing(lists[t]))
    && (forall t, r: nat :: Listed(lists, t, r) <==>
      (r < n && Carries(records, r, t)) || (r == n && Seen(t, records[n], k)))
  }

  lemma {:induction false} SeenStep(tokens: seq<string>, k: nat)
    requires k < |tokens| && NoRepeats(tokens)
    ensures !Seen(tokens[k], tokens, k)
    ensures forall t :: Seen(t, tokens, k + 1) <==> Seen(t, tokens, k) || t == tokens[k]
  {
    forall t | Seen(t, tokens, k) || t == tokens[k] ensures Seen(t, tokens, k + 1) {
      var i :| 0 <= i <= k && tokens[i] == t;
    }
  }

  lemma {:induction false} AddToken(
    lists: map<string, seq<nat>>, records: seq<seq<string>>, n: nat, k: nat, t: string, list: seq<nat>)
    requires n < |records| && k < |records[n]| && NoRepeats(records[n]) && t == records[n][k]
    requires InvertsPart(lists, records, n, k) && list == if t in lists then lists[t] else []
    ensures InvertsPart(lists[t := list + [n]], records, n, k + 1)
  {
    SeenStep(records[n], k);
    forall r | r in list ensures r < n {
      assert Listed(lists, t, r);
    }
    IncreasingAppend(list, n);
    var lists' := lists[t := list + [n]];
    forall u, r: nat ensures Listed(lists', u, r) <==> Listed(lists, u, r) || (u == t && r == n) {
    }
  }

  lemma {:induction false} PartDone(lists: map<string, seq<nat>>, records: seq<seq<string>>, n: nat)
    requires n < |records| && InvertsPart(lists, records, n, |records[n]|)
    ensures Inverts(lists, records, n + 1)
  {
    forall t ensures Seen(t, records[n], |records[n]|) <==> Carries(records, n, t) {
    }
  }

  /** The posting loop of `buildSearchArtifacts`, lines 141-167. */
  method BuildPostings(records: seq<seq<string>>) returns (lists: map<string, seq<nat>>)
    requires forall r :: 0 <= r < |records| ==> NoRepeats(records[r])
    ensures Inverts(lists, records, |records|)
  {
    lists := map[];
    for index := 0 to |records|
      invariant Inverts(lists, records, index)
    {
      var tokens := records[index];
      for k := 0 to |tokens|
        invariant InvertsPart(lists, records, index, k)
      {
        var token := tokens[k];
        var list := if token in lists then lists[token] else [];
        AddToken(lists, records, index, k, token, list);
        lists := lists[token := list + [index]];
      }
      PartDone(lists, records, index);
    }
  }

  // ---------------------------------------------------------------- routed segments

  function KeysOf(routes: seq<Route>): seq<string>
  {
    seq(|routes|, i requires 0 <= i < |routes| => routes[i].key)
  }

  function Postings(entries: seq<Posting>): nat
  {
    if entries == [] then 0 else Postings(entries[..|entries| - 1]) + |entries[|entries| - 1].records|
  }

  /** A segment keeps to the byte limit, and to the posting limit unless it has one entry. */
  predicate SegmentFits(sizeOf: seq<Posting> -> nat, limit: nat, segment: seq<Posting>)
  {
    && segment != [] && sizeOf(segment) <= limit
    && (|segment| > 1 ==> Postings(segment) <= MAX_POSTINGS_PER_SEGMENT)
  }

  /** The first `n` entries are in the segments, in order, and each is routed to its own. */
  ghost predicate Routed(entries: seq<Posting>, n: nat, segments: seq<seq<Posting>>, routes: seq<Route>)
    requires n <= |entries|
  {
    && |routes| == n
    && (forall i :: 0 <= i < n ==>
      && routes[i].key == entries[i].key && routes[i].segment < |segments|
      && entries[i] in segments[routes[i].segment])
    && (forall s, e :: 0 <= s < |segments| && e in segments[s] ==> e in entries)
  }

  datatype Built = BuildError | Segments(segments: seq<seq<Posting>>, routes: seq<Route>)

  /** Lines 418-440: how far the segment that starts at `start` reaches. */
  method SegmentEnd(sizeOf: seq<Posting> -> nat, limit: nat, entries: seq<Posting>, start: nat) returns (end: nat)
    requires start < |entries|
    ensures start <= end <= |entries|
    ensures end == start <==> sizeOf([entries[start]]) > limit
    ensures end > start ==> SegmentFits(sizeOf, limit, entries[start..end])
    ensures start < end < |entries| ==> !SegmentFits(sizeOf, limit, entries[start..end + 1])
  {
    end := start;
    var postingCount := 0;
    assert entries[start..start + 1] == [entries[start]];
    while end < |entries|
      invariant start <= end <= |entries|
      invariant postingCount == Postings(entries[start..end])
      invariant end > start ==> SegmentFits(sizeOf, limit, entries[start..end])
      invariant end > start ==> sizeOf([entries[start]]) <= limit
    {
      var candidate := entries[start..end + 1];
      assert candidate[..|candidate| - 1] == entries[start..end];
      var candidatePostings := postingCount + |entries[end].records|;
      if end > start && candidatePostings > MAX_POSTINGS_PER_SEGMENT {
        break;
      }
      if sizeOf(candidate) > limit {
        break;
      }
      postingCount := candidatePostings;
      end := end + 1;
    }
  }

  // ----- When the segments suffice -------------------------------------------------------

  /** The stretch of entries makes a segment within the limits. */
  function Within(sizeOf: seq<Posting> -> nat, limit: nat, entries: seq<Posting>): Greedy.Fits
  {
    (s: nat, t: nat) => s < t <= |entries| && SegmentFits(sizeOf, limit, entries[s..t])
  }

  /** Leaving entries out at either end does not make the encoding longer. */
  ghost predicate IsGrowing(sizeOf: seq<Posting> -> nat)
  {
    forall whole, s: nat, t: nat :: s < t <= |whole| ==> sizeOf(whole[s..t]) <= sizeOf(whole)
  }

  lemma {:induction false} FewerPostings(whole: seq<Posting>, s: nat, t: nat)
    requires s <= t <= |whole|
    ensures Postings(whole[s..t]) <= Postings(whole)
    decreases |whole|
  {
    var n := |whole| - 1;
    if t <= n {
      FewerPostings(whole[..n], s, t);
      assert whole[..n][s..t] == whole[s..t];
    } else if s < t {
      FewerPostings(whole[..n], s, n);
      assert whole[..n][s..n] == whole[s..n];
      assert whole[s..t][..n - s] == whole[s..n];
    }
  }

  lemma {:induction false} SegmentsNarrow(sizeOf: seq<Posting> -> nat, limit: nat, entries: seq<Posting>)
    requires IsGrowing(sizeOf)
    ensures Greedy.IsNarrowing(Within(sizeOf, limit, entries), |entries|)
  {
    var fits := Within(sizeOf, limit, entries);
    forall s: nat, t: nat, x: nat, y: nat | s <= t < x <= y <= |entries| && fits(s, y) ensures fits(t, x) {
      var whole := entries[s..y];
      assert whole[t - s..x - s] == entries[t..x];
      FewerPostings(whole, t - s, x - s);
    }
  }

  function Joined(segments: seq<seq<Posting>>): seq<Posting>
  {
    if segments == [] then [] else Joined(segments[..|segments| - 1]) + segments[|segments| - 1]
  }

  lemma {:induction false} JoinedMore(segments: seq<seq<Posting>>, entries: seq<Posting>, start: nat, end: nat)
    requires start <= end <= |entries| && Joined(segments) == entries[..start]
    ensures Joined(segments + [entries[start..end]]) == entries[..end]
  {
    assert (segments + [entries[start..end]])[..|segments|] == segments;
    assert entries[..start] + entries[start..end] == entries[..end];
  }

  /** The entries can be cut into segments within the limits that 16-bit ordinals can number. */
  ghost predicate CanSegment(sizeOf: seq<Posting> -> nat, limit: nat, entries: seq<Posting>)
  {
    Greedy.IsPartitionable(Within(sizeOf, limit, entries), |entries|, MAX_SEGMENT_ORDINALS)
  }

  lemma {:induction false} TooLargeMeansNone(sizeOf: seq<Posting> -> nat, limit: nat, entries: seq<Posting>, k: nat)
    requires IsGrowing(sizeOf) && k < |entries| && sizeOf([entries[k]]) > limit
    ensures !CanSegment(sizeOf, limit, entries)
  {
    var fits := Within(sizeOf, limit, entries);
    SegmentsNarrow(sizeOf, limit, entries);
    assert entries[k..k + 1] == [entries[k]];
    forall shards | Greedy.IsPartition(shards, |entries|) ensures !Greedy.AllFit(fits, |entries|, shards) {
      Greedy.StuckMeansNone(fits, |entries|, k, shards);
    }
  }

  lemma {:induction false} TooManyMeansNone(
    sizeOf: seq<Posting> -> nat, limit: nat, entries: seq<Posting>, shards: seq<Greedy.Shard>)
    requires IsGrowing(sizeOf) && Greedy.IsGreedy(Within(sizeOf, limit, entries), |entries|, shards)
    requires Greedy.End(shards) < |entries| && |shards| >= MAX_SEGMENT_ORDINALS
    ensures !CanSegment(sizeOf, limit, entries)
  {
    var fits := Within(sizeOf, limit, entries);
    SegmentsNarrow(sizeOf, limit, entries);
    forall other | Greedy.IsPartition(other, |entries|) && Greedy.AllFit(fits, |entries|, other) ensures |other| > |shards| {
      Greedy.FullMeansNone(fits, |entries|, shards, other);
    }
  }

  /** The entries before `start` are in segments, cut greedily at `shards`. */
  ghost predicate IsBuilt(
    sizeOf: seq<Posting> -> nat, limit: nat, entries: seq<Posting>, start: nat,
    segments: seq<seq<Posting>>, routes: seq<Route>, shards: seq<Greedy.Shard>)
  {
    && start <= |entries| && |segments| == |shards| <= MAX_SEGMENT_ORDINALS
    && Routed(entries, start, segments, routes) && Joined(segments) == entries[..start]
    && (forall s :: 0 <= s < |segments| ==> SegmentFits(sizeOf, limit, segments[s]))
    && Greedy.IsGreedy(Within(sizeOf, limit, entries), |entries|, shards) && Greedy.End(shards) == start
  }

  lemma {:induction false} BuiltAll(
    sizeOf: seq<Posting> -> nat, limit: nat, entries: seq<Posting>,
    segments: seq<seq<Posting>>, routes: seq<Route>, shards: seq<Greedy.Shard>)
    requires IsBuilt(sizeOf, limit, entries, |entries|, segments, routes, shards)
    ensures Joined(segments) == entries && CanSegment(sizeOf, limit, entries)
  {
    assert entries[..|entries|] == entries;
    assert Greedy.IsPartition(shards, |entries|);
  }

  lemma {:induction false} BuildStuck(
    sizeOf: seq<Posting> -> nat, limit: nat, entries: seq<Posting>, start: nat,
    segments: seq<seq<Posting>>, routes: seq<Route>, shards: seq<Greedy.Shard>)
    requires IsBuilt(sizeOf, limit, entries, start, segments, routes, shards) && start < |entries|
    requires sizeOf([entries[start]]) > limit || |segments| >= MAX_SEGMENT_ORDINALS
    ensures IsGrowing(sizeOf) ==> !CanSegment(sizeOf, limit, entries)
  {
    if IsGrowing(sizeOf) {
      if sizeOf([entries[start]]) > limit {
        TooLargeMeansNone(sizeOf, limit, entries, start);
      } else {
        TooManyMeansNone(sizeOf, limit, entries, shards);
      }
    }
  }

  /** `buildPostingSearchSegments`, over the entries sorted by key: the segments concatenate
      to the entries and keep the limits, each key is routed to the segment that holds it, and
      building fails exactly when no division into that many segments keeps the limits. */
  method BuildSegments(sizeOf: seq<Posting> -> nat, limit: nat, entries: seq<Posting>) returns (r: Built)
    ensures r.Segments? ==> Joined(r.segments) == entries && Routed(entries, |entries|, r.segments, r.routes)
    ensures r.Segments? ==> forall s :: 0 <= s < |r.segments| ==> SegmentFits(sizeOf, limit, r.segments[s])
    ensures r.Segments? ==> CanSegment(sizeOf, limit, entries)
    ensures IsGrowing(sizeOf) ==> (r.BuildError? <==> !CanSegment(sizeOf, limit, entries))
  {
    ghost var shards: seq<Greedy.Shard> := [];
    var routes: seq<Route>, segments: seq<seq<Posting>> := [], [];
    var start := 0;
    while start < |entries|
      invariant IsBuilt(sizeOf, limit, entries, start, segments, routes, shards)
    {
      var end := SegmentEnd(sizeOf, limit, entries, start);
      if end == start || |segments| >= MAX_SEGMENT_ORDINALS {
        BuildStuck(sizeOf, limit, entries, start, segments, routes, shards);
        return BuildError;
      }
      routes, segments, shards := AddSegment(sizeOf, limit, entries, start, end, segments, routes, shards);
      start := end;
    }
    BuiltAll(sizeOf, limit, entries, segments, routes, shards);
    return Segments(segments, routes);
  }

  /** Lines 451-458. */
  method AddSegment(
    sizeOf: seq<Posting> -> nat, limit: nat, entries: seq<Posting>, start: nat, end: nat,
    segments: seq<seq<Posting>>, routes: seq<Route>, ghost shards: seq<Greedy.Shard>)
    returns (allRoutes: seq<Route>, allSegments: seq<seq<Posting>>, ghost allShards: seq<Greedy.Shard>)
    requires IsBuilt(sizeOf, limit, entries, start, segments, routes, shards) && |segments| < MAX_SEGMENT_ORDINALS
    requires start < end <= |entries| && SegmentFits(sizeOf, limit, entries[start..end])
    requires end < |entries| ==> !SegmentFits(sizeOf, limit, entries[start..end + 1])
    ensures IsBuilt(sizeOf, limit, entries, end, allSegments, allRoutes, allShards)
  {
    var more := RouteAll(entries, start, end, |segments|);
    RoutedStep(entries, start, end, segments, routes, more);
    JoinedMore(segments, entries, start, end);
    CutMore(sizeOf, limit, entries, start, end, shards);
    allRoutes, allSegments := routes + more, segments + [entries[start..end]];
    allShards := shards + [Greedy.Shard(start, end)];
    FitsMore(sizeOf, limit, segments, entries[start..end]);
  }

  lemma {:induction false} CutMore(
    sizeOf: seq<Posting> -> nat, limit: nat, entries: seq<Posting>, start: nat, end: nat, shards: seq<Greedy.Shard>)
    requires Greedy.IsGreedy(Within(sizeOf, limit, entries), |entries|, shards) && Greedy.End(shards) == start
    requires start < end <= |entries| && SegmentFits(sizeOf, limit, entries[start..end])
    requires end < |entries| ==> !SegmentFits(sizeOf, limit, entries[start..end + 1])
    ensures Greedy.IsGreedy(Within(sizeOf, limit, entries), |entries|, shards + [Greedy.Shard(start, end)])
  {
    Greedy.GreedyGrows(Within(sizeOf, limit, entries), |entries|, shards, Greedy.Shard(start, end));
  }

  lemma {:induction false} FitsMore(
    sizeOf: seq<Posting> -> nat, limit: nat, segments: seq<seq<Posting>>, segment: seq<Posting>)
    requires SegmentFits(sizeOf, limit, segment)
    requires forall s :: 0 <= s < |segments| ==> SegmentFits(sizeOf, limit, segments[s])
    ensures forall s :: 0 <= s < |segments + [segment]| ==> SegmentFits(sizeOf, limit, (segments + [segment])[s])
  {
  }

  /** Lines 453-456. */
  method RouteAll(entries: seq<Posting>, start: nat, end: nat, ordinal: nat) returns (routes: seq<Route>)
    requires start <= end <= |entries|
    ensures |routes| == end - start
    ensures forall i :: 0 <= i < |routes| ==> routes[i] == Route(entries[start + i].key, ordinal)
  {
    routes := [];
    for i := start to end
      invariant |routes| == i - start
      invariant forall j :: 0 <= j < |routes| ==> routes[j] == Route(entries[start + j].key, ordinal)
    {
      routes := routes + [Route(entries[i].key, ordinal)];
    }
  }

  lemma {:induction false} RoutedStep(
    entries: seq<Posting>, start: nat, end: nat, segments: seq<seq<Posting>>, routes: seq<Route>, more: seq<Route>)
    requires start <= end <= |entries| && Routed(entries, start, segments, routes)
    requires |more| == end - start
    requires forall i :: 0 <= i < |more| ==> more[i] == Route(entries[start + i].key, |segments|)
    ensures Routed(entries, end, segments + [entries[start..end]], routes + more)
  {
    var routes', segments' := routes + more, segments + [entries[start..end]];
    forall i | 0 <= i < end
      ensures routes'[i].key == entries[i].key && routes'[i].segment < |segments'|
      ensures entries[i] in segments'[routes'[i].segment]
    {
      if i >= start {
        assert routes'[i] == more[i - start];
        assert entries[start + (i - start)] == entries[i];
        assert entries[start..end][i - start] == entries[i];
      }
    }
    forall s, e | 0 <= s < |segments'| && e in segments'[s] ensures e in entries {
      if s == |segments| {
        var i :| 0 <= i < |entries[start..end]| && entries[start..end][i] == e;
        assert entries[start + i] == e;
      }
    }
  }

  // ---------------------------------------------------------------- the directory

  datatype Directory = Directory(routes: seq<Route>, segments: seq<seq<Posting>>)

  /** The directory routes every token to a segment that holds its posting list, and its
      segments hold nothing else. */
  ghost predicate Serves(d: Directory, lists: map<string, seq<nat>>)
  {
    && StrictlySorted(KeysOf(d.routes))
    && (forall t :: t in lists ==> exists i :: 0 <= i < |d.routes| && d.routes[i].key == t)
    && (forall i :: 0 <= i < |d.routes| ==>
      var route := d.routes[i];
      && route.key in lists && route.segment < |d.segments|
      && Posting(route.key, lists[route.key]) in d.segments[route.segment])
    && (forall s, e :: 0 <= s < |d.segments| && e in d.segments[s] ==>
      e.key in lists && e.records == lists[e.key])
  }

  predicate PostingLe(a: Posting, b: Posting)
  {
    LexLe(a.key, b.key)
  }

  lemma PostingLeIsTotalPreorder()
    ensures TotalPreorder(PostingLe)
  {
    forall a, b ensures PostingLe(a, b) || PostingLe(b, a) { LexTotal(a.key, b.key); }
    forall a, b, c | PostingLe(a, b) && PostingLe(b, c) ensures PostingLe(a, c) { LexTransitive(a.key, b.key, c.key); }
  }

  /** The entries of the map, in any order. */
  ghost predicate ListsAll(entries: seq<Posting>, lists: map<string, seq<nat>>)
  {
    && Distinct(entries)
    && (forall e :: e in entries ==> e.key in lists && e.records == lists[e.key])
    && (forall t :: t in lists ==> Posting(t, lists[t]) in entries)
  }

  lemma {:induction false} SortedEntries(listed: seq<Posting>, lists: map<string, seq<nat>>)
    requires ListsAll(listed, lists)
    ensures
      var entries := Sort(PostingLe, listed);
      ListsAll(entries, lists) && forall i, j :: 0 <= i < j < |entries| ==> LexLess(entries[i].key, entries[j].key)
  {
    var entries := Sort(PostingLe, listed);
    PostingLeIsTotalPreorder();
    SortSorts(PostingLe, listed);
    PermutationDistinct(listed, entries);
    forall e ensures e in entries <==> e in listed {
      assert e in multiset(entries) <==> e in multiset(listed);
    }
    forall i, j | 0 <= i < j < |entries| ensures LexLess(entries[i].key, entries[j].key) {
      assert PostingLe(entries[i], entries[j]) && entries[i] != entries[j];
      assert entries[i] in entries && entries[j] in entries;
    }
  }

  lemma {:induction false} RoutedServes(
    entries: seq<Posting>, lists: map<string, seq<nat>>, segments: seq<seq<Posting>>, routes: seq<Route>)
    requires ListsAll(entries, lists) && Routed(entries, |entries|, segments, routes)
    requires forall i, j :: 0 <= i < j < |entries| ==> LexLess(entries[i].key, entries[j].key)
    ensures Serves(Directory(routes, segments), lists)
  {
    var keys := KeysOf(routes);
    forall i, j | 0 <= i < j < |keys| ensures LexLess(keys[i], keys[j]) {
      assert keys[i] == entries[i].key && keys[j] == entries[j].key;
    }
    forall t | t in lists ensures exists i :: 0 <= i < |routes| && routes[i].key == t {
      var i :| 0 <= i < |entries| && entries[i] == Posting(t, lists[t]);
      assert routes[i].key == t;
    }
    forall i | 0 <= i < |routes|
      ensures routes[i].key in lists && routes[i].segment < |segments|
      ensures Posting(routes[i].key, lists[routes[i].key]) in segments[routes[i].segment]
    {
      assert entries[i] in entries;
    }
  }

  /** The inverted index of the records as a list: every token that some record carries, in
      order, with all the records that carry it, in order. */
  ghost predicate IsIndex(entries: seq<Posting>, records: seq<seq<string>>)
  {
    && (forall i, j :: 0 <= i < j < |entries| ==> LexLess(entries[i].key, entries[j].key))
    && (forall e :: e in entries ==> e.records != [] && Increasing(e.records))
    && (forall e, r: nat :: e in entries ==> (r in e.records <==> Carries(records, r, e.key)))
    && (forall t, r: nat :: Carries(records, r, t) ==> exists e :: e in entries && e.key == t)
  }

  lemma {:induction false} ListedIsIndex(
    entries: seq<Posting>, lists: map<string, seq<nat>>, records: seq<seq<string>>)
    requires ListsAll(entries, lists) && Inverts(lists, records, |records|)
    requires forall i, j :: 0 <= i < j < |entries| ==> LexLess(entries[i].key, entries[j].key)
    ensures IsIndex(entries, records)
  {
    forall e, r: nat | e in entries ensures r in e.records <==> Carries(records, r, e.key) {
      assert Listed(lists, e.key, r) <==> r in e.records;
    }
    forall t, r: nat | Carries(records, r, t) ensures exists e :: e in entries && e.key == t {
      assert Listed(lists, t, r);
      assert Posting(t, lists[t]).key == t;
    }
  }

  /** Increasing lists with the same members are equal. */
  lemma {:induction false} IncreasingUnique(xs: seq<nat>, ys: seq<nat>)
    requires Increasing(xs) && Increasing(ys) && forall r: nat :: r in xs <==> r in ys
    ensures xs == ys
  {
    assert |ys| > 0 ==> ys[0] in xs;
    if xs != [] {
      assert xs[0] in ys;
      assert xs[0] == ys[0];
      forall r: nat ensures r in xs[1..] <==> r in ys[1..] {
        assert r in xs <==> r == xs[0] || r in xs[1..];
        assert r in ys <==> r == ys[0] || r in ys[1..];
      }
      IncreasingUnique(xs[1..], ys[1..]);
      assert xs == [xs[0]] + xs[1..] && ys == [ys[0]] + ys[1..];
    }
  }

  function EntryKeys(entries: seq<Posting>): seq<string>
  {
    seq(|entries|, i requires 0 <= i < |entries| => entries[i].key)
  }

  lemma {:induction false} KeyIsCarried(entries: seq<Posting>, records: seq<seq<string>>, t: string)
    requires IsIndex(entries, records)
    ensures t in EntryKeys(entries) <==> exists r: nat :: Carries(records, r, t)
  {
    if t in EntryKeys(entries) {
      var i :| 0 <= i < |entries| && EntryKeys(entries)[i] == t;
      assert entries[i] in entries;
      assert entries[i].records[0] in entries[i].records;
    }
    if r: nat :| Carries(records, r, t) {
      var e :| e in entries && e.key == t;
      var i :| 0 <= i < |entries| && entries[i] == e;
      assert EntryKeys(entries)[i] == t;
    }
  }

  /** Records have one inverted index. */
  lemma {:induction false} OneIndex(a: seq<Posting>, b: seq<Posting>, records: seq<seq<string>>)
    requires IsIndex(a, records) && IsIndex(b, records)
    ensures a == b
  {
    forall t ensures t in EntryKeys(a) <==> t in EntryKeys(b) {
      KeyIsCarried(a, records, t);
      KeyIsCarried(b, records, t);
    }
    StrictlySortedUnique(EntryKeys(a), EntryKeys(b));
    assert |a| == |b|;
    forall i | 0 <= i < |a| ensures a[i] == b[i] {
      assert EntryKeys(a)[i] == a[i].key && EntryKeys(b)[i] == b[i].key;
      assert a[i] in a && b[i] in b;
      IncreasingUnique(a[i].records, b[i].records);
    }
  }

  /** The token half of `buildSearchArtifacts`: records in, a directory that serves their
      inverted index out, unless no division of that index keeps the limits. */
  method BuildDirectory(sizeOf: seq<Posting> -> nat, limit: nat, records: seq<seq<string>>)
    returns (r: Built, ghost index: seq<Posting>)
    requires forall i :: 0 <= i < |records| ==> NoRepeats(records[i])
    ensures IsIndex(index, records)
    ensures IsGrowing(sizeOf) ==> (r.BuildError? <==> !CanSegment(sizeOf, limit, index))
    ensures r.Segments? ==> Joined(r.segments) == index && CanSegment(sizeOf, limit, index)
    ensures r.Segments? ==> exists lists ::
      Inverts(lists, records, |records|) && Serves(Directory(r.routes, r.segments), lists)
  {
    var postings := BuildPostings(records);
    var listed: seq<Posting> := [];
    var pending := postings.Keys;
    while pending != {}
      invariant pending <= postings.Keys && Distinct(listed)
      invariant forall e :: e in listed ==> e.key in postings && e.key !in pending && e.records == postings[e.key]
      invariant forall t :: t in postings && t !in pending ==> Posting(t, postings[t]) in listed
      decreases pending
    {
      var key :| key in pending;
      assert Posting(key, postings[key]) !in listed;
      listed := listed + [Posting(key, postings[key])];
      pending := pending - {key};
    }
    SortedEntries(listed, postings);
    var entries := Sort(PostingLe, listed);
    ListedIsIndex(entries, postings, records);
    index := entries;
    r := BuildSegments(sizeOf, limit, entries);
    if r.Segments? {
      RoutedServes(entries, postings, r.segments, r.routes);
    }
  }

  // ---------------------------------------------------------------- from tokens to routes

  ghost predicate IsKey(routes: seq<Route>, token: string)
  {
    exists i :: 0 <= i < |routes| && routes[i].key == token
  }

  ghost predicate IsPrefix(routes: seq<Route>, token: string)
  {
    exists i :: 0 <= i < |routes| && token <= routes[i].key
  }

  /** `postingRoutes`: the route of the token itself or, failing that, all routes that
      extend it. */
  method PostingRoutes(routes: seq<Route>, key: string, allowPrefix: bool) returns (matched: seq<Route>)
    requires StrictlySorted(KeysOf(routes))
    ensures IsKey(routes, key) ==> |matched| == 1 && matched[0] in routes && matched[0].key == key
    ensures !IsKey(routes, key) && !allowPrefix ==> matched == []
    ensures !IsKey(routes, key) && allowPrefix ==> forall r :: r in matched <==> r in routes && key <= r.key
  {
    var keys := KeysOf(routes);
    var start := LowerBound(keys, key);
    if start < |routes| && routes[start].key == key {
      assert routes[start..start + 1] == [routes[start]];
      return routes[start..start + 1];
    }
    NoKey(routes, key, start);
    if !allowPrefix {
      return [];
    }
    var end := start;
    while end < |routes| && key <= routes[end].key
      invariant start <= end <= |routes|
      invariant forall i :: start <= i < end ==> key <= routes[i].key
    {
      end := end + 1;
    }
    ExtensionsAreHere(routes, key, start, end);
    matched := routes[start..end];
    forall r | r in matched ensures r in routes && key <= r.key {
      var i :| 0 <= i < |matched| && matched[i] == r;
      assert routes[start + i] == r;
    }
    forall r | r in routes && key <= r.key ensures r in matched {
      var i :| 0 <= i < |routes| && routes[i] == r;
      assert matched[i - start] == r;
    }
  }

  lemma {:induction false} NoKey(routes: seq<Route>, key: string, start: nat)
    requires StrictlySorted(KeysOf(routes)) && start <= |routes|
    requires forall i :: 0 <= i < start ==> LexLess(KeysOf(routes)[i], key)
    requires forall i :: start <= i < |routes| ==> LexLe(key, KeysOf(routes)[i])
    requires start < |routes| ==> routes[start].key != key
    ensures !IsKey(routes, key)
  {
    var keys := KeysOf(routes);
    forall i | 0 <= i < |routes| ensures routes[i].key != key {
      assert keys[i] == routes[i].key;
      if i > start {
        assert LexLess(keys[start], keys[i]);
        if keys[i] == key {
          LexAntisymmetric(key, keys[start]);
        }
      }
    }
  }

  /** The routes that extend a key lie together. */
  lemma {:induction false} ExtensionsAreHere(routes: seq<Route>, key: string, start: nat, end: nat)
    requires StrictlySorted(KeysOf(routes)) && start <= end <= |routes|
    requires forall i :: 0 <= i < start ==> LexLess(KeysOf(routes)[i], key)
    requires forall i :: start <= i < |routes| ==> LexLe(key, KeysOf(routes)[i])
    requires end < |routes| ==> !(key <= routes[end].key)
    ensures forall i :: 0 <= i < |routes| && key <= routes[i].key ==> start <= i < end
  {
    var keys := KeysOf(routes);
    forall i | 0 <= i < |routes| && key <= routes[i].key ensures start <= i < end {
      assert keys[i] == routes[i].key;
      LexPrefix(key, keys[i]);
      if i < start {
        LexAntisymmetric(key, keys[i]);
      } else if i >= end {
        assert keys[end] == routes[end].key;
        LexBeyondPrefix(key, keys[end], keys[i]);
        if end < i {
          LexAntisymmetric(keys[end], keys[i]);
        }
      }
    }
  }

  // ---------------------------------------------------------------- fuzzy routes

  function MaxDistance(token: string): nat
  {
    if |token| >= 8 then 2 else 1
  }

  /** The key begins like the token and is within its distance. */
  predicate IsNear(token: string, key: string)
    requires token != ""
  {
    token[..1] <= key && EditDistance.Distance(token, key) <= MaxDistance(token)
  }

  /** The near ones among the first `n` routes. */
  function Near(routes: seq<Route>, token: string, n: nat): seq<Route>
    requires token != "" && n <= |routes|
  {
    if n == 0 then []
    else Near(routes, token, n - 1) + if IsNear(token, routes[n - 1].key) then [routes[n - 1]] else []
  }

  /** Closer routes first, then by key. */
  function Closeness(token: string): (Route, Route) -> bool
  {
    (a: Route, b: Route) =>
      var x, y := EditDistance.Distance(token, a.key), EditDistance.Distance(token, b.key);
      x < y || (x == y && LexLe(a.key, b.key))
  }

  /** What a token without exact or prefix match falls back to: the closest near routes. */
  function Fuzzy(routes: seq<Route>, token: string): seq<Route>
  {
    if |token| < 4 then []
    else
      var matches := Sort(Closeness(token), Near(routes, token, |routes|));
      if |matches| > MAX_FUZZY_ROUTES then matches[..MAX_FUZZY_ROUTES] else matches
  }

  lemma ClosenessIsTotalPreorder(token: string)
    ensures TotalPreorder(Closeness(token))
  {
    var le := Closeness(token);
    forall a, b ensures le(a, b) || le(b, a) { LexTotal(a.key, b.key); }
    forall a, b, c | le(a, b) && le(b, c) ensures le(a, c) {
      if LexLe(a.key, b.key) && LexLe(b.key, c.key) {
        LexTransitive(a.key, b.key, c.key);
      }
    }
  }

  lemma {:induction false} NearMembers(routes: seq<Route>, token: string, n: nat)
    requires token != "" && n <= |routes|
    ensures forall r :: r in Near(routes, token, n) <==> exists i :: 0 <= i < n && routes[i] == r && IsNear(token, r.key)
  {
    if n > 0 {
      NearMembers(routes, token, n - 1);
      forall r ensures r in Near(routes, token, n) <==> exists i :: 0 <= i < n && routes[i] == r && IsNear(token, r.key) {
        if r in Near(routes, token, n - 1) {
          var i :| 0 <= i < n - 1 && routes[i] == r && IsNear(token, r.key);
          assert 0 <= i < n && routes[i] == r;
        } else if exists i :: 0 <= i < n && routes[i] == r && IsNear(token, r.key) {
          var i :| 0 <= i < n && routes[i] == r && IsNear(token, r.key);
          assert i == n - 1;
        }
      }
    }
  }

  /** Fuzzy routes are near, at most eight, and no near route left out is closer than one
      taken. */
  lemma {:induction false} FuzzyTakesTheClosest(routes: seq<Route>, token: string)
    requires |token| >= 4
    ensures |Fuzzy(routes, token)| <= MAX_FUZZY_ROUTES
    ensures forall r :: r in Fuzzy(routes, token) ==> r in routes && IsNear(token, r.key)
    ensures forall r, q :: r in Fuzzy(routes, token) && q in routes && IsNear(token, q.key) && q !in Fuzzy(routes, token) ==>
      EditDistance.Distance(token, r.key) <= EditDistance.Distance(token, q.key)
  {
    var le, near := Closeness(token), Near(routes, token, |routes|);
    var matches, taken := Sort(le, near), Fuzzy(routes, token);
    NearMembers(routes, token, |routes|);
    ClosenessIsTotalPreorder(token);
    SortSorts(le, near);
    TakenFirst(le, near, matches, taken);
    forall r, q | r in taken && q in routes && IsNear(token, q.key) && q !in taken
      ensures EditDistance.Distance(token, r.key) <= EditDistance.Distance(token, q.key)
    {
      assert q in near;
      assert le(r, q);
    }
  }

  lemma {:induction false} TakenFirst<T>(le: (T, T) -> bool, all: seq<T>, sorted: seq<T>, taken: seq<T>)
    requires multiset(sorted) == multiset(all) && SortedBy(le, sorted) && taken <= sorted
    ensures forall r :: r in taken ==> r in all
    ensures forall r, q :: r in taken && q in all && q !in taken ==> le(r, q)
  {
    forall r | r in taken ensures r in all {
      var i :| 0 <= i < |taken| && taken[i] == r;
      assert sorted[i] == r;
      assert r in multiset(sorted);
    }
    forall r, q | r in taken && q in all && q !in taken ensures le(r, q) {
      var i :| 0 <= i < |taken| && taken[i] == r;
      assert q in multiset(sorted);
      var j :| 0 <= j < |sorted| && sorted[j] == q;
      assert forall k :: 0 <= k < |taken| ==> sorted[k] == taken[k] && taken[k] in taken;
    }
  }

  /** The token and the key have the same first rune and few enough edits between them: one
      for a token of four to seven runes, two for a longer one. */
  ghost predicate IsCloseTo(token: string, key: string)
  {
    && 4 <= |token| && key != "" && key[0] == token[0]
    && EditDistance.Distance(token, key) <= if |token| < 8 then 1 else 2
  }

  /** Fewer edits come first, and smaller keys among as many. */
  ghost predicate IsBefore(token: string, a: string, b: string)
  {
    var x, y := EditDistance.Distance(token, a), EditDistance.Distance(token, b);
    x < y || (x == y && LexLess(a, b))
  }

  /** The close routes, each once and in order, up to the limit: whatever is left out comes
      after all that is taken, and nothing is left out below the limit. */
  ghost predicate AreTheClosest(routes: seq<Route>, token: string, taken: seq<Route>)
  {
    && |taken| <= MAX_FUZZY_ROUTES
    && (forall r :: r in taken ==> r in routes && IsCloseTo(token, r.key))
    && (forall i, j :: 0 <= i < j < |taken| ==> IsBefore(token, taken[i].key, taken[j].key))
    && (forall q :: q in routes && q !in taken && IsCloseTo(token, q.key) ==>
      |taken| == MAX_FUZZY_ROUTES && forall r :: r in taken ==> IsBefore(token, r.key, q.key))
  }

  lemma {:induction false} NearIsClose(token: string, key: string)
    requires |token| >= 4
    ensures IsNear(token, key) <==> IsCloseTo(token, key)
  {
    assert token[..1] == [token[0]];
    if token[..1] <= key {
      assert key[0] == token[..1][0];
    }
    if key != "" && key[0] == token[0] {
      assert key[..1] == token[..1];
    }
  }

  lemma {:induction false} NearIsDistinct(routes: seq<Route>, token: string, n: nat)
    requires StrictlySorted(KeysOf(routes)) && token != "" && n <= |routes|
    ensures Distinct(Near(routes, token, n))
  {
    if n > 0 {
      NearIsDistinct(routes, token, n - 1);
      NearMembers(routes, token, n - 1);
      if IsNear(token, routes[n - 1].key) {
        forall i | 0 <= i < n - 1 ensures routes[i] != routes[n - 1] {
          assert LexLess(KeysOf(routes)[i], KeysOf(routes)[n - 1]);
        }
        DistinctGrows(Near(routes, token, n - 1), routes[n - 1]);
      }
    }
  }

  /** What comes before in the order, and is another route, is strictly before. */
  lemma {:induction false} StrictlyCloser(routes: seq<Route>, token: string, a: Route, b: Route)
    requires StrictlySorted(KeysOf(routes)) && a in routes && b in routes && a != b && Closeness(token)(a, b)
    ensures IsBefore(token, a.key, b.key)
  {
    if a.key == b.key {
      RouteKeysUnique(routes, a, b);
    }
  }

  /** A token without exact or prefix match stands for just the closest routes; a token of
      fewer than four runes for none. */
  lemma {:induction false} FuzzyIsExact(routes: seq<Route>, token: string)
    requires StrictlySorted(KeysOf(routes))
    ensures AreTheClosest(routes, token, Fuzzy(routes, token))
  {
    if |token| >= 4 {
      var le, near := Closeness(token), Near(routes, token, |routes|);
      NearMembers(routes, token, |routes|);
      NearIsDistinct(routes, token, |routes|);
      ClosenessIsTotalPreorder(token);
      SortSorts(le, near);
      PermutationDistinct(near, Sort(le, near));
      SortedAreClosest(routes, token, near, Sort(le, near), Fuzzy(routes, token));
    }
  }

  lemma {:induction false} SortedAreClosest(
    routes: seq<Route>, token: string, near: seq<Route>, sorted: seq<Route>, taken: seq<Route>)
    requires StrictlySorted(KeysOf(routes)) && |token| >= 4
    requires forall r :: r in near <==> r in routes && IsNear(token, r.key)
    requires multiset(sorted) == multiset(near) && SortedBy(Closeness(token), sorted)
    requires forall i, j :: 0 <= i < j < |sorted| ==> sorted[i] != sorted[j]
    requires taken <= sorted && |taken| <= MAX_FUZZY_ROUTES && (|taken| < MAX_FUZZY_ROUTES ==> taken == sorted)
    ensures AreTheClosest(routes, token, taken)
  {
    TakenFirst(Closeness(token), near, sorted, taken);
    forall r | r in taken ensures r in routes && IsCloseTo(token, r.key) {
      NearIsClose(token, r.key);
    }
    forall i, j | 0 <= i < j < |taken| ensures IsBefore(token, taken[i].key, taken[j].key) {
      assert sorted[i] == taken[i] && sorted[j] == taken[j] && taken[i] in taken && taken[j] in taken;
      StrictlyCloser(routes, token, taken[i], taken[j]);
    }
    forall q | q in routes && q !in taken && IsCloseTo(token, q.key)
      ensures |taken| == MAX_FUZZY_ROUTES && forall r :: r in taken ==> IsBefore(token, r.key, q.key)
    {
      NearIsClose(token, q.key);
      assert q in multiset(sorted);
      forall r | r in taken ensures IsBefore(token, r.key, q.key) {
        StrictlyCloser(routes, token, r, q);
      }
    }
  }

  /** Lines 498-505. */
  method CheckNear(token: string, candidate: string, maxDistance: int) returns (near: bool)
    ensures near == (EditDistance.Distance(token, candidate) <= maxDistance)
  {
    EditDistance.OsaAtLeastLengthDifference(token, candidate, |token|, |candidate|);
    var difference := |candidate| - |token|;
    if difference > maxDistance || difference < -maxDistance {
      return false;
    }
    var distance, matched := EditDistance.BoundedDamerauLevenshtein(token, candidate, maxDistance);
    return matched;
  }

  /** `fuzzyPostingRoutes`: only the stretch of routes with the token's first rune is read. */
  method FuzzyRoutes(routes: seq<Route>, token: string) returns (result: seq<Route>)
    requires StrictlySorted(KeysOf(routes))
    ensures result == Fuzzy(routes, token)
    ensures AreTheClosest(routes, token, result)
  {
    FuzzyIsExact(routes, token);
    if |token| < 4 {
      return [];
    }
    var matches := ScanNear(routes, token);
    result := Sort(Closeness(token), matches);
    if |result| > MAX_FUZZY_ROUTES {
      result := result[..MAX_FUZZY_ROUTES];
    }
  }

  /** Lines 490-506. */
  method ScanNear(routes: seq<Route>, token: string) returns (matches: seq<Route>)
    requires StrictlySorted(KeysOf(routes)) && token != ""
    ensures matches == Near(routes, token, |routes|)
  {
    var first := token[..1];
    var start := LowerBound(KeysOf(routes), first);
    NoneBefore(routes, first, start);
    NothingNear(routes, token, 0, start);
    matches := [];
    var index := start;
    while index < |routes| && first <= routes[index].key
      invariant start <= index <= |routes|
      invariant matches == Near(routes, token, index)
    {
      var near := CheckNear(token, routes[index].key, MaxDistance(token));
      if near {
        matches := matches + [routes[index]];
      }
      index := index + 1;
    }
    ExtensionsAreHere(routes, first, start, index);
    NothingNear(routes, token, index, |routes|);
  }

  lemma {:induction false} NoneBefore(routes: seq<Route>, key: string, start: nat)
    requires start <= |routes| && forall i :: 0 <= i < start ==> LexLess(KeysOf(routes)[i], key)
    ensures forall i :: 0 <= i < start ==> !(key <= routes[i].key)
  {
    forall i | 0 <= i < start ensures !(key <= routes[i].key) {
      assert KeysOf(routes)[i] == routes[i].key;
      if key <= routes[i].key {
        LexPrefix(key, routes[i].key);
        LexAntisymmetric(key, routes[i].key);
      }
    }
  }

  /** Routes that do not begin like the token are not near. */
  lemma {:induction false} NothingNear(routes: seq<Route>, token: string, m: nat, n: nat)
    requires token != "" && m <= n <= |routes|
    requires forall i :: m <= i < n ==> !(token[..1] <= routes[i].key)
    ensures Near(routes, token, n) == Near(routes, token, m)
  {
    if m < n {
      NothingNear(routes, token, m, n - 1);
      assert !IsNear(token, routes[n - 1].key);
    }
  }

  // ---------------------------------------------------------------- the candidates of a query

  /** The routes a token stands for. */
  ghost predicate Resolves(routes: seq<Route>, token: string, route: Route)
  {
    if IsKey(routes, token) then route in routes && route.key == token
    else if IsPrefix(routes, token) then route in routes && token <= route.key
    else route in Fuzzy(routes, token)
  }

  /** Record `r` carries a token that the query token stands for. */
  ghost predicate Satisfies(records: seq<seq<string>>, routes: seq<Route>, r: nat, token: string)
  {
    exists route :: Resolves(routes, token, route) && Carries(records, r, route.key)
  }

  lemma {:induction false} RouteKeysUnique(routes: seq<Route>, a: Route, b: Route)
    requires StrictlySorted(KeysOf(routes)) && a in routes && b in routes && a.key == b.key
    ensures a == b
  {
    var i :| 0 <= i < |routes| && routes[i] == a;
    var j :| 0 <= j < |routes| && routes[j] == b;
    assert KeysOf(routes)[i] == KeysOf(routes)[j];
  }

  /** Lines 432-450: the routes of one token. */
  method ResolveToken(routes: seq<Route>, token: string) returns (matched: seq<Route>, prefix: bool, fuzzy: bool)
    requires StrictlySorted(KeysOf(routes))
    ensures forall route :: route in matched <==> Resolves(routes, token, route)
    ensures forall route :: route in matched ==> route in routes
    ensures fuzzy <==> !IsKey(routes, token) && !IsPrefix(routes, token)
    ensures prefix <==> !IsKey(routes, token) && IsPrefix(routes, token)
  {
    matched := PostingRoutes(routes, token, true);
    if IsKey(routes, token) {
      forall route | route in routes && route.key == token ensures route == matched[0] {
        RouteKeysUnique(routes, route, matched[0]);
      }
    }
    if |matched| > 0 {
      prefix := |matched| != 1 || matched[0].key != token;
      fuzzy := false;
      SomeMatch(routes, token, matched);
    } else {
      matched := FuzzyRoutes(routes, token);
      prefix, fuzzy := false, true;
      FuzzyAreRoutes(routes, token);
    }
  }

  lemma {:induction false} SomeMatch(routes: seq<Route>, token: string, matched: seq<Route>)
    requires matched != [] && (!IsKey(routes, token) ==> forall r :: r in matched <==> r in routes && token <= r.key)
    requires IsKey(routes, token) ==> |matched| == 1 && matched[0].key == token
    ensures IsKey(routes, token) || IsPrefix(routes, token)
    ensures |matched| != 1 || matched[0].key != token <==> !IsKey(routes, token)
  {
    if !IsKey(routes, token) {
      assert matched[0] in matched;
      var i :| 0 <= i < |routes| && routes[i] == matched[0];
      assert token <= routes[i].key;
    }
  }

  lemma {:induction false} FuzzyAreRoutes(routes: seq<Route>, token: string)
    ensures forall r :: r in Fuzzy(routes, token) ==> r in routes
  {
    if |token| >= 4 {
      FuzzyTakesTheClosest(routes, token);
    }
  }

  ghost predicate Part(loaded: map<string, seq<nat>>, lists: map<string, seq<nat>>)
  {
    forall k :: k in loaded ==> k in lists && loaded[k] == lists[k]
  }

  /** Lines 586-588. */
  method LoadSegment(segment: seq<Posting>, before: map<string, seq<nat>>, ghost lists: map<string, seq<nat>>)
    returns (loaded: map<string, seq<nat>>)
    requires Part(before, lists)
    requires forall i :: 0 <= i < |segment| ==> segment[i].key in lists && segment[i].records == lists[segment[i].key]
    ensures Part(loaded, lists) && before.Keys <= loaded.Keys
    ensures forall e :: e in segment ==> e.key in loaded
  {
    loaded := before;
    for i := 0 to |segment|
      invariant Part(loaded, lists) && before.Keys <= loaded.Keys
      invariant forall j :: 0 <= j < i ==> segment[j].key in loaded
    {
      loaded := loaded[segment[i].key := segment[i].records];
    }
  }

  /** `loadPostingEntries`: what the chosen segments hold. */
  method LoadPostings(d: Directory, ordinals: set<nat>, ghost lists: map<string, seq<nat>>)
    returns (loaded: map<string, seq<nat>>)
    requires Serves(d, lists) && forall s :: s in ordinals ==> s < |d.segments|
    ensures Part(loaded, lists)
    ensures forall s, e :: s in ordinals && e in d.segments[s] ==> e.key in loaded
  {
    loaded := map[];
    var pending := ordinals;
    while pending != {}
      invariant pending <= ordinals && Part(loaded, lists)
      invariant forall s, e :: s in ordinals && s !in pending && e in d.segments[s] ==> e.key in loaded
      decreases pending
    {
      var s :| s in pending;
      var segment := d.segments[s];
      forall i | 0 <= i < |segment|
        ensures segment[i].key in lists && segment[i].records == lists[segment[i].key]
      {
        assert segment[i] in d.segments[s];
      }
      loaded := LoadSegment(segment, loaded, lists);
      pending := pending - {s};
    }
  }

  /** Lines 463-466: the records of one token. */
  method GroupCandidates(matched: seq<Route>, loaded: map<string, seq<nat>>) returns (result: seq<nat>)
    requires forall k :: k in loaded ==> Increasing(loaded[k])
    requires forall route :: route in matched ==> route.key in loaded
    ensures Increasing(result)
    ensures forall r: nat :: r in result <==> InGroup(matched, loaded, r, |matched|)
  {
    result := [];
    for i := 0 to |matched|
      invariant Increasing(result)
      invariant forall r: nat :: r in result <==> InGroup(matched, loaded, r, i)
    {
      assert matched[i] in matched;
      result := Union(result, loaded[matched[i].key]);
    }
  }

  /** One of the first `n` routes leads to record `r`. */
  ghost predicate InGroup(matched: seq<Route>, loaded: map<string, seq<nat>>, r: nat, n: nat)
    requires n <= |matched|
  {
    n > 0 && (Listed(loaded, matched[n - 1].key, r) || InGroup(matched, loaded, r, n - 1))
  }

  lemma {:induction false} InGroupSome(matched: seq<Route>, loaded: map<string, seq<nat>>, r: nat, n: nat)
    requires n <= |matched|
    ensures InGroup(matched, loaded, r, n) <==> exists i :: 0 <= i < n && Listed(loaded, matched[i].key, r)
  {
    if n > 0 {
      InGroupSome(matched, loaded, r, n - 1);
    }
  }

  lemma {:induction false} GroupSatisfies(
    records: seq<seq<string>>, routes: seq<Route>, lists: map<string, seq<nat>>, loaded: map<string, seq<nat>>,
    token: string, matched: seq<Route>, r: nat)
    requires Inverts(lists, records, |records|)
    requires forall route :: route in matched <==> Resolves(routes, token, route)
    requires forall k :: k in loaded ==> k in lists && loaded[k] == lists[k]
    requires forall route :: route in matched ==> route.key in loaded
    ensures InGroup(matched, loaded, r, |matched|) <==> Satisfies(records, routes, r, token)
  {
    InGroupSome(matched, loaded, r, |matched|);
    if InGroup(matched, loaded, r, |matched|) {
      var i :| 0 <= i < |matched| && Listed(loaded, matched[i].key, r);
      assert matched[i] in matched;
      assert Listed(lists, matched[i].key, r);
      assert Resolves(routes, token, matched[i]) && Carries(records, r, matched[i].key);
    }
    if Satisfies(records, routes, r, token) {
      var route :| Resolves(routes, token, route) && Carries(records, r, route.key);
      assert Listed(lists, route.key, r);
      var i :| 0 <= i < |matched| && matched[i] == route;
      assert Listed(loaded, matched[i].key, r);
    }
  }

  datatype Answer = TooBroad | Found(candidates: seq<nat>)

  /** The naive meaning of a query: the records that satisfy its first `n` tokens. */
  ghost predicate Selected(records: seq<seq<string>>, routes: seq<Route>, tokens: seq<string>, r: nat, n: nat)
    requires n <= |tokens|
  {
    n > 0 ==> Satisfies(records, routes, r, tokens[n - 1]) && Selected(records, routes, tokens, r, n - 1)
  }

  /** The routes in `matched` are those that the token stands for, and their segments are
      among the `ordinals`. */
  ghost predicate GroupIs(routes: seq<Route>, token: string, matched: seq<Route>, ordinals: set<nat>)
  {
    && (forall route :: route in matched <==> Resolves(routes, token, route))
    && (forall route :: route in matched ==> route in routes && route.segment in ordinals)
  }

  ghost predicate GroupsAre(
    routes: seq<Route>, tokens: seq<string>, groups: seq<seq<Route>>, ordinals: set<nat>, n: nat)
    requires n <= |tokens|
  {
    |groups| == n && forall k :: 0 <= k < n ==> GroupIs(routes, tokens[k], groups[k], ordinals)
  }

  lemma {:induction false} GroupsStep(
    routes: seq<Route>, tokens: seq<string>, groups: seq<seq<Route>>, ordinals: set<nat>, n: nat,
    matched: seq<Route>, more: set<nat>)
    requires n < |tokens| && GroupsAre(routes, tokens, groups, ordinals, n)
    requires GroupIs(routes, tokens[n], matched, more)
    ensures GroupsAre(routes, tokens, groups + [matched], ordinals + more, n + 1)
  {
    forall k | 0 <= k < n + 1 ensures GroupIs(routes, tokens[k], (groups + [matched])[k], ordinals + more) {
      if k < n {
        assert GroupIs(routes, tokens[k], groups[k], ordinals);
      }
    }
  }

  /** One of the first `n` tokens is neither a key nor the beginning of one. */
  ghost predicate NeedsFuzzy(routes: seq<Route>, tokens: seq<string>, n: nat)
    requires n <= |tokens|
  {
    n > 0 &&
    ((!IsKey(routes, tokens[n - 1]) && !IsPrefix(routes, tokens[n - 1])) || NeedsFuzzy(routes, tokens, n - 1))
  }

  ghost predicate StandsForNothing(routes: seq<Route>, token: string)
  {
    forall route :: !Resolves(routes, token, route)
  }

  ghost predicate SomethingMissing(routes: seq<Route>, tokens: seq<string>)
  {
    exists k :: 0 <= k < |tokens| && StandsForNothing(routes, tokens[k])
  }

  /** Some route that `token` stands for leads to segment `s`. */
  ghost predicate LeadsTo(routes: seq<Route>, token: string, s: nat)
  {
    exists route :: Resolves(routes, token, route) && route.segment == s
  }

  ghost predicate Needed(routes: seq<Route>, tokens: seq<string>, s: nat, n: nat)
    requires n <= |tokens|
  {
    n > 0 && (LeadsTo(routes, tokens[n - 1], s) || Needed(routes, tokens, s, n - 1))
  }

  /** `ordinals` are exactly the segments that the first `n` tokens lead to. */
  ghost predicate AreNeeded(routes: seq<Route>, tokens: seq<string>, ordinals: set<nat>, n: nat)
    requires n <= |tokens|
  {
    forall s: nat :: s in ordinals <==> Needed(routes, tokens, s, n)
  }

  lemma {:induction false} SegmentsExist(d: Directory, lists: map<string, seq<nat>>, matched: seq<Route>, more: set<nat>)
    requires Serves(d, lists) && forall route :: route in matched ==> route in d.routes
    requires forall s :: s in more ==> exists route :: route in matched && route.segment == s
    ensures forall s :: s in more ==> s < |d.segments|
  {
    forall s | s in more ensures s < |d.segments| {
      var route :| route in matched && route.segment == s;
      var j :| 0 <= j < |d.routes| && d.routes[j] == route;
    }
  }

  /** Lines 432-451: the routes of one token and the segments they lead to. */
  method ResolveGroup(d: Directory, token: string, ghost lists: map<string, seq<nat>>)
    returns (matched: seq<Route>, more: set<nat>)
    requires Serves(d, lists)
    ensures GroupIs(d.routes, token, matched, more)
    ensures forall s: nat :: s in more <==> LeadsTo(d.routes, token, s)
    ensures forall s :: s in more ==> s < |d.segments|
  {
    var prefix, fuzzy;
    matched, prefix, fuzzy := ResolveToken(d.routes, token);
    more := set route | route in matched :: route.segment;
    SegmentsExist(d, lists, matched, more);
  }

  /** Lines 431-452 for every token. */
  method ResolveAll(d: Directory, tokens: seq<string>, ghost lists: map<string, seq<nat>>)
    returns (groups: seq<seq<Route>>, ordinals: set<nat>, dead: bool)
    requires Serves(d, lists)
    ensures !dead ==> GroupsAre(d.routes, tokens, groups, ordinals, |tokens|)
    ensures !dead ==> AreNeeded(d.routes, tokens, ordinals, |tokens|)
    ensures forall s :: s in ordinals ==> s < |d.segments|
    ensures dead <==> SomethingMissing(d.routes, tokens)
  {
    groups, ordinals, dead := [], {}, false;
    for i := 0 to |tokens|
      invariant GroupsAre(d.routes, tokens, groups, ordinals, i)
      invariant AreNeeded(d.routes, tokens, ordinals, i)
      invariant forall s :: s in ordinals ==> s < |d.segments|
      invariant forall k :: 0 <= k < i ==> !StandsForNothing(d.routes, tokens[k])
    {
      var matched, more := ResolveGroup(d, tokens[i], lists);
      if matched == [] {
        assert StandsForNothing(d.routes, tokens[i]);
        dead := true;
        return;
      }
      assert matched[0] in matched;
      GroupsStep(d.routes, tokens, groups, ordinals, i, matched, more);
      groups := groups + [matched];
      ordinals := ordinals + more;
    }
  }

  /** What is loaded covers the routes of a group. */
  lemma {:induction false} GroupLoaded(
    d: Directory, lists: map<string, seq<nat>>, loaded: map<string, seq<nat>>,
    token: string, matched: seq<Route>, ordinals: set<nat>)
    requires Serves(d, lists) && GroupIs(d.routes, token, matched, ordinals)
    requires forall s :: s in ordinals ==> s < |d.segments|
    requires forall s, e :: s in ordinals && e in d.segments[s] ==> e.key in loaded
    ensures forall route :: route in matched ==> route.key in loaded
  {
    forall route | route in matched ensures route.key in loaded {
      var j :| 0 <= j < |d.routes| && d.routes[j] == route;
      assert Posting(route.key, lists[route.key]) in d.segments[route.segment];
    }
  }

  lemma {:induction false} SelectedLater(
    records: seq<seq<string>>, routes: seq<Route>, tokens: seq<string>, r: nat, m: nat, n: nat)
    requires m <= n <= |tokens| && Selected(records, routes, tokens, r, n)
    ensures Selected(records, routes, tokens, r, m)
    ensures m < n ==> Satisfies(records, routes, r, tokens[m])
  {
    if m < n {
      SelectedLater(records, routes, tokens, r, m, n - 1);
    }
  }

  /** The read limits refuse exactly the segments that the query needs. */
  ghost predicate Refused(routes: seq<Route>, tokens: seq<string>, affordable: set<nat> -> bool)
  {
    exists ordinals ::
      AreNeeded(routes, tokens, ordinals, |tokens|) && (|ordinals| > MAX_TOKEN_SEGMENTS || !affordable(ordinals))
  }

  lemma {:induction false} RefusedMeans(
    routes: seq<Route>, tokens: seq<string>, affordable: set<nat> -> bool, ordinals: set<nat>)
    requires AreNeeded(routes, tokens, ordinals, |tokens|)
    ensures Refused(routes, tokens, affordable) <==> |ordinals| > MAX_TOKEN_SEGMENTS || !affordable(ordinals)
  {
    if Refused(routes, tokens, affordable) {
      var others :| AreNeeded(routes, tokens, others, |tokens|) && (|others| > MAX_TOKEN_SEGMENTS || !affordable(others));
      assert forall s: nat :: s in others <==> s in ordinals;
      assert others == ordinals;
    }
  }

  /** `loadRankedCandidateIDs`: the candidates are, in increasing order, exactly the records
      that the naive reading of the query selects, and the query is refused exactly when every
      token stands for something and the segments needed are too many or too costly to read.
      The budget for reading segments is an arbitrary predicate on the segments asked for. */
  method Candidates(
    d: Directory, tokens: seq<string>, affordable: set<nat> -> bool,
    ghost lists: map<string, seq<nat>>, ghost records: seq<seq<string>>)
    returns (answer: Answer)
    requires Serves(d, lists) && Inverts(lists, records, |records|) && tokens != []
    ensures answer.TooBroad? <==> !SomethingMissing(d.routes, tokens) && Refused(d.routes, tokens, affordable)
    ensures answer.Found? ==> Increasing(answer.candidates)
    ensures answer.Found? ==> forall r: nat ::
      r in answer.candidates <==> Selected(records, d.routes, tokens, r, |tokens|)
    ensures answer.Found? && !NeedsFuzzy(d.routes, tokens, |tokens|) ==> forall r: nat ::
      r in answer.candidates <==> forall k :: 0 <= k < |tokens| ==> NaiveMatch(records, r, tokens[k])
  {
    var groups, ordinals, dead := ResolveAll(d, tokens, lists);
    NaiveReading(d, lists, records, tokens);
    if dead {
      forall r: nat ensures !Selected(records, d.routes, tokens, r, |tokens|) {
        NothingSelected(records, d.routes, tokens, r);
      }
      return Found([]);
    }
    RefusedMeans(d.routes, tokens, affordable, ordinals);
    if |ordinals| > MAX_TOKEN_SEGMENTS || !affordable(ordinals) {
      return TooBroad;
    }
    var loaded := LoadPostings(d, ordinals, lists);
    var candidates := Combine(d, tokens, groups, loaded, ordinals, lists, records);
    return Found(candidates);
  }

  lemma {:induction false} NaiveReading(
    d: Directory, lists: map<string, seq<nat>>, records: seq<seq<string>>, tokens: seq<string>)
    requires Serves(d, lists) && Inverts(lists, records, |records|)
    ensures !NeedsFuzzy(d.routes, tokens, |tokens|) ==> forall r: nat ::
      Selected(records, d.routes, tokens, r, |tokens|) <==>
      forall k :: 0 <= k < |tokens| ==> NaiveMatch(records, r, tokens[k])
  {
    if !NeedsFuzzy(d.routes, tokens, |tokens|) {
      forall r: nat
        ensures Selected(records, d.routes, tokens, r, |tokens|) <==>
          forall k :: 0 <= k < |tokens| ==> NaiveMatch(records, r, tokens[k])
      {
        SelectedWithoutFuzzy(d, lists, records, tokens, r);
      }
    }
  }

  lemma {:induction false} NothingSelected(records: seq<seq<string>>, routes: seq<Route>, tokens: seq<string>, r: nat)
    requires SomethingMissing(routes, tokens)
    ensures !Selected(records, routes, tokens, r, |tokens|)
  {
    var k :| 0 <= k < |tokens| && StandsForNothing(routes, tokens[k]);
    if Selected(records, routes, tokens, r, |tokens|) {
      SelectedLater(records, routes, tokens, r, k, |tokens|);
    }
  }

  /** The candidates so far are exactly the records selected by the first `n` tokens. */
  ghost predicate AreSelected(
    candidates: seq<nat>, records: seq<seq<string>>, routes: seq<Route>, tokens: seq<string>, n: nat)
    requires n <= |tokens|
  {
    forall r: nat :: r in candidates <==> Selected(records, routes, tokens, r, n)
  }

  lemma {:induction false} NoneSelectedLater(
    records: seq<seq<string>>, routes: seq<Route>, tokens: seq<string>, n: nat)
    requires n <= |tokens| && AreSelected([], records, routes, tokens, n)
    ensures AreSelected([], records, routes, tokens, |tokens|)
  {
    forall r: nat ensures !Selected(records, routes, tokens, r, |tokens|) {
      if Selected(records, routes, tokens, r, |tokens|) {
        SelectedLater(records, routes, tokens, r, n, |tokens|);
      }
    }
  }

  lemma {:induction false} SelectStep(
    records: seq<seq<string>>, routes: seq<Route>, tokens: seq<string>, n: nat,
    before: seq<nat>, group: seq<nat>, after: seq<nat>)
    requires n < |tokens| && (n > 0 ==> AreSelected(before, records, routes, tokens, n))
    requires forall r: nat :: r in group <==> Satisfies(records, routes, r, tokens[n])
    requires forall r: nat :: r in after <==> (n == 0 || r in before) && r in group
    ensures AreSelected(after, records, routes, tokens, n + 1)
  {
    forall r: nat ensures r in after <==> Selected(records, routes, tokens, r, n + 1) {
      assert n > 0 ==> (r in before <==> Selected(records, routes, tokens, r, n));
      assert r in group <==> Satisfies(records, routes, r, tokens[n]);
    }
  }

  /** Lines 460-478: union within a group, intersection over the groups. */
  method Combine(
    d: Directory, tokens: seq<string>, groups: seq<seq<Route>>, loaded: map<string, seq<nat>>,
    ghost ordinals: set<nat>, ghost lists: map<string, seq<nat>>, ghost records: seq<seq<string>>)
    returns (candidates: seq<nat>)
    requires Serves(d, lists) && Inverts(lists, records, |records|) && tokens != []
    requires GroupsAre(d.routes, tokens, groups, ordinals, |tokens|) && Part(loaded, lists)
    requires forall s :: s in ordinals ==> s < |d.segments|
    requires forall s, e :: s in ordinals && e in d.segments[s] ==> e.key in loaded
    ensures Increasing(candidates)
    ensures AreSelected(candidates, records, d.routes, tokens, |tokens|)
  {
    candidates := [];
    var i := 0;
    while i < |groups|
      invariant 0 <= i <= |groups| && Increasing(candidates)
      invariant i > 0 ==> AreSelected(candidates, records, d.routes, tokens, i)
    {
      candidates := Narrow(d, tokens, groups, i, candidates, loaded, ordinals, lists, records);
      i := i + 1;
      if candidates == [] {
        NoneSelectedLater(records, d.routes, tokens, i);
        break;
      }
    }
  }

  /** Lines 462-471: one group narrows the candidates. */
  method Narrow(
    d: Directory, tokens: seq<string>, groups: seq<seq<Route>>, i: nat, before: seq<nat>, loaded: map<string, seq<nat>>,
    ghost ordinals: set<nat>, ghost lists: map<string, seq<nat>>, ghost records: seq<seq<string>>)
    returns (candidates: seq<nat>)
    requires Serves(d, lists) && Inverts(lists, records, |records|) && i < |tokens|
    requires GroupsAre(d.routes, tokens, groups, ordinals, |tokens|) && Part(loaded, lists)
    requires forall s :: s in ordinals ==> s < |d.segments|
    requires forall s, e :: s in ordinals && e in d.segments[s] ==> e.key in loaded
    requires Increasing(before) && (i > 0 ==> AreSelected(before, records, d.routes, tokens, i))
    ensures Increasing(candidates)
    ensures AreSelected(candidates, records, d.routes, tokens, i + 1)
  {
    var group := TokenCandidates(d, tokens, groups, i, loaded, ordinals, lists, records);
    if i == 0 {
      candidates := group;
    } else {
      candidates := Intersect(before, group);
    }
    SelectStep(records, d.routes, tokens, i, before, group, candidates);
  }

  method TokenCandidates(
    d: Directory, tokens: seq<string>, groups: seq<seq<Route>>, i: nat, loaded: map<string, seq<nat>>,
    ghost ordinals: set<nat>, ghost lists: map<string, seq<nat>>, ghost records: seq<seq<string>>)
    returns (group: seq<nat>)
    requires Serves(d, lists) && Inverts(lists, records, |records|) && i < |tokens|
    requires GroupsAre(d.routes, tokens, groups, ordinals, |tokens|) && Part(loaded, lists)
    requires forall s :: s in ordinals ==> s < |d.segments|
    requires forall s, e :: s in ordinals && e in d.segments[s] ==> e.key in loaded
    ensures Increasing(group)
    ensures forall r: nat :: r in group <==> Satisfies(records, d.routes, r, tokens[i])
  {
    assert GroupIs(d.routes, tokens[i], groups[i], ordinals);
    GroupLoaded(d, lists, loaded, tokens[i], groups[i], ordinals);
    group := GroupCandidates(groups[i], loaded);
    forall r: nat ensures r in group <==> Satisfies(records, d.routes, r, tokens[i]) {
      GroupSatisfies(records, d.routes, lists, loaded, tokens[i], groups[i], r);
    }
  }

  ghost predicate NaivelySelected(records: seq<seq<string>>, tokens: seq<string>, r: nat, n: nat)
    requires n <= |tokens|
  {
    n > 0 ==> NaiveMatch(records, r, tokens[n - 1]) && NaivelySelected(records, tokens, r, n - 1)
  }

  lemma {:induction false} NaivelySelectedMeans(records: seq<seq<string>>, tokens: seq<string>, r: nat, n: nat)
    requires n <= |tokens|
    ensures NaivelySelected(records, tokens, r, n) <==> forall k :: 0 <= k < n ==> NaiveMatch(records, r, tokens[k])
  {
    if n > 0 {
      NaivelySelectedMeans(records, tokens, r, n - 1);
    }
  }

  lemma {:induction false} SelectedIsNaive(
    d: Directory, lists: map<string, seq<nat>>, records: seq<seq<string>>, tokens: seq<string>, r: nat, n: nat)
    requires Serves(d, lists) && Inverts(lists, records, |records|)
    requires n <= |tokens| && !NeedsFuzzy(d.routes, tokens, n)
    ensures Selected(records, d.routes, tokens, r, n) <==> NaivelySelected(records, tokens, r, n)
  {
    if n > 0 {
      SelectedIsNaive(d, lists, records, tokens, r, n - 1);
      SatisfiesIsNaive(d, lists, records, tokens[n - 1], r);
    }
  }

  /** Some record carries a token that is close to the query token, and this record does. */
  ghost predicate CarriesClose(records: seq<seq<string>>, r: nat, token: string)
  {
    exists t :: IsCloseTo(token, t) && Carries(records, r, t)
  }

  /** With fuzzy matching: a record found carries a close token, and while the limit on routes is
      not reached every record that carries one is found. */
  lemma {:induction false} FuzzyTokenMeans(
    d: Directory, lists: map<string, seq<nat>>, records: seq<seq<string>>, token: string, r: nat)
    requires Serves(d, lists) && Inverts(lists, records, |records|)
    requires !IsKey(d.routes, token) && !IsPrefix(d.routes, token)
    ensures Satisfies(records, d.routes, r, token) ==> CarriesClose(records, r, token)
    ensures |Fuzzy(d.routes, token)| < MAX_FUZZY_ROUTES ==>
      (Satisfies(records, d.routes, r, token) <==> CarriesClose(records, r, token))
  {
    var taken := Fuzzy(d.routes, token);
    FuzzyIsExact(d.routes, token);
    if Satisfies(records, d.routes, r, token) {
      var route :| Resolves(d.routes, token, route) && Carries(records, r, route.key);
      assert route in taken;
    }
    if |taken| < MAX_FUZZY_ROUTES && CarriesClose(records, r, token) {
      var route := CloseIsTaken(d, lists, records, token, taken, r);
      assert Resolves(d.routes, token, route);
    }
  }

  lemma {:induction false} CloseIsTaken(
    d: Directory, lists: map<string, seq<nat>>, records: seq<seq<string>>, token: string, taken: seq<Route>, r: nat)
    returns (route: Route)
    requires Serves(d, lists) && Inverts(lists, records, |records|)
    requires AreTheClosest(d.routes, token, taken) && |taken| < MAX_FUZZY_ROUTES
    requires CarriesClose(records, r, token)
    ensures route in taken && Carries(records, r, route.key)
  {
    var t :| IsCloseTo(token, t) && Carries(records, r, t);
    assert Listed(lists, t, r);
    var i :| 0 <= i < |d.routes| && d.routes[i].key == t;
    route := d.routes[i];
  }

  /** Without fuzzy matching: a record is selected exactly when, for each query token, it
      carries that token if some record does, and otherwise some token it begins. */
  lemma {:induction false} SelectedWithoutFuzzy(
    d: Directory, lists: map<string, seq<nat>>, records: seq<seq<string>>, tokens: seq<string>, r: nat)
    requires Serves(d, lists) && Inverts(lists, records, |records|)
    requires !NeedsFuzzy(d.routes, tokens, |tokens|)
    ensures Selected(records, d.routes, tokens, r, |tokens|) <==>
      forall k :: 0 <= k < |tokens| ==> NaiveMatch(records, r, tokens[k])
  {
    SelectedIsNaive(d, lists, records, tokens, r, |tokens|);
    NaivelySelectedMeans(records, tokens, r, |tokens|);
  }

  ghost predicate IsIndexed(records: seq<seq<string>>, token: string)
  {
    exists q: nat :: Carries(records, q, token)
  }

  ghost predicate NaiveMatch(records: seq<seq<string>>, r: nat, token: string)
  {
    if IsIndexed(records, token) then Carries(records, r, token)
    else exists t :: token <= t && Carries(records, r, t)
  }

  lemma {:induction false} KeysAreIndexed(
    d: Directory, lists: map<string, seq<nat>>, records: seq<seq<string>>, token: string)
    requires Serves(d, lists) && Inverts(lists, records, |records|)
    ensures IsKey(d.routes, token) <==> IsIndexed(records, token)
  {
    if IsKey(d.routes, token) {
      var i :| 0 <= i < |d.routes| && d.routes[i].key == token;
      assert Listed(lists, token, lists[token][0]);
    }
    if IsIndexed(records, token) {
      var q: nat :| Carries(records, q, token);
      assert Listed(lists, token, q);
    }
  }

  lemma {:induction false} SatisfiesIsNaive(
    d: Directory, lists: map<string, seq<nat>>, records: seq<seq<string>>, token: string, r: nat)
    requires Serves(d, lists) && Inverts(lists, records, |records|)
    requires IsKey(d.routes, token) || IsPrefix(d.routes, token)
    ensures Satisfies(records, d.routes, r, token) <==> NaiveMatch(records, r, token)
  {
    KeysAreIndexed(d, lists, records, token);
    if NaiveMatch(records, r, token) {
      var t :| token <= t && Carries(records, r, t) && (IsIndexed(records, token) ==> t == token);
      KeysAreIndexed(d, lists, records, t);
      assert IsIndexed(records, t);
      var i :| 0 <= i < |d.routes| && d.routes[i].key == t;
      assert Resolves(d.routes, token, d.routes[i]);
    }
  }
}
