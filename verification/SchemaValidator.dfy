/** The walk over schema summaries in domain/spec_validation.go: a graph walk with a set of
    active pointers and memoised heights, and the plain tree walk that it stands for. */
module SchemaValidator {
  import opened Wrappers
  import opened Ordering

  const MAX_DEPTH: nat := 64
  const MAX_NODES: nat := 100_000

  type Pointer = nat
  type Slice = nat

  /** A schema summary. Its properties are a slice, which may be shared and may even contain
      the summary again; its items are a pointer. */
  datatype Schema = Schema(name: string, kind: string, format: string, properties: Slice, items: Option<Pointer>)

  datatype Property = Property(name: string, schema: Schema)

  /** What pointers and slices refer to, and the rule for canonical identities (a text, and
      whether it may be empty). */
  datatype Store = Store(target: Pointer -> Schema, list: Slice -> seq<Property>, canonical: (string, bool) -> bool)

  // ----- The tree walk -------------------------------------------------------------------

  predicate NamesAreCanonical(store: Store, s: Schema)
  {
    store.canonical(s.name, true) && store.canonical(s.kind, true) && store.canonical(s.format, true)
  }

  /** The memo-free walk accepts `s` with `left` levels to spend. */
  predicate Fits(store: Store, s: Schema, left: nat)
    decreases left, 0
  {
    && left > 0
    && NamesAreCanonical(store, s)
    && AllFit(store, store.list(s.properties), |store.list(s.properties)|, left - 1)
    && (s.items.Some? ==> Fits(store, store.target(s.items.value), left - 1))
  }

  predicate AllFit(store: Store, ps: seq<Property>, n: nat, left: nat)
    requires n <= |ps|
    decreases left, n
  {
    n > 0 ==>
      && AllFit(store, ps, n - 1, left)
      && store.canonical(ps[n - 1].name, false)
      && Fits(store, ps[n - 1].schema, left)
  }

  /** Levels of the unfolded tree, cut off at `left`. */
  function Height(store: Store, s: Schema, left: nat): nat
    decreases left, 0
  {
    if left == 0 then 0
    else
      var wide := Tallest(store, store.list(s.properties), |store.list(s.properties)|, left - 1);
      var deep := if s.items.Some? then Height(store, store.target(s.items.value), left - 1) else 0;
      1 + Max(wide, deep)
  }

  function Max(a: nat, b: nat): nat { if a < b then b else a }

  function Tallest(store: Store, ps: seq<Property>, n: nat, left: nat): nat
    requires n <= |ps|
    decreases left, n
  {
    if n == 0 then 0 else Max(Tallest(store, ps, n - 1, left), Height(store, ps[n - 1].schema, left))
  }

  /** Summaries expanded by value below `s`, itself included; items are not followed. */
  function Own(store: Store, s: Schema, left: nat): nat
    decreases left, 0
  {
    if left == 0 then 0
    else 1 + OwnAll(store, store.list(s.properties), |store.list(s.properties)|, left - 1)
  }

  function OwnAll(store: Store, ps: seq<Property>, n: nat, left: nat): nat
    requires n <= |ps|
    decreases left, n
  {
    if n == 0 then 0 else OwnAll(store, ps, n - 1, left) + Own(store, ps[n - 1].schema, left)
  }

  /** The pointers that items lead through below `s`. */
  function Pointers(store: Store, s: Schema, left: nat): set<Pointer>
    decreases left, 0
  {
    if left == 0 then {}
    else
      PointersOfAll(store, store.list(s.properties), |store.list(s.properties)|, left - 1) +
      (if s.items.Some? then PointersFrom(store, s.items.value, left - 1) else {})
  }

  function PointersFrom(store: Store, p: Pointer, left: nat): set<Pointer>
    decreases left, 1
  {
    {p} + Pointers(store, store.target(p), left)
  }

  function PointersOfAll(store: Store, ps: seq<Property>, n: nat, left: nat): set<Pointer>
    requires n <= |ps|
    decreases left, n
  {
    if n == 0 then {} else PointersOfAll(store, ps, n - 1, left) + Pointers(store, ps[n - 1].schema, left)
  }

  /** More room never makes the expansion smaller. */
  lemma {:induction false} OwnGrows(store: Store, s: Schema, a: nat, b: nat)
    requires a <= b
    ensures Own(store, s, a) <= Own(store, s, b)
    decreases a, 0
  {
    if a > 0 {
      OwnGrowsForAll(store, store.list(s.properties), |store.list(s.properties)|, a - 1, b - 1);
    }
  }

  lemma {:induction false} OwnGrowsForAll(store: Store, ps: seq<Property>, n: nat, a: nat, b: nat)
    requires n <= |ps| && a <= b
    ensures OwnAll(store, ps, n, a) <= OwnAll(store, ps, n, b)
    decreases a, n
  {
    if n > 0 {
      OwnGrowsForAll(store, ps, n - 1, a, b);
      OwnGrows(store, ps[n - 1].schema, a, b);
    }
  }

  /** The first properties expand to no more than all of them. */
  lemma {:induction false} FirstAreFewer(store: Store, ps: seq<Property>, m: nat, n: nat, left: nat)
    requires m <= n <= |ps|
    ensures OwnAll(store, ps, m, left) <= OwnAll(store, ps, n, left)
    ensures PointersOfAll(store, ps, m, left) <= PointersOfAll(store, ps, n, left)
  {
    if m < n {
      FirstAreFewer(store, ps, m, n - 1, left);
    }
  }

  /** More room changes nothing about a summary that fits. */
  lemma {:induction false} RoomIsIrrelevant(store: Store, s: Schema, a: nat, b: nat)
    requires a <= b && Fits(store, s, a)
    ensures Fits(store, s, b) && Height(store, s, a) == Height(store, s, b)
    ensures Own(store, s, a) == Own(store, s, b) && Pointers(store, s, a) == Pointers(store, s, b)
    decreases a, 0
  {
    RoomIsIrrelevantForAll(store, store.list(s.properties), |store.list(s.properties)|, a - 1, b - 1);
    if s.items.Some? {
      RoomIsIrrelevant(store, store.target(s.items.value), a - 1, b - 1);
    }
  }

  lemma {:induction false} RoomIsIrrelevantForAll(store: Store, ps: seq<Property>, n: nat, a: nat, b: nat)
    requires n <= |ps| && a <= b && AllFit(store, ps, n, a)
    ensures AllFit(store, ps, n, b)
    ensures Tallest(store, ps, n, a) == Tallest(store, ps, n, b)
    ensures OwnAll(store, ps, n, a) == OwnAll(store, ps, n, b)
    ensures PointersOfAll(store, ps, n, a) == PointersOfAll(store, ps, n, b)
    decreases a, n
  {
    if n > 0 {
      RoomIsIrrelevantForAll(store, ps, n - 1, a, b);
      RoomIsIrrelevant(store, ps[n - 1].schema, a, b);
    }
  }

  /** A summary that fits somewhere fits exactly where there is room for its height. */
  lemma {:induction false} FitsIffHeightFits(store: Store, s: Schema, a: nat, b: nat)
    requires Fits(store, s, a)
    ensures 0 < Height(store, s, a) <= a
    ensures Fits(store, s, b) <==> Height(store, s, a) <= b
    decreases a, 0
  {
    var ps := store.list(s.properties);
    TallestFits(store, ps, |ps|, a - 1, if b == 0 then 0 else b - 1);
    if s.items.Some? {
      FitsIffHeightFits(store, store.target(s.items.value), a - 1, if b == 0 then 0 else b - 1);
    }
  }

  lemma {:induction false} TallestFits(store: Store, ps: seq<Property>, n: nat, a: nat, b: nat)
    requires n <= |ps| && AllFit(store, ps, n, a)
    ensures Tallest(store, ps, n, a) <= a
    ensures AllFit(store, ps, n, b) <==> Tallest(store, ps, n, a) <= b
    decreases a, n
  {
    if n > 0 {
      TallestFits(store, ps, n - 1, a, b);
      FitsIffHeightFits(store, ps[n - 1].schema, a, b);
    }
  }

  // ----- What the tree walk accepts, in terms of paths -----------------------------------

  ghost predicate IsChild(store: Store, parent: Schema, child: Schema)
  {
    || (exists i :: 0 <= i < |store.list(parent.properties)| && store.list(parent.properties)[i].schema == child)
    || (parent.items.Some? && store.target(parent.items.value) == child)
  }

  /** A path of `k` steps leads from `a` to `b`. */
  ghost predicate Reaches(store: Store, a: Schema, b: Schema, k: nat)
    decreases k
  {
    if k == 0 then a == b
    else exists c :: Reaches(store, a, c, k - 1) && IsChild(store, c, b)
  }

  lemma {:induction false} ReachesFromChild(store: Store, a: Schema, c: Schema, b: Schema, k: nat)
    requires IsChild(store, a, c) && Reaches(store, c, b, k)
    ensures Reaches(store, a, b, k + 1)
    decreases k
  {
    if k == 0 {
      assert Reaches(store, a, a, 0);
    } else {
      var d :| Reaches(store, c, d, k - 1) && IsChild(store, d, b);
      ReachesFromChild(store, a, c, d, k - 1);
    }
  }

  ghost predicate IsClean(store: Store, s: Schema)
  {
    && NamesAreCanonical(store, s)
    && forall i :: 0 <= i < |store.list(s.properties)| ==> store.canonical(store.list(s.properties)[i].name, false)
  }

  lemma {:induction false} AllFitMeans(store: Store, ps: seq<Property>, n: nat, left: nat)
    requires n <= |ps|
    ensures AllFit(store, ps, n, left) <==>
      forall i :: 0 <= i < n ==> store.canonical(ps[i].name, false) && Fits(store, ps[i].schema, left)
  {
    if n > 0 {
      AllFitMeans(store, ps, n - 1, left);
    }
  }

  lemma {:induction false} TallestIsTallest(store: Store, ps: seq<Property>, n: nat, left: nat, i: nat)
    requires i < n <= |ps|
    ensures Height(store, ps[i].schema, left) <= Tallest(store, ps, n, left)
  {
    if i < n - 1 {
      TallestIsTallest(store, ps, n - 1, left, i);
    }
  }

  lemma {:induction false} ChildFits(store: Store, s: Schema, child: Schema, left: nat)
    requires Fits(store, s, left) && IsChild(store, s, child)
    ensures Fits(store, child, left - 1) && Height(store, child, left - 1) < Height(store, s, left)
  {
    var ps := store.list(s.properties);
    AllFitMeans(store, ps, |ps|, left - 1);
    if i :| 0 <= i < |ps| && ps[i].schema == child {
      TallestIsTallest(store, ps, |ps|, left - 1, i);
    }
  }

  lemma {:induction false} ReachedFits(store: Store, a: Schema, b: Schema, left: nat, k: nat)
    requires Fits(store, a, left) && Reaches(store, a, b, k)
    ensures k < left && Fits(store, b, left - k) && Height(store, b, left - k) + k <= Height(store, a, left)
    decreases k
  {
    if k > 0 {
      var c :| Reaches(store, a, c, k - 1) && IsChild(store, c, b);
      ReachedFits(store, a, c, left, k - 1);
      ChildFits(store, c, b, left - (k - 1));
    }
  }

  /** Nothing on a cycle is ever accepted, whatever the room. */
  lemma {:induction false} CyclesNeverFit(store: Store, a: Schema, k: nat, left: nat)
    requires k > 0 && Reaches(store, a, a, k)
    ensures !Fits(store, a, left)
  {
    if Fits(store, a, left) {
      ReachedFits(store, a, a, left, k);
      RoomIsIrrelevant(store, a, left - k, left);
    }
  }

  ghost predicate Bounded(store: Store, s: Schema, left: nat)
  {
    forall b, k: nat :: Reaches(store, s, b, k) ==> k < left && IsClean(store, b)
  }

  lemma {:induction false} BoundedChild(store: Store, s: Schema, child: Schema, left: nat)
    requires Bounded(store, s, left) && IsChild(store, s, child) && left > 0
    ensures Bounded(store, child, left - 1)
  {
    forall b, k: nat | Reaches(store, child, b, k) ensures k < left - 1 && IsClean(store, b) {
      ReachesFromChild(store, s, child, b, k);
    }
  }

  lemma {:induction false} BoundedFits(store: Store, s: Schema, left: nat)
    requires Bounded(store, s, left)
    ensures Fits(store, s, left)
    decreases left
  {
    assert Reaches(store, s, s, 0);
    var ps := store.list(s.properties);
    forall i | 0 <= i < |ps| ensures Fits(store, ps[i].schema, left - 1) {
      BoundedChild(store, s, ps[i].schema, left);
      BoundedFits(store, ps[i].schema, left - 1);
    }
    AllFitMeans(store, ps, |ps|, left - 1);
    if s.items.Some? {
      BoundedChild(store, s, store.target(s.items.value), left);
      BoundedFits(store, store.target(s.items.value), left - 1);
    }
  }

  /** The tree walk accepts exactly when every path from the summary is shorter than the room
      and reaches only summaries with canonical names. */
  lemma {:induction false} FitsIffBounded(store: Store, s: Schema, left: nat)
    ensures Fits(store, s, left) <==> Bounded(store, s, left)
  {
    if Fits(store, s, left) {
      forall b, k: nat | Reaches(store, s, b, k) ensures k < left && IsClean(store, b) {
        ReachedFits(store, s, b, left, k);
        AllFitMeans(store, store.list(b.properties), |store.list(b.properties)|, left - k - 1);
      }
    }
    if Bounded(store, s, left) {
      BoundedFits(store, s, left);
    }
  }

  /** In what is accepted, no summary can be reached again from itself. */
  lemma {:induction false} AcceptedIsAcyclic(store: Store, s: Schema, left: nat, b: Schema, m: nat, k: nat)
    requires Fits(store, s, left) && Reaches(store, s, b, m) && k > 0
    ensures !Reaches(store, b, b, k)
  {
    ReachedFits(store, s, b, left, m);
    if Reaches(store, b, b, k) {
      CyclesNeverFit(store, b, k, left - m);
    }
  }

  // ----- What the tree walk counts, in terms of paths ------------------------------------

  lemma {:induction false} ReachesThroughChild(store: Store, a: Schema, b: Schema, k: nat) returns (c: Schema)
    requires k > 0 && Reaches(store, a, b, k)
    ensures IsChild(store, a, c) && Reaches(store, c, b, k - 1)
    decreases k
  {
    var d :| Reaches(store, a, d, k - 1) && IsChild(store, d, b);
    if k == 1 {
      c := b;
    } else {
      c := ReachesThroughChild(store, a, d, k - 1);
      assert Reaches(store, c, d, k - 2);
    }
  }

  /** Some summary within the room has the pointer as its items. */
  ghost predicate IsMet(store: Store, s: Schema, left: nat, p: Pointer)
  {
    exists b, k: nat :: k < left && Reaches(store, s, b, k) && b.items == Some(p)
  }

  lemma {:induction false} PointersOfAllMeans(store: Store, ps: seq<Property>, n: nat, left: nat, p: Pointer)
    requires n <= |ps|
    ensures p in PointersOfAll(store, ps, n, left) <==> exists i :: 0 <= i < n && p in Pointers(store, ps[i].schema, left)
  {
    if n > 0 {
      PointersOfAllMeans(store, ps, n - 1, left, p);
    }
  }

  lemma {:induction false} MetFromChild(store: Store, s: Schema, c: Schema, left: nat, p: Pointer)
    requires left > 0 && IsChild(store, s, c) && IsMet(store, c, left - 1, p)
    ensures IsMet(store, s, left, p)
  {
    var b, k: nat :| k < left - 1 && Reaches(store, c, b, k) && b.items == Some(p);
    ReachesFromChild(store, s, c, b, k);
  }

  lemma {:induction false} MeetingGoesOn(store: Store, s: Schema, left: nat, p: Pointer)
    ensures IsMet(store, s, left, p) ==> left > 0
    ensures left > 0 ==>
      (IsMet(store, s, left, p) <==> s.items == Some(p) || exists c :: IsChild(store, s, c) && IsMet(store, c, left - 1, p))
  {
    if left > 0 && s.items == Some(p) {
      assert Reaches(store, s, s, 0);
    }
    if left > 0 && exists c :: IsChild(store, s, c) && IsMet(store, c, left - 1, p) {
      var c :| IsChild(store, s, c) && IsMet(store, c, left - 1, p);
      MetFromChild(store, s, c, left, p);
    }
    if IsMet(store, s, left, p) {
      var b, k: nat :| k < left && Reaches(store, s, b, k) && b.items == Some(p);
      if k > 0 {
        var c := ReachesThroughChild(store, s, b, k);
        assert IsMet(store, c, left - 1, p);
      }
    }
  }

  lemma {:induction false} PointersOfChildren(store: Store, s: Schema, left: nat, p: Pointer)
    requires left > 0
    ensures p in Pointers(store, s, left) <==>
      s.items == Some(p) || exists c :: IsChild(store, s, c) && p in Pointers(store, c, left - 1)
  {
    var ps := store.list(s.properties);
    PointersOfAllMeans(store, ps, |ps|, left - 1, p);
    if i :| 0 <= i < |ps| && p in Pointers(store, ps[i].schema, left - 1) {
      assert IsChild(store, s, ps[i].schema);
    }
    if s.items.Some? {
      assert IsChild(store, s, store.target(s.items.value));
    }
  }

  /** The pointers counted are those that are the items of a summary within the room. */
  lemma {:induction false} PointersAreMet(store: Store, s: Schema, left: nat, p: Pointer)
    ensures p in Pointers(store, s, left) <==> IsMet(store, s, left, p)
    decreases left
  {
    MeetingGoesOn(store, s, left, p);
    if left > 0 {
      PointersOfChildren(store, s, left, p);
      forall c | IsChild(store, s, c) ensures p in Pointers(store, c, left - 1) <==> IsMet(store, c, left - 1, p) {
        PointersAreMet(store, c, left - 1, p);
      }
    }
  }

  /** Going from property to property by these places stays among the summaries of `s`. */
  predicate IsPath(store: Store, s: Schema, path: seq<nat>)
    decreases |path|
  {
    path == [] ||
    (path[0] < |store.list(s.properties)| && IsPath(store, store.list(s.properties)[path[0]].schema, path[1..]))
  }

  function Paths(store: Store, s: Schema, left: nat): set<seq<nat>>
    decreases left, 0
  {
    if left == 0 then {}
    else {[]} + PathsOfAll(store, store.list(s.properties), |store.list(s.properties)|, left - 1)
  }

  function PathsOfAll(store: Store, ps: seq<Property>, n: nat, left: nat): set<seq<nat>>
    requires n <= |ps|
    decreases left, n
  {
    if n == 0 then {}
    else PathsOfAll(store, ps, n - 1, left) + Through(n - 1, Paths(store, ps[n - 1].schema, left))
  }

  function Through(i: nat, paths: set<seq<nat>>): set<seq<nat>>
  {
    set path | path in paths :: [i] + path
  }

  lemma {:induction false} AsManyThrough(i: nat, paths: set<seq<nat>>)
    ensures |Through(i, paths)| == |paths|
    decreases paths
  {
    if paths != {} {
      var path :| path in paths;
      AsManyThrough(i, paths - {path});
      assert Through(i, paths) == Through(i, paths - {path}) + {[i] + path};
      forall other | other in paths - {path} ensures [i] + other != [i] + path {
        assert ([i] + other)[1..] == other && ([i] + path)[1..] == path;
      }
    }
  }

  lemma {:induction false} PathsOfAllMeans(store: Store, ps: seq<Property>, n: nat, left: nat, path: seq<nat>)
    requires n <= |ps|
    ensures path in PathsOfAll(store, ps, n, left) <==>
      path != [] && path[0] < n && path[1..] in Paths(store, ps[path[0]].schema, left)
  {
    if n > 0 {
      PathsOfAllMeans(store, ps, n - 1, left, path);
      var last := Paths(store, ps[n - 1].schema, left);
      if path in Through(n - 1, last) {
        var rest :| rest in last && path == [n - 1] + rest;
        assert path[1..] == rest;
      }
      if path != [] && path[0] == n - 1 && path[1..] in last {
        assert path == [n - 1] + path[1..];
      }
    }
  }

  lemma {:induction false} PathsAreShort(store: Store, s: Schema, left: nat, path: seq<nat>)
    ensures path in Paths(store, s, left) <==> IsPath(store, s, path) && |path| < left
    decreases left
  {
    if left > 0 {
      var ps := store.list(s.properties);
      PathsOfAllMeans(store, ps, |ps|, left - 1, path);
      if path != [] && path[0] < |ps| {
        PathsAreShort(store, ps[path[0]].schema, left - 1, path[1..]);
      }
    }
  }

  lemma {:induction false} OneMorePath(store: Store, s: Schema, left: nat)
    ensures |Paths(store, s, left + 1)| ==
      1 + |PathsOfAll(store, store.list(s.properties), |store.list(s.properties)|, left)|
  {
    PathsOfAllMeans(store, store.list(s.properties), |store.list(s.properties)|, left, []);
  }

  lemma {:induction false} PathsOfOneMore(store: Store, ps: seq<Property>, n: nat, left: nat)
    requires 0 < n <= |ps|
    ensures |PathsOfAll(store, ps, n, left)| == |PathsOfAll(store, ps, n - 1, left)| + |Paths(store, ps[n - 1].schema, left)|
  {
    var last := Paths(store, ps[n - 1].schema, left);
    var front := PathsOfAll(store, ps, n - 1, left);
    AsManyThrough(n - 1, last);
    forall path: seq<nat> | path in front ensures path !in Through(n - 1, last) {
      PathsOfAllMeans(store, ps, n - 1, left, path);
    }
    assert front !! Through(n - 1, last);
  }

  lemma {:induction false} OwnIsPaths(store: Store, s: Schema, left: nat)
    ensures |Paths(store, s, left)| == Own(store, s, left)
    decreases left, 0
  {
    if left > 0 {
      OneMorePath(store, s, left - 1);
      OwnIsPathsOfAll(store, store.list(s.properties), |store.list(s.properties)|, left - 1);
    }
  }

  lemma {:induction false} OwnIsPathsOfAll(store: Store, ps: seq<Property>, n: nat, left: nat)
    requires n <= |ps|
    ensures |PathsOfAll(store, ps, n, left)| == OwnAll(store, ps, n, left)
    decreases left, n
  {
    if n > 0 {
      OwnIsPathsOfAll(store, ps, n - 1, left);
      OwnIsPaths(store, ps[n - 1].schema, left);
      PathsOfOneMore(store, ps, n, left);
    }
  }

  /** What is expanded by value is one summary for each path of fewer than `left` steps from
      property to property. */
  lemma {:induction false} OwnCountsPaths(store: Store, s: Schema, left: nat)
    ensures |Paths(store, s, left)| == Own(store, s, left)
    ensures forall path :: path in Paths(store, s, left) <==> IsPath(store, s, path) && |path| < left
  {
    forall path ensures path in Paths(store, s, left) <==> IsPath(store, s, path) && |path| < left {
      PathsAreShort(store, s, left, path);
    }
    OwnIsPaths(store, s, left);
  }

  // ----- The memo ------------------------------------------------------------------------

  /** Every memoised height is the true height of what the pointer refers to. */
  ghost predicate HeightsAreTrue(store: Store, memo: map<Pointer, nat>)
  {
    forall p {:trigger HeightIsTrue(store, memo, p)} :: p in memo ==> HeightIsTrue(store, memo, p)
  }

  ghost predicate HeightIsTrue(store: Store, memo: map<Pointer, nat>, p: Pointer)
    requires p in memo
  {
    memo[p] <= MAX_DEPTH && Fits(store, store.target(p), memo[p]) && Height(store, store.target(p), memo[p]) == memo[p]
  }

  /** What is met below a memoised pointer is memoised too. */
  ghost predicate MemoIsClosed(store: Store, memo: map<Pointer, nat>)
  {
    forall p {:trigger IsClosedAt(store, memo, p)} :: p in memo ==> IsClosedAt(store, memo, p)
  }

  ghost predicate IsClosedAt(store: Store, memo: map<Pointer, nat>, p: Pointer)
    requires p in memo
  {
    Pointers(store, store.target(p), memo[p]) <= memo.Keys
  }

  /** The cost of expanding each of these pointers. */
  function Charges(store: Store, entered: seq<Pointer>): nat
  {
    if entered == [] then 0
    else Charges(store, entered[..|entered| - 1]) + Own(store, store.target(entered[|entered| - 1]), MAX_DEPTH)
  }

  lemma {:induction false} ChargesGrow(store: Store, entered: seq<Pointer>, p: Pointer)
    ensures Charges(store, entered + [p]) == Charges(store, entered) + Own(store, store.target(p), MAX_DEPTH)
  {
    assert (entered + [p])[..|entered|] == entered;
  }

  /** Every active pointer leads to `s`, in at least `least` steps. */
  ghost predicate LeadTo(store: Store, active: set<Pointer>, s: Schema, least: nat)
  {
    forall p {:trigger LeadsTo(store, p, s, least)} :: p in active ==> LeadsTo(store, p, s, least)
  }

  ghost predicate LeadsTo(store: Store, p: Pointer, s: Schema, least: nat)
  {
    exists k: nat :: k >= least && Reaches(store, store.target(p), s, k)
  }

  lemma {:induction false} LeadToChild(store: Store, active: set<Pointer>, s: Schema, child: Schema)
    requires LeadTo(store, active, s, 0) && IsChild(store, s, child)
    ensures LeadTo(store, active, child, 1) && LeadTo(store, active, child, 0)
  {
    forall p | p in active ensures LeadsTo(store, p, child, 1) && LeadsTo(store, p, child, 0) {
      assert LeadsTo(store, p, s, 0);
      var k: nat :| Reaches(store, store.target(p), s, k);
      assert Reaches(store, store.target(p), child, k + 1);
    }
  }

  lemma {:induction false} LeadToSelf(store: Store, active: set<Pointer>, p: Pointer)
    requires LeadTo(store, active, store.target(p), 1)
    ensures LeadTo(store, active + {p}, store.target(p), 0)
  {
    assert Reaches(store, store.target(p), store.target(p), 0);
    forall q | q in active + {p} ensures LeadsTo(store, q, store.target(p), 0) {
      if q in active {
        assert LeadsTo(store, q, store.target(p), 1);
      } else {
        assert LeadsTo(store, p, store.target(p), 0);
      }
    }
  }

  lemma {:induction false} ActiveMeansCycle(store: Store, active: set<Pointer>, p: Pointer, left: nat)
    requires p in active && LeadTo(store, active, store.target(p), 1)
    ensures !Fits(store, store.target(p), left)
  {
    assert LeadsTo(store, p, store.target(p), 1);
    var k: nat :| k >= 1 && Reaches(store, store.target(p), store.target(p), k);
    CyclesNeverFit(store, store.target(p), k, left);
  }

  lemma {:induction false} HeightsStayTrue(store: Store, memo: map<Pointer, nat>, p: Pointer, left: nat)
    requires HeightsAreTrue(store, memo) && left <= MAX_DEPTH && Fits(store, store.target(p), left)
    ensures HeightsAreTrue(store, memo[p := Height(store, store.target(p), left)])
  {
    var h := Height(store, store.target(p), left);
    FitsIffHeightFits(store, store.target(p), left, h);
    RoomIsIrrelevant(store, store.target(p), h, left);
    var memo' := memo[p := h];
    forall q | q in memo' ensures HeightIsTrue(store, memo', q) {
      assert q != p ==> HeightIsTrue(store, memo, q);
    }
  }

  lemma {:induction false} MemoStaysClosed(store: Store, memo: map<Pointer, nat>, p: Pointer, left: nat)
    requires MemoIsClosed(store, memo) && Fits(store, store.target(p), left)
    requires Pointers(store, store.target(p), left) <= memo.Keys
    ensures MemoIsClosed(store, memo[p := Height(store, store.target(p), left)])
  {
    var h := Height(store, store.target(p), left);
    FitsIffHeightFits(store, store.target(p), left, h);
    RoomIsIrrelevant(store, store.target(p), h, left);
    var memo' := memo[p := h];
    forall q | q in memo' ensures IsClosedAt(store, memo', q) {
      assert q != p ==> IsClosedAt(store, memo, q);
    }
  }

  /** The node counter, and the pointers entered so far. */
  datatype Account = Account(nodes: nat, entered: seq<Pointer>)

  /** From `a` to `b` the counter paid for at most `own` summaries besides the pointers entered,
      all of which are among `met`. */
  ghost predicate IsSpent(store: Store, a: Account, b: Account, own: nat, met: set<Pointer>)
  {
    && b.nodes + Charges(store, a.entered) <= a.nodes + own + Charges(store, b.entered)
    && forall p :: p in b.entered ==> p in a.entered || p in met
  }

  /** The counter paid for just that much. */
  ghost predicate IsPaid(store: Store, a: Account, b: Account, own: nat)
  {
    b.nodes + Charges(store, a.entered) == a.nodes + own + Charges(store, b.entered)
  }

  lemma {:induction false} SpentTwice(
    store: Store, a: Account, b: Account, c: Account, own: nat, met: set<Pointer>, own': nat, met': set<Pointer>)
    requires IsSpent(store, a, b, own, met) && IsSpent(store, b, c, own', met')
    ensures IsSpent(store, a, c, own + own', met + met')
    ensures IsPaid(store, a, b, own) && IsPaid(store, b, c, own') ==> IsPaid(store, a, c, own + own')
  {
  }

  lemma {:induction false} SpentLess(
    store: Store, a: Account, b: Account, own: nat, met: set<Pointer>, own': nat, met': set<Pointer>)
    requires IsSpent(store, a, b, own, met) && own <= own' && met <= met'
    ensures IsSpent(store, a, b, own', met')
  {
  }

  // ----- The node budget -----------------------------------------------------------------

  function OwnRoots(store: Store, roots: seq<Schema>, n: nat): nat
    requires n <= |roots|
  {
    if n == 0 then 0 else OwnRoots(store, roots, n - 1) + Own(store, roots[n - 1], MAX_DEPTH)
  }

  function PointersOfRoots(store: Store, roots: seq<Schema>, n: nat): set<Pointer>
    requires n <= |roots|
  {
    if n == 0 then {} else PointersOfRoots(store, roots, n - 1) + Pointers(store, roots[n - 1], MAX_DEPTH)
  }

  lemma {:induction false} FirstRootsAreFewer(store: Store, roots: seq<Schema>, m: nat, n: nat)
    requires m <= n <= |roots|
    ensures OwnRoots(store, roots, m) <= OwnRoots(store, roots, n)
    ensures PointersOfRoots(store, roots, m) <= PointersOfRoots(store, roots, n)
  {
    if m < n {
      FirstRootsAreFewer(store, roots, m, n - 1);
    }
  }

  /** Expanding every pointer of a set once. */
  ghost function CostOf(store: Store, ps: set<Pointer>): nat
  {
    if ps == {} then 0
    else var p :| p in ps; Own(store, store.target(p), MAX_DEPTH) + CostOf(store, ps - {p})
  }

  /** Which pointer is counted first does not matter. */
  lemma {:induction false} CostWithout(store: Store, ps: set<Pointer>, p: Pointer)
    requires p in ps
    ensures CostOf(store, ps) == Own(store, store.target(p), MAX_DEPTH) + CostOf(store, ps - {p})
    decreases ps
  {
    var q :| q in ps && CostOf(store, ps) == Own(store, store.target(q), MAX_DEPTH) + CostOf(store, ps - {q});
    if p != q {
      CostWithout(store, ps - {q}, p);
      CostWithout(store, ps - {p}, q);
      assert ps - {q} - {p} == ps - {p} - {q};
    }
  }

  /** Pointers entered without repetition cost no more than a set that holds them, and the
      same when they are all of it. */
  lemma {:induction false} EnteredCost(store: Store, entered: seq<Pointer>, ps: set<Pointer>)
    requires Distinct(entered) && forall p :: p in entered ==> p in ps
    ensures Charges(store, entered) <= CostOf(store, ps)
    ensures (forall p :: p in ps ==> p in entered) ==> Charges(store, entered) == CostOf(store, ps)
  {
    if entered == [] {
      assert (forall p :: p in ps ==> p in entered) ==> ps == {};
    } else {
      var n := |entered| - 1;
      var front, p := entered[..n], entered[n];
      assert p in entered;
      assert entered == front + [p];
      CostWithout(store, ps, p);
      EnteredCost(store, front, ps - {p});
    }
  }

  /** What the roots cost: every summary expanded by value, and each pointer met once. */
  ghost function Total(store: Store, roots: seq<Schema>): nat
  {
    OwnRoots(store, roots, |roots|) + CostOf(store, PointersOfRoots(store, roots, |roots|))
  }

  ghost predicate AllBounded(store: Store, roots: seq<Schema>, n: nat)
    requires n <= |roots|
  {
    forall i :: 0 <= i < n ==> Bounded(store, roots[i], MAX_DEPTH)
  }

  // ----- The validator -------------------------------------------------------------------

  lemma {:induction false} SpentNothing(store: Store, a: Account)
    ensures IsSpent(store, a, a, 0, {}) && IsPaid(store, a, a, 0)
    ensures IsSpent(store, a, a.(nodes := a.nodes + 1), 1, {}) && IsPaid(store, a, a.(nodes := a.nodes + 1), 1)
  {
  }

  /** A summary is counted before its children are. */
  lemma {:induction false} SpentOneMore(store: Store, a: Account, b: Account, own: nat, met: set<Pointer>)
    requires own > 0 && IsSpent(store, a.(nodes := a.nodes + 1), b, own - 1, met)
    ensures IsSpent(store, a, b, own, met)
    ensures IsPaid(store, a.(nodes := a.nodes + 1), b, own - 1) ==> IsPaid(store, a, b, own)
  {
  }

  /** One property that fails is enough. */
  lemma {:induction false} OneFails(store: Store, ps: seq<Property>, i: nat, left: nat)
    requires i < |ps| && !(store.canonical(ps[i].name, false) && Fits(store, ps[i].schema, left))
    ensures !AllFit(store, ps, |ps|, left)
  {
    AllFitMeans(store, ps, |ps|, left);
  }

  /** Entering a pointer pays for what its summary costs. */
  lemma {:induction false} SpentBelow(
    store: Store, a: Account, b: Account, c: Account, p: Pointer, left: nat, met: set<Pointer>)
    requires b == Account(a.nodes, a.entered + [p]) && left <= MAX_DEPTH
    requires IsSpent(store, b, c, Own(store, store.target(p), left), met)
    ensures IsSpent(store, a, c, 0, {p} + met)
    ensures Fits(store, store.target(p), left) && IsPaid(store, b, c, Own(store, store.target(p), left)) ==>
      IsPaid(store, a, c, 0)
  {
    ChargesGrow(store, a.entered, p);
    OwnGrows(store, store.target(p), left, MAX_DEPTH);
    if Fits(store, store.target(p), left) {
      RoomIsIrrelevant(store, store.target(p), left, MAX_DEPTH);
    }
  }

  /** The properties of a summary first, then its items. */
  lemma {:induction false} SpentOnChildren(store: Store, s: Schema, left: nat, a: Account, b: Account, c: Account)
    requires var ps := store.list(s.properties);
      IsSpent(store, a, b, OwnAll(store, ps, |ps|, left), PointersOfAll(store, ps, |ps|, left))
    requires if s.items.Some? then IsSpent(store, b, c, 0, PointersFrom(store, s.items.value, left)) else b == c
    ensures IsSpent(store, a, c, Own(store, s, left + 1) - 1, Pointers(store, s, left + 1))
    ensures var ps := store.list(s.properties);
      IsPaid(store, a, b, OwnAll(store, ps, |ps|, left)) && (s.items.Some? ==> IsPaid(store, b, c, 0)) ==>
        IsPaid(store, a, c, Own(store, s, left + 1) - 1)
  {
  }

  /** One property after those before it. */
  lemma {:induction false} SpentOnNext(
    store: Store, ps: seq<Property>, i: nat, left: nat, a: Account, b: Account, c: Account, keys: set<Pointer>)
    requires i < |ps| && IsSpent(store, a, b, OwnAll(store, ps, i, left), PointersOfAll(store, ps, i, left))
    requires IsSpent(store, b, c, Own(store, ps[i].schema, left), Pointers(store, ps[i].schema, left))
    ensures IsSpent(store, a, c, OwnAll(store, ps, i + 1, left), PointersOfAll(store, ps, i + 1, left))
    ensures IsSpent(store, a, c, OwnAll(store, ps, |ps|, left), PointersOfAll(store, ps, |ps|, left))
    ensures IsPaid(store, a, b, OwnAll(store, ps, i, left)) && IsPaid(store, b, c, Own(store, ps[i].schema, left)) ==>
      IsPaid(store, a, c, OwnAll(store, ps, i + 1, left))
    ensures PointersOfAll(store, ps, i, left) <= keys && Pointers(store, ps[i].schema, left) <= keys ==>
      PointersOfAll(store, ps, i + 1, left) <= keys
  {
    FirstAreFewer(store, ps, i + 1, |ps|, left);
  }

  lemma {:induction false} SpentEarly(store: Store, s: Schema, left: nat, a: Account, b: Account)
    requires var ps := store.list(s.properties);
      IsSpent(store, a, b, OwnAll(store, ps, |ps|, left), PointersOfAll(store, ps, |ps|, left))
    ensures IsSpent(store, a, b, Own(store, s, left + 1) - 1, Pointers(store, s, left + 1))
  {
  }

  lemma {:induction false} MetAmongChildren(store: Store, s: Schema, left: nat, keys: set<Pointer>)
    requires PointersOfAll(store, store.list(s.properties), |store.list(s.properties)|, left) <= keys
    requires s.items.Some? ==> PointersFrom(store, s.items.value, left) <= keys
    ensures Pointers(store, s, left + 1) <= keys
  {
  }

  class Validator {
    const store: Store
    const limited: bool
    var active: set<Pointer>
    var memoHeight: map<Pointer, nat>
    var nodes: nat

    /** The pointers whose summaries were expanded, in order. */
    ghost var entered: seq<Pointer>

    ghost predicate Valid()
      reads this
    {
      && HeightsAreTrue(store, memoHeight) && MemoIsClosed(store, memoHeight)
      && Distinct(entered)
      && (forall p :: p in memoHeight || p in active ==> p in entered)
    }

    /** Every pointer entered so far is finished or being expanded. */
    ghost predicate Settled()
      reads this
    {
      forall p :: p in entered ==> p in memoHeight || p in active
    }

    /** The node budget is spent. */
    predicate Exhausted()
      reads this
    {
      limited && nodes > MAX_NODES
    }

    ghost function Spending(): Account
      reads this
    {
      Account(nodes, entered)
    }

    /** What has been paid for since `a`. */
    ghost predicate Spent(a: Account, own: nat, met: set<Pointer>)
      reads this
    {
      IsSpent(store, a, Spending(), own, met)
    }

    /** It has been paid in full, and everything in `met` is finished. */
    ghost predicate Paid(a: Account, own: nat, met: set<Pointer>)
      reads this
    {
      IsPaid(store, a, Spending(), own) && met <= memoHeight.Keys && Settled() && !Exhausted()
    }

    /** Nothing memoised is forgotten. */
    ghost predicate Grown(memoThen: map<Pointer, nat>)
      reads this
    {
      memoThen.Keys <= memoHeight.Keys
    }

    constructor (store: Store, limited: bool)
      ensures Valid() && Settled() && this.store == store && this.limited == limited
      ensures active == {} && memoHeight == map[] && nodes == 0 && entered == []
    {
      this.store, this.limited := store, limited;
      active, memoHeight, nodes, entered := {}, map[], 0, [];
    }

    /** Height and verdict are those of the tree walk, unless the node budget ran out. Whatever
        the verdict, no summary is charged twice; on success every one is charged. */
    method ValidateValue(s: Schema, depth: nat) returns (ok: bool, height: nat)
      requires Valid() && Settled() && !Exhausted()
      requires 1 <= depth <= MAX_DEPTH + 1 && LeadTo(store, active, s, 0)
      modifies this
      ensures Valid() && active == old(active) && Grown(old(memoHeight))
      ensures var left := MAX_DEPTH + 1 - depth;
        && Spent(old(Spending()), Own(store, s, left), Pointers(store, s, left))
        && (ok ==> Paid(old(Spending()), Own(store, s, left), Pointers(store, s, left)))
        && (ok ==> Fits(store, s, left) && height == Height(store, s, left))
        && (!ok && !Exhausted() ==> !Fits(store, s, left))
      decreases MAX_DEPTH + 1 - depth, 1, 0
    {
      height := 0;
      ghost var start, left := Spending(), MAX_DEPTH + 1 - depth;
      SpentNothing(store, start);
      if depth > MAX_DEPTH {
        return false, 0;
      }
      nodes := nodes + 1;
      SpentNothing(store, Spending());
      if Exhausted() || !NamesAreCanonical(store, s) {
        SpentLess(store, Spending(), Spending(), 0, {}, Own(store, s, left) - 1, Pointers(store, s, left));
        ok := false;
      } else {
        ok, height := ValidateChildren(s, depth);
      }
      SpentOneMore(store, start, Spending(), Own(store, s, left), Pointers(store, s, left));
    }

    /** Lines 370-393: properties, then items. */
    method ValidateChildren(s: Schema, depth: nat) returns (ok: bool, height: nat)
      requires Valid() && Settled() && !Exhausted() && NamesAreCanonical(store, s)
      requires 1 <= depth <= MAX_DEPTH && LeadTo(store, active, s, 0)
      modifies this
      ensures Valid() && active == old(active) && Grown(old(memoHeight))
      ensures var left := MAX_DEPTH + 1 - depth;
        && Spent(old(Spending()), Own(store, s, left) - 1, Pointers(store, s, left))
        && (ok ==> Paid(old(Spending()), Own(store, s, left) - 1, Pointers(store, s, left)))
        && (ok ==> Fits(store, s, left) && height == Height(store, s, left))
        && (!ok && !Exhausted() ==> !Fits(store, s, left))
      decreases MAX_DEPTH + 1 - depth, 0, 1
    {
      ghost var start, left := Spending(), MAX_DEPTH - depth;
      var wide;
      ok, wide := ValidateProperties(s, depth);
      ghost var before := Spending();
      if !ok {
        SpentEarly(store, s, left, start, before);
        return false, 0;
      }
      height := 1 + wide;
      if s.items.Some? {
        LeadToChild(store, active, s, store.target(s.items.value));
        var itemsHeight;
        ok, itemsHeight := ValidatePointer(s.items.value, depth + 1);
        height := if 1 + itemsHeight > height then 1 + itemsHeight else height;
      }
      SpentOnChildren(store, s, left, start, before, Spending());
      if !ok {
        return false, 0;
      }
      MetAmongChildren(store, s, left, memoHeight.Keys);
    }

    /** `validateRoot`, with the verdict in terms of paths. */
    method ValidateRoot(s: Schema) returns (ok: bool)
      requires Valid() && Settled() && active == {} && !Exhausted()
      modifies this
      ensures Valid() && active == {} && Grown(old(memoHeight))
      ensures Spent(old(Spending()), Own(store, s, MAX_DEPTH), Pointers(store, s, MAX_DEPTH))
      ensures ok ==> Paid(old(Spending()), Own(store, s, MAX_DEPTH), Pointers(store, s, MAX_DEPTH))
      ensures ok ==> Bounded(store, s, MAX_DEPTH)
      ensures !ok && !Exhausted() ==> !Bounded(store, s, MAX_DEPTH)
    {
      FitsIffBounded(store, s, MAX_DEPTH);
      var height;
      ok, height := ValidateValue(s, 1);
    }

    method ValidateProperties(s: Schema, depth: nat) returns (ok: bool, wide: nat)
      requires Valid() && Settled() && !Exhausted()
      requires 1 <= depth <= MAX_DEPTH && LeadTo(store, active, s, 0)
      modifies this
      ensures Valid() && active == old(active) && Grown(old(memoHeight))
      ensures var ps, left := store.list(s.properties), MAX_DEPTH - depth;
        && Spent(old(Spending()), OwnAll(store, ps, |ps|, left), PointersOfAll(store, ps, |ps|, left))
        && (ok ==> Paid(old(Spending()), OwnAll(store, ps, |ps|, left), PointersOfAll(store, ps, |ps|, left)))
        && (ok ==> AllFit(store, ps, |ps|, left) && wide == Tallest(store, ps, |ps|, left))
        && (!ok && !Exhausted() ==> !AllFit(store, ps, |ps|, left))
      decreases MAX_DEPTH + 1 - depth, 0, 0
    {
      var ps := store.list(s.properties);
      ghost var start, left := Spending(), MAX_DEPTH - depth;
      SpentNothing(store, start);
      wide := 0;
      for i := 0 to |ps|
        invariant Valid() && active == old(active) && Grown(old(memoHeight))
        invariant Spent(start, OwnAll(store, ps, i, left), PointersOfAll(store, ps, i, left))
        invariant Paid(start, OwnAll(store, ps, i, left), PointersOfAll(store, ps, i, left))
        invariant AllFit(store, ps, i, left) && wide == Tallest(store, ps, i, left)
      {
        var fine, propertyHeight := ValidateNextProperty(s, i, depth, start);
        if !fine {
          if !Exhausted() {
            OneFails(store, ps, i, left);
          }
          return false, 0;
        }
        if propertyHeight > wide {
          wide := propertyHeight;
        }
      }
      ok := true;
    }

    method ValidateAll(roots: seq<Schema>) returns (ok: bool)
      requires Valid() && Settled() && active == {} && !Exhausted()
      modifies this
      ensures Valid() && active == {}
      ensures Spent(old(Spending()), OwnRoots(store, roots, |roots|), PointersOfRoots(store, roots, |roots|))
      ensures ok ==> Paid(old(Spending()), OwnRoots(store, roots, |roots|), PointersOfRoots(store, roots, |roots|))
      ensures ok ==> AllBounded(store, roots, |roots|)
      ensures !ok && !Exhausted() ==> !AllBounded(store, roots, |roots|)
    {
      ghost var start := Spending();
      for i := 0 to |roots|
        invariant Valid() && active == {}
        invariant Spent(start, OwnRoots(store, roots, i), PointersOfRoots(store, roots, i))
        invariant Paid(start, OwnRoots(store, roots, i), PointersOfRoots(store, roots, i))
        invariant AllBounded(store, roots, i)
      {
        ok := ValidateNext(roots, i, start);
        if !ok {
          return;
        }
      }
      ok := true;
    }

    method ValidateNext(roots: seq<Schema>, i: nat, ghost start: Account) returns (ok: bool)
      requires Valid() && active == {} && i < |roots|
      requires Spent(start, OwnRoots(store, roots, i), PointersOfRoots(store, roots, i))
      requires Paid(start, OwnRoots(store, roots, i), PointersOfRoots(store, roots, i))
      modifies this
      ensures Valid() && active == {}
      ensures Spent(start, OwnRoots(store, roots, |roots|), PointersOfRoots(store, roots, |roots|))
      ensures ok ==> Spent(start, OwnRoots(store, roots, i + 1), PointersOfRoots(store, roots, i + 1))
      ensures ok ==> Paid(start, OwnRoots(store, roots, i + 1), PointersOfRoots(store, roots, i + 1))
      ensures ok ==> Bounded(store, roots[i], MAX_DEPTH)
      ensures !ok && !Exhausted() ==> !Bounded(store, roots[i], MAX_DEPTH)
    {
      ghost var before := Spending();
      ghost var own, met := OwnRoots(store, roots, i), PointersOfRoots(store, roots, i);
      ok := ValidateRoot(roots[i]);
      SpentTwice(store, start, before, Spending(), own, met,
        Own(store, roots[i], MAX_DEPTH), Pointers(store, roots[i], MAX_DEPTH));
      FirstRootsAreFewer(store, roots, i + 1, |roots|);
      SpentLess(store, start, Spending(), OwnRoots(store, roots, i + 1), PointersOfRoots(store, roots, i + 1),
        OwnRoots(store, roots, |roots|), PointersOfRoots(store, roots, |roots|));
    }

    method ValidateNextProperty(s: Schema, i: nat, depth: nat, ghost start: Account) returns (ok: bool, height: nat)
      requires Valid() && 1 <= depth <= MAX_DEPTH && LeadTo(store, active, s, 0) && i < |store.list(s.properties)|
      requires var ps, left := store.list(s.properties), MAX_DEPTH - depth;
        && Spent(start, OwnAll(store, ps, i, left), PointersOfAll(store, ps, i, left))
        && Paid(start, OwnAll(store, ps, i, left), PointersOfAll(store, ps, i, left))
      modifies this
      ensures Valid() && active == old(active) && Grown(old(memoHeight))
      ensures var ps, left := store.list(s.properties), MAX_DEPTH - depth;
        && Spent(start, OwnAll(store, ps, |ps|, left), PointersOfAll(store, ps, |ps|, left))
        && (ok ==> Spent(start, OwnAll(store, ps, i + 1, left), PointersOfAll(store, ps, i + 1, left)))
        && (ok ==> Paid(start, OwnAll(store, ps, i + 1, left), PointersOfAll(store, ps, i + 1, left)))
        && (ok ==> store.canonical(ps[i].name, false))
        && (ok ==> Fits(store, ps[i].schema, left) && height == Height(store, ps[i].schema, left))
        && (!ok && !Exhausted() ==> !(store.canonical(ps[i].name, false) && Fits(store, ps[i].schema, left)))
      decreases MAX_DEPTH - depth, 2, 1
    {
      ghost var before := Spending();
      ok, height := ValidateProperty(s, i, depth);
      SpentOnNext(store, store.list(s.properties), i, MAX_DEPTH - depth, start, before, Spending(), memoHeight.Keys);
    }

    /** Lines 373-379: one property. */
    method ValidateProperty(s: Schema, i: nat, depth: nat) returns (ok: bool, height: nat)
      requires Valid() && Settled() && !Exhausted()
      requires 1 <= depth <= MAX_DEPTH && LeadTo(store, active, s, 0) && i < |store.list(s.properties)|
      modifies this
      ensures Valid() && active == old(active) && Grown(old(memoHeight))
      ensures var p, left := store.list(s.properties)[i], MAX_DEPTH - depth;
        && Spent(old(Spending()), Own(store, p.schema, left), Pointers(store, p.schema, left))
        && (ok ==> Paid(old(Spending()), Own(store, p.schema, left), Pointers(store, p.schema, left)))
        && (ok ==> store.canonical(p.name, false))
        && (ok ==> Fits(store, p.schema, left) && height == Height(store, p.schema, left))
        && (!ok && !Exhausted() ==> !(store.canonical(p.name, false) && Fits(store, p.schema, left)))
      decreases MAX_DEPTH - depth, 2, 0
    {
      var p := store.list(s.properties)[i];
      if !store.canonical(p.name, false) {
        return false, 0;
      }
      LeadToChild(store, active, s, p.schema);
      ok, height := ValidateValue(p.schema, depth + 1);
    }

    method ValidatePointer(p: Pointer, depth: nat) returns (ok: bool, height: nat)
      requires Valid() && Settled() && !Exhausted()
      requires 1 <= depth <= MAX_DEPTH + 1 && LeadTo(store, active, store.target(p), 1)
      modifies this
      ensures Valid() && active == old(active) && Grown(old(memoHeight))
      ensures var left := MAX_DEPTH + 1 - depth;
        && Spent(old(Spending()), 0, PointersFrom(store, p, left))
        && (ok ==> Paid(old(Spending()), 0, PointersFrom(store, p, left)))
        && (ok ==> Fits(store, store.target(p), left) && height == Height(store, store.target(p), left))
        && (!ok && !Exhausted() ==> !Fits(store, store.target(p), left))
      decreases MAX_DEPTH + 1 - depth, 3, 0
    {
      ghost var left: nat := MAX_DEPTH + 1 - depth;
      if p in active {
        ActiveMeansCycle(store, active, p, left);
        return false, 0;
      }
      if p in memoHeight {
        height := memoHeight[p];
        assert HeightIsTrue(store, memoHeight, p) && IsClosedAt(store, memoHeight, p);
        FitsIffHeightFits(store, store.target(p), height, left);
        if depth + height - 1 > MAX_DEPTH {
          return false, 0;
        }
        RoomIsIrrelevant(store, store.target(p), height, left);
        return true, height;
      }
      ok, height := Expand(p, depth);
    }

    /** Lines 414-421: the first visit of a pointer. */
    method Expand(p: Pointer, depth: nat) returns (ok: bool, height: nat)
      requires Valid() && Settled() && !Exhausted() && p !in active && p !in memoHeight
      requires 1 <= depth <= MAX_DEPTH + 1 && LeadTo(store, active, store.target(p), 1)
      modifies this
      ensures Valid() && active == old(active) && Grown(old(memoHeight))
      ensures var left := MAX_DEPTH + 1 - depth;
        && Spent(old(Spending()), 0, PointersFrom(store, p, left))
        && (ok ==> Paid(old(Spending()), 0, PointersFrom(store, p, left)))
        && (ok ==> Fits(store, store.target(p), left) && height == Height(store, store.target(p), left))
        && (!ok && !Exhausted() ==> !Fits(store, store.target(p), left))
      decreases MAX_DEPTH + 1 - depth, 2, 0
    {
      ghost var start := Spending();
      Enter(p);
      ok, height := Visit(p, depth, start);
      Finish(p, ok, height, MAX_DEPTH + 1 - depth);
      if !ok {
        return false, 0;
      }
    }

    method Visit(p: Pointer, depth: nat, ghost start: Account) returns (ok: bool, height: nat)
      requires Valid() && Settled() && !Exhausted() && Spending() == Account(start.nodes, start.entered + [p])
      requires 1 <= depth <= MAX_DEPTH + 1 && LeadTo(store, active, store.target(p), 0)
      modifies this
      ensures Valid() && active == old(active) && Grown(old(memoHeight)) && p in entered
      ensures var left := MAX_DEPTH + 1 - depth;
        && Spent(start, 0, PointersFrom(store, p, left))
        && (ok ==> Paid(start, 0, Pointers(store, store.target(p), left)))
        && (ok ==> Fits(store, store.target(p), left) && height == Height(store, store.target(p), left))
        && (!ok && !Exhausted() ==> !Fits(store, store.target(p), left))
      decreases MAX_DEPTH + 1 - depth, 1, 1
    {
      ghost var below, left := Spending(), MAX_DEPTH + 1 - depth;
      ok, height := ValidateValue(store.target(p), depth);
      SpentBelow(store, start, below, Spending(), p, left, Pointers(store, store.target(p), left));
    }

    method Enter(p: Pointer)
      requires Valid() && Settled() && p !in active && p !in memoHeight
      requires LeadTo(store, active, store.target(p), 1)
      modifies this`active, this`entered
      ensures Valid() && Settled() && active == old(active) + {p} && entered == old(entered) + [p]
      ensures LeadTo(store, active, store.target(p), 0)
      ensures Charges(store, entered) == Charges(store, old(entered)) + Own(store, store.target(p), MAX_DEPTH)
    {
      LeadToSelf(store, active, p);
      ChargesGrow(store, entered, p);
      DistinctGrows(entered, p);
      entered := entered + [p];
      active := active + {p};
    }

    /** Lines 417-421: `p` is no longer active and, if it was accepted, memoised. */
    method Finish(p: Pointer, ok: bool, height: nat, ghost left: nat)
      requires Valid() && left <= MAX_DEPTH && p in entered
      requires ok ==> Fits(store, store.target(p), left) && height == Height(store, store.target(p), left)
      requires ok ==> Pointers(store, store.target(p), left) <= memoHeight.Keys && Settled()
      modifies this`memoHeight, this`active
      ensures Valid() && active == old(active) - {p} && (ok ==> Settled())
      ensures memoHeight == if ok then old(memoHeight)[p := height] else old(memoHeight)
    {
      active := active - {p};
      if ok {
        HeightsStayTrue(store, memoHeight, p, left);
        MemoStaysClosed(store, memoHeight, p, left);
        memoHeight := memoHeight[p := height];
      }
    }
  }

  /** `validateSpecIndexSchemaSummaries`: one validator, and so one memo, for all the roots.
      It accepts exactly when every path from every root has fewer than 64 steps and meets only
      canonical names and, under the node budget, when what the roots cost together is within
      it. The cost is that of the summaries expanded by value and, once each, of those that
      pointers share. */
  method ValidateRoots(store: Store, roots: seq<Schema>, limited: bool) returns (ok: bool, v: Validator)
    ensures fresh(v) && v.store == store && v.limited == limited && v.Valid()
    ensures ok <==> AllBounded(store, roots, |roots|) && (limited ==> Total(store, roots) <= MAX_NODES)
    ensures v.nodes <= Total(store, roots)
    ensures ok ==> v.active == {} && v.nodes == Total(store, roots)
  {
    v := new Validator(store, limited);
    ok := v.ValidateAll(roots);
    EnteredCost(store, v.entered, PointersOfRoots(store, roots, |roots|));
  }
}
