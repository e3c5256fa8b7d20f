/** Reviews of domain/review.go: policies are brought into a canonical form and projected into
    the report, and a report can be checked again from its own projection. */
module Review {
  import opened Wrappers
  import opened Ordering
  import opened SpecDiff
  import opened Policy

  const SCHEMA_VERSION := "manja.review/v1"
  const PULL_REQUEST := "pull_request_delta"
  const RELEASE_IMPACT := "release_impact"

  datatype SnapshotRef = SnapshotRef(revision: string, specDigest: string, contractDigest: string)

  datatype Comparison = Comparison(
    kind: string, baseline: SnapshotRef, candidate: SnapshotRef, findings: seq<Change>, policy: PolicyResult)

  datatype RuleEntry = RuleEntry(rule: string, level: string)

  datatype LayerProjection = LayerProjection(
    name: string, source: string, requireBaseline: bool, rules: seq<RuleEntry>, exceptions: seq<Exception>)

  datatype Projection = Projection(requireBaseline: bool, layers: seq<LayerProjection>)

  datatype Report = Report(
    schemaVersion: string, engine: string, contract: string, evaluatedAt: int, policy: Projection,
    policyDigest: string, verdict: Verdict, comparisons: seq<Comparison>)

  datatype Request = Request(
    contract: string, target: Snapshot, candidate: Snapshot, release: Option<Snapshot>, policy: EffectivePolicy,
    evaluatedAt: int, engine: string)

  /** What the engine is built on: the texts of changes, the rules of policies, the validation
      of snapshots, the encoding of a projected layer and the digest of a projected policy. */
  datatype Engine = Engine(
    text: Text, rules: Rules, isSnapshot: Snapshot -> bool, encode: LayerProjection -> string, digest: Projection -> string)

  ghost predicate Sound(engine: Engine)
  {
    && Fair(engine.rules)
    && (forall a, b :: engine.encode(a) == engine.encode(b) ==> a == b)
    && (forall p :: engine.rules.isDigest(engine.digest(p)))
    && (forall s :: engine.isSnapshot(s) ==> IsRefOf(engine, RefOf(s)))
  }

  function RefOf(s: Snapshot): SnapshotRef
  {
    SnapshotRef(s.revision, s.specDigest, s.contractDigest)
  }

  /** `validateSnapshotRef`. */
  predicate IsRefOf(engine: Engine, r: SnapshotRef)
  {
    engine.rules.identity(r.revision, false) && engine.rules.isDigest(r.specDigest) && engine.rules.isDigest(r.contractDigest)
  }

  // ----- Projection and back -------------------------------------------------------------

  function Entries(rules: map<string, string>): (es: seq<RuleEntry>)
    ensures |es| == |Listing(rules.Keys)|
    ensures forall i :: 0 <= i < |es| ==>
      Listing(rules.Keys)[i] in rules && es[i] == RuleEntry(Listing(rules.Keys)[i], rules[Listing(rules.Keys)[i]])
  {
    var ids := Listing(rules.Keys);
    assert forall i :: 0 <= i < |ids| ==> ids[i] in rules.Keys;
    seq(|ids|, i requires 0 <= i < |ids| => RuleEntry(ids[i], rules[ids[i]]))
  }

  function ProjectLayer(rules: Rules, l: Layer): LayerProjection
  {
    LayerProjection(l.name, l.source, l.requireBaseline, Entries(l.rules), SortedExceptions(rules, l.exceptions))
  }

  predicate NoRuleTwice(es: seq<RuleEntry>)
  {
    forall i, j :: 0 <= i < j < |es| ==> es[i].rule != es[j].rule
  }

  function Table(es: seq<RuleEntry>, n: nat): map<string, string>
    requires n <= |es|
  {
    if n == 0 then map[] else Table(es, n - 1)[es[n - 1].rule := es[n - 1].level]
  }

  function UnprojectLayer(p: LayerProjection): Layer
  {
    Layer(p.name, p.source, p.requireBaseline, Table(p.rules, |p.rules|), p.exceptions)
  }

  lemma {:induction false} TableOfEntries(rules: map<string, string>, es: seq<RuleEntry>, n: nat)
    requires n <= |es| && forall i :: 0 <= i < |es| ==> es[i].rule in rules && es[i].level == rules[es[i].rule]
    ensures forall i :: 0 <= i < n ==> es[i].rule in Table(es, n)
    ensures forall r :: r in Table(es, n) ==> r in rules && Table(es, n)[r] == rules[r]
  {
    if n > 0 {
      TableOfEntries(rules, es, n - 1);
    }
  }

  /** The rules of a layer survive the way into the report and back, and are listed once. */
  lemma {:induction false} EntriesKeepRules(rules: map<string, string>)
    ensures NoRuleTwice(Entries(rules)) && Table(Entries(rules), |Entries(rules)|) == rules
  {
    var ids, es := Listing(rules.Keys), Entries(rules);
    TableOfEntries(rules, es, |es|);
    ListingIsSorted(rules.Keys);
    forall r | r in rules ensures r in Table(es, |es|) {
      var i := PlaceOf(r, ids);
      assert es[i].rule == r;
    }
  }

  /** Exceptions in canonical order. */
  ghost predicate IsTidy(rules: Rules, l: Layer)
  {
    l.exceptions == SortedExceptions(rules, l.exceptions)
  }

  lemma {:induction false} ProjectionKeepsLayer(rules: Rules, l: Layer)
    requires IsTidy(rules, l)
    ensures NoRuleTwice(ProjectLayer(rules, l).rules) && UnprojectLayer(ProjectLayer(rules, l)) == l
  {
    EntriesKeepRules(l.rules);
  }

  // ----- The canonical form --------------------------------------------------------------

  function TidyLayer(rules: Rules): Layer -> Layer
  {
    (l: Layer) => l.(exceptions := SortedExceptions(rules, l.exceptions))
  }

  function RankText(source: string): string
  {
    if source == REPOSITORY then "0" else "1"
  }

  /** The fields by which layers are sorted. */
  function LayerKey(engine: Engine): Layer -> seq<string>
  {
    (l: Layer) => [RankText(l.source), l.name, engine.encode(ProjectLayer(engine.rules, l))]
  }

  /** `canonicalReviewPolicy`: the policy. */
  function Canonical(engine: Engine, p: EffectivePolicy): EffectivePolicy
  {
    EffectivePolicy(Sort(By(LayerKey(engine)), Mapped(TidyLayer(engine.rules), p.layers)), p.requireBaseline)
  }

  function Projector(rules: Rules): Layer -> LayerProjection
  {
    l => ProjectLayer(rules, l)
  }

  /** `canonicalReviewPolicy`: its projection. */
  function Project(engine: Engine, p: EffectivePolicy): Projection
  {
    Projection(p.requireBaseline, Mapped(Projector(engine.rules), p.layers))
  }

  lemma {:induction false} TidyIsTidy(rules: Rules, l: Layer)
    requires Fair(rules)
    ensures IsTidy(rules, TidyLayer(rules)(l))
    ensures multiset(TidyLayer(rules)(l).exceptions) == multiset(l.exceptions)
  {
    ExceptionsAreTold(rules, l.exceptions);
    SortTwice(ExceptionKey(rules), l.exceptions);
  }

  /** Tidy layers are not tied unless they are equal. */
  lemma {:induction false} LayersAreTold(engine: Engine, ls: seq<Layer>)
    requires Sound(engine) && forall l :: l in ls ==> IsTidy(engine.rules, l)
    ensures Told(LayerKey(engine), ls)
  {
    var key := LayerKey(engine);
    forall i, j | 0 <= i < |ls| && 0 <= j < |ls| && key(ls[i]) == key(ls[j]) ensures ls[i] == ls[j] {
      assert ls[i] in ls && ls[j] in ls;
      assert key(ls[i])[2] == key(ls[j])[2];
      ProjectionKeepsLayer(engine.rules, ls[i]);
      ProjectionKeepsLayer(engine.rules, ls[j]);
    }
  }

  lemma {:induction false} TidiedLayers(engine: Engine, ls: seq<Layer>)
    requires Sound(engine)
    ensures forall l :: l in Mapped(TidyLayer(engine.rules), ls) ==> IsTidy(engine.rules, l)
    ensures Told(LayerKey(engine), Mapped(TidyLayer(engine.rules), ls))
  {
    var tidied := Mapped(TidyLayer(engine.rules), ls);
    forall l | l in tidied ensures IsTidy(engine.rules, l) {
      var i :| 0 <= i < |tidied| && tidied[i] == l;
      TidyIsTidy(engine.rules, ls[i]);
    }
    LayersAreTold(engine, tidied);
  }

  /** The order in which layers come does not matter. */
  lemma {:induction false} CanonicalIgnoresOrder(engine: Engine, p: EffectivePolicy, q: EffectivePolicy)
    requires Sound(engine) && multiset(p.layers) == multiset(q.layers) && p.requireBaseline == q.requireBaseline
    ensures Canonical(engine, p) == Canonical(engine, q)
  {
    var f := TidyLayer(engine.rules);
    TidiedLayers(engine, p.layers);
    MappedCount(f, p.layers, q.layers);
    SortIgnoresOrder(LayerKey(engine), Mapped(f, p.layers), Mapped(f, q.layers));
  }

  // ----- Canonical policies merge into themselves ----------------------------------------

  /** One repository layer, which comes first; only server layers after it. */
  ghost predicate HasShape(ls: seq<Layer>)
  {
    ls != [] && ls[0].source == REPOSITORY && forall i :: 0 < i < |ls| ==> ls[i].source == SERVER
  }

  lemma {:induction false} ServerSortsAfter(engine: Engine, a: Layer, b: Layer)
    requires a.source == SERVER && b.source == REPOSITORY
    ensures !By(LayerKey(engine))(a, b)
  {
    var x, y := LayerKey(engine)(a), LayerKey(engine)(b);
    assert |SERVER| != |REPOSITORY|;
    assert RankText(a.source) == "1" && RankText(b.source) == "0";
    assert x == [RankText(a.source), a.name, engine.encode(ProjectLayer(engine.rules, a))];
    assert y == [RankText(b.source), b.name, engine.encode(ProjectLayer(engine.rules, b))];
    assert !LexLe("1", "0");
  }

  lemma {:induction false} RepositorySortsFirst(engine: Engine, ls: seq<Layer>, sorted: seq<Layer>)
    requires HasShape(ls) && multiset(sorted) == multiset(ls) && SortedBy(By(LayerKey(engine)), sorted)
    ensures HasShape(sorted) && sorted[0] == ls[0]
  {
    SameLength(ls, sorted);
    assert ls[0] in multiset(sorted) && sorted[0] in multiset(ls);
    var k := PlaceOf(ls[0], sorted);
    var j := PlaceOf(sorted[0], ls);
    assert |SERVER| != |REPOSITORY|;
    if j > 0 {
      ServerSortsAfter(engine, sorted[0], sorted[k]);
    }
    OneRepository(ls);
    forall i | 0 < i < |sorted| ensures sorted[i].source == SERVER {
      assert sorted[i] in multiset(ls);
      var h := PlaceOf(sorted[i], ls);
      if h == 0 {
        DuplicateCount(sorted, 0, i);
      }
    }
  }

  lemma {:induction false} OneRepository(ls: seq<Layer>)
    requires HasShape(ls)
    ensures multiset(ls)[ls[0]] == 1
  {
    TailMultiset(ls);
    assert |SERVER| != |REPOSITORY|;
    assert forall l :: l in ls[1..] ==> l.source == SERVER;
    assert ls[0] !in multiset(ls[1..]);
    assert ls == [ls[0]] + ls[1..];
  }

  lemma {:induction false} TidyKeepsLayer(rules: Rules, l: Layer)
    requires IsLayer(rules, l)
    ensures IsLayer(rules, TidyLayer(rules)(l))
  {
    var t := TidyLayer(rules)(l);
    forall e | e in t.exceptions ensures e in l.exceptions {
      assert e in multiset(l.exceptions);
    }
  }

  lemma {:induction false} MergedHasShape(rules: Rules, layers: seq<Layer>)
    requires CanMerge(rules, layers)
    ensures HasShape(Merged(rules, layers).layers) && HasShape(Mapped(TidyLayer(rules), Merged(rules, layers).layers))
  {
    var m := Merged(rules, layers).layers;
    assert forall i :: 0 < i < |layers| ==> m[i] == layers[i];
  }

  /** What came out of a merge, canonical or not, can be merged again, and stays as it is. */
  ghost predicate IsSettled(rules: Rules, p: EffectivePolicy)
  {
    CanMerge(rules, p.layers) && Merged(rules, p.layers) == p
  }

  lemma {:induction false} TidyKeepsServer(rules: Rules, repository: Layer, l: Layer)
    requires IsServerLayer(rules, repository, l)
    ensures IsServerLayer(rules, TidyLayer(rules)(repository), TidyLayer(rules)(l))
  {
    TidyKeepsLayer(rules, l);
  }

  /** A complete repository layer and server layers that go with it are settled. */
  lemma {:induction false} Settles(rules: Rules, ls: seq<Layer>, require: bool)
    requires ls != [] && ls[0].source == REPOSITORY && IsLayer(rules, ls[0]) && Completed(rules, ls[0]) == ls[0]
    requires forall i :: 1 <= i < |ls| ==> IsServerLayer(rules, ls[0], ls[i])
    requires Requires(ls) == require
    ensures IsSettled(rules, EffectivePolicy(ls, require))
  {
    assert [ls[0]] + ls[1..] == ls;
  }

  lemma {:induction false} SettledParts(rules: Rules, p: EffectivePolicy)
    requires IsSettled(rules, p)
    ensures var ls := p.layers;
      && ls != [] && ls[0].source == REPOSITORY && IsLayer(rules, ls[0]) && Completed(rules, ls[0]) == ls[0]
      && (forall i :: 1 <= i < |ls| ==> IsServerLayer(rules, ls[0], ls[i]))
      && Requires(ls) == p.requireBaseline
  {
    assert p.layers[0] == Merged(rules, p.layers).layers[0];
  }

  lemma {:induction false} TidiedSettles(rules: Rules, p: EffectivePolicy)
    requires IsSettled(rules, p)
    ensures IsSettled(rules, EffectivePolicy(Mapped(TidyLayer(rules), p.layers), p.requireBaseline))
  {
    var ls := p.layers;
    var t := Mapped(TidyLayer(rules), ls);
    SettledParts(rules, p);
    TidyKeepsLayer(rules, ls[0]);
    forall i | 1 <= i < |t| ensures IsServerLayer(rules, t[0], t[i]) {
      TidyKeepsServer(rules, ls[0], ls[i]);
    }
    TidyKeepsRequires(rules, ls);
    assert Completed(rules, t[0]) == t[0];
    Settles(rules, t, p.requireBaseline);
  }

  lemma {:induction false} TidyKeepsRequires(rules: Rules, ls: seq<Layer>)
    ensures Requires(Mapped(TidyLayer(rules), ls)) == Requires(ls)
  {
    var t := Mapped(TidyLayer(rules), ls);
    assert forall i :: 0 <= i < |ls| ==> t[i].requireBaseline == ls[i].requireBaseline;
  }

  lemma {:induction false} PermutedSettles(rules: Rules, p: EffectivePolicy, sorted: seq<Layer>)
    requires IsSettled(rules, p) && multiset(sorted) == multiset(p.layers) && HasShape(sorted) && sorted[0] == p.layers[0]
    ensures IsSettled(rules, EffectivePolicy(sorted, p.requireBaseline))
  {
    var ls := p.layers;
    SettledParts(rules, p);
    assert |SERVER| != |REPOSITORY|;
    forall i | 1 <= i < |sorted| ensures IsServerLayer(rules, sorted[0], sorted[i]) {
      assert sorted[i] in multiset(ls);
      var j := PlaceOf(sorted[i], ls);
    }
    RequiresIgnoresOrder(ls, sorted);
    Settles(rules, sorted, p.requireBaseline);
  }

  lemma {:induction false} RequiresIgnoresOrder(a: seq<Layer>, b: seq<Layer>)
    requires multiset(a) == multiset(b)
    ensures Requires(a) == Requires(b)
  {
    if Requires(a) {
      var i :| 0 <= i < |a| && a[i].requireBaseline;
      assert a[i] in multiset(b);
      var j := PlaceOf(a[i], b);
    }
    if Requires(b) {
      var i :| 0 <= i < |b| && b[i].requireBaseline;
      assert b[i] in multiset(a);
      var j := PlaceOf(b[i], a);
    }
  }

  lemma {:induction false} CanonicalSettles(engine: Engine, p: EffectivePolicy)
    requires Sound(engine) && IsSettled(engine.rules, p)
    ensures IsSettled(engine.rules, Canonical(engine, p))
  {
    var rules := engine.rules;
    var t := Mapped(TidyLayer(rules), p.layers);
    MergedHasShape(rules, p.layers);
    TidiedSettles(rules, p);
    ByIsPreorder(LayerKey(engine));
    SortSorts(By(LayerKey(engine)), t);
    RepositorySortsFirst(engine, t, Sort(By(LayerKey(engine)), t));
    PermutedSettles(rules, EffectivePolicy(t, p.requireBaseline), Sort(By(LayerKey(engine)), t));
  }

  lemma {:induction false} CanonicalLayersAreTidy(engine: Engine, p: EffectivePolicy)
    requires Sound(engine)
    ensures forall l :: l in Canonical(engine, p).layers ==> IsTidy(engine.rules, l)
  {
    var t := Mapped(TidyLayer(engine.rules), p.layers);
    TidiedLayers(engine, p.layers);
    forall l | l in Canonical(engine, p).layers ensures IsTidy(engine.rules, l) {
      assert l in multiset(t);
    }
  }

  lemma {:induction false} TidyingTidy(rules: Rules, ls: seq<Layer>)
    requires forall l :: l in ls ==> IsTidy(rules, l)
    ensures Mapped(TidyLayer(rules), ls) == ls
  {
    forall i | 0 <= i < |ls| ensures TidyLayer(rules)(ls[i]) == ls[i] {
      assert ls[i] in ls;
    }
  }

  /** Canonicalising twice is canonicalising once. */
  lemma {:induction false} CanonicalTwice(engine: Engine, p: EffectivePolicy)
    requires Sound(engine)
    ensures Canonical(engine, Canonical(engine, p)) == Canonical(engine, p)
  {
    var c := Canonical(engine, p);
    CanonicalLayersAreTidy(engine, p);
    TidyingTidy(engine.rules, c.layers);
    TidiedLayers(engine, p.layers);
    SortTwice(LayerKey(engine), Mapped(TidyLayer(engine.rules), p.layers));
  }

  /** The layers agree but for the order of their exceptions. */
  ghost predicate SameLayer(a: Layer, b: Layer)
  {
    && a.name == b.name && a.source == b.source && a.requireBaseline == b.requireBaseline && a.rules == b.rules
    && forall e :: e in a.exceptions <==> e in b.exceptions
  }

  /** Canonicalising loses no layer and adds none. */
  lemma {:induction false} CanonicalKeepsLayers(engine: Engine, p: EffectivePolicy)
    ensures |Canonical(engine, p).layers| == |p.layers| && Canonical(engine, p).requireBaseline == p.requireBaseline
    ensures forall l :: l in p.layers ==> exists c :: c in Canonical(engine, p).layers && SameLayer(l, c)
    ensures forall c :: c in Canonical(engine, p).layers ==> exists l :: l in p.layers && SameLayer(c, l)
  {
    var tidied := Mapped(TidyLayer(engine.rules), p.layers);
    var layers := Canonical(engine, p).layers;
    assert multiset(layers) == multiset(tidied);
    forall i | 0 <= i < |p.layers| ensures SameLayer(p.layers[i], tidied[i]) && SameLayer(tidied[i], p.layers[i]) {
      SortedHasSame(engine.rules, p.layers[i].exceptions);
    }
    forall l | l in p.layers ensures exists c :: c in layers && SameLayer(l, c) {
      var i := PlaceOf(l, p.layers);
      assert tidied[i] in multiset(layers);
    }
    forall c | c in layers ensures exists l :: l in p.layers && SameLayer(c, l) {
      assert c in multiset(tidied);
      var i := PlaceOf(c, tidied);
      assert p.layers[i] in p.layers;
    }
  }

  lemma {:induction false} SortedHasSame(rules: Rules, es: seq<Exception>)
    ensures forall e :: e in SortedExceptions(rules, es) <==> e in es
  {
    forall e ensures e in SortedExceptions(rules, es) <==> e in es {
      assert e in multiset(es) <==> e in multiset(SortedExceptions(rules, es));
    }
  }

  /** Canonicalising changes no verdict. */
  lemma {:induction false} CanonicalKeepsVerdict(engine: Engine, p: EffectivePolicy, findings: seq<Change>, now: int)
    ensures IsCondemned(engine.rules, Canonical(engine, p).layers, findings, now) <==>
      IsCondemned(engine.rules, p.layers, findings, now)
  {
    CanonicalKeepsLayers(engine, p);
    SameLayersCondemn(engine.rules, p.layers, Canonical(engine, p).layers, findings, now);
    SameLayersCondemn(engine.rules, Canonical(engine, p).layers, p.layers, findings, now);
  }

  lemma {:induction false} SameLayersCondemn(rules: Rules, a: seq<Layer>, b: seq<Layer>, findings: seq<Change>, now: int)
    requires forall l :: l in a ==> exists c :: c in b && SameLayer(l, c)
    ensures IsCondemned(rules, a, findings, now) ==> IsCondemned(rules, b, findings, now)
  {
    if IsCondemned(rules, a, findings, now) {
      var l, f :| l in a && f in findings && Says(l, f, "fail") && !IsCovered(rules, l, f, now);
      var c :| c in b && SameLayer(l, c);
      assert Says(c, f, "fail") && !IsCovered(rules, c, f, now);
    }
  }
}
