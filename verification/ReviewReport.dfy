/** Producing a review and checking it again: domain/review.go. */
module ReviewReport {
  import opened Wrappers
  import opened Ordering
  import opened SpecDiff
  import SpecDiffLoops
  import opened Policy
  import opened Review

  // ----- Comparisons ---------------------------------------------------------------------

  function Findings(text: Text, base: Snapshot, candidate: Snapshot): seq<Change>
  {
    SortedChanges(SortedChanges(Breaking(text, base, candidate)) + SortedChanges(Additive(text, base, candidate)))
  }

  /** `policy` is a sorted evaluation of the findings. */
  ghost predicate EvaluatesTo(rules: Rules, layers: seq<Layer>, findings: seq<Change>, now: int, policy: PolicyResult)
  {
    exists raw, used, order ::
      IsResult(rules, layers, findings, now, raw, used, order) && policy == SortedResult(rules, raw)
  }

  ghost predicate IsComparison(
    engine: Engine, kind: string, base: Snapshot, candidate: Snapshot, layers: seq<Layer>, now: int, c: Comparison)
  {
    && c.kind == kind && c.baseline == RefOf(base) && c.candidate == RefOf(candidate)
    && c.findings == Findings(engine.text, base, candidate)
    && EvaluatesTo(engine.rules, layers, c.findings, now, c.policy)
  }

  /** Whatever a run does, the comparison comes out the same. */
  lemma {:induction false} OneComparison(
    engine: Engine, kind: string, base: Snapshot, candidate: Snapshot, layers: seq<Layer>, now: int, c: Comparison, d: Comparison)
    requires Sound(engine)
    requires IsComparison(engine, kind, base, candidate, layers, now, c)
    requires IsComparison(engine, kind, base, candidate, layers, now, d)
    ensures c == d
  {
    OneEvaluation(engine.rules, layers, c.findings, now, c.policy, d.policy);
  }

  lemma {:induction false} OneEvaluation(
    rules: Rules, layers: seq<Layer>, findings: seq<Change>, now: int, p: PolicyResult, q: PolicyResult)
    requires Fair(rules) && EvaluatesTo(rules, layers, findings, now, p) && EvaluatesTo(rules, layers, findings, now, q)
    ensures p == q
  {
    var a, usedA, orderA :| IsResult(rules, layers, findings, now, a, usedA, orderA) && p == SortedResult(rules, a);
    var b, usedB, orderB :| IsResult(rules, layers, findings, now, b, usedB, orderB) && q == SortedResult(rules, b);
    OneSortedResult(rules, layers, findings, now, a, usedA, orderA, b, usedB, orderB);
  }

  lemma {:induction false} SortedChangesKeep(text: Text, cs: seq<Change>)
    requires AreNatural(text, cs)
    ensures AreNatural(text, SortedChanges(cs))
  {
    forall c | c in SortedChanges(cs) ensures IsNatural(text, c) {
      assert c in multiset(cs);
    }
  }

  /** The findings are one list whatever sort is used: any sorted permutation of the changes
      is this one. */
  lemma {:induction false} OneListOfFindings(text: Text, base: Snapshot, candidate: Snapshot, found: seq<Change>)
    requires SortedBy(By(ChangeKey), found)
    requires multiset(found) == multiset(Breaking(text, base, candidate)) + multiset(Additive(text, base, candidate))
    ensures found == Findings(text, base, candidate)
  {
    var b, a := SortedChanges(Breaking(text, base, candidate)), SortedChanges(Additive(text, base, candidate));
    ChangesAreNatural(text, base, candidate);
    SortedChangesKeep(text, Breaking(text, base, candidate));
    SortedChangesKeep(text, Additive(text, base, candidate));
    NaturalChangesAreTold(text, b + a);
    OneSortedForm(ChangeKey, b + a, found);
  }

  /** `evaluateComparison`. */
  method EvaluateComparison(
    engine: Engine, kind: string, base: Snapshot, candidate: Snapshot, layers: seq<Layer>, now: int)
    returns (c: Comparison)
    ensures IsComparison(engine, kind, base, candidate, layers, now, c)
  {
    var breaking, additive := SpecDiffLoops.DiffSnapshots(engine.text, base, candidate);
    var findings := SortedChanges(breaking + additive);
    var raw := EvaluateFindings(engine.rules, layers, findings, now);
    c := Comparison(kind, RefOf(base), RefOf(candidate), findings, SortedResult(engine.rules, raw));
  }

  // ----- Producing a report --------------------------------------------------------------

  /** `normalizeEffectivePolicy` succeeds. */
  predicate CanNormalize(rules: Rules, p: EffectivePolicy)
  {
    CanMerge(rules, p.layers) && Merged(rules, p.layers).requireBaseline == p.requireBaseline
  }

  function CanonicalOf(engine: Engine, p: EffectivePolicy): EffectivePolicy
    requires p.layers != []
  {
    Canonical(engine, Merged(engine.rules, p.layers))
  }

  predicate IsRequest(engine: Engine, r: Request)
  {
    && engine.rules.identity(r.contract, false) && r.target.contract == r.contract && r.candidate.contract == r.contract
    && (r.release.Some? ==> r.release.value.contract == r.contract)
    && r.evaluatedAt != 0 && engine.rules.identity(r.engine, false)
    && engine.isSnapshot(r.target) && engine.isSnapshot(r.candidate) && (r.release.Some? ==> engine.isSnapshot(r.release.value))
    && CanNormalize(engine.rules, r.policy)
    && (r.policy.requireBaseline ==> r.release.Some?)
  }

  ghost predicate IsReport(engine: Engine, r: Request, report: Report)
  {
    && IsRequest(engine, r)
    && var policy := CanonicalOf(engine, r.policy);
      && report.schemaVersion == SCHEMA_VERSION && report.engine == r.engine && report.contract == r.contract
      && report.evaluatedAt == r.evaluatedAt
      && report.policy == Project(engine, policy) && report.policyDigest == engine.digest(report.policy)
      && AreComparisons(engine, r, policy.layers, report.comparisons)
      && (report.verdict.Fail? <==> SomeFails(report.comparisons))
  }

  /** The snapshots that a request compares. */
  ghost predicate Compares(r: Request, s: Snapshot)
  {
    s == r.target || s == r.candidate || Some(s) == r.release
  }

  /** A request is reviewed exactly when its texts are canonical and it is dated, all snapshots
      that it compares are valid and of its contract, its policy merges and demands a release
      baseline just when some layer does, and that baseline is there if it is demanded. */
  lemma {:induction false} RequestIff(engine: Engine, r: Request)
    ensures IsRequest(engine, r) <==>
      && engine.rules.identity(r.contract, false) && engine.rules.identity(r.engine, false) && r.evaluatedAt != 0
      && (forall s :: Compares(r, s) ==> engine.isSnapshot(s) && s.contract == r.contract)
      && CanMerge(engine.rules, r.policy.layers)
      && (r.policy.requireBaseline <==> exists l :: l in r.policy.layers && l.requireBaseline)
      && (r.policy.requireBaseline ==> r.release.Some?)
  {
    if r.release.Some? {
      assert Compares(r, r.release.value);
    }
    assert Compares(r, r.target) && Compares(r, r.candidate);
    var layers := r.policy.layers;
    if l :| l in layers && l.requireBaseline {
      var i := PlaceOf(l, layers);
      assert Requires(layers);
    }
  }

  /** For some change since the baseline, some layer of the merged policy says `fail` and does
      not cover it. */
  ghost predicate Condemns(engine: Engine, p: EffectivePolicy, base: Snapshot, candidate: Snapshot, now: int)
    requires p.layers != []
  {
    IsCondemned(engine.rules, Merged(engine.rules, p.layers).layers, Findings(engine.text, base, candidate), now)
  }

  /** A report fails exactly on such a change of the pull request or, if there is a release, on
      one since the release. */
  lemma {:induction false} ReportVerdict(engine: Engine, r: Request, report: Report)
    requires IsReport(engine, r, report)
    ensures report.verdict.Fail? <==>
      || Condemns(engine, r.policy, r.target, r.candidate, r.evaluatedAt)
      || (r.release.Some? && Condemns(engine, r.policy, r.release.value, r.candidate, r.evaluatedAt))
  {
    VerdictOfAll(engine, r, report.comparisons);
  }

  lemma {:induction false} VerdictOfAll(engine: Engine, r: Request, cs: seq<Comparison>)
    requires r.policy.layers != [] && AreComparisons(engine, r, CanonicalOf(engine, r.policy).layers, cs)
    ensures SomeFails(cs) <==>
      || Condemns(engine, r.policy, r.target, r.candidate, r.evaluatedAt)
      || (r.release.Some? && Condemns(engine, r.policy, r.release.value, r.candidate, r.evaluatedAt))
  {
    ComparisonVerdict(engine, PULL_REQUEST, r.target, r.candidate, r.policy, r.evaluatedAt, cs[0]);
    if r.release.Some? {
      ComparisonVerdict(engine, RELEASE_IMPACT, r.release.value, r.candidate, r.policy, r.evaluatedAt, cs[1]);
    }
    OneOrTwo(cs);
  }

  lemma {:induction false} OneOrTwo(cs: seq<Comparison>)
    requires |cs| == 1 || |cs| == 2
    ensures SomeFails(cs) <==> cs[0].policy.verdict.Fail? || (|cs| == 2 && cs[1].policy.verdict.Fail?)
  {
  }

  lemma {:induction false} ComparisonVerdict(
    engine: Engine, kind: string, base: Snapshot, candidate: Snapshot, p: EffectivePolicy, now: int, c: Comparison)
    requires p.layers != [] && IsComparison(engine, kind, base, candidate, CanonicalOf(engine, p).layers, now, c)
    ensures c.policy.verdict.Fail? <==> Condemns(engine, p, base, candidate, now)
  {
    var layers := CanonicalOf(engine, p).layers;
    var raw, used, order :|
      IsResult(engine.rules, layers, c.findings, now, raw, used, order) && c.policy == SortedResult(engine.rules, raw);
    VerdictIff(engine.rules, layers, c.findings, now);
    CanonicalKeepsVerdict(engine, Merged(engine.rules, p.layers), c.findings, now);
  }

  /** The pull request comes first; a release baseline follows it. */
  ghost predicate AreComparisons(engine: Engine, r: Request, layers: seq<Layer>, cs: seq<Comparison>)
  {
    && |cs| == (if r.release.Some? then 2 else 1)
    && IsComparison(engine, PULL_REQUEST, r.target, r.candidate, layers, r.evaluatedAt, cs[0])
    && (r.release.Some? ==>
      IsComparison(engine, RELEASE_IMPACT, r.release.value, r.candidate, layers, r.evaluatedAt, cs[1]))
  }

  ghost predicate SomeFails(cs: seq<Comparison>)
  {
    exists i :: 0 <= i < |cs| && cs[i].policy.verdict.Fail?
  }

  /** `EvaluateReview`. */
  method EvaluateReview(engine: Engine, r: Request) returns (report: Option<Report>)
    ensures report.Some? <==> IsRequest(engine, r)
    ensures report.Some? ==> IsReport(engine, r, report.value)
  {
    if !IsRequest(engine, r) {
      return None;
    }
    var merged := MergePolicy(engine.rules, r.policy.layers);
    var policy, projection := CanonicalReviewPolicy(engine, merged.value);
    var comparisons := CompareAll(engine, r, policy.layers);
    var verdict := VerdictOf(comparisons);
    report := Some(Report(
      SCHEMA_VERSION, r.engine, r.contract, r.evaluatedAt, projection, engine.digest(projection), verdict, comparisons));
  }

  /** Lines 456-464. */
  method CompareAll(engine: Engine, r: Request, layers: seq<Layer>) returns (cs: seq<Comparison>)
    ensures AreComparisons(engine, r, layers, cs)
  {
    var delta := EvaluateComparison(engine, PULL_REQUEST, r.target, r.candidate, layers, r.evaluatedAt);
    cs := [delta];
    if r.release.Some? {
      var impact := EvaluateComparison(engine, RELEASE_IMPACT, r.release.value, r.candidate, layers, r.evaluatedAt);
      cs := [delta, impact];
    }
  }

  /** Lines 465-470. */
  method VerdictOf(comparisons: seq<Comparison>) returns (verdict: Verdict)
    ensures verdict.Fail? <==> SomeFails(comparisons)
  {
    verdict := Pass;
    for i := 0 to |comparisons|
      invariant verdict.Pass? && forall j :: 0 <= j < i ==> comparisons[j].policy.verdict.Pass?
    {
      if comparisons[i].policy.verdict.Fail? {
        return Fail;
      }
    }
  }

  /** `canonicalReviewPolicy`. */
  method CanonicalReviewPolicy(engine: Engine, p: EffectivePolicy) returns (policy: EffectivePolicy, projection: Projection)
    ensures policy == Canonical(engine, p) && projection == Project(engine, policy)
  {
    var tidied := TidyLayers(engine.rules, p.layers);
    var sorted := Sort(By(LayerKey(engine)), tidied);
    var projected := ProjectLayers(engine.rules, sorted);
    policy, projection := EffectivePolicy(sorted, p.requireBaseline), Projection(p.requireBaseline, projected);
  }

  method TidyLayers(rules: Rules, layers: seq<Layer>) returns (tidied: seq<Layer>)
    ensures tidied == Mapped(TidyLayer(rules), layers)
  {
    tidied := [];
    ghost var tidy := TidyLayer(rules);
    for i := 0 to |layers|
      invariant IsMapped(tidy, layers, i, tidied)
    {
      var layer := layers[i].(exceptions := SortedExceptions(rules, layers[i].exceptions));
      MappedMore(tidy, layers, i, tidied, layer);
      tidied := tidied + [layer];
    }
    MappedAll(tidy, layers, tidied);
  }

  method ProjectLayers(rules: Rules, layers: seq<Layer>) returns (projected: seq<LayerProjection>)
    ensures projected == Mapped(Projector(rules), layers)
  {
    projected := [];
    ghost var project := Projector(rules);
    for i := 0 to |layers|
      invariant IsMapped(project, layers, i, projected)
    {
      var projection := ProjectLayer(rules, layers[i]);
      MappedMore(project, layers, i, projected, projection);
      projected := projected + [projection];
    }
    MappedAll(project, layers, projected);
  }

  // ----- Checking a report ---------------------------------------------------------------

  function Rebuilt(p: Projection): EffectivePolicy
  {
    EffectivePolicy(Mapped(UnprojectLayer, p.layers), p.requireBaseline)
  }

  /** `validateCanonicalPolicyProjection` succeeds. */
  predicate IsCanonicalProjection(engine: Engine, p: Projection)
  {
    && (forall i :: 0 <= i < |p.layers| ==> NoRuleTwice(p.layers[i].rules))
    && CanNormalize(engine.rules, Rebuilt(p))
    && Project(engine, CanonicalOf(engine, Rebuilt(p))) == p
  }

  /** Everything `ValidateReleaseReviewReportAgainstSnapshots` checks. */
  ghost predicate Accepts(engine: Engine, report: Report, contract: string, base: Snapshot, candidate: Snapshot)
  {
    && IsWellFormed(engine, report, contract, base, candidate)
    && IsComparison(
      engine, RELEASE_IMPACT, base, candidate, CanonicalOf(engine, Rebuilt(report.policy)).layers, report.evaluatedAt,
      report.comparisons[0])
  }

  predicate IsWellFormed(engine: Engine, report: Report, contract: string, base: Snapshot, candidate: Snapshot)
  {
    && engine.isSnapshot(base) && engine.isSnapshot(candidate) && base.contract == contract && candidate.contract == contract
    && report.schemaVersion == SCHEMA_VERSION && report.contract == contract
    && engine.rules.identity(report.contract, false) && engine.rules.identity(report.engine, false)
    && report.evaluatedAt != 0 && engine.rules.isDigest(report.policyDigest)
    && IsCanonicalProjection(engine, report.policy) && report.policyDigest == engine.digest(report.policy)
    && |report.comparisons| == 1 && report.comparisons[0].kind == RELEASE_IMPACT
    && IsRefOf(engine, report.comparisons[0].baseline) && report.comparisons[0].baseline == RefOf(base)
    && IsRefOf(engine, report.comparisons[0].candidate) && report.comparisons[0].candidate == RefOf(candidate)
    && report.verdict == report.comparisons[0].policy.verdict
  }

  /** `ValidateReleaseReviewReportAgainstSnapshots`: evaluate again and compare. */
  method ValidateReport(engine: Engine, report: Report, contract: string, base: Snapshot, candidate: Snapshot)
    returns (ok: bool)
    requires Sound(engine)
    ensures ok <==> Accepts(engine, report, contract, base, candidate)
  {
    if !IsWellFormed(engine, report, contract, base, candidate) {
      return false;
    }
    var policy := CanonicalOf(engine, Rebuilt(report.policy));
    var expected := EvaluateComparison(engine, RELEASE_IMPACT, base, candidate, policy.layers, report.evaluatedAt);
    if IsComparison(engine, RELEASE_IMPACT, base, candidate, policy.layers, report.evaluatedAt, report.comparisons[0]) {
      OneComparison(
        engine, RELEASE_IMPACT, base, candidate, policy.layers, report.evaluatedAt, report.comparisons[0], expected);
    }
    ok := report.comparisons[0] == expected && report.verdict == expected.policy.verdict;
  }

  // ----- A review accepts its own release comparison --------------------------------------

  /** The report cut down to its release comparison and that comparison's verdict. */
  function CutDown(report: Report): Report
    requires |report.comparisons| == 2
  {
    report.(comparisons := [report.comparisons[1]], verdict := report.comparisons[1].policy.verdict)
  }

  lemma {:induction false} RebuiltProjection(engine: Engine, p: EffectivePolicy)
    requires forall l :: l in p.layers ==> IsTidy(engine.rules, l)
    ensures Rebuilt(Project(engine, p)) == p
    ensures forall i :: 0 <= i < |p.layers| ==> NoRuleTwice(Project(engine, p).layers[i].rules)
  {
    var projected := Project(engine, p).layers;
    forall i | 0 <= i < |p.layers| ensures UnprojectLayer(projected[i]) == p.layers[i] && NoRuleTwice(projected[i].rules) {
      assert p.layers[i] in p.layers;
      ProjectionKeepsLayer(engine.rules, p.layers[i]);
    }
  }

  /** Through projection and back, canonicalisation is idempotent. */
  lemma {:induction false} ProjectionIsCanonical(engine: Engine, p: EffectivePolicy)
    requires Sound(engine) && CanNormalize(engine.rules, p)
    ensures var c := CanonicalOf(engine, p);
      && IsCanonicalProjection(engine, Project(engine, c))
      && CanonicalOf(engine, Rebuilt(Project(engine, c))) == c
  {
    var m := Merged(engine.rules, p.layers);
    var c := Canonical(engine, m);
    MergeTwice(engine.rules, p.layers);
    CanonicalSettles(engine, m);
    CanonicalLayersAreTidy(engine, m);
    RebuiltProjection(engine, c);
    CanonicalTwice(engine, m);
    SettledIsCanonical(engine, c, Project(engine, c));
  }

  lemma {:induction false} SettledIsCanonical(engine: Engine, c: EffectivePolicy, projected: Projection)
    requires IsSettled(engine.rules, c) && Canonical(engine, c) == c
    requires Rebuilt(projected) == c && projected == Project(engine, c)
    requires forall i :: 0 <= i < |projected.layers| ==> NoRuleTwice(projected.layers[i].rules)
    ensures IsCanonicalProjection(engine, projected) && CanonicalOf(engine, Rebuilt(projected)) == c
  {
  }

  /** A report of EvaluateReview, cut down to its release comparison, is always accepted when
      it is validated against the same snapshots. */
  lemma {:induction false} OwnReviewIsAccepted(engine: Engine, r: Request, report: Report)
    requires Sound(engine) && IsReport(engine, r, report) && r.release.Some?
    ensures Accepts(engine, CutDown(report), r.contract, r.release.value, r.candidate)
  {
    ProjectionIsCanonical(engine, r.policy);
    assert IsRefOf(engine, RefOf(r.release.value)) && IsRefOf(engine, RefOf(r.candidate));
  }

  /** What is accepted is forced: policy, time and engine leave no choice about the findings,
      the decisions or the verdict. */
  lemma {:induction false} AcceptedIsForced(
    engine: Engine, a: Report, b: Report, contract: string, base: Snapshot, candidate: Snapshot)
    requires Sound(engine) && Accepts(engine, a, contract, base, candidate) && Accepts(engine, b, contract, base, candidate)
    requires a.policy == b.policy && a.evaluatedAt == b.evaluatedAt && a.engine == b.engine
    ensures a == b
  {
    AcceptedFields(engine, a, contract, base, candidate);
    AcceptedFields(engine, b, contract, base, candidate);
    SameReport(engine, CanonicalOf(engine, Rebuilt(a.policy)).layers, a, b, base, candidate);
  }

  lemma {:induction false} SameReport(
    engine: Engine, layers: seq<Layer>, a: Report, b: Report, base: Snapshot, candidate: Snapshot)
    requires Sound(engine)
    requires a.schemaVersion == b.schemaVersion && a.contract == b.contract && a.policyDigest == b.policyDigest
    requires a.policy == b.policy && a.evaluatedAt == b.evaluatedAt && a.engine == b.engine
    requires |a.comparisons| == 1 && a.verdict == a.comparisons[0].policy.verdict
    requires |b.comparisons| == 1 && b.verdict == b.comparisons[0].policy.verdict
    requires IsComparison(engine, RELEASE_IMPACT, base, candidate, layers, a.evaluatedAt, a.comparisons[0])
    requires IsComparison(engine, RELEASE_IMPACT, base, candidate, layers, a.evaluatedAt, b.comparisons[0])
    ensures a == b
  {
    OneComparison(engine, RELEASE_IMPACT, base, candidate, layers, a.evaluatedAt, a.comparisons[0], b.comparisons[0]);
    SameFields(a, b);
  }

  lemma {:induction false} SameFields(a: Report, b: Report)
    requires a.schemaVersion == b.schemaVersion && a.contract == b.contract && a.policyDigest == b.policyDigest
    requires a.policy == b.policy && a.evaluatedAt == b.evaluatedAt && a.engine == b.engine && a.verdict == b.verdict
    requires |a.comparisons| == |b.comparisons| == 1 && a.comparisons[0] == b.comparisons[0]
    ensures a == b
  {
    assert a.comparisons == [a.comparisons[0]] && b.comparisons == [b.comparisons[0]];
  }

  lemma {:induction false} AcceptedFields(engine: Engine, a: Report, contract: string, base: Snapshot, candidate: Snapshot)
    requires Accepts(engine, a, contract, base, candidate)
    ensures a.schemaVersion == SCHEMA_VERSION && a.contract == contract && a.policyDigest == engine.digest(a.policy)
    ensures |a.comparisons| == 1 && a.verdict == a.comparisons[0].policy.verdict && Rebuilt(a.policy).layers != []
    ensures IsComparison(
      engine, RELEASE_IMPACT, base, candidate, CanonicalOf(engine, Rebuilt(a.policy)).layers, a.evaluatedAt, a.comparisons[0])
  {
  }

  /** An accepted report passes exactly when no layer of its policy objects to any change. */
  lemma {:induction false} AcceptedVerdict(engine: Engine, report: Report, contract: string, base: Snapshot, candidate: Snapshot)
    requires Accepts(engine, report, contract, base, candidate)
    ensures report.verdict.Fail? <==> SomeoneObjects(
      engine.rules, CanonicalOf(engine, Rebuilt(report.policy)).layers,
      Findings(engine.text, base, candidate), report.evaluatedAt)
  {
    var layers := CanonicalOf(engine, Rebuilt(report.policy)).layers;
    var c := report.comparisons[0];
    var raw, used, order :|
      IsResult(engine.rules, layers, c.findings, report.evaluatedAt, raw, used, order) && c.policy == SortedResult(engine.rules, raw);
  }

  /** Requests that differ only in the order of the server layers get the same policy. */
  lemma {:induction false} PolicyIgnoresLayerOrder(engine: Engine, p: EffectivePolicy, q: EffectivePolicy)
    requires Sound(engine) && CanNormalize(engine.rules, p) && CanNormalize(engine.rules, q)
    requires p.layers[0] == q.layers[0] && multiset(p.layers) == multiset(q.layers)
    ensures Project(engine, CanonicalOf(engine, p)) == Project(engine, CanonicalOf(engine, q))
  {
    var first := Completed(engine.rules, p.layers[0]);
    TailMultiset(p.layers);
    TailMultiset(q.layers);
    assert multiset([first] + p.layers[1..]) == multiset([first] + q.layers[1..]);
    RequiresIgnoresOrder(p.layers, q.layers);
    CanonicalIgnoresOrder(engine, Merged(engine.rules, p.layers), Merged(engine.rules, q.layers));
  }
}
