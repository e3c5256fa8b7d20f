/** Policies of domain/policy.go: merging layers, and evaluating findings against them. */
module Policy {
  import opened Wrappers
  import opened Ordering
  import opened SpecDiff

  const REPOSITORY := "repository"
  const SERVER := "server"

  const ALLOW := "allow"
  const WARN := "warn"
  const FAIL := "fail"

  const APPLIED := "applied"
  const EXPIRED := "expired"
  const NOT_APPLICABLE := "not_applicable"

  datatype Exception = Exception(
    finding: string, rule: string, reason: string, author: string, expiresAt: int, source: string)

  datatype Layer = Layer(
    name: string, source: string, requireBaseline: bool, rules: map<string, string>, exceptions: seq<Exception>)

  datatype EffectivePolicy = EffectivePolicy(layers: seq<Layer>, requireBaseline: bool)

  datatype Decision = Decision(finding: Change, level: string, source: string, layer: string, excepted: bool)

  datatype Disposition = Disposition(layer: string, disposition: string, exception_: Exception)

  datatype Verdict = Pass | Fail

  datatype PolicyResult = PolicyResult(
    verdict: Verdict, decisions: seq<Decision>, applied: seq<Exception>, dispositions: seq<Disposition>)

  /** The rule for canonical identities, the forms of digests and reasons, the text of a time
      in UTC, and the supported rules with their default levels. */
  datatype Rules = Rules(
    identity: (string, bool) -> bool, isDigest: string -> bool, isReason: string -> bool, stamp: int -> string,
    registry: map<string, string>)

  /** Different times have different texts; the registry holds levels under canonical names. */
  ghost predicate Fair(rules: Rules)
  {
    && (forall a, b :: rules.stamp(a) == rules.stamp(b) ==> a == b)
    && (forall r :: r in rules.registry ==> IsLevel(rules.registry[r]) && rules.identity(r, false))
  }

  predicate IsLevel(level: string)
  {
    level == ALLOW || level == WARN || level == FAIL
  }

  function Rank(level: string): int
  {
    if level == ALLOW then 0 else if level == WARN then 1 else if level == FAIL then 2 else -1
  }

  // ----- Merging -------------------------------------------------------------------------

  /** `validatePolicyException`. */
  predicate IsException(rules: Rules, e: Exception, source: string)
  {
    && rules.identity(e.finding, true) && rules.identity(e.rule, true)
    && (e.finding != "") != (e.rule != "")
    && (e.finding != "" ==> rules.isDigest(e.finding))
    && (e.rule != "" ==> e.rule in rules.registry)
    && rules.isReason(e.reason) && rules.identity(e.author, false) && e.expiresAt != 0 && e.source == source
  }

  /** `validateLayer`. */
  predicate IsLayer(rules: Rules, l: Layer)
  {
    && rules.identity(l.name, false) && (l.source == REPOSITORY || l.source == SERVER)
    && (forall r :: r in l.rules ==> rules.identity(r, false) && r in rules.registry && IsLevel(l.rules[r]))
    && (forall e :: e in l.exceptions ==> IsException(rules, e, l.source))
  }

  /** The repository layer with the defaults filled in. */
  function Completed(rules: Rules, l: Layer): Layer
  {
    l.(rules := rules.registry + l.rules)
  }

  predicate Weakens(repository: Layer, l: Layer)
  {
    exists r :: r in l.rules && r in repository.rules && Rank(l.rules[r]) < Rank(repository.rules[r])
  }

  predicate IsServerLayer(rules: Rules, repository: Layer, l: Layer)
  {
    l.source == SERVER && IsLayer(rules, l) && !Weakens(repository, l)
  }

  predicate Requires(layers: seq<Layer>)
  {
    exists i :: 0 <= i < |layers| && layers[i].requireBaseline
  }

  predicate CanMerge(rules: Rules, layers: seq<Layer>)
  {
    && layers != [] && layers[0].source == REPOSITORY && IsLayer(rules, layers[0])
    && forall i :: 1 <= i < |layers| ==> IsServerLayer(rules, Completed(rules, layers[0]), layers[i])
  }

  function Merged(rules: Rules, layers: seq<Layer>): EffectivePolicy
    requires layers != []
  {
    EffectivePolicy([Completed(rules, layers[0])] + layers[1..], Requires(layers))
  }

  /** `MergePolicy`. */
  method MergePolicy(rules: Rules, layers: seq<Layer>) returns (merged: Option<EffectivePolicy>)
    ensures merged == (if CanMerge(rules, layers) then Some(Merged(rules, layers)) else None)
  {
    if layers == [] || layers[0].source != REPOSITORY || !IsLayer(rules, layers[0]) {
      return None;
    }
    var repository := Completed(rules, layers[0]);
    var taken, require := [repository], repository.requireBaseline;
    for i := 1 to |layers|
      invariant forall j :: 1 <= j < i ==> IsServerLayer(rules, repository, layers[j])
      invariant taken == [repository] + layers[1..i]
      invariant require <==> exists j :: 0 <= j < i && layers[j].requireBaseline
    {
      if !IsServerLayer(rules, repository, layers[i]) {
        return None;
      }
      taken := taken + [layers[i]];
      require := require || layers[i].requireBaseline;
    }
    assert layers[1..|layers|] == layers[1..];
    return Some(EffectivePolicy(taken, require));
  }

  /** Merging what was merged changes nothing. */
  lemma {:induction false} MergeTwice(rules: Rules, layers: seq<Layer>)
    requires Fair(rules) && CanMerge(rules, layers)
    ensures var m := Merged(rules, layers); CanMerge(rules, m.layers) && Merged(rules, m.layers) == m
  {
    var m := Merged(rules, layers);
    assert Completed(rules, m.layers[0]) == m.layers[0];
    assert forall i :: 1 <= i < |layers| ==> m.layers[i] == layers[i];
    assert m.layers[1..] == layers[1..];
    assert forall i :: 0 <= i < |layers| ==> m.layers[i].requireBaseline == layers[i].requireBaseline;
  }

  // ----- Evaluating ----------------------------------------------------------------------

  /** `contributionLevel`. */
  function Contribution(l: Layer, f: Change): Option<string>
  {
    if f.rule in l.rules then Some(l.rules[f.rule])
    else if l.source == REPOSITORY then Some(if f.severity == BREAKING then FAIL else ALLOW)
    else None
  }

  /** The exception is valid, has not expired and is about this finding or its rule. */
  predicate Excuses(rules: Rules, l: Layer, e: Exception, f: Change, now: int)
  {
    && IsException(rules, e, l.source) && now < e.expiresAt
    && ((e.finding != "" && e.finding == f.id) || (e.rule != "" && e.rule == f.rule))
  }

  predicate IsExcused(rules: Rules, l: Layer, f: Change, now: int)
  {
    exists e :: e in l.exceptions && Excuses(rules, l, e, f, now)
  }

  function DecisionAt(rules: Rules, f: Change, now: int): Layer -> seq<Decision>
  {
    l =>
      if Contribution(l, f).None? then []
      else [Decision(f, Contribution(l, f).value, l.source, l.name, IsExcused(rules, l, f, now))]
  }

  function DecisionsAt(rules: Rules, layers: seq<Layer>, now: int): Change -> seq<Decision>
  {
    f => Gather(DecisionAt(rules, f, now), layers, |layers|)
  }

  /** The decisions, finding by finding and layer by layer. */
  function Decisions(rules: Rules, layers: seq<Layer>, findings: seq<Change>, now: int): seq<Decision>
  {
    Gather(DecisionsAt(rules, layers, now), findings, |findings|)
  }

  predicate Objects(rules: Rules, l: Layer, f: Change, now: int)
  {
    Contribution(l, f) == Some(FAIL) && !IsExcused(rules, l, f, now)
  }

  ghost predicate SomeoneObjects(rules: Rules, layers: seq<Layer>, findings: seq<Change>, now: int)
  {
    exists l, f :: l in layers && f in findings && Objects(rules, l, f, now)
  }

  /** Where an exception is: layer and place in it. */
  datatype Ref = Ref(layer: nat, place: nat)

  predicate IsRef(layers: seq<Layer>, r: Ref)
  {
    r.layer < |layers| && r.place < |layers[r.layer].exceptions|
  }

  function At(layers: seq<Layer>, r: Ref): Exception
    requires IsRef(layers, r)
  {
    layers[r.layer].exceptions[r.place]
  }

  /** The exception served to excuse some finding that its layer speaks about. */
  ghost predicate IsUsed(rules: Rules, layers: seq<Layer>, findings: seq<Change>, now: int, r: Ref)
    requires IsRef(layers, r)
  {
    exists f :: f in findings && UsedFor(rules, layers, f, now, r)
  }

  predicate UsedFor(rules: Rules, layers: seq<Layer>, f: Change, now: int, r: Ref)
    requires IsRef(layers, r)
  {
    Contribution(layers[r.layer], f).Some? && Excuses(rules, layers[r.layer], At(layers, r), f, now)
  }

  /** All exceptions, layer by layer. */
  function Refs(layers: seq<Layer>, n: nat): seq<Ref>
    requires n <= |layers|
  {
    if n == 0 then [] else Refs(layers, n - 1) + seq(|layers[n - 1].exceptions|, x requires 0 <= x => Ref(n - 1, x))
  }

  lemma {:induction false} RefsListAll(layers: seq<Layer>, n: nat)
    requires n <= |layers|
    ensures Distinct(Refs(layers, n))
    ensures forall r :: r in Refs(layers, n) <==> r.layer < n && IsRef(layers, r)
  {
    if n > 0 {
      RefsListAll(layers, n - 1);
      var here := seq(|layers[n - 1].exceptions|, x requires 0 <= x => Ref(n - 1, x));
      assert forall i :: 0 <= i < |here| ==> here[i] == Ref(n - 1, i);
      forall r: Ref | r.layer == n - 1 && IsRef(layers, r) ensures r in here {
        assert here[r.place] == r;
      }
      forall r: Ref | r in here ensures r.layer == n - 1 && IsRef(layers, r) {
      }
      DistinctJoin(Refs(layers, n - 1), here);
    }
  }

  lemma {:induction false} DistinctJoin<T>(a: seq<T>, b: seq<T>)
    requires Distinct(a) && Distinct(b) && forall x :: x in a ==> x !in b
    ensures Distinct(a + b)
  {
    forall i, j | 0 <= i < |a| + |b| && 0 <= j < |a| + |b| && (a + b)[i] == (a + b)[j] ensures i == j {
      assert i < |a| ==> a[i] in a;
      assert j < |a| ==> a[j] in a;
    }
  }

  function Status(e: Exception, now: int, used: bool): string
  {
    if used then APPLIED else if now >= e.expiresAt then EXPIRED else NOT_APPLICABLE
  }

  /** What became of the exception at `r`, if `used` are those that excused something. */
  function DispositionOf(layers: seq<Layer>, now: int, used: set<Ref>, r: Ref): Disposition
    requires IsRef(layers, r)
  {
    Disposition(layers[r.layer].name, Status(At(layers, r), now, r in used), At(layers, r))
  }

  /** The exceptions at the given places. */
  function Picked(layers: seq<Layer>, refs: seq<Ref>): (es: seq<Exception>)
    requires forall r :: r in refs ==> IsRef(layers, r)
    ensures |es| == |refs| && forall i :: 0 <= i < |refs| ==> es[i] == At(layers, refs[i])
  {
    seq(|refs|, i requires 0 <= i < |refs| =>
      assert refs[i] in refs;
      At(layers, refs[i]))
  }

  /** One of the first `n` findings used the exception. */
  ghost predicate UsedIn(rules: Rules, layers: seq<Layer>, findings: seq<Change>, now: int, r: Ref, n: nat)
    requires IsRef(layers, r) && n <= |findings|
  {
    n > 0 && (UsedFor(rules, layers, findings[n - 1], now, r) || UsedIn(rules, layers, findings, now, r, n - 1))
  }

  lemma {:induction false} UsedInMeans(rules: Rules, layers: seq<Layer>, findings: seq<Change>, now: int, r: Ref, n: nat)
    requires IsRef(layers, r) && n <= |findings|
    ensures UsedIn(rules, layers, findings, now, r, n) <==>
      exists i :: 0 <= i < n && UsedFor(rules, layers, findings[i], now, r)
  {
    if n > 0 {
      UsedInMeans(rules, layers, findings, now, r, n - 1);
    }
  }

  /** One of the first `n` layers objects to the finding. */
  ghost predicate ObjectedBy(rules: Rules, layers: seq<Layer>, f: Change, now: int, n: nat)
    requires n <= |layers|
  {
    n > 0 && (Objects(rules, layers[n - 1], f, now) || ObjectedBy(rules, layers, f, now, n - 1))
  }

  /** Some layer objects to one of the first `n` findings. */
  ghost predicate ObjectedTo(rules: Rules, layers: seq<Layer>, findings: seq<Change>, now: int, n: nat)
    requires n <= |findings|
  {
    n > 0 && (ObjectedBy(rules, layers, findings[n - 1], now, |layers|) || ObjectedTo(rules, layers, findings, now, n - 1))
  }

  lemma {:induction false} ObjectedByMeans(rules: Rules, layers: seq<Layer>, f: Change, now: int, n: nat)
    requires n <= |layers|
    ensures ObjectedBy(rules, layers, f, now, n) <==> exists i :: 0 <= i < n && Objects(rules, layers[i], f, now)
  {
    if n > 0 {
      ObjectedByMeans(rules, layers, f, now, n - 1);
    }
  }

  lemma {:induction false} ObjectedToMeans(rules: Rules, layers: seq<Layer>, findings: seq<Change>, now: int, n: nat)
    requires n <= |findings|
    ensures ObjectedTo(rules, layers, findings, now, n) <==>
      exists i :: 0 <= i < n && ObjectedBy(rules, layers, findings[i], now, |layers|)
  {
    if n > 0 {
      ObjectedToMeans(rules, layers, findings, now, n - 1);
    }
  }

  lemma {:induction false} ObjectionsMean(rules: Rules, layers: seq<Layer>, findings: seq<Change>, now: int)
    ensures ObjectedTo(rules, layers, findings, now, |findings|) <==> SomeoneObjects(rules, layers, findings, now)
  {
    ObjectedToMeans(rules, layers, findings, now, |findings|);
    if ObjectedTo(rules, layers, findings, now, |findings|) {
      var i :| 0 <= i < |findings| && ObjectedBy(rules, layers, findings[i], now, |layers|);
      ObjectedByMeans(rules, layers, findings[i], now, |layers|);
      var j :| 0 <= j < |layers| && Objects(rules, layers[j], findings[i], now);
      assert layers[j] in layers && findings[i] in findings;
    }
    if SomeoneObjects(rules, layers, findings, now) {
      var l, f :| l in layers && f in findings && Objects(rules, l, f, now);
      var j :| 0 <= j < |layers| && layers[j] == l;
      var i :| 0 <= i < |findings| && findings[i] == f;
      ObjectedByMeans(rules, layers, findings[i], now, |layers|);
    }
  }

  // ----- The loops of EvaluateFindings ---------------------------------------------------

  /** What evaluation keeps: the result so far and the exceptions seen. */
  datatype Tally = Tally(
    verdict: Verdict, decisions: seq<Decision>, applied: seq<Exception>, dispositions: seq<Disposition>, seen: set<Ref>)

  /** `order` lists the exceptions seen; they are the ones applied, and the dispositions of
      all exceptions agree with them. */
  ghost predicate IsTally(layers: seq<Layer>, now: int, t: Tally, order: seq<Ref>)
  {
    && Distinct(order) && (forall r :: r in order <==> r in t.seen)
    && (forall r :: r in order ==> IsRef(layers, r)) && t.applied == Picked(layers, order)
    && DispositionsAre(layers, now, t.seen, t.dispositions)
  }

  ghost predicate DispositionsAre(layers: seq<Layer>, now: int, used: set<Ref>, dispositions: seq<Disposition>)
  {
    AreListed(layers, now, used, Refs(layers, |layers|), dispositions)
  }

  ghost predicate AreListed(layers: seq<Layer>, now: int, used: set<Ref>, refs: seq<Ref>, dispositions: seq<Disposition>)
  {
    && |dispositions| == |refs|
    && forall i :: 0 <= i < |refs| ==> IsRef(layers, refs[i]) && dispositions[i] == DispositionOf(layers, now, used, refs[i])
  }

  /** Each exception finds its own disposition. */
  ghost predicate IsIndex(refs: seq<Ref>, indexes: map<Ref, nat>)
  {
    forall i :: 0 <= i < |refs| ==> refs[i] in indexes && indexes[refs[i]] == i
  }

  /** The exceptions of the layers before `l`, and the first `x` of layer `l`. */
  ghost function RefsTo(layers: seq<Layer>, l: nat, x: nat): seq<Ref>
    requires l <= |layers|
  {
    Refs(layers, l) + seq(x, i requires 0 <= i => Ref(l, i))
  }

  lemma {:induction false} NextRef(layers: seq<Layer>, l: nat, x: nat)
    requires l < |layers|
    ensures RefsTo(layers, l, x + 1) == RefsTo(layers, l, x) + [Ref(l, x)]
    ensures Ref(l, x) !in RefsTo(layers, l, x)
    ensures RefsTo(layers, l, |layers[l].exceptions|) == Refs(layers, l + 1)
  {
    RefsListAll(layers, l);
    assert Refs(layers, l + 1) == Refs(layers, l) + seq(|layers[l].exceptions|, i requires 0 <= i => Ref(l, i));
  }

  /** Lines 139-153, the exceptions of one layer. */
  method ListLayer(layers: seq<Layer>, now: int, l: nat, before: seq<Disposition>, indexesBefore: map<Ref, nat>)
    returns (dispositions: seq<Disposition>, indexes: map<Ref, nat>)
    requires l < |layers| && AreListed(layers, now, {}, Refs(layers, l), before) && IsIndex(Refs(layers, l), indexesBefore)
    ensures AreListed(layers, now, {}, Refs(layers, l + 1), dispositions) && IsIndex(Refs(layers, l + 1), indexes)
  {
    dispositions, indexes := before, indexesBefore;
    var layer := layers[l];
    assert RefsTo(layers, l, 0) == Refs(layers, l);
    for x := 0 to |layer.exceptions|
      invariant AreListed(layers, now, {}, RefsTo(layers, l, x), dispositions)
      invariant IsIndex(RefsTo(layers, l, x), indexes)
    {
      NextRef(layers, l, x);
      var e := layer.exceptions[x];
      var disposition := if now < e.expiresAt then NOT_APPLICABLE else EXPIRED;
      ListMore(layers, now, RefsTo(layers, l, x), dispositions, indexes, Ref(l, x), Disposition(layer.name, disposition, e));
      indexes := indexes[Ref(l, x) := |dispositions|];
      dispositions := dispositions + [Disposition(layer.name, disposition, e)];
    }
    NextRef(layers, l, |layer.exceptions|);
  }

  lemma {:induction false} ListMore(
    layers: seq<Layer>, now: int, refs: seq<Ref>, dispositions: seq<Disposition>, indexes: map<Ref, nat>, r: Ref, d: Disposition)
    requires AreListed(layers, now, {}, refs, dispositions) && IsIndex(refs, indexes)
    requires IsRef(layers, r) && r !in refs && d == DispositionOf(layers, now, {}, r)
    ensures AreListed(layers, now, {}, refs + [r], dispositions + [d])
    ensures IsIndex(refs + [r], indexes[r := |dispositions|])
  {
    forall i | 0 <= i < |refs| ensures refs[i] != r {
      assert refs[i] in refs;
    }
  }

  method ListDispositions(layers: seq<Layer>, now: int) returns (dispositions: seq<Disposition>, indexes: map<Ref, nat>)
    ensures DispositionsAre(layers, now, {}, dispositions) && IsIndex(Refs(layers, |layers|), indexes)
  {
    dispositions, indexes := [], map[];
    for l := 0 to |layers|
      invariant AreListed(layers, now, {}, Refs(layers, l), dispositions) && IsIndex(Refs(layers, l), indexes)
    {
      dispositions, indexes := ListLayer(layers, now, l, dispositions, indexes);
    }
  }

  /** `matchingExceptions`. */
  method MatchingExceptions(rules: Rules, layer: Layer, f: Change, now: int) returns (matching: seq<nat>)
    ensures forall x: nat :: x in matching <==> x < |layer.exceptions| && Excuses(rules, layer, layer.exceptions[x], f, now)
    ensures matching == [] <==> !IsExcused(rules, layer, f, now)
  {
    matching := [];
    for i := 0 to |layer.exceptions|
      invariant forall x: nat :: x in matching <==> x < i && Excuses(rules, layer, layer.exceptions[x], f, now)
    {
      if Excuses(rules, layer, layer.exceptions[i], f, now) {
        matching := matching + [i];
      }
    }
    if matching != [] {
      assert matching[0] in matching;
      assert layer.exceptions[matching[0]] in layer.exceptions;
    }
    if IsExcused(rules, layer, f, now) {
      var e :| e in layer.exceptions && Excuses(rules, layer, e, f, now);
      var x :| 0 <= x < |layer.exceptions| && layer.exceptions[x] == e;
      assert x in matching;
    }
  }

  lemma {:induction false} MarkApplied(layers: seq<Layer>, now: int, used: set<Ref>, dispositions: seq<Disposition>, k: nat, r: Ref)
    requires DispositionsAre(layers, now, used, dispositions) && IsRef(layers, r)
    requires k < |Refs(layers, |layers|)| && Refs(layers, |layers|)[k] == r
    ensures k < |dispositions|
    ensures DispositionsAre(layers, now, used + {r}, dispositions[k := dispositions[k].(disposition := APPLIED)])
  {
    var refs := Refs(layers, |layers|);
    RefsListAll(layers, |layers|);
    forall i | 0 <= i < |refs|
      ensures dispositions[k := dispositions[k].(disposition := APPLIED)][i] == DispositionOf(layers, now, used + {r}, refs[i])
    {
      assert refs[i] == refs[k] ==> i == k;
    }
  }

  lemma {:induction false} OneMore(layers: seq<Layer>, order: seq<Ref>, r: Ref)
    requires Distinct(order) && r !in order && IsRef(layers, r) && forall o :: o in order ==> IsRef(layers, o)
    ensures Distinct(order + [r]) && forall o :: o in order + [r] ==> IsRef(layers, o)
    ensures Picked(layers, order + [r]) == Picked(layers, order) + [At(layers, r)]
  {
    DistinctGrows(order, r);
  }

  /** Lines 172-178. */
  method ApplyException(layers: seq<Layer>, now: int, t: Tally, indexes: map<Ref, nat>, r: Ref, ghost order: seq<Ref>)
    returns (after: Tally, ghost orderAfter: seq<Ref>)
    requires IsTally(layers, now, t, order) && IsIndex(Refs(layers, |layers|), indexes) && IsRef(layers, r)
    ensures IsTally(layers, now, after, orderAfter)
    ensures after.seen == t.seen + {r} && after.decisions == t.decisions && after.verdict == t.verdict
  {
    RefsListAll(layers, |layers|);
    assert r in Refs(layers, |layers|);
    var k := indexes[r];
    MarkApplied(layers, now, t.seen, t.dispositions, k, r);
    after, orderAfter := t.(dispositions := t.dispositions[k := t.dispositions[k].(disposition := APPLIED)]), order;
    if r !in t.seen {
      OneMore(layers, order, r);
      orderAfter := order + [r];
      after := after.(seen := t.seen + {r}, applied := t.applied + [layers[r.layer].exceptions[r.place]]);
    } else {
      assert t.seen + {r} == t.seen;
    }
  }

  /** Lines 171-179. */
  method ApplyMatching(
    layers: seq<Layer>, now: int, t: Tally, indexes: map<Ref, nat>, l: nat, matching: seq<nat>, ghost order: seq<Ref>)
    returns (after: Tally, ghost orderAfter: seq<Ref>)
    requires IsTally(layers, now, t, order) && IsIndex(Refs(layers, |layers|), indexes)
    requires l < |layers| && forall x :: x in matching ==> x < |layers[l].exceptions|
    ensures IsTally(layers, now, after, orderAfter)
    ensures forall r :: r in after.seen <==> r in t.seen || (r.layer == l && r.place in matching)
    ensures after.decisions == t.decisions && after.verdict == t.verdict
  {
    after, orderAfter := t, order;
    for i := 0 to |matching|
      invariant IsTally(layers, now, after, orderAfter)
      invariant forall r :: r in after.seen <==> r in t.seen || (r.layer == l && r.place in matching[..i])
      invariant after.decisions == t.decisions && after.verdict == t.verdict
    {
      assert matching[..i + 1] == matching[..i] + [matching[i]] && matching[i] in matching;
      after, orderAfter := ApplyException(layers, now, after, indexes, Ref(l, matching[i]), orderAfter);
    }
    assert matching[..|matching|] == matching;
  }

  /** Lines 157-182: one layer judges one finding. */
  method JudgeLayer(
    rules: Rules, layers: seq<Layer>, f: Change, now: int, l: nat, t: Tally, indexes: map<Ref, nat>, ghost order: seq<Ref>)
    returns (after: Tally, ghost orderAfter: seq<Ref>)
    requires IsTally(layers, now, t, order) && IsIndex(Refs(layers, |layers|), indexes) && l < |layers|
    ensures IsTally(layers, now, after, orderAfter)
    ensures after.decisions == t.decisions + DecisionAt(rules, f, now)(layers[l])
    ensures after.verdict.Fail? <==> t.verdict.Fail? || Objects(rules, layers[l], f, now)
    ensures forall r :: r in after.seen <==>
      r in t.seen || (IsRef(layers, r) && r.layer == l && UsedFor(rules, layers, f, now, r))
  {
    var layer := layers[l];
    var contribution := Contribution(layer, f);
    after, orderAfter := t, order;
    if contribution.None? {
      return;
    }
    var matching := MatchingExceptions(rules, layer, f, now);
    var decision := Decision(f, contribution.value, layer.source, layer.name, matching != []);
    after, orderAfter := ApplyMatching(layers, now, t, indexes, l, matching, order);
    after := after.(decisions := t.decisions + [decision]);
    if contribution.value == FAIL && !decision.excepted {
      after := after.(verdict := Fail);
    }
  }

  /** Lines 156-183: all layers judge one finding. */
  method JudgeFinding(
    rules: Rules, layers: seq<Layer>, f: Change, now: int, t: Tally, indexes: map<Ref, nat>, ghost order: seq<Ref>)
    returns (after: Tally, ghost orderAfter: seq<Ref>)
    requires IsTally(layers, now, t, order) && IsIndex(Refs(layers, |layers|), indexes)
    ensures IsTally(layers, now, after, orderAfter)
    ensures after.decisions == t.decisions + DecisionsAt(rules, layers, now)(f)
    ensures after.verdict.Fail? <==> t.verdict.Fail? || ObjectedBy(rules, layers, f, now, |layers|)
    ensures forall r :: r in after.seen <==> r in t.seen || (IsRef(layers, r) && UsedFor(rules, layers, f, now, r))
  {
    after, orderAfter := t, order;
    ghost var at, got := DecisionAt(rules, f, now), [];
    for l := 0 to |layers|
      invariant IsTally(layers, now, after, orderAfter)
      invariant IsGathered(at, layers, l, got) && after.decisions == t.decisions + got
      invariant after.verdict.Fail? <==> t.verdict.Fail? || ObjectedBy(rules, layers, f, now, l)
      invariant forall r :: r in after.seen <==>
        r in t.seen || (IsRef(layers, r) && r.layer < l && UsedFor(rules, layers, f, now, r))
    {
      after, orderAfter := JudgeLayer(rules, layers, f, now, l, after, indexes, orderAfter);
      GatherMore(at, layers, l, got, at(layers[l]));
      got := got + at(layers[l]);
    }
  }

  ghost predicate AreUsed(rules: Rules, layers: seq<Layer>, findings: seq<Change>, now: int, used: set<Ref>)
  {
    forall r :: r in used <==> IsRef(layers, r) && IsUsed(rules, layers, findings, now, r)
  }

  /** What evaluation promises: the decisions; the verdict, which fails exactly when some
      layer objects to some finding; each exception that excused something once, in the given
      order; and what became of every exception, in the order of the layers. */
  ghost predicate IsResult(
    rules: Rules, layers: seq<Layer>, findings: seq<Change>, now: int, result: PolicyResult,
    used: set<Ref>, order: seq<Ref>)
  {
    && result.decisions == Decisions(rules, layers, findings, now)
    && (result.verdict.Fail? <==> SomeoneObjects(rules, layers, findings, now))
    && AreUsed(rules, layers, findings, now, used)
    && Distinct(order) && (forall r :: r in order <==> r in used)
    && (forall r :: r in order ==> IsRef(layers, r)) && result.applied == Picked(layers, order)
    && DispositionsAre(layers, now, used, result.dispositions)
  }

  /** `EvaluateFindings`. */
  method EvaluateFindings(rules: Rules, layers: seq<Layer>, findings: seq<Change>, now: int)
    returns (result: PolicyResult)
    ensures exists used, order :: IsResult(rules, layers, findings, now, result, used, order)
    ensures result.verdict.Fail? <==> IsCondemned(rules, layers, findings, now)
  {
    VerdictIff(rules, layers, findings, now);
    var dispositions, indexes := ListDispositions(layers, now);
    var t := Tally(Pass, [], [], dispositions, {});
    ghost var order: seq<Ref> := [];
    ghost var at := DecisionsAt(rules, layers, now);
    for i := 0 to |findings|
      invariant IsTally(layers, now, t, order)
      invariant IsGathered(at, findings, i, t.decisions)
      invariant t.verdict.Fail? <==> ObjectedTo(rules, layers, findings, now, i)
      invariant forall r :: r in t.seen <==> IsRef(layers, r) && UsedIn(rules, layers, findings, now, r, i)
    {
      ghost var before := t.decisions;
      t, order := JudgeFinding(rules, layers, findings[i], now, t, indexes, order);
      GatherMore(at, findings, i, before, at(findings[i]));
    }
    result := PolicyResult(t.verdict, t.decisions, t.applied, t.dispositions);
    ObjectionsMean(rules, layers, findings, now);
    UsedMeans(rules, layers, findings, now, t.seen);
    assert IsResult(rules, layers, findings, now, result, t.seen, order);
  }

  lemma {:induction false} UsedMeans(rules: Rules, layers: seq<Layer>, findings: seq<Change>, now: int, used: set<Ref>)
    requires forall r :: r in used <==> IsRef(layers, r) && UsedIn(rules, layers, findings, now, r, |findings|)
    ensures AreUsed(rules, layers, findings, now, used)
  {
    forall r | IsRef(layers, r)
      ensures UsedIn(rules, layers, findings, now, r, |findings|) <==> IsUsed(rules, layers, findings, now, r)
    {
      UsedInMeans(rules, layers, findings, now, r, |findings|);
      if IsUsed(rules, layers, findings, now, r) {
        var f :| f in findings && UsedFor(rules, layers, f, now, r);
        var i :| 0 <= i < |findings| && findings[i] == f;
      }
    }
  }

  // ----- The verdict in plain terms ------------------------------------------------------

  /** What the layer says about the finding: its own level for the rule or, if it is the
      repository's and has none, `fail` for a breaking change and `allow` for any other. */
  ghost predicate Says(l: Layer, f: Change, level: string)
  {
    || (f.rule in l.rules && level == l.rules[f.rule])
    || (f.rule !in l.rules && l.source == "repository" && f.severity == "breaking" && level == "fail")
    || (f.rule !in l.rules && l.source == "repository" && f.severity != "breaking" && level == "allow")
  }

  /** The exception is complete, of the layer's source and still running, and names either this
      finding or its rule. */
  ghost predicate Covers(rules: Rules, l: Layer, e: Exception, f: Change, now: int)
  {
    && e.source == l.source && now < e.expiresAt && e.expiresAt != 0
    && rules.isReason(e.reason) && rules.identity(e.author, false)
    && rules.identity(e.finding, true) && rules.identity(e.rule, true)
    && ((e.rule == "" && e.finding == f.id != "" && rules.isDigest(f.id))
        || (e.finding == "" && e.rule == f.rule != "" && f.rule in rules.registry))
  }

  ghost predicate IsCovered(rules: Rules, l: Layer, f: Change, now: int)
  {
    exists e :: e in l.exceptions && Covers(rules, l, e, f, now)
  }

  /** Some layer says `fail` about some finding, and no exception of that layer covers it. */
  ghost predicate IsCondemned(rules: Rules, layers: seq<Layer>, findings: seq<Change>, now: int)
  {
    exists l, f :: l in layers && f in findings && Says(l, f, "fail") && !IsCovered(rules, l, f, now)
  }

  lemma {:induction false} ExcusedIffCovered(rules: Rules, l: Layer, f: Change, now: int)
    ensures IsExcused(rules, l, f, now) <==> IsCovered(rules, l, f, now)
  {
    forall e ensures Excuses(rules, l, e, f, now) <==> Covers(rules, l, e, f, now) {
    }
  }

  /** A verdict fails exactly on a `fail` that is not covered. */
  lemma {:induction false} VerdictIff(rules: Rules, layers: seq<Layer>, findings: seq<Change>, now: int)
    ensures SomeoneObjects(rules, layers, findings, now) <==> IsCondemned(rules, layers, findings, now)
  {
    forall l, f ensures Objects(rules, l, f, now) <==> Says(l, f, "fail") && !IsCovered(rules, l, f, now) {
      ExcusedIffCovered(rules, l, f, now);
    }
    if l, f :| l in layers && f in findings && Objects(rules, l, f, now) {
      assert Says(l, f, "fail") && !IsCovered(rules, l, f, now);
    }
    if l, f :| l in layers && f in findings && Says(l, f, "fail") && !IsCovered(rules, l, f, now) {
      assert Objects(rules, l, f, now);
    }
  }

  /** A server layer's `fail` on a finding stands however many of its exceptions have expired. */
  lemma {:induction false} ExpiredExcusesNothing(
    rules: Rules, layers: seq<Layer>, findings: seq<Change>, now: int, l: Layer, f: Change)
    requires l in layers && f in findings && f.rule in l.rules && l.rules[f.rule] == "fail"
    requires forall e :: e in l.exceptions && (e.finding == f.id || e.rule == f.rule) ==> e.expiresAt <= now
    ensures IsCondemned(rules, layers, findings, now)
  {
    assert Says(l, f, "fail");
    assert !IsCovered(rules, l, f, now);
  }

  /** The decisions are just what the layers say about the findings, each marked with whether
      an exception of its layer covers the finding. */
  lemma {:induction false} DecisionsMean(
    rules: Rules, layers: seq<Layer>, findings: seq<Change>, now: int, d: Decision)
    ensures d in Decisions(rules, layers, findings, now) <==>
      exists l :: l in layers && DecidedBy(rules, l, findings, now, d)
  {
    var of := DecisionsAt(rules, layers, now);
    InGathered(of, findings, |findings|, d);
    forall i | 0 <= i < |findings| ensures d in of(findings[i]) <==> DecidedOn(rules, layers, findings[i], now, d) {
      InGathered(DecisionAt(rules, findings[i], now), layers, |layers|, d);
      if j :| 0 <= j < |layers| && d in DecisionAt(rules, findings[i], now)(layers[j]) {
        DecisionIs(rules, layers[j], findings[i], now, d);
        assert layers[j] in layers;
      }
      if l :| l in layers && DecidedBy(rules, l, [findings[i]], now, d) {
        DecisionIs(rules, l, findings[i], now, d);
        var j :| 0 <= j < |layers| && layers[j] == l;
      }
    }
    if i :| 0 <= i < |findings| && DecidedOn(rules, layers, findings[i], now, d) {
      var l :| l in layers && DecidedBy(rules, l, [findings[i]], now, d);
      assert findings[i] in findings && DecidedBy(rules, l, findings, now, d);
    }
    if l :| l in layers && DecidedBy(rules, l, findings, now, d) {
      var i :| 0 <= i < |findings| && findings[i] == d.finding;
      assert d.finding in [findings[i]];
      assert DecidedOn(rules, layers, findings[i], now, d);
    }
  }

  ghost predicate DecidedBy(rules: Rules, l: Layer, findings: seq<Change>, now: int, d: Decision)
  {
    && d.finding in findings && Says(l, d.finding, d.level) && d.source == l.source && d.layer == l.name
    && (d.excepted <==> IsCovered(rules, l, d.finding, now))
  }

  ghost predicate DecidedOn(rules: Rules, layers: seq<Layer>, f: Change, now: int, d: Decision)
  {
    exists l :: l in layers && DecidedBy(rules, l, [f], now, d)
  }

  lemma {:induction false} DecisionIs(rules: Rules, l: Layer, f: Change, now: int, d: Decision)
    ensures d in DecisionAt(rules, f, now)(l) <==> DecidedBy(rules, l, [f], now, d)
  {
    ExcusedIffCovered(rules, l, f, now);
  }

  /** The layer speaks about some finding that the exception covers. */
  ghost predicate IsInvoked(rules: Rules, layers: seq<Layer>, findings: seq<Change>, now: int, r: Ref)
    requires IsRef(layers, r)
  {
    exists f, level :: f in findings && Says(layers[r.layer], f, level) && Covers(rules, layers[r.layer], At(layers, r), f, now)
  }

  /** An exception is reported as applied exactly when it is invoked and, of the others, as expired
      exactly when its time is over. */
  lemma {:induction false} DispositionsMean(
    rules: Rules, layers: seq<Layer>, findings: seq<Change>, now: int, used: set<Ref>, r: Ref)
    requires AreUsed(rules, layers, findings, now, used) && IsRef(layers, r)
    ensures
      var d, e := DispositionOf(layers, now, used, r), layers[r.layer].exceptions[r.place];
      && d.layer == layers[r.layer].name && d.exception_ == e
      && (IsInvoked(rules, layers, findings, now, r) ==> d.disposition == "applied")
      && (!IsInvoked(rules, layers, findings, now, r) && e.expiresAt <= now ==> d.disposition == "expired")
      && (!IsInvoked(rules, layers, findings, now, r) && now < e.expiresAt ==> d.disposition == "not_applicable")
  {
    var l := layers[r.layer];
    forall f | f in findings
      ensures UsedFor(rules, layers, f, now, r) <==>
        (exists level :: Says(l, f, level)) && Covers(rules, l, At(layers, r), f, now)
    {
      if Contribution(l, f).Some? {
        assert Says(l, f, Contribution(l, f).value);
      }
    }
    if IsUsed(rules, layers, findings, now, r) {
      var f :| f in findings && UsedFor(rules, layers, f, now, r);
      var level :| Says(l, f, level);
      assert IsInvoked(rules, layers, findings, now, r);
    }
    if IsInvoked(rules, layers, findings, now, r) {
      var f, level :| f in findings && Says(l, f, level) && Covers(rules, l, At(layers, r), f, now);
      assert UsedFor(rules, layers, f, now, r);
    }
  }

  // ----- Merging in plain terms ----------------------------------------------------------

  /** The level is as strict as the other. */
  ghost predicate IsAsStrict(level: string, other: string)
  {
    level == "fail" || other == "allow" || (level == "warn" && other == "warn")
  }

  /** What the repository layer says about a supported rule. */
  ghost predicate Asks(rules: Rules, repository: Layer, rule: string, level: string)
  {
    || (rule in repository.rules && level == repository.rules[rule])
    || (rule !in repository.rules && rule in rules.registry && level == rules.registry[rule])
  }

  /** Layers merge exactly when the first is the repository's, all others are a server's, each is
      valid, and no server level is less strict than what the repository asks, be it by its
      own rule or by default. */
  lemma {:induction false} MergesIff(rules: Rules, layers: seq<Layer>)
    requires Fair(rules)
    ensures CanMerge(rules, layers) <==>
      && layers != [] && layers[0].source == "repository"
      && (forall i :: 1 <= i < |layers| ==> layers[i].source == "server")
      && (forall i :: 0 <= i < |layers| ==> IsLayer(rules, layers[i]))
      && forall i, r, level :: 1 <= i < |layers| && r in layers[i].rules && Asks(rules, layers[0], r, level) ==>
        IsAsStrict(layers[i].rules[r], level)
  {
    if layers != [] && IsLayer(rules, layers[0]) {
      var whole := Completed(rules, layers[0]);
      forall r, level ensures Asks(rules, layers[0], r, level) <==> r in whole.rules && whole.rules[r] == level {
      }
      forall i | 1 <= i < |layers| && IsLayer(rules, layers[i])
        ensures Weakens(whole, layers[i]) <==>
          exists r, level :: r in layers[i].rules && Asks(rules, layers[0], r, level) && !IsAsStrict(layers[i].rules[r], level)
      {
        WeakensMeans(rules, layers[0], layers[i]);
      }
    }
  }

  lemma {:induction false} WeakensMeans(rules: Rules, repository: Layer, l: Layer)
    requires Fair(rules) && IsLayer(rules, repository) && IsLayer(rules, l)
    ensures Weakens(Completed(rules, repository), l) <==>
      exists r, level :: r in l.rules && Asks(rules, repository, r, level) && !IsAsStrict(l.rules[r], level)
  {
    var whole := Completed(rules, repository);
    if Weakens(whole, l) {
      var r :| r in l.rules && r in whole.rules && Rank(l.rules[r]) < Rank(whole.rules[r]);
      assert Asks(rules, repository, r, whole.rules[r]);
    }
    if r, level :| r in l.rules && Asks(rules, repository, r, level) && !IsAsStrict(l.rules[r], level) {
      assert r in whole.rules && whole.rules[r] == level;
    }
  }

  // ----- The sorted result ---------------------------------------------------------------

  /** The fields that `comparePolicyExceptions` compares. */
  function ExceptionFields(rules: Rules, e: Exception): seq<string>
  {
    [e.finding, e.rule, e.reason, e.author, rules.stamp(e.expiresAt), e.source]
  }

  function ExceptionKey(rules: Rules): Exception -> seq<string>
  {
    e => ExceptionFields(rules, e)
  }

  /** The fields that `compareSpecChanges` and then `sortPolicyResult` compare. */
  function DecisionKey(d: Decision): seq<string>
  {
    [d.finding.rule, d.finding.subject, d.finding.id, d.finding.severity, d.finding.kind, d.finding.description,
     d.source, d.layer, d.level, if d.excepted then "1" else "0"]
  }

  function DispositionKey(rules: Rules): Disposition -> seq<string>
  {
    (d: Disposition) => [d.exception_.source, d.layer] + ExceptionFields(rules, d.exception_) + [d.disposition]
  }

  function SortedExceptions(rules: Rules, es: seq<Exception>): seq<Exception>
  {
    Sort(By(ExceptionKey(rules)), es)
  }

  /** `sortPolicyResult`. */
  function SortedResult(rules: Rules, r: PolicyResult): PolicyResult
  {
    PolicyResult(
      r.verdict, Sort(By(DecisionKey), r.decisions), SortedExceptions(rules, r.applied),
      Sort(By(DispositionKey(rules)), r.dispositions))
  }

  lemma {:induction false} ExceptionFieldsTell(rules: Rules, a: Exception, b: Exception)
    requires Fair(rules) && ExceptionFields(rules, a) == ExceptionFields(rules, b)
    ensures a == b
  {
    var x, y := ExceptionFields(rules, a), ExceptionFields(rules, b);
    assert x[0] == y[0] && x[1] == y[1] && x[2] == y[2] && x[3] == y[3] && x[4] == y[4] && x[5] == y[5];
  }

  /** No two different exceptions are tied. */
  lemma {:induction false} ExceptionsAreTold(rules: Rules, es: seq<Exception>)
    requires Fair(rules)
    ensures Told(ExceptionKey(rules), es)
  {
    forall i, j | 0 <= i < |es| && 0 <= j < |es| && ExceptionKey(rules)(es[i]) == ExceptionKey(rules)(es[j])
      ensures es[i] == es[j]
    {
      ExceptionFieldsTell(rules, es[i], es[j]);
    }
  }

  /** No two different decisions are tied. */
  lemma {:induction false} DecisionsAreTold(ds: seq<Decision>)
    ensures Told(DecisionKey, ds)
  {
    forall i, j | 0 <= i < |ds| && 0 <= j < |ds| && DecisionKey(ds[i]) == DecisionKey(ds[j]) ensures ds[i] == ds[j] {
      var x, y := DecisionKey(ds[i]), DecisionKey(ds[j]);
      assert x[0] == y[0] && x[1] == y[1] && x[2] == y[2] && x[3] == y[3] && x[4] == y[4];
      assert x[5] == y[5] && x[6] == y[6] && x[7] == y[7] && x[8] == y[8] && x[9] == y[9];
      assert "1"[0] != "0"[0];
    }
  }

  /** No two different dispositions are tied. */
  lemma {:induction false} DispositionsAreTold(rules: Rules, ds: seq<Disposition>)
    requires Fair(rules)
    ensures Told(DispositionKey(rules), ds)
  {
    forall i, j | 0 <= i < |ds| && 0 <= j < |ds| && DispositionKey(rules)(ds[i]) == DispositionKey(rules)(ds[j])
      ensures ds[i] == ds[j]
    {
      var x, y := DispositionKey(rules)(ds[i]), DispositionKey(rules)(ds[j]);
      assert x[1] == y[1] && x[8] == y[8];
      assert x[2..8] == ExceptionFields(rules, ds[i].exception_) && y[2..8] == ExceptionFields(rules, ds[j].exception_);
      ExceptionFieldsTell(rules, ds[i].exception_, ds[j].exception_);
    }
  }

  lemma {:induction false} SameElementsSameCount<T>(xs: seq<T>, ys: seq<T>)
    requires Distinct(xs) && Distinct(ys) && forall x :: x in xs <==> x in ys
    ensures multiset(xs) == multiset(ys)
  {
    forall v ensures multiset(xs)[v] == multiset(ys)[v] {
      DistinctCount(xs, v);
      DistinctCount(ys, v);
      assert v in xs <==> v in multiset(xs);
      assert v in ys <==> v in multiset(ys);
    }
  }

  function ExceptionAt(layers: seq<Layer>): Ref -> Exception
  {
    r => if IsRef(layers, r) then At(layers, r) else Exception("", "", "", "", 0, "")
  }

  /** The same places in another order hold the same exceptions. */
  lemma {:induction false} PickedCount(layers: seq<Layer>, a: seq<Ref>, b: seq<Ref>)
    requires multiset(a) == multiset(b)
    requires (forall r :: r in a ==> IsRef(layers, r)) && forall r :: r in b ==> IsRef(layers, r)
    ensures multiset(Picked(layers, a)) == multiset(Picked(layers, b))
  {
    PickedIsMapped(layers, a);
    PickedIsMapped(layers, b);
    MappedCount(ExceptionAt(layers), a, b);
  }

  lemma {:induction false} PickedIsMapped(layers: seq<Layer>, refs: seq<Ref>)
    requires forall r :: r in refs ==> IsRef(layers, r)
    ensures Picked(layers, refs) == Mapped(ExceptionAt(layers), refs)
  {
    forall i | 0 <= i < |refs| ensures Picked(layers, refs)[i] == ExceptionAt(layers)(refs[i]) {
      assert refs[i] in refs;
    }
  }

  /** Evaluation has one sorted result, whatever order its loops and sorts happen to use. */
  lemma {:induction false} OneSortedResult(
    rules: Rules, layers: seq<Layer>, findings: seq<Change>, now: int,
    a: PolicyResult, usedA: set<Ref>, orderA: seq<Ref>, b: PolicyResult, usedB: set<Ref>, orderB: seq<Ref>)
    requires Fair(rules)
    requires IsResult(rules, layers, findings, now, a, usedA, orderA)
    requires IsResult(rules, layers, findings, now, b, usedB, orderB)
    ensures SortedResult(rules, a) == SortedResult(rules, b)
  {
    assert forall r :: r in usedA <==> r in usedB;
    assert usedA == usedB;
    SameElementsSameCount(orderA, orderB);
    PickedCount(layers, orderA, orderB);
    ExceptionsAreTold(rules, a.applied);
    SortIgnoresOrder(ExceptionKey(rules), a.applied, b.applied);
    assert a.dispositions == b.dispositions;
  }

  /** A policy with more layers never lets pass what one with fewer layers fails. */
  lemma {:induction false} LayersOnlyTighten(
    rules: Rules, layers: seq<Layer>, more: seq<Layer>, findings: seq<Change>, now: int)
    requires SomeoneObjects(rules, layers, findings, now)
    ensures SomeoneObjects(rules, layers + more, findings, now)
  {
    var l, f :| l in layers && f in findings && Objects(rules, l, f, now);
    assert l in layers + more;
  }

  /** In a merged policy no server layer is milder on a rule than the repository is. */
  lemma {:induction false} ServersDoNotWeaken(rules: Rules, layers: seq<Layer>, i: nat, f: Change)
    requires Fair(rules) && CanMerge(rules, layers) && 0 < i < |layers|
    ensures var m := Merged(rules, layers).layers;
      Contribution(m[i], f).Some? ==>
      Contribution(m[0], f).Some? && Rank(Contribution(m[0], f).value) <= Rank(Contribution(m[i], f).value)
  {
    var m := Merged(rules, layers).layers;
    assert m[i] == layers[i] && IsServerLayer(rules, m[0], layers[i]);
    if f.rule in m[i].rules {
      assert f.rule in rules.registry && f.rule in m[0].rules;
    }
  }
}
