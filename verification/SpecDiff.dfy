/** The contract diff of domain/specdiff.go as functions: maps keyed by joined fields, walked
    in sorted order. */
module SpecDiff {
  import opened Ordering

  datatype Parameter = Parameter(name: string, location: string, required: bool)

  datatype Operation = Operation(
    method_: string, path: string, parameters: seq<Parameter>, bodyRequired: bool, statuses: seq<string>)

  datatype Snapshot = Snapshot(
    contract: string, revision: string, specDigest: string, contractDigest: string,
    operations: seq<Operation>, schemas: seq<string>)

  datatype Change = Change(
    id: string, rule: string, severity: string, kind: string, subject: string, description: string)

  datatype Wording = Wording(severity: string, kind: string, description: string)

  /** White-space normalisation of subjects, the digest of rule and subject, and the texts
      that belong to a rule. */
  datatype Text = Text(normal: string -> string, findingId: (string, string) -> string, wording: string -> Wording)

  const BREAKING := "breaking"

  const OPERATION_REMOVED := "operation.removed"
  const OPERATION_ADDED := "operation.added"
  const REQUIRED_PARAMETER_ADDED := "request.parameter.required_added"
  const PARAMETER_BECAME_REQUIRED := "request.parameter.became_required"
  const BODY_BECAME_REQUIRED := "request.body.became_required"
  const STATUS_REMOVED := "response.status.removed"
  const STATUS_ADDED := "response.status.added"
  const SCHEMA_REMOVED := "schema.removed"
  const SCHEMA_ADDED := "schema.added"

  /** `newSpecChange`, with the texts that belong to each rule. */
  function NewChange(text: Text, rule: string, subject: string): Change
  {
    var normal := text.normal(subject);
    var wording := text.wording(rule);
    Change(text.findingId(rule, normal), rule, wording.severity, wording.kind, normal, wording.description)
  }

  function Key(o: Operation): string { o.method_ + " " + o.path }

  function ParameterKey(p: Parameter): string { p.location + ":" + p.name }

  function ParameterSubject(p: Parameter): string
  {
    if p.location == "" then p.name else p.name + " (" + p.location + ")"
  }

  // ----- What changed, element by element ------------------------------------------------

  /** What `at` finds in the first `n` elements, one after the other. */
  function Gather<T, U>(at: T -> seq<U>, xs: seq<T>, n: nat): seq<U>
    requires n <= |xs|
  {
    if n == 0 then [] else Gather(at, xs, n - 1) + at(xs[n - 1])
  }

  function ParametersByKey(ps: seq<Parameter>, n: nat): map<string, Parameter>
    requires n <= |ps|
  {
    if n == 0 then map[] else ParametersByKey(ps, n - 1)[ParameterKey(ps[n - 1]) := ps[n - 1]]
  }

  function OperationsByKey(os: seq<Operation>, n: nat): map<string, Operation>
    requires n <= |os|
  {
    if n == 0 then map[] else OperationsByKey(os, n - 1)[Key(os[n - 1]) := os[n - 1]]
  }

  function All(os: seq<Operation>): map<string, Operation>
  {
    OperationsByKey(os, |os|)
  }

  /** The rule that candidate parameter `p` breaks, given the baseline's parameters. */
  function ParameterChange(text: Text, next: Operation, p: Parameter, before: map<string, Parameter>): seq<Change>
  {
    var subject := Key(next) + " " + ParameterSubject(p);
    if !p.required then []
    else if ParameterKey(p) !in before then [NewChange(text, REQUIRED_PARAMETER_ADDED, subject)]
    else if !before[ParameterKey(p)].required then [NewChange(text, PARAMETER_BECAME_REQUIRED, subject)]
    else []
  }

  function ParameterAt(text: Text, base: Operation, next: Operation): Parameter -> seq<Change>
  {
    p => ParameterChange(text, next, p, ParametersByKey(base.parameters, |base.parameters|))
  }

  function BodyChange(text: Text, base: Operation, next: Operation): seq<Change>
  {
    if next.bodyRequired && !base.bodyRequired then [NewChange(text, BODY_BECAME_REQUIRED, Key(next))] else []
  }

  /** A status of `from` that `to` lacks. */
  function StatusAt(text: Text, rule: string, from: Operation, to: Operation): string -> seq<Change>
  {
    s => if s in to.statuses then [] else [NewChange(text, rule, Key(from) + " " + s)]
  }

  function OperationBreaking(text: Text, base: Operation, next: Operation): seq<Change>
  {
    Gather(ParameterAt(text, base, next), next.parameters, |next.parameters|)
      + BodyChange(text, base, next)
      + Gather(StatusAt(text, STATUS_REMOVED, base, next), base.statuses, |base.statuses|)
  }

  function OperationAdditive(text: Text, base: Operation, next: Operation): seq<Change>
  {
    Gather(StatusAt(text, STATUS_ADDED, next, base), next.statuses, |next.statuses|)
  }

  /** What is breaking under a key of the baseline. */
  function BreakingAt(text: Text, base: map<string, Operation>, next: map<string, Operation>): string -> seq<Change>
  {
    k =>
      if k !in base then []
      else if k !in next then [NewChange(text, OPERATION_REMOVED, Key(base[k]))]
      else OperationBreaking(text, base[k], next[k])
  }

  function AdditiveAt(text: Text, base: map<string, Operation>, next: map<string, Operation>): string -> seq<Change>
  {
    k => if k !in base || k !in next then [] else OperationAdditive(text, base[k], next[k])
  }

  function AddedAt(text: Text, base: map<string, Operation>, next: map<string, Operation>): string -> seq<Change>
  {
    k => if k in base || k !in next then [] else [NewChange(text, OPERATION_ADDED, Key(next[k]))]
  }

  /** A schema name that is not `there`. */
  function SchemaAt(text: Text, rule: string, there: set<string>): string -> seq<Change>
  {
    name => if name in there then [] else [NewChange(text, rule, name)]
  }

  function Names(schemas: seq<string>): set<string>
  {
    set s | s in schemas
  }

  /** What `at` finds in a set, in sorted order. */
  function GatherSorted(at: string -> seq<Change>, keys: set<string>): seq<Change>
  {
    Gather(at, Listing(keys), |Listing(keys)|)
  }

  function Breaking(text: Text, base: Snapshot, next: Snapshot): seq<Change>
  {
    var b, n := All(base.operations), All(next.operations);
    GatherSorted(BreakingAt(text, b, n), b.Keys)
      + GatherSorted(SchemaAt(text, SCHEMA_REMOVED, Names(next.schemas)), Names(base.schemas))
  }

  function Additive(text: Text, base: Snapshot, next: Snapshot): seq<Change>
  {
    var b, n := All(base.operations), All(next.operations);
    GatherSorted(AdditiveAt(text, b, n), b.Keys)
      + GatherSorted(AddedAt(text, b, n), n.Keys)
      + GatherSorted(SchemaAt(text, SCHEMA_ADDED, Names(base.schemas)), Names(next.schemas))
  }

  /** The fields by which `sortSpecChanges` sorts. */
  function ChangeKey(c: Change): seq<string>
  {
    [c.rule, c.subject, c.id]
  }

  function SortedChanges(changes: seq<Change>): seq<Change>
  {
    Sort(By(ChangeKey), changes)
  }

  // ----- No distinguishable ties ---------------------------------------------------------

  /** Everything about a change follows from its rule and its subject. */
  ghost predicate IsNatural(text: Text, c: Change)
  {
    && c.id == text.findingId(c.rule, c.subject)
    && Wording(c.severity, c.kind, c.description) == text.wording(c.rule)
  }

  ghost predicate AreNatural(text: Text, cs: seq<Change>)
  {
    forall c :: c in cs ==> IsNatural(text, c)
  }

  lemma {:induction false} GatherNatural<T>(text: Text, at: T -> seq<Change>, xs: seq<T>, n: nat)
    requires n <= |xs| && forall x :: x in xs ==> AreNatural(text, at(x))
    ensures AreNatural(text, Gather(at, xs, n))
  {
    if n > 0 {
      GatherNatural(text, at, xs, n - 1);
      assert AreNatural(text, at(xs[n - 1]));
    }
  }

  lemma {:induction false} OperationChangesNatural(text: Text, base: Operation, next: Operation)
    ensures AreNatural(text, OperationBreaking(text, base, next)) && AreNatural(text, OperationAdditive(text, base, next))
  {
    GatherNatural(text, ParameterAt(text, base, next), next.parameters, |next.parameters|);
    GatherNatural(text, StatusAt(text, STATUS_REMOVED, base, next), base.statuses, |base.statuses|);
    GatherNatural(text, StatusAt(text, STATUS_ADDED, next, base), next.statuses, |next.statuses|);
  }

  lemma {:induction false} AtNatural(text: Text, base: map<string, Operation>, next: map<string, Operation>, k: string)
    ensures AreNatural(text, BreakingAt(text, base, next)(k)) && AreNatural(text, AdditiveAt(text, base, next)(k))
    ensures AreNatural(text, AddedAt(text, base, next)(k))
  {
    if k in base && k in next {
      OperationChangesNatural(text, base[k], next[k]);
    }
  }

  lemma {:induction false} ChangesAreNatural(text: Text, base: Snapshot, next: Snapshot)
    ensures AreNatural(text, Breaking(text, base, next)) && AreNatural(text, Additive(text, base, next))
  {
    var b, n := All(base.operations), All(next.operations);
    forall k
      ensures AreNatural(text, BreakingAt(text, b, n)(k)) && AreNatural(text, AdditiveAt(text, b, n)(k))
      ensures AreNatural(text, AddedAt(text, b, n)(k))
    {
      AtNatural(text, b, n, k);
    }
    GatherNatural(text, BreakingAt(text, b, n), Listing(b.Keys), |Listing(b.Keys)|);
    GatherNatural(text, AdditiveAt(text, b, n), Listing(b.Keys), |Listing(b.Keys)|);
    GatherNatural(text, AddedAt(text, b, n), Listing(n.Keys), |Listing(n.Keys)|);
    SchemasNatural(text, SCHEMA_REMOVED, Names(next.schemas), Names(base.schemas));
    SchemasNatural(text, SCHEMA_ADDED, Names(base.schemas), Names(next.schemas));
  }

  lemma {:induction false} SchemasNatural(text: Text, rule: string, there: set<string>, here: set<string>)
    ensures AreNatural(text, GatherSorted(SchemaAt(text, rule, there), here))
  {
    GatherNatural(text, SchemaAt(text, rule, there), Listing(here), |Listing(here)|);
  }

  /** Sorting changes by rule, subject and identity leaves no distinguishable ties. */
  lemma {:induction false} NaturalChangesAreTold(text: Text, cs: seq<Change>)
    requires AreNatural(text, cs)
    ensures Told(ChangeKey, cs)
  {
    forall i, j | 0 <= i < |cs| && 0 <= j < |cs| && ChangeKey(cs[i]) == ChangeKey(cs[j]) ensures cs[i] == cs[j] {
      assert cs[i] in cs && cs[j] in cs;
      assert cs[i].rule == ChangeKey(cs[i])[0] && cs[j].rule == ChangeKey(cs[j])[0];
      assert cs[i].subject == ChangeKey(cs[i])[1] && cs[j].subject == ChangeKey(cs[j])[1];
    }
  }

  // ----- Gathering ------------------------------------------------------------------------

  ghost predicate IsGathered<T, U>(at: T -> seq<U>, xs: seq<T>, n: nat, got: seq<U>)
  {
    n <= |xs| && got == Gather(at, xs, n)
  }

  lemma {:induction false} GatherMore<T, U>(at: T -> seq<U>, xs: seq<T>, n: nat, got: seq<U>, more: seq<U>)
    requires IsGathered(at, xs, n, got) && n < |xs| && more == at(xs[n])
    ensures IsGathered(at, xs, n + 1, got + more)
  {
  }

  lemma {:induction false} InGathered<T, U>(at: T -> seq<U>, xs: seq<T>, n: nat, c: U)
    requires n <= |xs|
    ensures c in Gather(at, xs, n) <==> exists i :: 0 <= i < n && c in at(xs[i])
  {
    if n > 0 {
      InGathered(at, xs, n - 1, c);
    }
  }

  /** What is gathered from a list is what some element of it gives. */
  lemma {:induction false} GatheredFrom<T, U>(at: T -> seq<U>, xs: seq<T>, c: U) returns (x: T)
    requires c in Gather(at, xs, |xs|)
    ensures x in xs && c in at(x)
  {
    InGathered(at, xs, |xs|, c);
    var i :| 0 <= i < |xs| && c in at(xs[i]);
    x := xs[i];
  }

  lemma {:induction false} GatheredBy<T, U>(at: T -> seq<U>, xs: seq<T>, x: T, c: U)
    requires x in xs && c in at(x)
    ensures c in Gather(at, xs, |xs|)
  {
    var i := PlaceOf(x, xs);
    assert c in at(xs[i]);
    InGathered(at, xs, |xs|, c);
  }
}
