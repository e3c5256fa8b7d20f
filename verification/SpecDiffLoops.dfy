/** The loops of domain/specdiff.go, proved against the functions of `SpecDiff`. */
module SpecDiffLoops {
  import opened Ordering
  import opened SpecDiff
  import opened SpecDiffMeaning

  method IndexParameters(ps: seq<Parameter>) returns (byKey: map<string, Parameter>)
    ensures byKey == ParametersByKey(ps, |ps|)
  {
    byKey := map[];
    for i := 0 to |ps|
      invariant byKey == ParametersByKey(ps, i)
    {
      byKey := byKey[ParameterKey(ps[i]) := ps[i]];
    }
  }

  method IndexOperations(os: seq<Operation>) returns (byKey: map<string, Operation>)
    ensures byKey == All(os)
  {
    byKey := map[];
    for i := 0 to |os|
      invariant byKey == OperationsByKey(os, i)
    {
      byKey := byKey[Key(os[i]) := os[i]];
    }
  }

  /** `contractOperationBreakingChanges`, first loop. */
  method ParameterBreakingChanges(text: Text, base: Operation, next: Operation) returns (changes: seq<Change>)
    ensures changes == Gather(ParameterAt(text, base, next), next.parameters, |next.parameters|)
  {
    changes := [];
    var before := IndexParameters(base.parameters);
    for i := 0 to |next.parameters|
      invariant changes == Gather(ParameterAt(text, base, next), next.parameters, i)
    {
      var p := next.parameters[i];
      if p.required {
        var subject := Key(next) + " " + ParameterSubject(p);
        if ParameterKey(p) !in before {
          changes := changes + [NewChange(text, REQUIRED_PARAMETER_ADDED, subject)];
        } else if !before[ParameterKey(p)].required {
          changes := changes + [NewChange(text, PARAMETER_BECAME_REQUIRED, subject)];
        }
      }
    }
  }

  /** The status loops of `contractOperationBreakingChanges` and `…AdditiveChanges`. */
  method StatusChanges(text: Text, rule: string, from: Operation, to: Operation) returns (changes: seq<Change>)
    ensures changes == Gather(StatusAt(text, rule, from, to), from.statuses, |from.statuses|)
  {
    changes := [];
    for i := 0 to |from.statuses|
      invariant changes == Gather(StatusAt(text, rule, from, to), from.statuses, i)
    {
      if from.statuses[i] !in to.statuses {
        changes := changes + [NewChange(text, rule, Key(from) + " " + from.statuses[i])];
      }
    }
  }

  method OperationBreakingChanges(text: Text, base: Operation, next: Operation) returns (changes: seq<Change>)
    ensures changes == OperationBreaking(text, base, next)
  {
    changes := ParameterBreakingChanges(text, base, next);
    if next.bodyRequired && !base.bodyRequired {
      changes := changes + [NewChange(text, BODY_BECAME_REQUIRED, Key(next))];
    }
    var removed := StatusChanges(text, STATUS_REMOVED, base, next);
    changes := changes + removed;
  }

  /** Lines 79-92: what is found under one key of the baseline. */
  method MatchOperation(
    text: Text, base: map<string, Operation>, next: map<string, Operation>, k: string,
    ghost breakingAt: string -> seq<Change>, ghost additiveAt: string -> seq<Change>)
    returns (breaking: seq<Change>, additive: seq<Change>)
    requires k in base
    requires breakingAt == BreakingAt(text, base, next) && additiveAt == AdditiveAt(text, base, next)
    ensures breaking == breakingAt(k) && additive == additiveAt(k)
  {
    if k !in next {
      return [NewChange(text, OPERATION_REMOVED, Key(base[k]))], [];
    }
    breaking := OperationBreakingChanges(text, base[k], next[k]);
    additive := StatusChanges(text, STATUS_ADDED, next[k], base[k]);
  }

  /** Lines 78-93. */
  method MatchedOperations(text: Text, base: map<string, Operation>, next: map<string, Operation>)
    returns (breaking: seq<Change>, additive: seq<Change>)
    ensures breaking == GatherSorted(BreakingAt(text, base, next), base.Keys)
    ensures additive == GatherSorted(AdditiveAt(text, base, next), base.Keys)
  {
    breaking, additive := [], [];
    var keys := Listing(base.Keys);
    ghost var breakingAt, additiveAt := BreakingAt(text, base, next), AdditiveAt(text, base, next);
    for i := 0 to |keys|
      invariant IsGathered(breakingAt, keys, i, breaking)
      invariant IsGathered(additiveAt, keys, i, additive)
    {
      var broken, added := MatchOperation(text, base, next, keys[i], breakingAt, additiveAt);
      GatherMore(breakingAt, keys, i, breaking, broken);
      GatherMore(additiveAt, keys, i, additive, added);
      breaking, additive := breaking + broken, additive + added;
    }
  }

  /** Lines 95-105: an operation that is new under its key. */
  method AddedOperation(text: Text, base: map<string, Operation>, next: map<string, Operation>, k: string)
    returns (additive: seq<Change>)
    requires k in next
    ensures additive == AddedAt(text, base, next)(k)
  {
    additive := if k in base then [] else [NewChange(text, OPERATION_ADDED, Key(next[k]))];
  }

  /** Lines 94-106. */
  method AddedOperations(text: Text, base: map<string, Operation>, next: map<string, Operation>)
    returns (additive: seq<Change>)
    ensures additive == GatherSorted(AddedAt(text, base, next), next.Keys)
  {
    additive := [];
    var keys := Listing(next.Keys);
    for i := 0 to |keys|
      invariant additive == Gather(AddedAt(text, base, next), keys, i)
    {
      assert keys[i] in keys;
      var added := AddedOperation(text, base, next, keys[i]);
      additive := additive + added;
    }
  }

  /** Lines 108-133. */
  method SchemaDifferences(text: Text, rule: string, here: seq<string>, there: seq<string>) returns (changes: seq<Change>)
    ensures changes == GatherSorted(SchemaAt(text, rule, Names(there)), Names(here))
  {
    changes := [];
    var names := Listing(Names(here));
    for i := 0 to |names|
      invariant changes == Gather(SchemaAt(text, rule, Names(there)), names, i)
    {
      if names[i] !in there {
        changes := changes + [NewChange(text, rule, names[i])];
      }
    }
  }

  lemma {:induction false} SortedMembers(cs: seq<Change>)
    ensures forall c :: c in SortedChanges(cs) <==> c in cs
    ensures SortedChanges(cs) == [] <==> cs == []
  {
    forall c ensures c in SortedChanges(cs) <==> c in cs {
      assert c in multiset(SortedChanges(cs)) <==> c in multiset(cs);
    }
  }

  /** `diffValidatedContractSnapshots`. */
  method DiffSnapshots(text: Text, base: Snapshot, next: Snapshot) returns (breaking: seq<Change>, additive: seq<Change>)
    ensures breaking == SortedChanges(Breaking(text, base, next))
    ensures additive == SortedChanges(Additive(text, base, next))
    ensures IsUnique(base) && IsUnique(next) && KeysTell(base, next) ==>
      && (forall c :: c in breaking <==> IsBreaking(text, base, next, c))
      && (forall c :: c in additive <==> IsAdditive(text, base, next, c))
      && (breaking == [] <==> IsCompatible(base, next)) && (additive == [] <==> IsNothingNew(base, next))
  {
    var b := IndexOperations(base.operations);
    var n := IndexOperations(next.operations);
    breaking, additive := MatchedOperations(text, b, n);
    var added := AddedOperations(text, b, n);
    var removedSchemas := SchemaDifferences(text, SCHEMA_REMOVED, base.schemas, next.schemas);
    var addedSchemas := SchemaDifferences(text, SCHEMA_ADDED, next.schemas, base.schemas);
    breaking := SortedChanges(breaking + removedSchemas);
    additive := SortedChanges(additive + added + addedSchemas);
    SortedMembers(Breaking(text, base, next));
    SortedMembers(Additive(text, base, next));
    if IsUnique(base) && IsUnique(next) && KeysTell(base, next) {
      DiffIsRight(text, base, next);
      NothingBreaksIffCompatible(text, base, next);
      NothingAddedIffNothingNew(text, base, next);
    }
  }
}
