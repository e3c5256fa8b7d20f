/** What the contract diff of domain/specdiff.go finds, against a direct reading of what
    changed between two snapshots; and exactly when the joined keys allow that. */
module SpecDiffMeaning {
  import opened Ordering
  import opened SpecDiff

  // ----- What changed, read directly -----------------------------------------------------

  ghost predicate SameOperation(a: Operation, b: Operation) { a.method_ == b.method_ && a.path == b.path }

  ghost predicate SameParameter(a: Parameter, b: Parameter) { a.location == b.location && a.name == b.name }

  /** Operation `o` has a namesake in the snapshot. */
  ghost predicate IsIn(o: Operation, s: Snapshot)
  {
    exists x :: x in s.operations && SameOperation(o, x)
  }

  ghost predicate HasParameter(o: Operation, p: Parameter)
  {
    exists q :: q in o.parameters && SameParameter(q, p)
  }

  function ParameterText(next: Operation, p: Parameter): string
  {
    Key(next) + " " + ParameterSubject(p)
  }

  /** Parameter `p` of `next` is required, and clients of `base` did not know or did not need it. */
  ghost predicate IsParameterBreaking(text: Text, base: Operation, next: Operation, p: Parameter, c: Change)
  {
    && p.required
    && (|| (!HasParameter(base, p) && c == NewChange(text, REQUIRED_PARAMETER_ADDED, ParameterText(next, p)))
        || (HasOptional(base, p) && c == NewChange(text, PARAMETER_BECAME_REQUIRED, ParameterText(next, p))))
  }

  ghost predicate HasOptional(o: Operation, p: Parameter)
  {
    exists q :: q in o.parameters && SameParameter(q, p) && !q.required
  }

  ghost predicate SomeParameterBreaks(text: Text, base: Operation, next: Operation, c: Change)
  {
    exists p :: p in next.parameters && IsParameterBreaking(text, base, next, p, c)
  }

  /** A status of `from` that `to` lacks. */
  ghost predicate SomeStatusLost(text: Text, rule: string, from: Operation, to: Operation, c: Change)
  {
    exists s :: s in from.statuses && s !in to.statuses && c == NewChange(text, rule, Key(from) + " " + s)
  }

  ghost predicate IsOperationBreaking(text: Text, base: Operation, next: Operation, c: Change)
  {
    || SomeParameterBreaks(text, base, next, c)
    || (next.bodyRequired && !base.bodyRequired && c == NewChange(text, BODY_BECAME_REQUIRED, Key(next)))
    || SomeStatusLost(text, STATUS_REMOVED, base, next, c)
  }

  /** Some operation of `here` has no namesake `there`. */
  ghost predicate SomeOperationLost(text: Text, rule: string, here: Snapshot, there: Snapshot, c: Change)
  {
    exists o :: o in here.operations && !IsIn(o, there) && c == NewChange(text, rule, Key(o))
  }

  ghost predicate SomeSchemaLost(text: Text, rule: string, here: Snapshot, there: Snapshot, c: Change)
  {
    exists s :: s in here.schemas && s !in there.schemas && c == NewChange(text, rule, s)
  }

  ghost predicate AreNamesakes(base: Snapshot, next: Snapshot, b: Operation, n: Operation)
  {
    b in base.operations && n in next.operations && SameOperation(b, n)
  }

  ghost predicate SomePairBreaks(text: Text, base: Snapshot, next: Snapshot, c: Change)
  {
    exists b, n :: AreNamesakes(base, next, b, n) && IsOperationBreaking(text, b, n, c)
  }

  ghost predicate SomePairAdds(text: Text, base: Snapshot, next: Snapshot, c: Change)
  {
    exists b, n :: AreNamesakes(base, next, b, n) && SomeStatusLost(text, STATUS_ADDED, n, b, c)
  }

  /** The change is breaking: something that was there is gone, or something is newly required. */
  ghost predicate IsBreaking(text: Text, base: Snapshot, next: Snapshot, c: Change)
  {
    || SomeOperationLost(text, OPERATION_REMOVED, base, next, c)
    || SomePairBreaks(text, base, next, c)
    || SomeSchemaLost(text, SCHEMA_REMOVED, base, next, c)
  }

  /** The change is additive: something is there that was not. */
  ghost predicate IsAdditive(text: Text, base: Snapshot, next: Snapshot, c: Change)
  {
    || SomeOperationLost(text, OPERATION_ADDED, next, base, c)
    || SomePairAdds(text, base, next, c)
    || SomeSchemaLost(text, SCHEMA_ADDED, next, base, c)
  }

  /** The diff finds exactly the changes. */
  ghost predicate IsRight(text: Text, base: Snapshot, next: Snapshot)
  {
    && (forall c :: c in Breaking(text, base, next) <==> IsBreaking(text, base, next, c))
    && (forall c :: c in Additive(text, base, next) <==> IsAdditive(text, base, next, c))
  }

  // ----- Keys that tell identities apart -------------------------------------------------

  /** Operations and parameters have different identities, as snapshot validation demands. */
  ghost predicate IsUnique(s: Snapshot)
  {
    && (forall a, b :: a in s.operations && b in s.operations && SameOperation(a, b) ==> a == b)
    && (forall o :: o in s.operations ==> HasUniqueParameters(o))
  }

  ghost predicate HasUniqueParameters(o: Operation)
  {
    forall p, q :: p in o.parameters && q in o.parameters && SameParameter(p, q) ==> p == q
  }

  /** Across the two snapshots, equal keys mean equal identities. */
  ghost predicate KeysTell(base: Snapshot, next: Snapshot)
  {
    forall b, n :: b in base.operations && n in next.operations ==> PairTells(b, n)
  }

  ghost predicate PairTells(b: Operation, n: Operation)
  {
    && (Key(b) == Key(n) ==> SameOperation(b, n))
    && (SameOperation(b, n) ==> ParametersTell(b, n))
  }

  ghost predicate ParametersTell(b: Operation, n: Operation)
  {
    forall q, p :: q in b.parameters && p in n.parameters && ParameterKey(q) == ParameterKey(p) ==> SameParameter(q, p)
  }

  /** The map holds, under a key, an operation that has this key. */
  lemma {:induction false} HeldOperation(os: seq<Operation>, n: nat, k: string)
    requires n <= |os|
    ensures k in OperationsByKey(os, n) ==> OperationsByKey(os, n)[k] in os && Key(OperationsByKey(os, n)[k]) == k
    ensures k !in OperationsByKey(os, n) ==> forall i :: 0 <= i < n ==> Key(os[i]) != k
  {
    if n > 0 {
      HeldOperation(os, n - 1, k);
    }
  }

  lemma {:induction false} OperationAt(os: seq<Operation>, o: Operation)
    requires o in os
    ensures Key(o) in All(os) && All(os)[Key(o)] in os && Key(All(os)[Key(o)]) == Key(o)
  {
    HeldOperation(os, |os|, Key(o));
    var i := PlaceOf(o, os);
  }

  lemma {:induction false} HeldParameter(ps: seq<Parameter>, n: nat, k: string)
    requires n <= |ps|
    ensures k in ParametersByKey(ps, n) ==> ParametersByKey(ps, n)[k] in ps && ParameterKey(ParametersByKey(ps, n)[k]) == k
    ensures k !in ParametersByKey(ps, n) ==> forall i :: 0 <= i < n ==> ParameterKey(ps[i]) != k
  {
    if n > 0 {
      HeldParameter(ps, n - 1, k);
    }
  }

  /** What the map of the baseline says about a parameter of the candidate is the truth. */
  lemma {:induction false} ParameterFound(b: Operation, n: Operation, p: Parameter)
    requires HasUniqueParameters(b) && ParametersTell(b, n) && p in n.parameters
    ensures var m := ParametersByKey(b.parameters, |b.parameters|);
      && (ParameterKey(p) in m <==> HasParameter(b, p))
      && (ParameterKey(p) in m ==> (!m[ParameterKey(p)].required <==> HasOptional(b, p)))
      && (HasOptional(b, p) ==> HasParameter(b, p))
  {
    var m := ParametersByKey(b.parameters, |b.parameters|);
    HeldParameter(b.parameters, |b.parameters|, ParameterKey(p));
    if ParameterKey(p) in m {
      assert SameParameter(m[ParameterKey(p)], p);
    } else {
      forall q | q in b.parameters ensures !SameParameter(q, p) {
        var i := PlaceOf(q, b.parameters);
      }
    }
  }

  // ----- One operation -------------------------------------------------------------------

  lemma {:induction false} ParameterChangeIsExact(text: Text, b: Operation, n: Operation, p: Parameter, c: Change)
    requires HasUniqueParameters(b) && ParametersTell(b, n) && p in n.parameters
    ensures c in ParameterAt(text, b, n)(p) <==> IsParameterBreaking(text, b, n, p, c)
  {
    ParameterFound(b, n, p);
  }

  lemma {:induction false} ParameterChangesAreExact(text: Text, b: Operation, n: Operation, c: Change)
    requires HasUniqueParameters(b) && ParametersTell(b, n)
    ensures c in Gather(ParameterAt(text, b, n), n.parameters, |n.parameters|) <==> SomeParameterBreaks(text, b, n, c)
  {
    var at := ParameterAt(text, b, n);
    if c in Gather(at, n.parameters, |n.parameters|) {
      var p := GatheredFrom(at, n.parameters, c);
      ParameterChangeIsExact(text, b, n, p, c);
    }
    if SomeParameterBreaks(text, b, n, c) {
      var p :| p in n.parameters && IsParameterBreaking(text, b, n, p, c);
      ParameterChangeIsExact(text, b, n, p, c);
      GatheredBy(at, n.parameters, p, c);
    }
  }

  lemma {:induction false} StatusChangesAreExact(text: Text, rule: string, from: Operation, to: Operation, c: Change)
    ensures c in Gather(StatusAt(text, rule, from, to), from.statuses, |from.statuses|) <==> SomeStatusLost(text, rule, from, to, c)
  {
    var at := StatusAt(text, rule, from, to);
    if c in Gather(at, from.statuses, |from.statuses|) {
      var s := GatheredFrom(at, from.statuses, c);
    }
    if SomeStatusLost(text, rule, from, to, c) {
      var s :| s in from.statuses && s !in to.statuses && c == NewChange(text, rule, Key(from) + " " + s);
      GatheredBy(at, from.statuses, s, c);
    }
  }

  lemma {:induction false} OperationBreakingIsExact(text: Text, b: Operation, n: Operation, c: Change)
    requires HasUniqueParameters(b) && ParametersTell(b, n)
    ensures c in OperationBreaking(text, b, n) <==> IsOperationBreaking(text, b, n, c)
  {
    ParameterChangesAreExact(text, b, n, c);
    StatusChangesAreExact(text, STATUS_REMOVED, b, n, c);
  }

  // ----- One key -------------------------------------------------------------------------

  lemma {:induction false} InSorted(at: string -> seq<Change>, keys: set<string>, c: Change)
    ensures c in GatherSorted(at, keys) <==> exists k :: k in keys && c in at(k)
  {
    var listed := Listing(keys);
    if c in GatherSorted(at, keys) {
      var k := GatheredFrom(at, listed, c);
    }
    if k :| k in keys && c in at(k) {
      GatheredBy(at, listed, k, c);
    }
  }

  /** Under the key of a namesake pair, both maps hold just these two. */
  lemma {:induction false} PairUnderKey(base: Snapshot, next: Snapshot, b: Operation, n: Operation)
    requires IsUnique(base) && IsUnique(next) && KeysTell(base, next)
    requires b in base.operations && n in next.operations && Key(b) == Key(n)
    ensures SameOperation(b, n) && ParametersTell(b, n) && HasUniqueParameters(b)
    ensures Key(b) in All(base.operations) && All(base.operations)[Key(b)] == b
    ensures Key(b) in All(next.operations) && All(next.operations)[Key(b)] == n
  {
    assert PairTells(b, n);
    OperationAt(base.operations, b);
    OperationAt(next.operations, n);
    assert PairTells(All(base.operations)[Key(b)], n);
    assert PairTells(b, All(next.operations)[Key(b)]);
  }

  /** An operation is found on the other side by its key exactly if it is there. */
  lemma {:induction false} FoundIffIn(base: Snapshot, next: Snapshot, o: Operation)
    requires KeysTell(base, next)
    ensures o in base.operations ==> (Key(o) in All(next.operations) <==> IsIn(o, next))
    ensures o in next.operations ==> (Key(o) in All(base.operations) <==> IsIn(o, base))
  {
    HeldOperation(next.operations, |next.operations|, Key(o));
    HeldOperation(base.operations, |base.operations|, Key(o));
    if o in base.operations {
      if Key(o) in All(next.operations) {
        assert PairTells(o, All(next.operations)[Key(o)]);
      }
      if IsIn(o, next) {
        var x :| x in next.operations && SameOperation(o, x);
        OperationAt(next.operations, x);
      }
    }
    if o in next.operations {
      if Key(o) in All(base.operations) {
        assert PairTells(All(base.operations)[Key(o)], o);
      }
      if IsIn(o, base) {
        var x :| x in base.operations && SameOperation(o, x);
        OperationAt(base.operations, x);
      }
    }
  }

  /** What is found under one key is a change. */
  lemma {:induction false} BreakingAtIsBreaking(text: Text, base: Snapshot, next: Snapshot, k: string, c: Change)
    requires IsUnique(base) && IsUnique(next) && KeysTell(base, next)
    requires c in BreakingAt(text, All(base.operations), All(next.operations))(k)
    ensures SomeOperationLost(text, OPERATION_REMOVED, base, next, c) || SomePairBreaks(text, base, next, c)
  {
    var b := All(base.operations)[k];
    HeldOperation(base.operations, |base.operations|, k);
    if k in All(next.operations) {
      HeldOperation(next.operations, |next.operations|, k);
      var n := All(next.operations)[k];
      PairUnderKey(base, next, b, n);
      OperationBreakingIsExact(text, b, n, c);
      assert AreNamesakes(base, next, b, n);
    } else {
      FoundIffIn(base, next, b);
    }
  }

  lemma {:induction false} LostIsFound(text: Text, base: Snapshot, next: Snapshot, c: Change)
    requires KeysTell(base, next) && SomeOperationLost(text, OPERATION_REMOVED, base, next, c)
    ensures exists k :: k in All(base.operations) && c in BreakingAt(text, All(base.operations), All(next.operations))(k)
  {
    var o :| o in base.operations && !IsIn(o, next) && c == NewChange(text, OPERATION_REMOVED, Key(o));
    FoundIffIn(base, next, o);
    OperationAt(base.operations, o);
    assert c in BreakingAt(text, All(base.operations), All(next.operations))(Key(o));
  }

  lemma {:induction false} PairIsFound(text: Text, base: Snapshot, next: Snapshot, c: Change)
    requires IsUnique(base) && IsUnique(next) && KeysTell(base, next) && SomePairBreaks(text, base, next, c)
    ensures exists k :: k in All(base.operations) && c in BreakingAt(text, All(base.operations), All(next.operations))(k)
  {
    var b, n :| AreNamesakes(base, next, b, n) && IsOperationBreaking(text, b, n, c);
    PairUnderKey(base, next, b, n);
    OperationBreakingIsExact(text, b, n, c);
    assert c in BreakingAt(text, All(base.operations), All(next.operations))(Key(b));
  }

  lemma {:induction false} SchemaChangesAreExact(text: Text, rule: string, here: Snapshot, there: Snapshot, c: Change)
    ensures c in GatherSorted(SchemaAt(text, rule, Names(there.schemas)), Names(here.schemas)) <==>
      SomeSchemaLost(text, rule, here, there, c)
  {
    InSorted(SchemaAt(text, rule, Names(there.schemas)), Names(here.schemas), c);
    if SomeSchemaLost(text, rule, here, there, c) {
      var s :| s in here.schemas && s !in there.schemas && c == NewChange(text, rule, s);
      assert s in Names(here.schemas) && c in SchemaAt(text, rule, Names(there.schemas))(s);
    }
  }

  /** Under keys that tell, exactly the breaking changes are found. */
  lemma {:induction false} BreakingIsExact(text: Text, base: Snapshot, next: Snapshot, c: Change)
    requires IsUnique(base) && IsUnique(next) && KeysTell(base, next)
    ensures c in Breaking(text, base, next) <==> IsBreaking(text, base, next, c)
  {
    var b := All(base.operations);
    var at := BreakingAt(text, b, All(next.operations));
    InSorted(at, b.Keys, c);
    SchemaChangesAreExact(text, SCHEMA_REMOVED, base, next, c);
    if c in GatherSorted(at, b.Keys) {
      var k :| k in b.Keys && c in at(k);
      BreakingAtIsBreaking(text, base, next, k, c);
    }
    if SomeOperationLost(text, OPERATION_REMOVED, base, next, c) {
      LostIsFound(text, base, next, c);
    }
    if SomePairBreaks(text, base, next, c) {
      PairIsFound(text, base, next, c);
    }
  }

  lemma {:induction false} AdditiveAtIsExact(text: Text, base: Snapshot, next: Snapshot, c: Change)
    requires IsUnique(base) && IsUnique(next) && KeysTell(base, next)
    ensures c in GatherSorted(AdditiveAt(text, All(base.operations), All(next.operations)), All(base.operations).Keys) <==>
      SomePairAdds(text, base, next, c)
  {
    var b, n := All(base.operations), All(next.operations);
    var at := AdditiveAt(text, b, n);
    InSorted(at, b.Keys, c);
    if k :| k in b.Keys && c in at(k) {
      HeldOperation(base.operations, |base.operations|, k);
      HeldOperation(next.operations, |next.operations|, k);
      PairUnderKey(base, next, b[k], n[k]);
      StatusChangesAreExact(text, STATUS_ADDED, n[k], b[k], c);
      assert AreNamesakes(base, next, b[k], n[k]);
    }
    if SomePairAdds(text, base, next, c) {
      var x, y :| AreNamesakes(base, next, x, y) && SomeStatusLost(text, STATUS_ADDED, y, x, c);
      PairUnderKey(base, next, x, y);
      StatusChangesAreExact(text, STATUS_ADDED, y, x, c);
      assert c in at(Key(x));
    }
  }

  lemma {:induction false} AddedIsNew(text: Text, base: Snapshot, next: Snapshot, k: string, c: Change)
    requires KeysTell(base, next) && k in All(next.operations)
    requires c in AddedAt(text, All(base.operations), All(next.operations))(k)
    ensures SomeOperationLost(text, OPERATION_ADDED, next, base, c)
  {
    var o := All(next.operations)[k];
    HeldOperation(next.operations, |next.operations|, k);
    FoundIffIn(base, next, o);
    assert !IsIn(o, base) && c == NewChange(text, OPERATION_ADDED, Key(o));
  }

  lemma {:induction false} AddedAtIsExact(text: Text, base: Snapshot, next: Snapshot, c: Change)
    requires KeysTell(base, next)
    ensures c in GatherSorted(AddedAt(text, All(base.operations), All(next.operations)), All(next.operations).Keys) <==>
      SomeOperationLost(text, OPERATION_ADDED, next, base, c)
  {
    var b, n := All(base.operations), All(next.operations);
    var at := AddedAt(text, b, n);
    InSorted(at, n.Keys, c);
    if k :| k in n.Keys && c in at(k) {
      AddedIsNew(text, base, next, k, c);
    }
    if SomeOperationLost(text, OPERATION_ADDED, next, base, c) {
      var o :| o in next.operations && !IsIn(o, base) && c == NewChange(text, OPERATION_ADDED, Key(o));
      FoundIffIn(base, next, o);
      OperationAt(next.operations, o);
      assert c in at(Key(o));
    }
  }

  /** Under keys that tell, exactly the additive changes are found. */
  lemma {:induction false} AdditiveIsExact(text: Text, base: Snapshot, next: Snapshot, c: Change)
    requires IsUnique(base) && IsUnique(next) && KeysTell(base, next)
    ensures c in Additive(text, base, next) <==> IsAdditive(text, base, next, c)
  {
    AdditiveAtIsExact(text, base, next, c);
    AddedAtIsExact(text, base, next, c);
    SchemaChangesAreExact(text, SCHEMA_ADDED, next, base, c);
  }

  lemma {:induction false} DiffIsRight(text: Text, base: Snapshot, next: Snapshot)
    requires IsUnique(base) && IsUnique(next) && KeysTell(base, next)
    ensures IsRight(text, base, next)
  {
    forall c
      ensures c in Breaking(text, base, next) <==> IsBreaking(text, base, next, c)
      ensures c in Additive(text, base, next) <==> IsAdditive(text, base, next, c)
    {
      BreakingIsExact(text, base, next, c);
      AdditiveIsExact(text, base, next, c);
    }
  }

  // ----- The exact condition -------------------------------------------------------------

  /** `part` uses only identities of `whole`: any of its operations, with any of their
      parameters, and any contents. */
  ghost predicate Draws(part: Snapshot, whole: Snapshot)
  {
    forall o :: o in part.operations ==> exists w :: w in whole.operations && DrawsFrom(o, w)
  }

  ghost predicate DrawsFrom(o: Operation, w: Operation)
  {
    SameOperation(o, w) && forall p :: p in o.parameters ==> HasParameter(w, p)
  }

  /** Over the identities of these two snapshots the diff is always right. */
  ghost predicate IsRightThroughout(text: Text, base: Snapshot, next: Snapshot)
  {
    forall b, n :: Draws(b, base) && Draws(n, next) && IsUnique(b) && IsUnique(n) ==> IsRight(text, b, n)
  }

  /** Equal keys of different operations: the loss of one is not seen. */
  lemma {:induction false} SharedKeyHidesRemoval(text: Text, a: Operation, b: Operation, base: Snapshot, next: Snapshot)
    requires Key(a) == Key(b) && !SameOperation(a, b)
    requires a.parameters == b.parameters == [] && a.statuses == b.statuses == [] && !a.bodyRequired && !b.bodyRequired
    requires base.operations == [a] && next.operations == [b] && base.schemas == next.schemas == []
    ensures Breaking(text, base, next) == [] && !IsCompatible(base, next)
    ensures IsBreaking(text, base, next, NewChange(text, OPERATION_REMOVED, Key(a)))
  {
    OneOperation(a);
    OneOperation(b);
    assert OperationBreaking(text, a, b) == [];
    NothingUnderOneKey(text, base, next, a, b);
    assert a in base.operations && !IsIn(a, next);
    assert !HasSuccessor(a, next);
  }

  lemma {:induction false} OneOperation(o: Operation)
    ensures All([o]) == map[Key(o) := o]
  {
    assert OperationsByKey([o], 0) == map[];
  }

  lemma {:induction false} NothingUnderOneKey(text: Text, base: Snapshot, next: Snapshot, a: Operation, b: Operation)
    requires Key(a) == Key(b) && OperationBreaking(text, a, b) == []
    requires All(base.operations) == map[Key(a) := a] && All(next.operations) == map[Key(b) := b] && base.schemas == []
    ensures Breaking(text, base, next) == []
  {
    if Breaking(text, base, next) != [] {
      var c := Breaking(text, base, next)[0];
      InSorted(BreakingAt(text, All(base.operations), All(next.operations)), All(base.operations).Keys, c);
      InSorted(SchemaAt(text, SCHEMA_REMOVED, Names(next.schemas)), Names(base.schemas), c);
    }
  }

  /** Equal keys of different parameters: a newly required one is not seen. */
  lemma {:induction false} SharedKeyHidesParameter(
    text: Text, q: Parameter, p: Parameter, a: Operation, b: Operation, base: Snapshot, next: Snapshot)
    requires ParameterKey(q) == ParameterKey(p) && !SameParameter(q, p) && q.required && p.required
    requires SameOperation(a, b) && a.parameters == [q] && b.parameters == [p]
    requires a.statuses == b.statuses == [] && !a.bodyRequired && !b.bodyRequired
    requires base.operations == [a] && next.operations == [b] && base.schemas == next.schemas == []
    ensures Breaking(text, base, next) == [] && !IsCompatible(base, next)
    ensures IsBreaking(text, base, next, NewChange(text, REQUIRED_PARAMETER_ADDED, ParameterText(b, p)))
  {
    OneOperation(a);
    OneOperation(b);
    QuietParameters(text, q, p, a, b);
    NothingUnderOneKey(text, base, next, a, b);
    assert !HasParameter(a, p);
    NewlyRequired(text, p, a, b, base, next);
  }

  lemma {:induction false} NewlyRequired(text: Text, p: Parameter, a: Operation, b: Operation, base: Snapshot, next: Snapshot)
    requires SameOperation(a, b) && p in b.parameters && p.required && !HasParameter(a, p)
    requires base.operations == [a] && next.operations == [b]
    ensures !IsCompatible(base, next)
    ensures IsBreaking(text, base, next, NewChange(text, REQUIRED_PARAMETER_ADDED, ParameterText(b, p)))
  {
    var c := NewChange(text, REQUIRED_PARAMETER_ADDED, ParameterText(b, p));
    assert IsParameterBreaking(text, a, b, p, c);
    assert AreNamesakes(base, next, a, b) && IsOperationBreaking(text, a, b, c);
    assert !ParameterIsFine(a, p);
    assert a in base.operations && !HasSuccessor(a, next);
  }

  lemma {:induction false} QuietParameters(text: Text, q: Parameter, p: Parameter, a: Operation, b: Operation)
    requires ParameterKey(q) == ParameterKey(p) && q.required && a.parameters == [q] && b.parameters == [p]
    requires a.statuses == [] && !b.bodyRequired
    ensures OperationBreaking(text, a, b) == []
  {
    assert ParametersByKey(a.parameters, 0) == map[];
    assert ParametersByKey(a.parameters, 1) == map[ParameterKey(q) := q];
    assert ParameterAt(text, a, b)(p) == [];
    assert Gather(ParameterAt(text, a, b), b.parameters, 0) == [];
  }

  /** Two operations that snapshot validation admits and that share a key. */
  lemma {:induction false} SpaceSharesKey()
    ensures var a, b := Operation("GET", "/A /b", [], false, []), Operation("GET /A", "/b", [], false, []);
      Key(a) == Key(b) && !SameOperation(a, b)
  {
    var a, b := Operation("GET", "/A /b", [], false, []), Operation("GET /A", "/b", [], false, []);
    assert Key(a) == "GET /A /b" && Key(b) == "GET /A /b";
    assert |a.path| != |b.path|;
  }

  /** Two parameters that snapshot validation admits and that share a key. */
  lemma {:induction false} ColonSharesKey()
    ensures var q, p := Parameter("b:c", "a", true), Parameter("c", "a:b", true);
      ParameterKey(q) == ParameterKey(p) && !SameParameter(q, p)
  {
    var q, p := Parameter("b:c", "a", true), Parameter("c", "a:b", true);
    assert ParameterKey(q) == "a:b:c" && ParameterKey(p) == "a:b:c";
    assert |q.name| != |p.name|;
  }

  function Bare(o: Operation): Operation
  {
    Operation(o.method_, o.path, [], false, [])
  }

  function Alone(o: Operation): Snapshot
  {
    Snapshot("", "", "", "", [o], [])
  }

  lemma {:induction false} AloneDraws(o: Operation, w: Operation, whole: Snapshot)
    requires w in whole.operations && DrawsFrom(o, w) && HasUniqueParameters(o)
    ensures Draws(Alone(o), whole) && IsUnique(Alone(o))
  {
  }

  lemma {:induction false} MissedIsWrong(text: Text, base: Snapshot, next: Snapshot, x: Snapshot, y: Snapshot, c: Change)
    requires Draws(x, base) && Draws(y, next) && IsUnique(x) && IsUnique(y)
    requires Breaking(text, x, y) == [] && IsBreaking(text, x, y, c)
    ensures !IsRightThroughout(text, base, next)
  {
    assert c !in Breaking(text, x, y);
    assert !IsRight(text, x, y);
  }

  /** Where operation keys do not tell, some contents are read wrongly. */
  lemma {:induction false} OperationClashGoesWrong(text: Text, base: Snapshot, next: Snapshot, b: Operation, n: Operation)
    requires b in base.operations && n in next.operations && Key(b) == Key(n) && !SameOperation(b, n)
    ensures !IsRightThroughout(text, base, next)
  {
    var x, y := Alone(Bare(b)), Alone(Bare(n));
    AloneDraws(Bare(b), b, base);
    AloneDraws(Bare(n), n, next);
    SharedKeyHidesRemoval(text, Bare(b), Bare(n), x, y);
    MissedIsWrong(text, base, next, x, y, NewChange(text, OPERATION_REMOVED, Key(Bare(b))));
  }

  /** The operation with one of its parameters, required, and nothing else. */
  function Demanding(o: Operation, p: Parameter): Operation
  {
    Operation(o.method_, o.path, [Parameter(p.name, p.location, true)], false, [])
  }

  lemma {:induction false} DemandingDraws(o: Operation, p: Parameter, whole: Snapshot)
    requires o in whole.operations && p in o.parameters
    ensures Draws(Alone(Demanding(o, p)), whole) && IsUnique(Alone(Demanding(o, p)))
  {
    assert SameParameter(p, Demanding(o, p).parameters[0]);
    AloneDraws(Demanding(o, p), o, whole);
  }

  /** Where parameter keys do not tell, some contents are read wrongly. */
  lemma {:induction false} ParameterClashGoesWrong(
    text: Text, base: Snapshot, next: Snapshot, b: Operation, n: Operation, q: Parameter, p: Parameter)
    requires b in base.operations && n in next.operations && SameOperation(b, n)
    requires q in b.parameters && p in n.parameters && ParameterKey(q) == ParameterKey(p) && !SameParameter(q, p)
    ensures !IsRightThroughout(text, base, next)
  {
    var c, d := Demanding(b, q), Demanding(n, p);
    DemandingDraws(b, q, base);
    DemandingDraws(n, p, next);
    SharedKeyHidesParameter(text, c.parameters[0], d.parameters[0], c, d, Alone(c), Alone(d));
    MissedIsWrong(
      text, base, next, Alone(c), Alone(d), NewChange(text, REQUIRED_PARAMETER_ADDED, ParameterText(d, d.parameters[0])));
  }

  lemma {:induction false} DrawnKeysTell(base: Snapshot, next: Snapshot, b: Snapshot, n: Snapshot)
    requires KeysTell(base, next) && Draws(b, base) && Draws(n, next)
    ensures KeysTell(b, n)
  {
    forall x, y | x in b.operations && y in n.operations ensures PairTells(x, y) {
      var v :| v in base.operations && DrawsFrom(x, v);
      var w :| w in next.operations && DrawsFrom(y, w);
      assert PairTells(v, w);
      DrawnPairTells(v, w, x, y);
    }
  }

  lemma {:induction false} DrawnPairTells(v: Operation, w: Operation, x: Operation, y: Operation)
    requires PairTells(v, w) && DrawsFrom(x, v) && DrawsFrom(y, w)
    ensures PairTells(x, y)
  {
    if SameOperation(x, y) {
      forall q, p | q in x.parameters && p in y.parameters && ParameterKey(q) == ParameterKey(p) ensures SameParameter(q, p) {
        var q' :| q' in v.parameters && SameParameter(q', q);
        var p' :| p' in w.parameters && SameParameter(p', p);
        assert ParameterKey(q') == ParameterKey(p');
      }
    }
  }

  /** The diff is right on everything over these identities if and only if, across the two
      snapshots, equal keys mean equal identities. */
  lemma {:induction false} RightIffKeysTell(text: Text, base: Snapshot, next: Snapshot)
    ensures IsRightThroughout(text, base, next) <==> KeysTell(base, next)
  {
    if KeysTell(base, next) {
      forall b, n | Draws(b, base) && Draws(n, next) && IsUnique(b) && IsUnique(n) ensures IsRight(text, b, n) {
        DrawnKeysTell(base, next, b, n);
        DiffIsRight(text, b, n);
      }
    } else {
      var b, n :| b in base.operations && n in next.operations && !PairTells(b, n);
      if Key(b) == Key(n) && !SameOperation(b, n) {
        OperationClashGoesWrong(text, base, next, b, n);
      } else {
        var q, p :| q in b.parameters && p in n.parameters && ParameterKey(q) == ParameterKey(p) && !SameParameter(q, p);
        ParameterClashGoesWrong(text, base, next, b, n, q, p);
      }
    }
  }

  // ----- When keys tell ------------------------------------------------------------------

  ghost predicate Without(s: string, c: char)
  {
    forall i :: 0 <= i < |s| ==> s[i] != c
  }

  /** Joining at a character that the first part does not contain loses nothing. */
  lemma {:induction false} JoinInjective(a: string, b: string, x: string, y: string, c: char)
    requires Without(a, c) && Without(b, c) && a + [c] + x == b + [c] + y
    ensures a == b && x == y
  {
    var s, t := a + [c] + x, b + [c] + y;
    assert s[|a|] == c && t[|b|] == c;
    assert forall i :: 0 <= i < |a| ==> s[i] == a[i];
    assert forall i :: 0 <= i < |b| ==> t[i] == b[i];
    assert |a| == |b|;
    assert s[..|a|] == a && t[..|b|] == b && s[|a| + 1..] == x && t[|b| + 1..] == y;
  }

  /** No space in a method, no colon in a parameter location. */
  ghost predicate IsPlain(s: Snapshot)
  {
    forall o :: o in s.operations ==> Without(o.method_, ' ') && forall p :: p in o.parameters ==> Without(p.location, ':')
  }

  /** In particular, keys tell where methods have no space and locations no colon. */
  lemma {:induction false} PlainKeysTell(base: Snapshot, next: Snapshot)
    requires IsPlain(base) && IsPlain(next)
    ensures KeysTell(base, next)
  {
    forall b, n | b in base.operations && n in next.operations ensures PairTells(b, n) {
      if Key(b) == Key(n) {
        JoinInjective(b.method_, n.method_, b.path, n.path, ' ');
      }
      forall q, p | q in b.parameters && p in n.parameters && ParameterKey(q) == ParameterKey(p) ensures SameParameter(q, p) {
        JoinInjective(q.location, p.location, q.name, p.name, ':');
      }
    }
  }

  // ----- Compatibility -------------------------------------------------------------------

  ghost predicate ParameterIsFine(base: Operation, p: Parameter)
  {
    p.required ==> exists q :: q in base.parameters && SameParameter(q, p) && q.required
  }

  /** Requests and responses of `base` remain good for `next`: what `next` requires was
      required already, and the statuses are still there. */
  ghost predicate OperationIsCompatible(base: Operation, next: Operation)
  {
    && (forall p :: p in next.parameters ==> ParameterIsFine(base, p))
    && (next.bodyRequired ==> base.bodyRequired)
    && (forall s :: s in base.statuses ==> s in next.statuses)
  }

  ghost predicate HasSuccessor(o: Operation, next: Snapshot)
  {
    exists n :: n in next.operations && SameOperation(o, n) && OperationIsCompatible(o, n)
  }

  /** Every operation has a compatible successor and no schema is missing. */
  ghost predicate IsCompatible(base: Snapshot, next: Snapshot)
  {
    && (forall o :: o in base.operations ==> HasSuccessor(o, next))
    && (forall s :: s in base.schemas ==> s in next.schemas)
  }

  ghost predicate HasPredecessor(o: Operation, base: Snapshot)
  {
    exists b :: b in base.operations && SameOperation(o, b) && forall s :: s in o.statuses ==> s in b.statuses
  }

  /** Everything in `next` was there before. */
  ghost predicate IsNothingNew(base: Snapshot, next: Snapshot)
  {
    && (forall o :: o in next.operations ==> HasPredecessor(o, base))
    && (forall s :: s in next.schemas ==> s in base.schemas)
  }

  lemma {:induction false} CompatiblePair(text: Text, b: Operation, n: Operation)
    requires HasUniqueParameters(b)
    ensures OperationIsCompatible(b, n) <==> forall c :: !IsOperationBreaking(text, b, n, c)
  {
    forall c | IsOperationBreaking(text, b, n, c) ensures !OperationIsCompatible(b, n) {
      if SomeParameterBreaks(text, b, n, c) {
        var p :| p in n.parameters && IsParameterBreaking(text, b, n, p, c);
        assert !ParameterIsFine(b, p);
      }
    }
    if !OperationIsCompatible(b, n) {
      if p :| p in n.parameters && !ParameterIsFine(b, p) {
        FaultyParameter(text, b, n, p);
      } else if s :| s in b.statuses && s !in n.statuses {
        var c := NewChange(text, STATUS_REMOVED, Key(b) + " " + s);
        assert SomeStatusLost(text, STATUS_REMOVED, b, n, c);
        assert IsOperationBreaking(text, b, n, c);
      } else {
        assert IsOperationBreaking(text, b, n, NewChange(text, BODY_BECAME_REQUIRED, Key(n)));
      }
    }
  }

  lemma {:induction false} FaultyParameter(text: Text, b: Operation, n: Operation, p: Parameter)
    requires p in n.parameters && !ParameterIsFine(b, p)
    ensures exists c :: IsOperationBreaking(text, b, n, c)
  {
    var rule := if HasParameter(b, p) then PARAMETER_BECAME_REQUIRED else REQUIRED_PARAMETER_ADDED;
    var c := NewChange(text, rule, ParameterText(n, p));
    assert IsParameterBreaking(text, b, n, p, c);
    assert IsOperationBreaking(text, b, n, c);
  }

  lemma {:induction false} BreakingIsIncompatible(text: Text, base: Snapshot, next: Snapshot, c: Change)
    requires IsUnique(base) && IsUnique(next) && IsBreaking(text, base, next, c)
    ensures !IsCompatible(base, next)
  {
    if SomeOperationLost(text, OPERATION_REMOVED, base, next, c) {
      var o :| o in base.operations && !IsIn(o, next) && c == NewChange(text, OPERATION_REMOVED, Key(o));
      assert !HasSuccessor(o, next);
    } else if SomePairBreaks(text, base, next, c) {
      var b, n :| AreNamesakes(base, next, b, n) && IsOperationBreaking(text, b, n, c);
      NoSuccessor(text, base, next, b, n, c);
    }
  }

  lemma {:induction false} NoSuccessor(text: Text, base: Snapshot, next: Snapshot, b: Operation, n: Operation, c: Change)
    requires IsUnique(base) && IsUnique(next) && AreNamesakes(base, next, b, n) && IsOperationBreaking(text, b, n, c)
    ensures !HasSuccessor(b, next)
  {
    CompatiblePair(text, b, n);
  }

  lemma {:induction false} IncompatibleBreaks(text: Text, base: Snapshot, next: Snapshot)
    requires IsUnique(base) && !IsCompatible(base, next)
    ensures exists c :: IsBreaking(text, base, next, c)
  {
    if o :| o in base.operations && !HasSuccessor(o, next) {
      Unsucceeded(text, base, next, o);
    } else {
      var s :| s in base.schemas && s !in next.schemas;
      var c := NewChange(text, SCHEMA_REMOVED, s);
      assert SomeSchemaLost(text, SCHEMA_REMOVED, base, next, c);
      assert IsBreaking(text, base, next, c);
    }
  }

  lemma {:induction false} Unsucceeded(text: Text, base: Snapshot, next: Snapshot, o: Operation)
    requires IsUnique(base) && o in base.operations && !HasSuccessor(o, next)
    ensures exists c :: IsBreaking(text, base, next, c)
  {
    if IsIn(o, next) {
      var n :| n in next.operations && SameOperation(o, n);
      CompatiblePair(text, o, n);
      var c :| IsOperationBreaking(text, o, n, c);
      assert AreNamesakes(base, next, o, n);
      assert IsBreaking(text, base, next, c);
    } else {
      var c := NewChange(text, OPERATION_REMOVED, Key(o));
      assert SomeOperationLost(text, OPERATION_REMOVED, base, next, c);
      assert IsBreaking(text, base, next, c);
    }
  }

  /** There are no breaking changes exactly when the candidate is compatible. */
  lemma {:induction false} NothingBreaksIffCompatible(text: Text, base: Snapshot, next: Snapshot)
    requires IsUnique(base) && IsUnique(next) && KeysTell(base, next)
    ensures Breaking(text, base, next) == [] <==> IsCompatible(base, next)
  {
    if Breaking(text, base, next) != [] {
      var c := Breaking(text, base, next)[0];
      BreakingIsExact(text, base, next, c);
      BreakingIsIncompatible(text, base, next, c);
    } else if !IsCompatible(base, next) {
      IncompatibleBreaks(text, base, next);
      var c :| IsBreaking(text, base, next, c);
      BreakingIsExact(text, base, next, c);
    }
  }

  lemma {:induction false} AdditiveIsNew(text: Text, base: Snapshot, next: Snapshot, c: Change)
    requires IsUnique(base) && IsAdditive(text, base, next, c)
    ensures !IsNothingNew(base, next)
  {
    if SomeOperationLost(text, OPERATION_ADDED, next, base, c) {
      var o :| o in next.operations && !IsIn(o, base) && c == NewChange(text, OPERATION_ADDED, Key(o));
      assert !HasPredecessor(o, base);
    } else if SomePairAdds(text, base, next, c) {
      var b, n :| AreNamesakes(base, next, b, n) && SomeStatusLost(text, STATUS_ADDED, n, b, c);
      assert !HasPredecessor(n, base);
    }
  }

  lemma {:induction false} NewIsAdditive(text: Text, base: Snapshot, next: Snapshot)
    requires !IsNothingNew(base, next)
    ensures exists c :: IsAdditive(text, base, next, c)
  {
    if o :| o in next.operations && !HasPredecessor(o, base) {
      Unpreceded(text, base, next, o);
    } else {
      var s :| s in next.schemas && s !in base.schemas;
      var c := NewChange(text, SCHEMA_ADDED, s);
      assert SomeSchemaLost(text, SCHEMA_ADDED, next, base, c);
      assert IsAdditive(text, base, next, c);
    }
  }

  lemma {:induction false} Unpreceded(text: Text, base: Snapshot, next: Snapshot, o: Operation)
    requires o in next.operations && !HasPredecessor(o, base)
    ensures exists c :: IsAdditive(text, base, next, c)
  {
    if IsIn(o, base) {
      var b :| b in base.operations && SameOperation(o, b);
      var s :| s in o.statuses && s !in b.statuses;
      var c := NewChange(text, STATUS_ADDED, Key(o) + " " + s);
      assert AreNamesakes(base, next, b, o) && SomeStatusLost(text, STATUS_ADDED, o, b, c);
      assert IsAdditive(text, base, next, c);
    } else {
      var c := NewChange(text, OPERATION_ADDED, Key(o));
      assert SomeOperationLost(text, OPERATION_ADDED, next, base, c);
      assert IsAdditive(text, base, next, c);
    }
  }

  /** There are no additive changes exactly when nothing is new. */
  lemma {:induction false} NothingAddedIffNothingNew(text: Text, base: Snapshot, next: Snapshot)
    requires IsUnique(base) && IsUnique(next) && KeysTell(base, next)
    ensures Additive(text, base, next) == [] <==> IsNothingNew(base, next)
  {
    if Additive(text, base, next) != [] {
      var c := Additive(text, base, next)[0];
      AdditiveIsExact(text, base, next, c);
      AdditiveIsNew(text, base, next, c);
    } else if !IsNothingNew(base, next) {
      NewIsAdditive(text, base, next);
      var c :| IsAdditive(text, base, next, c);
      AdditiveIsExact(text, base, next, c);
    }
  }
}
