/** The route table of application/catalog/runtime.go as values: what each transition does to
    the table, the persisted table and the open admissions, and what every run keeps. */
module RouteTable {
  import opened Wrappers

  /** A verified snapshot; `content` stands for everything that transitions do not look at. */
  datatype Snapshot = Snapshot(id: string, catalog: string, content: string)

  datatype Mount = Mount(active: Snapshot, previous: Option<Snapshot>)

  datatype Tombstone = Tombstone(state: string, catalog: string, snapshot: string)

  datatype Table = Table(generation: nat, mounts: map<string, Mount>, tombstones: map<string, Tombstone>)

  /** Field-by-field validation of mounts, snapshots and tombstones. */
  datatype Rules = Rules(mount: string -> bool, snapshot: Snapshot -> bool, tombstone: Tombstone -> bool)

  datatype Error =
    | InvalidMount | InvalidSnapshot | InvalidTombstone | InvalidRoutes
    | StaleSnapshot | StaleGeneration | Unavailable | Withdrawn | Busy | NotPersisted

  /** What a transition asks for: to be refused, to leave the table, or to move to another. */
  datatype Plan = Reject(error: Error) | Keep | Move(next: Table)

  predicate IsState(state: string)
  {
    state == "withdrawn" || state == "deleted"
  }

  // ----- The transitions -----------------------------------------------------------------

  function Activate(rules: Rules, t: Table, mount: string, expected: string, generation: nat, candidate: Snapshot): Plan
  {
    if !rules.mount(mount) then Reject(InvalidMount)
    else if !rules.snapshot(candidate) then Reject(InvalidSnapshot)
    else if t.generation != generation then Reject(StaleGeneration)
    else if mount in t.tombstones then Reject(Withdrawn)
    else if mount in t.mounts then
      var active := t.mounts[mount].active;
      if active.id != expected then Reject(StaleSnapshot)
      else if candidate.id == active.id then Keep
      else Move(t.(mounts := t.mounts[mount := Mount(candidate, Some(active))]))
    else if expected != "" then Reject(StaleSnapshot)
    else Move(t.(mounts := t.mounts[mount := Mount(candidate, None)]))
  }

  predicate RoutesAreValid(rules: Rules, routes: map<string, Snapshot>)
  {
    forall m :: m in routes ==> rules.mount(m) && rules.snapshot(routes[m])
  }

  function Serving(routes: map<string, Snapshot>): map<string, Mount>
  {
    map m | m in routes :: Mount(routes[m], None)
  }

  function Replace(rules: Rules, t: Table, expected: nat, next: nat, routes: map<string, Snapshot>): Plan
  {
    if next <= expected then Reject(StaleGeneration)
    else if !RoutesAreValid(rules, routes) then Reject(InvalidRoutes)
    else if t.generation != expected then Reject(StaleGeneration)
    else if exists m :: m in routes && m in t.tombstones then Reject(Withdrawn)
    else Move(Table(next, Serving(routes), t.tombstones))
  }

  /** Empty identities in the tombstone are filled in from the active snapshot. */
  function Filled(tombstone: Tombstone, active: Snapshot): Tombstone
  {
    Tombstone(
      tombstone.state,
      if tombstone.catalog == "" then active.catalog else tombstone.catalog,
      if tombstone.snapshot == "" then active.id else tombstone.snapshot)
  }

  function Withdraw(rules: Rules, t: Table, mount: string, expected: string, generation: nat, tombstone: Tombstone): Plan
  {
    if !rules.mount(mount) then Reject(InvalidMount)
    else if !IsState(tombstone.state) then Reject(InvalidTombstone)
    else if t.generation != generation then Reject(StaleGeneration)
    else if mount !in t.mounts then
      if mount !in t.tombstones then Reject(StaleSnapshot)
      else if t.tombstones[mount] == tombstone then Keep
      else Reject(Withdrawn)
    else
      var active := t.mounts[mount].active;
      var filled := Filled(tombstone, active);
      if active.id != expected then Reject(StaleSnapshot)
      else if !rules.tombstone(filled) || filled.snapshot != active.id || filled.catalog != active.catalog then
        Reject(InvalidTombstone)
      else Move(t.(mounts := t.mounts - {mount}, tombstones := t.tombstones[mount := filled]))
  }

  function Reauthorize(rules: Rules, t: Table, mount: string, generation: nat, candidate: Snapshot): Plan
  {
    if !rules.mount(mount) then Reject(InvalidMount)
    else if !rules.snapshot(candidate) then Reject(InvalidSnapshot)
    else if t.generation != generation then Reject(StaleGeneration)
    else if mount !in t.tombstones then Reject(Unavailable)
    else if mount in t.mounts then Reject(StaleSnapshot)
    else if t.tombstones[mount].catalog != candidate.catalog then Reject(InvalidTombstone)
    else if t.tombstones[mount].snapshot == candidate.id then Reject(InvalidTombstone)
    else Move(t.(mounts := t.mounts[mount := Mount(candidate, None)], tombstones := t.tombstones - {mount}))
  }

  function Fallback(rules: Rules, t: Table, mount: string, corrupt: string, generation: nat, usePrevious: bool): Plan
  {
    if !rules.mount(mount) then Reject(InvalidMount)
    else if t.generation != generation then Reject(StaleGeneration)
    else if mount !in t.mounts || t.mounts[mount].active.id != corrupt then Reject(StaleSnapshot)
    else if !usePrevious || t.mounts[mount].previous.None? then Move(t.(mounts := t.mounts - {mount}))
    else Move(t.(mounts := t.mounts[mount := Mount(t.mounts[mount].previous.value, None)]))
  }

  predicate MountIsValid(rules: Rules, t: Table, m: string)
    requires m in t.mounts
  {
    && rules.mount(m) && rules.snapshot(t.mounts[m].active)
    && (t.mounts[m].previous.Some? ==> rules.snapshot(t.mounts[m].previous.value))
    && m !in t.tombstones
  }

  /** What `RestoreTable` demands of a table. */
  predicate IsSound(rules: Rules, t: Table)
  {
    && (forall m :: m in t.mounts ==> MountIsValid(rules, t, m))
    && (forall m :: m in t.tombstones ==> rules.mount(m) && rules.tombstone(t.tombstones[m]))
  }

  // ----- The system and its steps --------------------------------------------------------

  datatype Admission = Admission(mount: string, snapshot: Snapshot, released: bool)

  /** `persisted` is what the durable store last accepted; `admissions` lists all admissions
      ever handed out. */
  datatype System = System(table: Table, persisted: Table, refs: map<string, nat>, admissions: seq<Admission>)

  /** The persistence callback: absent, or a store that accepts or refuses. */
  datatype Persist = NoStore | Accepts | Fails

  datatype Step =
    | DoActivate(mount: string, expected: string, generation: nat, candidate: Snapshot, persist: Persist)
    | DoReplace(expectedGeneration: nat, nextGeneration: nat, routes: map<string, Snapshot>)
    | DoWithdraw(mount: string, expected: string, generation: nat, tombstone: Tombstone, persist: Persist)
    | DoReauthorize(mount: string, generation: nat, candidate: Snapshot, persist: Persist)
    | DoFallback(mount: string, corrupt: string, generation: nat, usePrevious: bool, persist: Persist)
    | DoRestore(table: Table)
    | DoAdmit(mount: string, id: string)
    | DoRelease(admission: nat)

  function Commit(s: System, plan: Plan, persist: Persist): System
  {
    if !plan.Move? || persist.Fails? then s
    else if persist.Accepts? then s.(table := plan.next, persisted := plan.next)
    else s.(table := plan.next)
  }

  function Restore(rules: Rules, s: System, table: Table): System
  {
    if IsSound(rules, table) && s.refs == map[] then s.(table := table) else s
  }

  /** The snapshot that `AdmitSnapshot` selects. */
  function Selected(t: Table, mount: string, id: string): Option<Snapshot>
  {
    if mount !in t.mounts then None
    else
      var state := t.mounts[mount];
      if id == "" || id == state.active.id then Some(state.active)
      else if state.previous.Some? && state.previous.value.id == id then state.previous
      else None
  }

  function Count(refs: map<string, nat>, id: string): nat
  {
    if id in refs then refs[id] else 0
  }

  function Admit(rules: Rules, s: System, mount: string, id: string): System
  {
    if !rules.mount(mount) || Selected(s.table, mount, id).None? then s
    else
      var selected := Selected(s.table, mount, id).value;
      s.(refs := s.refs[selected.id := Count(s.refs, selected.id) + 1],
         admissions := s.admissions + [Admission(mount, selected, false)])
  }

  function Released(refs: map<string, nat>, id: string): map<string, nat>
  {
    if Count(refs, id) <= 1 then refs - {id} else refs[id := refs[id] - 1]
  }

  function Release(s: System, i: nat): System
  {
    if i >= |s.admissions| || s.admissions[i].released then s
    else
      s.(refs := Released(s.refs, s.admissions[i].snapshot.id),
         admissions := s.admissions[i := s.admissions[i].(released := true)])
  }

  /** The plan and the persistence of a step that moves the table. */
  function PlanOf(rules: Rules, t: Table, step: Step): Plan
  {
    match step
    case DoActivate(mount, expected, generation, candidate, _) => Activate(rules, t, mount, expected, generation, candidate)
    case DoReplace(expected, next, routes) => Replace(rules, t, expected, next, routes)
    case DoWithdraw(mount, expected, generation, tombstone, _) => Withdraw(rules, t, mount, expected, generation, tombstone)
    case DoReauthorize(mount, generation, candidate, _) => Reauthorize(rules, t, mount, generation, candidate)
    case DoFallback(mount, corrupt, generation, usePrevious, _) => Fallback(rules, t, mount, corrupt, generation, usePrevious)
    case _ => Keep
  }

  function PersistOf(step: Step): Persist
  {
    match step
    case DoActivate(_, _, _, _, persist) => persist
    case DoWithdraw(_, _, _, _, persist) => persist
    case DoReauthorize(_, _, _, persist) => persist
    case DoFallback(_, _, _, _, persist) => persist
    case _ => NoStore
  }

  function Next(rules: Rules, s: System, step: Step): System
  {
    match step
    case DoRestore(table) => Restore(rules, s, table)
    case DoAdmit(mount, id) => Admit(rules, s, mount, id)
    case DoRelease(i) => Release(s, i)
    case _ => Commit(s, PlanOf(rules, s.table, step), PersistOf(step))
  }

  predicate Follows(rules: Rules, s: System, step: Step, next: System)
  {
    next == Next(rules, s, step)
  }

  /** The states of a run; step `k` leads from `run[k]` to the next. */
  ghost predicate IsRun(rules: Rules, run: seq<System>, steps: seq<Step>)
  {
    |run| == |steps| + 1 && forall k :: 0 <= k < |steps| ==> Follows(rules, run[k], steps[k], run[k + 1])
  }

  // ----- Reference counts ----------------------------------------------------------------

  /** Unreleased admissions of snapshot `id`. */
  function Open(admissions: seq<Admission>, id: string): nat
  {
    if admissions == [] then 0
    else
      var last := admissions[|admissions| - 1];
      Open(admissions[..|admissions| - 1], id) + (if !last.released && last.snapshot.id == id then 1 else 0)
  }

  lemma {:induction false} OpenGrows(admissions: seq<Admission>, a: Admission, id: string)
    ensures Open(admissions + [a], id) == Open(admissions, id) + (if !a.released && a.snapshot.id == id then 1 else 0)
  {
    assert (admissions + [a])[..|admissions|] == admissions;
  }

  lemma {:induction false} OpenReleased(admissions: seq<Admission>, i: nat, id: string)
    requires i < |admissions| && !admissions[i].released
    ensures Open(admissions, id) ==
      Open(admissions[i := admissions[i].(released := true)], id) + (if admissions[i].snapshot.id == id then 1 else 0)
  {
    var after := admissions[i := admissions[i].(released := true)];
    var n := |admissions| - 1;
    if i == n {
      assert after[..n] == admissions[..n];
    } else {
      assert after[..n] == admissions[..n][i := admissions[..n][i].(released := true)];
      OpenReleased(admissions[..n], i, id);
    }
  }

  /** Each count is the number of unreleased admissions, and nothing else is counted. */
  ghost predicate CountsAreRight(refs: map<string, nat>, admissions: seq<Admission>)
  {
    forall id :: CountIsRight(refs, admissions, id)
  }

  ghost predicate CountIsRight(refs: map<string, nat>, admissions: seq<Admission>, id: string)
  {
    Count(refs, id) == Open(admissions, id) && (id in refs <==> Open(admissions, id) > 0)
  }

  lemma {:induction false} AdmitCounts(rules: Rules, s: System, mount: string, id: string)
    requires CountsAreRight(s.refs, s.admissions)
    ensures var n := Admit(rules, s, mount, id); CountsAreRight(n.refs, n.admissions)
  {
    var n := Admit(rules, s, mount, id);
    if n != s {
      var a := Admission(mount, Selected(s.table, mount, id).value, false);
      forall other ensures CountIsRight(n.refs, n.admissions, other) {
        assert CountIsRight(s.refs, s.admissions, other);
        OpenGrows(s.admissions, a, other);
      }
    }
  }

  lemma {:induction false} ReleaseCounts(s: System, i: nat)
    requires CountsAreRight(s.refs, s.admissions)
    ensures var n := Release(s, i); CountsAreRight(n.refs, n.admissions)
  {
    var n := Release(s, i);
    if i < |s.admissions| && !s.admissions[i].released {
      forall other ensures CountIsRight(n.refs, n.admissions, other) {
        assert CountIsRight(s.refs, s.admissions, other);
        OpenReleased(s.admissions, i, other);
      }
    }
  }

  // ----- What every run keeps ------------------------------------------------------------

  ghost predicate Inv(rules: Rules, s: System)
  {
    IsSound(rules, s.table) && CountsAreRight(s.refs, s.admissions)
  }

  lemma {:induction false} PlansAreSound(rules: Rules, t: Table, step: Step)
    requires IsSound(rules, t) && PlanOf(rules, t, step).Move?
    ensures IsSound(rules, PlanOf(rules, t, step).next)
  {
    var next := PlanOf(rules, t, step).next;
    forall m | m in next.mounts ensures MountIsValid(rules, next, m) {
      assert m in t.mounts ==> MountIsValid(rules, t, m);
    }
  }

  lemma {:induction false} StepKeepsInv(rules: Rules, s: System, step: Step)
    requires Inv(rules, s)
    ensures Inv(rules, Next(rules, s, step))
  {
    match step
    case DoAdmit(mount, id) => AdmitCounts(rules, s, mount, id);
    case DoRelease(i) => ReleaseCounts(s, i);
    case DoRestore(_) =>
    case _ =>
      if PlanOf(rules, s.table, step).Move? {
        PlansAreSound(rules, s.table, step);
      }
  }

  /** In every reachable state: no mount is both served and tombstoned, everything served is
      valid, and each reference count is the number of unreleased admissions. */
  lemma {:induction false} RunsKeepInv(rules: Rules, run: seq<System>, steps: seq<Step>, n: nat)
    requires IsRun(rules, run, steps) && Inv(rules, run[0]) && n <= |steps|
    ensures Inv(rules, run[n])
    ensures run[n].table.mounts.Keys !! run[n].table.tombstones.Keys
  {
    if n > 0 {
      RunsKeepInv(rules, run, steps, n - 1);
      assert Follows(rules, run[n - 1], steps[n - 1], run[n]);
      StepKeepsInv(rules, run[n - 1], steps[n - 1]);
    }
    SoundIsDisjoint(rules, run[n].table);
  }

  lemma {:induction false} SoundIsDisjoint(rules: Rules, t: Table)
    requires IsSound(rules, t)
    ensures t.mounts.Keys !! t.tombstones.Keys
  {
    assert forall m :: m in t.mounts ==> MountIsValid(rules, t, m);
  }

  /** While anyone holds an admission, the table is not replaced by a restore. */
  lemma {:induction false} RestoreWaitsForReaders(rules: Rules, s: System, table: Table, i: nat)
    requires Inv(rules, s) && i < |s.admissions| && !s.admissions[i].released
    ensures Restore(rules, s, table) == s
  {
    var id := s.admissions[i].snapshot.id;
    OpenReleased(s.admissions, i, id);
    assert CountIsRight(s.refs, s.admissions, id);
  }

  // ----- Tombstones ----------------------------------------------------------------------

  /** Step `step` reauthorises `mount`: same catalog, another snapshot, no previous state. */
  ghost predicate Reauthorizes(s: System, step: Step, after: System, mount: string)
  {
    && step.DoReauthorize? && step.mount == mount && mount in s.table.tombstones
    && step.candidate.catalog == s.table.tombstones[mount].catalog
    && step.candidate.id != s.table.tombstones[mount].snapshot
    && mount in after.table.mounts && after.table.mounts[mount] == Mount(step.candidate, None)
    && mount !in after.table.tombstones
  }

  ghost predicate StillTombstoned(s: System, after: System, mount: string)
  {
    && mount in s.table.tombstones && mount in after.table.tombstones
    && after.table.tombstones[mount] == s.table.tombstones[mount]
  }

  lemma {:induction false} TombstoneStep(rules: Rules, s: System, step: Step, after: System, mount: string)
    requires Inv(rules, s) && mount in s.table.tombstones && !step.DoRestore? && Follows(rules, s, step, after)
    ensures StillTombstoned(s, after, mount) || Reauthorizes(s, step, after, mount)
  {
    assert mount in s.table.mounts ==> MountIsValid(rules, s.table, mount);
  }

  ghost predicate NoRestore(steps: seq<Step>)
  {
    forall k :: 0 <= k < |steps| ==> !steps[k].DoRestore?
  }

  /** Step `k` reauthorises the mount against the tombstone it had at the start. */
  ghost predicate Lifts(run: seq<System>, steps: seq<Step>, mount: string, k: nat)
    requires k < |steps| < |run|
  {
    StillTombstoned(run[0], run[k], mount) && Reauthorizes(run[k], steps[k], run[k + 1], mount)
  }

  lemma {:induction false} TombstoneHolds(rules: Rules, run: seq<System>, steps: seq<Step>, mount: string, n: nat)
    requires IsRun(rules, run, steps) && Inv(rules, run[0]) && NoRestore(steps) && n <= |steps|
    requires mount in run[0].table.tombstones
    ensures StillTombstoned(run[0], run[n], mount) || exists k :: 0 <= k < n && Lifts(run, steps, mount, k)
  {
    if n > 0 {
      TombstoneHolds(rules, run, steps, mount, n - 1);
      if StillTombstoned(run[0], run[n - 1], mount) {
        RunsKeepInv(rules, run, steps, n - 1);
        assert Follows(rules, run[n - 1], steps[n - 1], run[n]);
        TombstoneStep(rules, run[n - 1], steps[n - 1], run[n], mount);
        if !StillTombstoned(run[0], run[n], mount) {
          assert Lifts(run, steps, mount, n - 1);
        }
      }
    }
  }

  /** Without a restore, a tombstoned mount that serves again was reauthorised in between,
      against that very tombstone: with the catalog it names and not the snapshot it names. */
  lemma {:induction false} OnlyReauthorizationRevives(
    rules: Rules, run: seq<System>, steps: seq<Step>, mount: string, n: nat)
    requires IsRun(rules, run, steps) && Inv(rules, run[0]) && NoRestore(steps) && n <= |steps|
    requires mount in run[0].table.tombstones && mount in run[n].table.mounts
    ensures exists k :: 0 <= k < n && Lifts(run, steps, mount, k)
  {
    TombstoneHolds(rules, run, steps, mount, n);
    RunsKeepInv(rules, run, steps, n);
  }

  // ----- Persistence ---------------------------------------------------------------------

  /** A step with a store changes both tables to the same new one, or neither. */
  lemma {:induction false} BothOrNeither(rules: Rules, s: System, step: Step)
    requires !PersistOf(step).NoStore?
    ensures var n := Next(rules, s, step);
      (n.table == s.table && n.persisted == s.persisted) || n.table == n.persisted
    ensures PersistOf(step).Fails? ==> Next(rules, s, step) == s
  {
  }

  /** Steps that go through a store, or do not touch the table at all. */
  predicate IsDurable(step: Step)
  {
    !PersistOf(step).NoStore? || step.DoAdmit? || step.DoRelease?
  }

  /** If every step is durable, memory and store agree throughout. */
  lemma {:induction false} DurableRunsAgree(rules: Rules, run: seq<System>, steps: seq<Step>, n: nat)
    requires IsRun(rules, run, steps) && run[0].table == run[0].persisted && n <= |steps|
    requires forall k :: 0 <= k < |steps| ==> IsDurable(steps[k])
    ensures run[n].table == run[n].persisted
  {
    if n > 0 {
      DurableRunsAgree(rules, run, steps, n - 1);
      assert Follows(rules, run[n - 1], steps[n - 1], run[n]);
      assert IsDurable(steps[n - 1]);
    }
  }

  // ----- Compare and swap ----------------------------------------------------------------

  ghost predicate SameElsewhere(a: Table, b: Table, mount: string)
  {
    && (forall m :: m != mount ==> (m in a.mounts <==> m in b.mounts) && (m in a.tombstones <==> m in b.tombstones))
    && (forall m :: m != mount && m in a.mounts && m in b.mounts ==> a.mounts[m] == b.mounts[m])
    && (forall m :: m != mount && m in a.tombstones && m in b.tombstones ==> a.tombstones[m] == b.tombstones[m])
  }

  predicate ConcernsMount(step: Step)
  {
    step.DoActivate? || step.DoWithdraw? || step.DoReauthorize? || step.DoFallback?
  }

  lemma {:induction false} PlanConcernsMount(rules: Rules, t: Table, step: Step)
    requires ConcernsMount(step) && PlanOf(rules, t, step).Move?
    ensures var next := PlanOf(rules, t, step).next;
      SameElsewhere(t, next, step.mount) && next.generation == t.generation == step.generation
  {
  }

  /** A transition of one mount leaves the generation and every other mount alone, and a
      stale generation changes nothing. */
  lemma {:induction false} OneMountAtATime(rules: Rules, s: System, step: Step)
    requires ConcernsMount(step)
    ensures var t := Next(rules, s, step).table;
      SameElsewhere(s.table, t, step.mount) && t.generation == s.table.generation
    ensures step.generation != s.table.generation ==> Next(rules, s, step) == s
    ensures Next(rules, s, step).refs == s.refs && Next(rules, s, step).admissions == s.admissions
  {
    if PlanOf(rules, s.table, step).Move? {
      PlanConcernsMount(rules, s.table, step);
    }
  }

  lemma {:induction false} GenerationStep(rules: Rules, s: System, step: Step, next: System)
    requires Follows(rules, s, step, next) && !step.DoRestore?
    ensures s.table.generation <= next.table.generation
    ensures !step.DoReplace? ==> s.table.generation == next.table.generation
  {
    if ConcernsMount(step) {
      OneMountAtATime(rules, s, step);
    }
  }

  /** Without a restore, generations never fall, and they rise only when all routes are
      replaced. */
  lemma {:induction false} GenerationsRise(rules: Rules, run: seq<System>, steps: seq<Step>, m: nat, n: nat)
    requires IsRun(rules, run, steps) && NoRestore(steps) && m <= n <= |steps|
    ensures run[m].table.generation <= run[n].table.generation
    ensures (forall k :: m <= k < n ==> !steps[k].DoReplace?) ==> run[m].table.generation == run[n].table.generation
  {
    if m < n {
      GenerationsRise(rules, run, steps, m, n - 1);
      assert Follows(rules, run[n - 1], steps[n - 1], run[n]);
      assert !steps[n - 1].DoRestore?;
      GenerationStep(rules, run[n - 1], steps[n - 1], run[n]);
    }
  }

  /** Of two activations that expect the same old snapshot, only the first can take effect. */
  lemma {:induction false} OneActivationWins(
    rules: Rules, t: Table, mount: string, expected: string, generation: nat, a: Snapshot, b: Snapshot)
    requires Activate(rules, t, mount, expected, generation, a).Move? && a.id != ""
    ensures Activate(rules, Activate(rules, t, mount, expected, generation, a).next, mount, expected, generation, b).Reject?
  {
  }

  /** Falling back from a new snapshot restores the one it replaced. */
  lemma {:induction false} FallbackUndoesActivation(
    rules: Rules, t: Table, mount: string, expected: string, generation: nat, candidate: Snapshot)
    requires Activate(rules, t, mount, expected, generation, candidate).Move?
    ensures var next := Activate(rules, t, mount, expected, generation, candidate).next;
      Fallback(rules, next, mount, candidate.id, generation, true) ==
        Move(if mount in t.mounts then t.(mounts := t.mounts[mount := t.mounts[mount].(previous := None)]) else t)
  {
    var next := Activate(rules, t, mount, expected, generation, candidate).next;
    if mount in t.mounts {
      assert next.mounts[mount := Mount(t.mounts[mount].active, None)]
        == t.mounts[mount := t.mounts[mount].(previous := None)];
    } else {
      assert next.mounts - {mount} == t.mounts;
    }
  }

  /** After a withdrawal the mount cannot be activated or replaced into service. */
  lemma {:induction false} WithdrawnStaysDown(
    rules: Rules, t: Table, mount: string, expected: string, generation: nat, tombstone: Tombstone,
    routes: map<string, Snapshot>, wanted: string, candidate: Snapshot, from: nat, to: nat)
    requires Withdraw(rules, t, mount, expected, generation, tombstone).Move?
    ensures var next := Withdraw(rules, t, mount, expected, generation, tombstone).next;
      && mount in next.tombstones && next.tombstones[mount].snapshot == expected
      && next.tombstones[mount].catalog == t.mounts[mount].active.catalog
      && Activate(rules, next, mount, wanted, generation, candidate).Reject?
      && (mount in routes ==> Replace(rules, next, from, to, routes).Reject?)
  {
  }

  // ----- When a transition moves the table, and where to ---------------------------------

  /** A plan to move is carried out unless the store refuses; every other plan leaves the
      system as it was. */
  lemma {:induction false} MovesArePublished(rules: Rules, s: System, step: Step)
    requires ConcernsMount(step) || step.DoReplace?
    ensures var plan, next := PlanOf(rules, s.table, step), Next(rules, s, step);
      && (plan.Move? && !PersistOf(step).Fails? ==> next.table == plan.next)
      && (!plan.Move? || PersistOf(step).Fails? ==> next == s)
  {
  }

  /** The mount serves this snapshot and keeps that one to fall back on. */
  ghost predicate Offers(t: Table, mount: string, active: Snapshot, previous: Option<Snapshot>)
  {
    mount in t.mounts && t.mounts[mount].active == active && t.mounts[mount].previous == previous
  }

  /** An activation succeeds exactly on a mount that is not tombstoned and serves what was
      expected, if anything; the candidate then serves and what served before is kept. */
  lemma {:induction false} ActivateMoves(
    rules: Rules, t: Table, mount: string, expected: string, generation: nat, candidate: Snapshot)
    ensures
      var plan := Activate(rules, t, mount, expected, generation, candidate);
      var apt := rules.mount(mount) && rules.snapshot(candidate) && t.generation == generation && mount !in t.tombstones;
      && (plan.Move? <==>
        apt && if mount in t.mounts then t.mounts[mount].active.id == expected != candidate.id else expected == "")
      && (plan.Keep? <==> apt && mount in t.mounts && t.mounts[mount].active.id == expected == candidate.id)
      && (plan.Move? ==> mount !in plan.next.tombstones)
      && (plan.Move? ==>
        Offers(plan.next, mount, candidate, if mount in t.mounts then Some(t.mounts[mount].active) else None))
  {
  }

  /** A replacement succeeds exactly with a newer generation over the expected one and valid
      routes to mounts that are not tombstoned; then just these routes serve. */
  lemma {:induction false} ReplaceMoves(
    rules: Rules, t: Table, expected: nat, next: nat, routes: map<string, Snapshot>)
    ensures
      var plan := Replace(rules, t, expected, next, routes);
      && (plan.Move? <==>
        && expected == t.generation < next && routes.Keys !! t.tombstones.Keys
        && forall m :: m in routes ==> rules.mount(m) && rules.snapshot(routes[m]))
      && (plan.Move? ==>
        && plan.next.generation == next && plan.next.tombstones == t.tombstones
        && plan.next.mounts.Keys == routes.Keys
        && forall m :: m in routes ==> Offers(plan.next, m, routes[m], None))
      && !plan.Keep?
  {
  }

  /** A withdrawal succeeds exactly on a mount that serves the expected snapshot, with a tombstone
      that names this snapshot and its catalog or leaves them open. The mount is gone then and
      its tombstone names both. */
  lemma {:induction false} WithdrawMoves(
    rules: Rules, t: Table, mount: string, expected: string, generation: nat, tombstone: Tombstone)
    ensures
      var plan := Withdraw(rules, t, mount, expected, generation, tombstone);
      && (plan.Move? <==>
        && rules.mount(mount) && IsState(tombstone.state) && t.generation == generation
        && mount in t.mounts && t.mounts[mount].active.id == expected
        && tombstone.snapshot in {"", expected} && tombstone.catalog in {"", t.mounts[mount].active.catalog}
        && rules.tombstone(Tombstone(tombstone.state, t.mounts[mount].active.catalog, expected)))
      && (plan.Move? ==>
        && mount !in plan.next.mounts && mount in plan.next.tombstones
        && plan.next.tombstones[mount] == Tombstone(tombstone.state, t.mounts[mount].active.catalog, expected))
  {
  }

  /** A reauthorisation succeeds exactly on a tombstoned mount, with another snapshot of the
      catalog that the tombstone names; that snapshot serves then, with nothing to fall back on. */
  lemma {:induction false} ReauthorizeMoves(rules: Rules, t: Table, mount: string, generation: nat, candidate: Snapshot)
    ensures
      var plan := Reauthorize(rules, t, mount, generation, candidate);
      && (plan.Move? <==>
        && rules.mount(mount) && rules.snapshot(candidate) && t.generation == generation
        && mount in t.tombstones && mount !in t.mounts
        && t.tombstones[mount].catalog == candidate.catalog && t.tombstones[mount].snapshot != candidate.id)
      && (plan.Move? ==> mount !in plan.next.tombstones && Offers(plan.next, mount, candidate, None))
  {
  }

  /** A fallback succeeds exactly on a mount that serves the corrupt snapshot. The previous
      snapshot serves then, if it is wanted and there is one; otherwise the mount is gone. */
  lemma {:induction false} FallbackMoves(
    rules: Rules, t: Table, mount: string, corrupt: string, generation: nat, usePrevious: bool)
    ensures
      var plan := Fallback(rules, t, mount, corrupt, generation, usePrevious);
      && (plan.Move? <==>
        rules.mount(mount) && t.generation == generation && mount in t.mounts && t.mounts[mount].active.id == corrupt)
      && (plan.Move? && usePrevious && t.mounts[mount].previous.Some? ==>
        Offers(plan.next, mount, t.mounts[mount].previous.value, None))
      && (plan.Move? && !(usePrevious && t.mounts[mount].previous.Some?) ==> mount !in plan.next.mounts)
      && (plan.Move? ==> plan.next.tombstones == t.tombstones)
  {
  }

  /** Without a name the active snapshot is selected, and with one a snapshot of that name, the
      active one first; nothing is selected exactly where there is none. */
  lemma {:induction false} SelectedMeans(t: Table, mount: string, id: string)
    ensures
      var r := Selected(t, mount, id);
      && (r.Some? ==> mount in t.mounts && (r == t.mounts[mount].previous || r.value == t.mounts[mount].active))
      && (r.Some? && id != "" ==> r.value.id == id)
      && (mount in t.mounts && (id == "" || t.mounts[mount].active.id == id) ==> r == Some(t.mounts[mount].active))
      && (r.None? <==>
        || mount !in t.mounts
        || (id != "" && t.mounts[mount].active.id != id
         && (t.mounts[mount].previous.Some? ==> t.mounts[mount].previous.value.id != id)))
  {
  }
}
