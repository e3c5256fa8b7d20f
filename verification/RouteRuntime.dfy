/** The runtime object of application/catalog/runtime.go: its methods replace the table and
    update the reference counts, each as one atomic section under the writer lock. */
module RouteRuntime {
  import opened Wrappers
  import opened RouteTable

  /** What a transition returns: the table it leaves and whether it changed. */
  datatype Outcome = Refused(error: Error) | Done(table: Table, changed: bool)

  function OutcomeOf(before: Table, plan: Plan, persist: Persist): Outcome
  {
    match plan
    case Reject(error) => Refused(error)
    case Keep => Done(before, false)
    case Move(next) => if persist.Fails? then Refused(NotPersisted) else Done(next, true)
  }

  /** An admission; `released` is what its `sync.Once` remembers. */
  class Ticket {
    const mount: string
    const snapshot: Snapshot
    var released: bool

    constructor (mount: string, snapshot: Snapshot)
      ensures this.mount == mount && this.snapshot == snapshot && !released
    {
      this.mount, this.snapshot, released := mount, snapshot, false;
    }
  }

  class Runtime {
    const rules: Rules
    var table: Table
    var refs: map<string, nat>

    /** What the durable store holds. */
    ghost var persisted: Table

    /** All admissions handed out so far. */
    ghost var tickets: seq<Ticket>

    ghost function Admissions(): (r: seq<Admission>)
      reads this, tickets
      ensures |r| == |tickets|
    {
      seq(|tickets|, i requires 0 <= i < |tickets| reads this, tickets =>
        Admission(tickets[i].mount, tickets[i].snapshot, tickets[i].released))
    }

    ghost function View(): System
      reads this, tickets
    {
      System(table, persisted, refs, Admissions())
    }

    ghost predicate Valid()
      reads this, tickets
    {
      && Inv(rules, View())
      && forall i, j :: 0 <= i < |tickets| && 0 <= j < |tickets| && tickets[i] == tickets[j] ==> i == j
    }

    constructor (rules: Rules, generation: nat)
      ensures this.rules == rules && Valid()
      ensures View() == System(Table(generation, map[], map[]), Table(generation, map[], map[]), map[], [])
    {
      this.rules := rules;
      table, refs := Table(generation, map[], map[]), map[];
      persisted, tickets := Table(generation, map[], map[]), [];
    }

    /** The end of every durable transition: persist the next table, then publish it. */
    method Publish(next: Table, persist: Persist) returns (outcome: Outcome)
      modifies this`table, this`persisted
      ensures View() == Commit(old(View()), Move(next), persist)
      ensures outcome == OutcomeOf(old(table), Move(next), persist)
    {
      if persist.Fails? {
        return Refused(NotPersisted);
      }
      if persist.Accepts? {
        persisted := next;
      }
      table := next;
      outcome := Done(next, true);
    }

    method ActivateMount(mount: string, expected: string, generation: nat, candidate: Snapshot, persist: Persist)
      returns (outcome: Outcome)
      requires Valid()
      modifies this`table, this`persisted
      ensures Valid()
      ensures View() == Next(rules, old(View()), DoActivate(mount, expected, generation, candidate, persist))
      ensures outcome == OutcomeOf(old(table), Activate(rules, old(table), mount, expected, generation, candidate), persist)
    {
      StepKeepsInv(rules, View(), DoActivate(mount, expected, generation, candidate, persist));
      if !rules.mount(mount) {
        return Refused(InvalidMount);
      }
      if !rules.snapshot(candidate) {
        return Refused(InvalidSnapshot);
      }
      if table.generation != generation {
        return Refused(StaleGeneration);
      }
      if mount in table.tombstones {
        return Refused(Withdrawn);
      }
      var previous := None;
      if mount in table.mounts {
        var active := table.mounts[mount].active;
        if active.id != expected {
          return Refused(StaleSnapshot);
        }
        if candidate.id == active.id {
          return Done(table, false);
        }
        previous := Some(active);
      } else if expected != "" {
        return Refused(StaleSnapshot);
      }
      outcome := Publish(table.(mounts := table.mounts[mount := Mount(candidate, previous)]), persist);
    }

    method WithdrawMount(mount: string, expected: string, generation: nat, tombstone: Tombstone, persist: Persist)
      returns (outcome: Outcome)
      requires Valid()
      modifies this`table, this`persisted
      ensures Valid()
      ensures View() == Next(rules, old(View()), DoWithdraw(mount, expected, generation, tombstone, persist))
      ensures outcome == OutcomeOf(old(table), Withdraw(rules, old(table), mount, expected, generation, tombstone), persist)
    {
      StepKeepsInv(rules, View(), DoWithdraw(mount, expected, generation, tombstone, persist));
      if !rules.mount(mount) {
        return Refused(InvalidMount);
      }
      if !IsState(tombstone.state) {
        return Refused(InvalidTombstone);
      }
      if table.generation != generation {
        return Refused(StaleGeneration);
      }
      if mount !in table.mounts {
        if mount in table.tombstones && table.tombstones[mount] == tombstone {
          return Done(table, false);
        }
        return Refused(if mount in table.tombstones then Withdrawn else StaleSnapshot);
      }
      var active := table.mounts[mount].active;
      if active.id != expected {
        return Refused(StaleSnapshot);
      }
      var filled := tombstone;
      if filled.snapshot == "" {
        filled := filled.(snapshot := active.id);
      }
      if filled.catalog == "" {
        filled := filled.(catalog := active.catalog);
      }
      if !rules.tombstone(filled) || filled.snapshot != active.id || filled.catalog != active.catalog {
        return Refused(InvalidTombstone);
      }
      outcome := Publish(
        table.(mounts := table.mounts - {mount}, tombstones := table.tombstones[mount := filled]), persist);
    }

    method ReauthorizeMount(mount: string, generation: nat, candidate: Snapshot, persist: Persist)
      returns (outcome: Outcome)
      requires Valid()
      modifies this`table, this`persisted
      ensures Valid()
      ensures View() == Next(rules, old(View()), DoReauthorize(mount, generation, candidate, persist))
      ensures outcome == OutcomeOf(old(table), Reauthorize(rules, old(table), mount, generation, candidate), persist)
    {
      StepKeepsInv(rules, View(), DoReauthorize(mount, generation, candidate, persist));
      if !rules.mount(mount) {
        return Refused(InvalidMount);
      }
      if !rules.snapshot(candidate) {
        return Refused(InvalidSnapshot);
      }
      if table.generation != generation {
        return Refused(StaleGeneration);
      }
      if mount !in table.tombstones {
        return Refused(Unavailable);
      }
      if mount in table.mounts {
        return Refused(StaleSnapshot);
      }
      var tombstone := table.tombstones[mount];
      if tombstone.catalog != candidate.catalog || tombstone.snapshot == candidate.id {
        return Refused(InvalidTombstone);
      }
      outcome := Publish(
        table.(mounts := table.mounts[mount := Mount(candidate, None)], tombstones := table.tombstones - {mount}),
        persist);
    }

    method FallbackMount(mount: string, corrupt: string, generation: nat, usePrevious: bool, persist: Persist)
      returns (outcome: Outcome)
      requires Valid()
      modifies this`table, this`persisted
      ensures Valid()
      ensures View() == Next(rules, old(View()), DoFallback(mount, corrupt, generation, usePrevious, persist))
      ensures outcome == OutcomeOf(old(table), Fallback(rules, old(table), mount, corrupt, generation, usePrevious), persist)
    {
      StepKeepsInv(rules, View(), DoFallback(mount, corrupt, generation, usePrevious, persist));
      if !rules.mount(mount) {
        return Refused(InvalidMount);
      }
      if table.generation != generation {
        return Refused(StaleGeneration);
      }
      if mount !in table.mounts || table.mounts[mount].active.id != corrupt {
        return Refused(StaleSnapshot);
      }
      var state := table.mounts[mount];
      var mounts := table.mounts - {mount};
      if usePrevious && state.previous.Some? {
        mounts := table.mounts[mount := Mount(state.previous.value, None)];
      }
      outcome := Publish(table.(mounts := mounts), persist);
    }

    /** Lines 220-229: the routes are validated one by one while the new mounts are built. */
    method ValidateRoutes(routes: map<string, Snapshot>) returns (ok: bool, validated: map<string, Mount>)
      ensures ok <==> RoutesAreValid(rules, routes)
      ensures ok ==> validated == Serving(routes)
    {
      ok, validated := true, map[];
      var pending := routes.Keys;
      while pending != {}
        invariant pending <= routes.Keys && validated.Keys == routes.Keys - pending
        invariant forall m :: m in validated ==>
          rules.mount(m) && rules.snapshot(routes[m]) && validated[m] == Mount(routes[m], None)
        decreases pending
      {
        var m :| m in pending;
        if !rules.mount(m) || !rules.snapshot(routes[m]) {
          return false, validated;
        }
        validated := validated[m := Mount(routes[m], None)];
        pending := pending - {m};
      }
    }

    method ReplaceRoutes(expected: nat, next: nat, routes: map<string, Snapshot>) returns (outcome: Outcome)
      requires Valid()
      modifies this`table
      ensures Valid()
      ensures View() == Next(rules, old(View()), DoReplace(expected, next, routes))
      ensures outcome == OutcomeOf(old(table), Replace(rules, old(table), expected, next, routes), NoStore)
    {
      StepKeepsInv(rules, View(), DoReplace(expected, next, routes));
      if next <= expected {
        return Refused(StaleGeneration);
      }
      var ok, validated := ValidateRoutes(routes);
      if !ok {
        return Refused(InvalidRoutes);
      }
      if table.generation != expected {
        return Refused(StaleGeneration);
      }
      if exists m :: m in validated && m in table.tombstones {
        return Refused(Withdrawn);
      }
      table := Table(next, validated, table.tombstones);
      assert View() == Next(rules, old(View()), DoReplace(expected, next, routes));
      outcome := Done(table, true);
    }

    method RestoreTable(restored: Table) returns (ok: bool)
      requires Valid()
      modifies this`table
      ensures Valid()
      ensures View() == Next(rules, old(View()), DoRestore(restored))
      ensures ok <==> IsSound(rules, restored) && forall i :: 0 <= i < |tickets| ==> tickets[i].released
    {
      ghost var before := View();
      if forall i :: 0 <= i < |tickets| ==> tickets[i].released {
        NobodyInside(rules, before);
      } else {
        ghost var i :| 0 <= i < |tickets| && !tickets[i].released;
        RestoreWaitsForReaders(rules, before, restored, i);
        OpenTicketIsCounted(rules, before, i);
      }
      if !IsSound(rules, restored) || refs != map[] {
        return false;
      }
      StepKeepsInv(rules, before, DoRestore(restored));
      table := restored;
      assert View() == Next(rules, before, DoRestore(restored));
      ok := true;
    }

    /** The admission is for the active snapshot, or for the one asked for by name. */
    method Admit(mount: string, id: string) returns (ticket: Ticket?)
      requires Valid()
      modifies this`refs, this`tickets
      ensures Valid()
      ensures View() == Next(rules, old(View()), DoAdmit(mount, id))
      ensures ticket != null <==> rules.mount(mount) && Selected(table, mount, id).Some?
      ensures ticket != null ==> fresh(ticket) && ticket.mount == mount && !ticket.released
      ensures ticket != null ==> Some(ticket.snapshot) == Selected(table, mount, id)
      ensures ticket != null ==>
        && mount in table.mounts
        && (if id == "" then ticket.snapshot == table.mounts[mount].active else ticket.snapshot.id == id)
      ensures ticket == null && rules.mount(mount) && mount in table.mounts ==>
        && id != "" && table.mounts[mount].active.id != id
        && (table.mounts[mount].previous.Some? ==> table.mounts[mount].previous.value.id != id)
      ensures ticket != null ==> tickets == old(tickets) + [ticket]
    {
      ticket := null;
      StepKeepsInv(rules, View(), DoAdmit(mount, id));
      if !rules.mount(mount) || mount !in table.mounts {
        return;
      }
      var state := table.mounts[mount];
      var selected := state.active;
      if id != "" && id != state.active.id {
        if state.previous.None? || state.previous.value.id != id {
          return;
        }
        selected := state.previous.value;
      }
      refs := refs[selected.id := Count(refs, selected.id) + 1];
      ticket := new Ticket(mount, selected);
      tickets := tickets + [ticket];
      assert View() == Next(rules, old(View()), DoAdmit(mount, id));
    }

    /** The first release gives the reference back; later ones do nothing. */
    method Release(ticket: Ticket, ghost i: nat)
      requires Valid() && i < |tickets| && tickets[i] == ticket
      modifies this`refs, ticket
      ensures Valid() && ticket.released
      ensures View() == Next(rules, old(View()), DoRelease(i))
    {
      StepKeepsInv(rules, View(), DoRelease(i));
      if ticket.released {
        return;
      }
      ticket.released := true;
      if Count(refs, ticket.snapshot.id) <= 1 {
        refs := refs - {ticket.snapshot.id};
      } else {
        refs := refs[ticket.snapshot.id := refs[ticket.snapshot.id] - 1];
      }
      assert View() == Next(rules, old(View()), DoRelease(i));
    }

    method ReferenceCount(id: string) returns (n: nat)
      requires Valid()
      ensures n == Open(Admissions(), id)
    {
      n := if id in refs then refs[id] else 0;
      assert CountIsRight(refs, Admissions(), id);
    }
  }

  lemma {:induction false} AllReleasedMeansNone(admissions: seq<Admission>, id: string)
    requires forall i :: 0 <= i < |admissions| ==> admissions[i].released
    ensures Open(admissions, id) == 0
  {
    if admissions != [] {
      AllReleasedMeansNone(admissions[..|admissions| - 1], id);
    }
  }

  lemma {:induction false} NobodyInside(rules: Rules, s: System)
    requires Inv(rules, s) && forall i :: 0 <= i < |s.admissions| ==> s.admissions[i].released
    ensures s.refs == map[]
  {
    forall id ensures id !in s.refs {
      AllReleasedMeansNone(s.admissions, id);
      assert CountIsRight(s.refs, s.admissions, id);
    }
  }

  lemma {:induction false} OpenTicketIsCounted(rules: Rules, s: System, i: nat)
    requires Inv(rules, s) && i < |s.admissions| && !s.admissions[i].released
    ensures s.refs != map[]
  {
    var id := s.admissions[i].snapshot.id;
    OpenReleased(s.admissions, i, id);
    assert CountIsRight(s.refs, s.admissions, id);
  }
}
