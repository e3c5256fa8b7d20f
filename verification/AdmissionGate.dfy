/** The reader/promoter gate of renderer/server.go. Each stretch between locking and unlocking
    the mutex is one atomic step; channels are numbered, and closing the current channel moves
    to the next number, so that a caller parked on an older number has been woken. */
module AdmissionGate {

  datatype Gate = Gate(readers: nat, promoting: bool, closed: bool, channel: nat)

  /** What a locked section tells its caller: go ahead, give up, or wait on a channel. */
  datatype Reply = Granted | Refused | Wait(channel: nat)

  function Notify(g: Gate): Gate
  {
    g.(channel := g.channel + 1)
  }

  /** One turn of the loop of `enter`. */
  function Enter(g: Gate, cancelled: bool): (Gate, Reply)
  {
    if g.closed || cancelled then (g, Refused)
    else if !g.promoting then (g.(readers := g.readers + 1), Granted)
    else (g, Wait(g.channel))
  }

  function Leave(g: Gate): Gate
    requires g.readers > 0
  {
    var left := g.(readers := g.readers - 1);
    if left.readers == 0 then Notify(left) else left
  }

  /** One turn of the loop of `beginPromotion`. */
  function AwaitReaders(g: Gate, cancelled: bool): (Gate, Reply)
  {
    if cancelled then (Notify(g.(promoting := false)), Refused)
    else if g.readers == 0 then (g, Granted)
    else (g, Wait(g.channel))
  }

  /** `beginPromotion` up to its first wait; `cancelled` says whether the context ended before
      the gate was locked, `cancelledLate` whether it has by the first turn of the loop. */
  function BeginPromotion(g: Gate, cancelled: bool, cancelledLate: bool): (Gate, Reply)
  {
    if cancelled || g.closed || g.promoting then (g, Refused)
    else AwaitReaders(Notify(g.(promoting := true)), cancelledLate)
  }

  function EndPromotion(g: Gate): Gate
    requires g.promoting
  {
    Notify(g.(promoting := false))
  }

  /** One turn of the loop of `closeAdmissions`. */
  function AwaitClose(g: Gate): Reply
  {
    if g.readers == 0 then Granted else Wait(g.channel)
  }

  function CloseGate(g: Gate): Gate
  {
    Notify(g.(closed := true))
  }

  // ----- The callers ---------------------------------------------------------------------

  type Caller = nat

  /** Where a caller is. */
  datatype Place =
    | Outside
    | Entering(channel: nat)
    | Inside
    | Draining(channel: nat)
    | Promoting
    | Closing(channel: nat)
    | Closed

  datatype State = State(gate: Gate, places: map<Caller, Place>)

  function At(s: State, a: Caller): Place
  {
    if a in s.places then s.places[a] else Outside
  }

  function Moved(s: State, gate: Gate, a: Caller, place: Place): State
  {
    State(gate, s.places[a := place])
  }

  /** A caller that waits on `channel` may go on: the channel was closed. */
  predicate IsWoken(s: State, channel: nat)
  {
    channel != s.gate.channel
  }

  datatype Step =
    | DoEnter(caller: Caller, cancelled: bool)
    | DoAbandon(caller: Caller)
    | DoLeave(caller: Caller)
    | DoBegin(caller: Caller, cancelled: bool, cancelledLate: bool)
    | DoDrain(caller: Caller, cancelled: bool)
    | DoEnd(caller: Caller)
    | DoClose(caller: Caller)
    | DoCloseWait(caller: Caller)

  /** A step is possible: the caller is where the step starts, and if it was parked it has
      been woken or its context has ended. */
  predicate CanStep(s: State, step: Step)
  {
    var at := At(s, step.caller);
    match step
    case DoEnter(_, _) => at.Outside? || (at.Entering? && IsWoken(s, at.channel))
    case DoAbandon(_) => at.Entering?
    case DoLeave(_) => at.Inside?
    case DoBegin(_, _, _) => at.Outside?
    case DoDrain(_, cancelled) => at.Draining? && (IsWoken(s, at.channel) || cancelled)
    case DoEnd(_) => at.Promoting?
    case DoClose(_) => at.Outside?
    case DoCloseWait(_) => at.Closing? && IsWoken(s, at.channel)
  }

  function EnterPlace(reply: Reply): Place
  {
    match reply
    case Granted => Inside
    case Refused => Outside
    case Wait(channel) => Entering(channel)
  }

  function PromotePlace(reply: Reply): Place
  {
    match reply
    case Granted => Promoting
    case Refused => Outside
    case Wait(channel) => Draining(channel)
  }

  function ClosePlace(reply: Reply): Place
  {
    match reply
    case Granted => Closed
    case Refused => Outside
    case Wait(channel) => Closing(channel)
  }

  /** In every state of interest a caller inside is counted and a promoter holds the flag, so
      the panics of `leave` and `endPromotion` have no place here; see NoPanic. */
  function Next(s: State, step: Step): State
    requires CanStep(s, step)
    requires step.DoLeave? ==> s.gate.readers > 0
    requires step.DoEnd? ==> s.gate.promoting
  {
    var a := step.caller;
    match step
    case DoEnter(_, cancelled) =>
      var (g, reply) := Enter(s.gate, cancelled); Moved(s, g, a, EnterPlace(reply))
    case DoAbandon(_) => Moved(s, s.gate, a, Outside)
    case DoLeave(_) => Moved(s, Leave(s.gate), a, Outside)
    case DoBegin(_, cancelled, late) =>
      var (g, reply) := BeginPromotion(s.gate, cancelled, late); Moved(s, g, a, PromotePlace(reply))
    case DoDrain(_, cancelled) =>
      var (g, reply) := AwaitReaders(s.gate, cancelled); Moved(s, g, a, PromotePlace(reply))
    case DoEnd(_) => Moved(s, EndPromotion(s.gate), a, Outside)
    case DoClose(_) => Moved(s, CloseGate(s.gate), a, ClosePlace(AwaitClose(CloseGate(s.gate))))
    case DoCloseWait(_) => Moved(s, s.gate, a, ClosePlace(AwaitClose(s.gate)))
  }

  // ----- The invariant -------------------------------------------------------------------

  function Readers(s: State): set<Caller>
  {
    set a | a in s.places && s.places[a].Inside?
  }

  predicate IsPromoter(place: Place)
  {
    place.Draining? || place.Promoting?
  }

  ghost predicate PromoterHoldsFlag(s: State)
  {
    && (forall a :: IsPromoter(At(s, a)) ==> s.gate.promoting)
    && (forall a, b :: IsPromoter(At(s, a)) && IsPromoter(At(s, b)) ==> a == b)
    && (s.gate.promoting ==> exists a :: IsPromoter(At(s, a)))
  }

  /** While someone promotes, nobody is inside; once closing has returned, nobody is inside
      and the gate stays closed. */
  ghost predicate Exclusive(s: State)
  {
    && (forall a :: At(s, a).Promoting? ==> s.gate.readers == 0)
    && (forall a :: At(s, a).Closed? ==> s.gate.closed && s.gate.readers == 0)
    && (forall a :: At(s, a).Closing? ==> s.gate.closed)
  }

  /** Whoever is parked on the current channel would have to wait again. */
  ghost predicate ParkedMustWait(s: State)
  {
    forall a ::
      && (At(s, a).Entering? ==> At(s, a).channel <= s.gate.channel)
      && (At(s, a).Draining? ==> At(s, a).channel <= s.gate.channel)
      && (At(s, a).Closing? ==> At(s, a).channel <= s.gate.channel)
      && (At(s, a) == Entering(s.gate.channel) ==> Enter(s.gate, false).1 == Wait(s.gate.channel))
      && (At(s, a) == Draining(s.gate.channel) ==> AwaitReaders(s.gate, false).1 == Wait(s.gate.channel))
      && (At(s, a) == Closing(s.gate.channel) ==> AwaitClose(s.gate) == Wait(s.gate.channel))
  }

  ghost predicate Inv(s: State)
  {
    && s.gate.readers == |Readers(s)|
    && PromoterHoldsFlag(s)
    && Exclusive(s)
    && ParkedMustWait(s)
  }

  lemma {:induction false} Counted(s: State, a: Caller)
    requires s.gate.readers == |Readers(s)| && At(s, a).Inside?
    ensures s.gate.readers > 0
  {
    assert a in Readers(s);
  }

  function Presence(place: Place): int
  {
    if place.Inside? then 1 else 0
  }

  lemma {:induction false} MovedReaders(s: State, g: Gate, a: Caller, place: Place)
    ensures |Readers(Moved(s, g, a, place))| == |Readers(s)| - Presence(At(s, a)) + Presence(place)
  {
    var after := Readers(Moved(s, g, a, place));
    if place.Inside? {
      assert after == Readers(s) + {a};
    } else {
      assert after == Readers(s) - {a};
    }
    assert At(s, a).Inside? <==> a in Readers(s);
  }

  /** A step moves its caller alone, and the counter with it. */
  lemma {:induction false} StepMoves(s: State, step: Step, next: State)
    requires Follows(s, step, next)
    ensures next == Moved(s, next.gate, step.caller, At(next, step.caller))
    ensures next.gate.readers == s.gate.readers - Presence(At(s, step.caller)) + Presence(At(next, step.caller))
  {
  }

  /** The panics of `leave` and `endPromotion` are never reached. */
  lemma {:induction false} NoPanic(s: State, step: Step)
    requires Inv(s) && CanStep(s, step)
    ensures step.DoLeave? ==> s.gate.readers > 0
    ensures step.DoEnd? ==> s.gate.promoting
  {
    if step.DoLeave? {
      Counted(s, step.caller);
    }
    if step.DoEnd? {
      assert IsPromoter(At(s, step.caller));
    }
  }

  /** The successor, which NoPanic makes possible. */
  ghost predicate Follows(s: State, step: Step, next: State)
  {
    && CanStep(s, step)
    && (step.DoLeave? ==> s.gate.readers > 0)
    && (step.DoEnd? ==> s.gate.promoting)
    && next == Next(s, step)
  }

  lemma {:induction false} StepKeepsCount(s: State, step: Step, next: State)
    requires Inv(s) && Follows(s, step, next)
    ensures next.gate.readers == |Readers(next)|
  {
    StepMoves(s, step, next);
    MovedReaders(s, next.gate, step.caller, At(next, step.caller));
  }

  lemma {:induction false} StepKeepsPromoter(s: State, step: Step, next: State)
    requires Inv(s) && Follows(s, step, next)
    ensures PromoterHoldsFlag(next)
  {
    var a := step.caller;
    assert forall b :: b != a ==> At(next, b) == At(s, b);
    if next.gate.promoting {
      if IsPromoter(At(next, a)) {
      } else {
        var b :| IsPromoter(At(s, b));
        assert b != a;
        assert IsPromoter(At(next, b));
      }
    }
  }

  lemma {:induction false} StepKeepsExclusive(s: State, step: Step, next: State)
    requires Inv(s) && Follows(s, step, next)
    ensures Exclusive(next)
  {
    var a := step.caller;
    forall b
      ensures At(next, b).Promoting? ==> next.gate.readers == 0
      ensures At(next, b).Closed? ==> next.gate.closed && next.gate.readers == 0
      ensures At(next, b).Closing? ==> next.gate.closed
    {
      assert b != a ==> At(next, b) == At(s, b);
      assert IsPromoter(At(s, b)) ==> s.gate.promoting;
    }
  }

  lemma {:induction false} StepKeepsParked(s: State, step: Step, next: State)
    requires Inv(s) && Follows(s, step, next)
    ensures ParkedMustWait(next)
  {
    var a := step.caller;
    forall b
      ensures At(next, b).Entering? ==> At(next, b).channel <= next.gate.channel
      ensures At(next, b).Draining? ==> At(next, b).channel <= next.gate.channel
      ensures At(next, b).Closing? ==> At(next, b).channel <= next.gate.channel
      ensures At(next, b) == Entering(next.gate.channel) ==> Enter(next.gate, false).1 == Wait(next.gate.channel)
      ensures At(next, b) == Draining(next.gate.channel) ==> AwaitReaders(next.gate, false).1 == Wait(next.gate.channel)
      ensures At(next, b) == Closing(next.gate.channel) ==> AwaitClose(next.gate) == Wait(next.gate.channel)
    {
      assert b != a ==> At(next, b) == At(s, b);
    }
  }

  lemma {:induction false} StepKeepsInv(s: State, step: Step, next: State)
    requires Inv(s) && Follows(s, step, next)
    ensures Inv(next)
  {
    StepKeepsCount(s, step, next);
    StepKeepsPromoter(s, step, next);
    StepKeepsExclusive(s, step, next);
    StepKeepsParked(s, step, next);
  }

  // ----- Who is let through --------------------------------------------------------------

  ghost predicate SomeoneInside(s: State)
  {
    exists a :: At(s, a).Inside?
  }

  ghost predicate SomeonePromotes(s: State)
  {
    exists a :: IsPromoter(At(s, a))
  }

  lemma {:induction false} NobodyInsideMeansNone(s: State)
    requires Inv(s)
    ensures SomeoneInside(s) <==> s.gate.readers > 0
    ensures SomeonePromotes(s) <==> s.gate.promoting
  {
    if s.gate.readers > 0 {
      assert |Readers(s)| > 0;
      var b :| b in Readers(s);
      assert At(s, b).Inside?;
    }
    if SomeoneInside(s) {
      var b :| At(s, b).Inside?;
      Counted(s, b);
    }
  }

  /** A caller gets in exactly when its context lives, the gate is open and nobody promotes;
      while somebody promotes it is parked. */
  lemma {:induction false} EnterAnswers(s: State, step: Step, next: State)
    requires Inv(s) && Follows(s, step, next) && step.DoEnter?
    ensures At(next, step.caller).Inside? <==> !step.cancelled && !s.gate.closed && !SomeonePromotes(s)
    ensures At(next, step.caller).Entering? <==> !step.cancelled && !s.gate.closed && SomeonePromotes(s)
    ensures At(next, step.caller).Inside? || At(next, step.caller) == Entering(next.gate.channel) || At(next, step.caller).Outside?
  {
    NobodyInsideMeansNone(s);
  }

  /** A promotion begins exactly when its context lives, the gate is open and nobody else
      promotes; it is granted exactly when nobody is inside, at once or after waiting. */
  lemma {:induction false} PromotionAnswers(s: State, step: Step, next: State)
    requires Inv(s) && Follows(s, step, next) && (step.DoBegin? || step.DoDrain?)
    ensures
      var at := At(next, step.caller);
      var may := if step.DoBegin? then !step.cancelled && !step.cancelledLate && !s.gate.closed && !SomeonePromotes(s)
        else !step.cancelled;
      && (at.Promoting? <==> may && !SomeoneInside(s))
      && (at == Draining(next.gate.channel) <==> may && SomeoneInside(s))
      && (!may ==> at.Outside?)
  {
    NobodyInsideMeansNone(s);
  }

  /** Closing shuts the gate, and returns exactly when nobody is inside, at once or after
      waiting. */
  lemma {:induction false} CloseAnswers(s: State, step: Step, next: State)
    requires Inv(s) && Follows(s, step, next) && (step.DoClose? || step.DoCloseWait?)
    ensures next.gate.closed
    ensures At(next, step.caller).Closed? <==> !SomeoneInside(s)
    ensures At(next, step.caller) == Closing(next.gate.channel) <==> SomeoneInside(s)
  {
    NobodyInsideMeansNone(s);
    assert At(s, step.caller).Closing? ==> s.gate.closed;
  }

  /** Whoever leaves, gives up or ends a promotion is outside, and the last to leave and the
      end of a promotion wake everyone who is parked. */
  lemma {:induction false} DepartureWakes(s: State, step: Step, next: State, parked: Caller)
    requires Inv(s) && Follows(s, step, next) && (step.DoLeave? || step.DoEnd? || step.DoAbandon?)
    requires parked != step.caller
    ensures At(next, step.caller).Outside? && At(next, parked) == At(s, parked)
    ensures step.DoEnd? && At(s, parked).Entering? ==> CanStep(next, DoEnter(parked, false))
    ensures step.DoLeave? && !SomeoneInside(next) && At(s, parked).Draining? ==> CanStep(next, DoDrain(parked, false))
    ensures step.DoLeave? && !SomeoneInside(next) && At(s, parked).Closing? ==> CanStep(next, DoCloseWait(parked))
  {
    StepKeepsInv(s, step, next);
    NobodyInsideMeansNone(next);
  }

  // ----- Runs ----------------------------------------------------------------------------

  const FRESH: State := State(Gate(0, false, false, 0), map[])

  ghost predicate IsRun(run: seq<State>, steps: seq<Step>)
  {
    && |run| == |steps| + 1 && run[0] == FRESH
    && forall k :: 0 <= k < |steps| ==> Follows(run[k], steps[k], run[k + 1])
  }

  lemma {:induction false} RunsKeepInv(run: seq<State>, steps: seq<Step>, n: nat)
    requires IsRun(run, steps) && n <= |steps|
    ensures Inv(run[n])
  {
    if n > 0 {
      RunsKeepInv(run, steps, n - 1);
      assert Follows(run[n - 1], steps[n - 1], run[n]);
      StepKeepsInv(run[n - 1], steps[n - 1], run[n]);
    }
  }

  /** Between a successful beginPromotion and endPromotion nobody is inside. */
  lemma {:induction false} PromotionIsExclusive(run: seq<State>, steps: seq<Step>, n: nat, promoter: Caller, reader: Caller)
    requires IsRun(run, steps) && n <= |steps| && At(run[n], promoter).Promoting?
    ensures !At(run[n], reader).Inside?
  {
    RunsKeepInv(run, steps, n);
    if At(run[n], reader).Inside? {
      Counted(run[n], reader);
    }
  }

  predicate Enters(s: State, step: Step)
  {
    step.DoEnter? && Enter(s.gate, step.cancelled).1.Granted?
  }

  function Entered(run: seq<State>, steps: seq<Step>, n: nat): nat
    requires n <= |steps| <= |run|
  {
    if n == 0 then 0 else Entered(run, steps, n - 1) + (if Enters(run[n - 1], steps[n - 1]) then 1 else 0)
  }

  function Left(steps: seq<Step>, n: nat): nat
    requires n <= |steps|
  {
    if n == 0 then 0 else Left(steps, n - 1) + (if steps[n - 1].DoLeave? then 1 else 0)
  }

  /** The counter is the number of successful enters less the number of leaves. */
  lemma {:induction false} ReadersAreEntersMinusLeaves(run: seq<State>, steps: seq<Step>, n: nat)
    requires IsRun(run, steps) && n <= |steps|
    ensures run[n].gate.readers == Entered(run, steps, n) - Left(steps, n)
  {
    if n > 0 {
      ReadersAreEntersMinusLeaves(run, steps, n - 1);
      assert Follows(run[n - 1], steps[n - 1], run[n]);
    }
  }

  lemma {:induction false} ClosedStaysClosed(run: seq<State>, steps: seq<Step>, m: nat, n: nat)
    requires IsRun(run, steps) && m <= n <= |steps| && run[m].gate.closed
    ensures run[n].gate.closed && run[n].gate.readers <= run[m].gate.readers
  {
    if m < n {
      ClosedStaysClosed(run, steps, m, n - 1);
      assert Follows(run[n - 1], steps[n - 1], run[n]);
    }
  }

  /** Once closeAdmissions has returned, nobody is inside and nobody ever enters again. */
  lemma {:induction false} CloseIsFinal(run: seq<State>, steps: seq<Step>, m: nat, n: nat, closer: Caller, reader: Caller)
    requires IsRun(run, steps) && m <= n <= |steps| && At(run[m], closer).Closed?
    ensures !At(run[n], reader).Inside? && (n < |steps| ==> !Enters(run[n], steps[n]))
  {
    RunsKeepInv(run, steps, m);
    ClosedStaysClosed(run, steps, m, n);
    RunsKeepInv(run, steps, n);
    if At(run[n], reader).Inside? {
      Counted(run[n], reader);
    }
  }

  /** No lost wake-up: whoever is parked on the current channel waits for somebody. A reader
      waits for a promoter; a promoter or a closer waits for a reader that is inside. */
  lemma {:induction false} ParkedWaitsForSomeone(run: seq<State>, steps: seq<Step>, n: nat, a: Caller)
    requires IsRun(run, steps) && n <= |steps|
    ensures At(run[n], a) == Entering(run[n].gate.channel) ==> exists b :: IsPromoter(At(run[n], b))
    ensures At(run[n], a) == Draining(run[n].gate.channel) || At(run[n], a) == Closing(run[n].gate.channel) ==>
      exists b :: At(run[n], b).Inside?
  {
    RunsKeepInv(run, steps, n);
    var s := run[n];
    if At(s, a) == Draining(s.gate.channel) || At(s, a) == Closing(s.gate.channel) {
      assert |Readers(s)| > 0;
      var b :| b in Readers(s);
      assert At(s, b).Inside?;
    }
  }

  // ----- The gate object -----------------------------------------------------------------

  /** The fields that the source updates under its mutex; each method is one locked section. */
  class CatalogAdmissionGate {
    var readers: nat
    var promoting: bool
    var closed: bool
    var changed: nat

    function View(): Gate
      reads this
    {
      Gate(readers, promoting, closed, changed)
    }

    constructor ()
      ensures View() == FRESH.gate
    {
      readers, promoting, closed, changed := 0, false, false, 0;
    }

    method NotifyLocked()
      modifies this`changed
      ensures View() == Notify(old(View()))
    {
      changed := changed + 1;
    }

    method EnterOnce(cancelled: bool) returns (reply: Reply)
      modifies this`readers
      ensures (View(), reply) == Enter(old(View()), cancelled)
    {
      if closed || cancelled {
        return Refused;
      }
      if !promoting {
        readers := readers + 1;
        return Granted;
      }
      reply := Wait(changed);
    }

    method LeaveGate()
      requires readers > 0
      modifies this`readers, this`changed
      ensures View() == Leave(old(View()))
    {
      readers := readers - 1;
      if readers == 0 {
        NotifyLocked();
      }
    }

    method AwaitReadersOnce(cancelled: bool) returns (reply: Reply)
      modifies this`promoting, this`changed
      ensures (View(), reply) == AwaitReaders(old(View()), cancelled)
    {
      if cancelled {
        promoting := false;
        NotifyLocked();
        return Refused;
      }
      reply := if readers == 0 then Granted else Wait(changed);
    }

    method BeginPromotionOnce(cancelled: bool, cancelledLate: bool) returns (reply: Reply)
      modifies this`promoting, this`changed
      ensures (View(), reply) == BeginPromotion(old(View()), cancelled, cancelledLate)
    {
      if cancelled || closed || promoting {
        return Refused;
      }
      promoting := true;
      NotifyLocked();
      reply := AwaitReadersOnce(cancelledLate);
    }

    method EndPromotionOnce()
      requires promoting
      modifies this`promoting, this`changed
      ensures View() == EndPromotion(old(View()))
    {
      promoting := false;
      NotifyLocked();
    }

    method CloseOnce() returns (reply: Reply)
      modifies this`closed, this`changed
      ensures View() == CloseGate(old(View())) && reply == AwaitClose(View())
    {
      closed := true;
      NotifyLocked();
      reply := if readers == 0 then Granted else Wait(changed);
    }
  }
}
