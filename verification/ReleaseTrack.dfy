/** The release state machine of domain/release.go and the validator of persisted transitions.
    Times are integers, with 0 for the zero time. */
module ReleaseTrack {
  import opened Wrappers

  const MAX_GENERATION: nat := 0xFFFF_FFFF_FFFF_FFFF

  type Generation = g: nat | g <= MAX_GENERATION

  /** `time.Unix(0, 0)`, in nanoseconds after the zero time. */
  const EPOCH: int := 62135596800_000000000

  const LEGACY_REVIEW := "legacy-release-decision"

  datatype Result<T> = Ok(value: T) | Err

  datatype Mode = Pinned | Following | OtherMode(text: string)
  datatype Verdict = Pass | Fail | OtherVerdict(text: string)

  datatype Decision = Decision(
    revision: string, review: string, digest: string, verdict: Verdict, accepted: bool, evaluatedAt: int)

  datatype Track = Track(
    id: string, contract: string, boundRef: string, mode: Mode, generation: Generation,
    current: string, candidate: string, last: Option<Decision>)

  /** The rule for canonical identities (a text, and whether it may be empty), the form of a
      digest, and the digest of a legacy decision. */
  datatype Rules = Rules(identity: (string, bool) -> bool, digest: string -> bool, legacy: (string, bool) -> string)

  /** What the identity checks guarantee: the empty text exactly where it is allowed, and
      otherwise the same texts. */
  ghost predicate Fair(rules: Rules)
  {
    && rules.identity("", true) && !rules.identity("", false)
    && (forall s :: rules.identity(s, false) ==> rules.identity(s, true))
    && rules.identity(LEGACY_REVIEW, false)
    && (forall s, b :: rules.digest(rules.legacy(s, b)))
  }

  // ----- Validation ----------------------------------------------------------------------

  predicate IsDecision(rules: Rules, d: Decision)
  {
    && rules.identity(d.revision, false) && rules.identity(d.review, false) && rules.digest(d.digest)
    && (d.verdict.Pass? || d.verdict.Fail?)
    && (d.accepted ==> d.verdict.Pass?)
  }

  /** `ValidateReleaseTrack`, in the order of its checks. */
  predicate IsTrack(rules: Rules, t: Track)
  {
    && rules.identity(t.id, false) && rules.identity(t.contract, false) && rules.identity(t.boundRef, true)
    && rules.identity(t.current, true) && rules.identity(t.candidate, true)
    && (t.mode.Pinned? || t.mode.Following?)
    && if t.last.None? then t.candidate == "" else EvidenceFits(rules, t, t.last.value)
  }

  predicate EvidenceFits(rules: Rules, t: Track, d: Decision)
  {
    && t.generation > 0 && IsDecision(rules, d) && d.evaluatedAt != 0
    && if t.mode.Following? && d.accepted then t.candidate == "" && t.current == d.revision
       else if t.candidate != "" then t.candidate == d.revision
       else d.accepted && t.current == d.revision
  }

  // ----- Transitions ---------------------------------------------------------------------

  datatype Considered = Considered(track: Track, changed: bool)

  /** `ConsiderReleaseDecision`. */
  function Consider(rules: Rules, t: Track, d: Decision): Result<Considered>
  {
    if !IsTrack(rules, t) || !IsDecision(rules, d) then Err
    else if t.last == Some(d) then Ok(Considered(t, false))
    else if t.generation == MAX_GENERATION || d.evaluatedAt == 0 then Err
    else if t.last.Some? && t.last.value.evaluatedAt != 0 && d.evaluatedAt < t.last.value.evaluatedAt then
      Ok(Considered(t, false))
    else if t.last.Some? && t.last.value.evaluatedAt != 0 && d.evaluatedAt == t.last.value.evaluatedAt then Err
    else
      var next := t.(generation := t.generation + 1, last := Some(d));
      if !d.accepted || t.mode.Pinned? then Ok(Considered(next.(candidate := d.revision), true))
      else Ok(Considered(next.(current := d.revision, candidate := ""), true))
  }

  /** `PromoteReleaseRevision`. */
  function Promote(rules: Rules, t: Track, revision: string): Result<Track>
  {
    if !IsTrack(rules, t) || !t.mode.Pinned? || !rules.identity(revision, false) then Err
    else if t.last.None? || !t.last.value.accepted || !t.last.value.verdict.Pass? || t.last.value.revision != revision
    then Err
    else if t.candidate == "" && t.current == revision then Ok(t)
    else if revision != t.candidate || t.generation == MAX_GENERATION then Err
    else Ok(t.(generation := t.generation + 1, current := revision, candidate := ""))
  }

  function LegacyDecision(rules: Rules, t: Track, revision: string, accepted: bool): Decision
  {
    var d := Decision(
      revision, LEGACY_REVIEW, rules.legacy(revision, accepted), if accepted then Pass else Fail, accepted, EPOCH);
    if t.last.None? then d
    else if t.last.value.(evaluatedAt := EPOCH) == d then d.(evaluatedAt := t.last.value.evaluatedAt)
    else if t.last.value.evaluatedAt != 0 then d.(evaluatedAt := t.last.value.evaluatedAt + 1)
    else d
  }

  /** `ConsiderReleaseRevision`. */
  function ConsiderLegacy(rules: Rules, t: Track, revision: string, accepted: bool): Result<Track>
  {
    if !IsTrack(rules, t) || !rules.identity(revision, false) then Err
    else if t.last.Some? && t.last.value.review != LEGACY_REVIEW then Err
    else if t.last.Some? && t.last.value.accepted then
      if accepted && t.last.value.revision == revision then Ok(t) else Err
    else
      var considered := Consider(rules, t, LegacyDecision(rules, t, revision, accepted));
      if considered.Err? then Err else Ok(considered.value.track)
  }

  /** `ValidateReleaseTrackTransition`, in the order of its checks. */
  predicate IsTransition(rules: Rules, current: Track, next: Track)
  {
    && IsTrack(rules, current) && IsTrack(rules, next)
    && current.id == next.id && current.contract == next.contract
    && (current == next || Explained(rules, current, next))
  }

  predicate Explained(rules: Rules, current: Track, next: Track)
  {
    if current.last.Some? && next.last.Some? && current.last == next.last then
      current.mode.Pinned? && current.candidate != "" && Promote(rules, current, current.candidate) == Ok(next)
    else if next.last.None? then false
    else Consider(rules, current, next.last.value) == Ok(Considered(next, true))
  }

  // ----- What the validator accepts ------------------------------------------------------

  lemma {:induction false} ConsiderKeepsValidity(rules: Rules, t: Track, d: Decision)
    requires Fair(rules) && Consider(rules, t, d).Ok?
    ensures IsTrack(rules, Consider(rules, t, d).value.track)
  {
  }

  lemma {:induction false} PromoteKeepsValidity(rules: Rules, t: Track, revision: string)
    requires Fair(rules) && Promote(rules, t, revision).Ok?
    ensures IsTrack(rules, Promote(rules, t, revision).value)
  {
  }

  ghost predicate IsEffectiveDecision(rules: Rules, current: Track, next: Track)
  {
    exists d :: Consider(rules, current, d) == Ok(Considered(next, true))
  }

  ghost predicate IsPromotion(rules: Rules, current: Track, next: Track)
  {
    exists revision :: Promote(rules, current, revision) == Ok(next)
  }

  /** Exactly three things are accepted: no change, an effective decision, a promotion. The
      evidence that explains the change need not be looked for: it is in the next track. */
  lemma {:induction false} TransitionsAreExactly(rules: Rules, current: Track, next: Track)
    requires Fair(rules)
    ensures IsTransition(rules, current, next) <==>
      IsTrack(rules, current) &&
      (current == next || IsEffectiveDecision(rules, current, next) || IsPromotion(rules, current, next))
  {
    if IsEffectiveDecision(rules, current, next) {
      var d :| Consider(rules, current, d) == Ok(Considered(next, true));
      ConsiderKeepsValidity(rules, current, d);
      assert next.last == Some(d);
    }
    if IsPromotion(rules, current, next) {
      var revision :| Promote(rules, current, revision) == Ok(next);
      PromoteKeepsValidity(rules, current, revision);
    }
  }

  // ----- What takes effect, and how ------------------------------------------------------

  /** Evaluated after the track's last decision, or the track has none yet. */
  predicate IsNewer(t: Track, d: Decision)
  {
    t.last.None? || d.evaluatedAt > t.last.value.evaluatedAt
  }

  /** A valid decision takes effect exactly when it is newer, is dated, and a generation is
      left. It is refused only when it could not be told from the last one by its time, or when
      it is undated or no generation is left; what is older is passed over. */
  lemma {:induction false} ConsiderAnswers(rules: Rules, t: Track, d: Decision)
    requires IsTrack(rules, t) && IsDecision(rules, d)
    ensures
      var r, possible := Consider(rules, t, d), t.generation < MAX_GENERATION && d.evaluatedAt != 0;
      && (t.last == Some(d) ==> r == Ok(Considered(t, false)))
      && (t.last != Some(d) && !possible ==> r.Err?)
      && (possible && IsNewer(t, d) ==> r.Ok? && r.value.changed)
      && (possible && t.last.Some? && d.evaluatedAt < t.last.value.evaluatedAt ==> r == Ok(Considered(t, false)))
      && (t.last.Some? && t.last != Some(d) && d.evaluatedAt == t.last.value.evaluatedAt ==> r.Err?)
  {
  }

  /** On a pinned track a decision leaves alone what is released and makes its revision the
      candidate. On a following track an accepted decision releases its revision, and one that
      was not accepted makes it the candidate. */
  lemma {:induction false} DecisionEffect(rules: Rules, t: Track, d: Decision)
    requires Consider(rules, t, d).Ok? && Consider(rules, t, d).value.changed
    ensures
      var next := Consider(rules, t, d).value.track;
      && next.last == Some(d) && next.generation == t.generation + 1 && IsNewer(t, d)
      && (t.mode.Pinned? ==> next.current == t.current && next.candidate == d.revision)
      && (t.mode.Following? && d.accepted ==> next.current == d.revision && next.candidate == "")
      && (t.mode.Following? && !d.accepted ==> next.current == t.current && next.candidate == d.revision)
      && next.id == t.id && next.contract == t.contract && next.boundRef == t.boundRef && next.mode == t.mode
  {
  }

  /** A pinned track promotes exactly the revision of its last decision, if that was accepted:
      once, and after that as a repetition. */
  lemma {:induction false} PromotionAnswers(rules: Rules, t: Track, revision: string)
    requires Fair(rules) && IsTrack(rules, t)
    ensures
      var r := Promote(rules, t, revision);
      var accepted := t.mode.Pinned? && t.last.Some? && t.last.value.accepted && t.last.value.revision == revision;
      && (accepted && t.candidate == revision && t.generation < MAX_GENERATION ==>
        r == Ok(t.(generation := t.generation + 1, current := revision, candidate := "")))
      && (accepted && t.candidate == "" ==> r == Ok(t))
      && (r.Ok? ==> accepted && (t.candidate == "" || t.generation < MAX_GENERATION))
  {
  }

  /** A track without decisions is valid in either mode. */
  lemma {:induction false} FreshTrackIsValid(
    rules: Rules, id: string, contract: string, boundRef: string, mode: Mode, generation: Generation, current: string)
    requires Fair(rules) && rules.identity(id, false) && rules.identity(contract, false)
    requires rules.identity(boundRef, true) && rules.identity(current, true)
    ensures IsTrack(rules, Track(id, contract, boundRef, mode, generation, current, "", None)) <==> !mode.OtherMode?
  {
  }

  /** The legacy helper succeeds on any valid identity while nothing but its own rejections
      was recorded and a generation is left; then it decides like any newer decision. */
  lemma {:induction false} LegacyAnswers(rules: Rules, t: Track, revision: string, accepted: bool)
    requires Fair(rules) && IsTrack(rules, t) && rules.identity(revision, false)
    requires t.generation < MAX_GENERATION
    requires t.last.Some? ==>
      t.last.value.review == LEGACY_REVIEW && !t.last.value.accepted && t.last.value.evaluatedAt != -1
    ensures
      var r := ConsiderLegacy(rules, t, revision, accepted);
      && r.Ok? && r.value.last.Some? && r.value.last.value.revision == revision
      && r.value.last.value.accepted == accepted && r.value.last.value.review == LEGACY_REVIEW
      && r.value.last.value.digest == rules.legacy(revision, accepted)
      && (t.last.None? ==> r.value.last.value.evaluatedAt == EPOCH)
      && (t.last.Some? ==>
        r.value == t || r.value.last.value.evaluatedAt == t.last.value.evaluatedAt + 1)
      && (t.mode.Pinned? ==> r.value.current == t.current && r.value.candidate == revision)
      && (t.mode.Following? && accepted ==> r.value.current == revision && r.value.candidate == "")
  {
    var d := LegacyDecision(rules, t, revision, accepted);
    assert rules.digest(rules.legacy(revision, accepted));
    ConsiderAnswers(rules, t, d);
    if Consider(rules, t, d).Ok? && Consider(rules, t, d).value.changed {
      DecisionEffect(rules, t, d);
    }
  }

  // ----- Runs ----------------------------------------------------------------------------

  datatype Step =
    | DoConsider(decision: Decision)
    | DoPromote(revision: string)
    | DoLegacy(revision: string, accepted: bool)

  /** A step that fails leaves the stored track as it is. */
  function Next(rules: Rules, t: Track, step: Step): Track
  {
    match step
    case DoConsider(d) => if Consider(rules, t, d).Ok? then Consider(rules, t, d).value.track else t
    case DoPromote(r) => if Promote(rules, t, r).Ok? then Promote(rules, t, r).value else t
    case DoLegacy(r, a) => if ConsiderLegacy(rules, t, r, a).Ok? then ConsiderLegacy(rules, t, r, a).value else t
  }

  /** `next` is what the step makes of `t`. */
  predicate Follows(rules: Rules, t: Track, step: Step, next: Track)
  {
    next == Next(rules, t, step)
  }

  /** The tracks of a run, from a valid first one; step `k` leads from `run[k]` to the next. */
  ghost predicate IsRun(rules: Rules, run: seq<Track>, steps: seq<Step>)
  {
    && |run| == |steps| + 1 && IsTrack(rules, run[0])
    && forall k :: 0 <= k < |steps| ==> Follows(rules, run[k], steps[k], run[k + 1])
  }

  /** The decision that a step puts before track `t`, if any. */
  function Presented(rules: Rules, t: Track, step: Step): Option<Decision>
  {
    match step
    case DoConsider(d) => Some(d)
    case DoLegacy(r, a) => if LegacyApplies(rules, t, r) then Some(LegacyDecision(rules, t, r, a)) else None
    case DoPromote(_) => None
  }

  /** The legacy helper gets as far as considering its decision. */
  predicate LegacyApplies(rules: Rules, t: Track, r: string)
  {
    && IsTrack(rules, t) && rules.identity(r, false)
    && (t.last.Some? ==> t.last.value.review == LEGACY_REVIEW && !t.last.value.accepted)
  }

  /** One step: the track stays valid and keeps its identity, the change is one that the
      validator accepts, and the generation rises by one exactly when anything changes. */
  lemma {:induction false} StepIsTransition(rules: Rules, t: Track, step: Step, next: Track)
    requires Fair(rules) && IsTrack(rules, t) && Follows(rules, t, step, next)
    ensures IsTransition(rules, t, next) && IsTrack(rules, next)
    ensures next.id == t.id && next.contract == t.contract && next.mode == t.mode && next.boundRef == t.boundRef
    ensures next.generation == (if next == t then t.generation else t.generation + 1)
  {
    TransitionsAreExactly(rules, t, next);
    match step
    case DoConsider(d) =>
      assert Consider(rules, t, d).Ok? && Consider(rules, t, d).value.changed ==> IsEffectiveDecision(rules, t, next);
    case DoPromote(r) =>
      assert Promote(rules, t, r).Ok? ==> IsPromotion(rules, t, next);
    case DoLegacy(r, a) =>
      var c := Consider(rules, t, LegacyDecision(rules, t, r, a));
      assert c == Ok(Considered(next, true)) ==> IsEffectiveDecision(rules, t, next);
  }

  lemma {:induction false} RunsStayValid(rules: Rules, run: seq<Track>, steps: seq<Step>, n: nat)
    requires Fair(rules) && IsRun(rules, run, steps) && n <= |steps|
    ensures IsTrack(rules, run[n])
    ensures run[n].id == run[0].id && run[n].contract == run[0].contract
    ensures run[n].mode == run[0].mode && run[n].boundRef == run[0].boundRef
  {
    if n > 0 {
      RunsStayValid(rules, run, steps, n - 1);
      assert Follows(rules, run[n - 1], steps[n - 1], run[n]);
      StepIsTransition(rules, run[n - 1], steps[n - 1], run[n]);
    }
  }

  /** How often the first `n` steps changed the track. */
  function Changes(run: seq<Track>, n: nat): nat
    requires n < |run|
  {
    if n == 0 then 0
    else if run[n] == run[n - 1] then Changes(run, n - 1)
    else Changes(run, n - 1) + 1
  }

  /** The generation counts the effective steps. */
  lemma {:induction false} GenerationCountsChanges(rules: Rules, run: seq<Track>, steps: seq<Step>, n: nat)
    requires Fair(rules) && IsRun(rules, run, steps) && n <= |steps|
    ensures run[n].generation == run[0].generation + Changes(run, n)
  {
    if n > 0 {
      GenerationCountsChanges(rules, run, steps, n - 1);
      RunsStayValid(rules, run, steps, n - 1);
      assert Follows(rules, run[n - 1], steps[n - 1], run[n]);
      StepIsTransition(rules, run[n - 1], steps[n - 1], run[n]);
    }
  }

  /** Step `k` put decision `d` before the track, and it was not refused. */
  ghost predicate WasConsidered(rules: Rules, run: seq<Track>, steps: seq<Step>, k: nat, d: Decision)
    requires k < |steps| < |run|
  {
    Presented(rules, run[k], steps[k]) == Some(d) && Consider(rules, run[k], d).Ok?
  }

  /** Evaluated earlier, or the same decision. */
  predicate Precedes(a: Decision, b: Decision)
  {
    a.evaluatedAt < b.evaluatedAt || a == b
  }

  /** A new last decision was presented and considered, and is later than the one before;
      nothing considered is later than it. */
  lemma {:induction false} StepMovesForward(rules: Rules, t: Track, step: Step, next: Track)
    requires Fair(rules) && IsTrack(rules, t) && Follows(rules, t, step, next)
    ensures t.last.Some? ==> next.last.Some? && Precedes(t.last.value, next.last.value)
    ensures next.last != t.last ==>
      next.last.Some? && Presented(rules, t, step) == next.last && Consider(rules, t, next.last.value).Ok?
    ensures Presented(rules, t, step).Some? && Consider(rules, t, Presented(rules, t, step).value).Ok? ==>
      next.last.Some? && Precedes(Presented(rules, t, step).value, next.last.value)
  {
  }

  /** Decisions recorded never go back in time, and once there is one there always is. */
  lemma {:induction false} DecisionsMoveForward(rules: Rules, run: seq<Track>, steps: seq<Step>, m: nat, n: nat)
    requires Fair(rules) && IsRun(rules, run, steps) && m <= n <= |steps|
    ensures run[m].last.Some? ==> run[n].last.Some? && Precedes(run[m].last.value, run[n].last.value)
  {
    if m < n {
      DecisionsMoveForward(rules, run, steps, m, n - 1);
      OneStepForward(rules, run, steps, n);
    }
  }

  lemma {:induction false} OneStepForward(rules: Rules, run: seq<Track>, steps: seq<Step>, n: nat)
    requires Fair(rules) && IsRun(rules, run, steps) && 0 < n <= |steps|
    ensures run[n - 1].last.Some? ==> run[n].last.Some? && Precedes(run[n - 1].last.value, run[n].last.value)
  {
    RunsStayValid(rules, run, steps, n - 1);
    assert Follows(rules, run[n - 1], steps[n - 1], run[n]);
    StepMovesForward(rules, run[n - 1], steps[n - 1], run[n]);
  }

  /** The last decision is the latest-evaluated one of all those considered: none is later,
      and one evaluated at the same time is the very same decision. */
  lemma {:induction false} LastIsLatest(
    rules: Rules, run: seq<Track>, steps: seq<Step>, k: nat, n: nat, d: Decision)
    requires Fair(rules) && IsRun(rules, run, steps) && k < n <= |steps| && WasConsidered(rules, run, steps, k, d)
    ensures run[n].last.Some? && Precedes(d, run[n].last.value)
  {
    RunsStayValid(rules, run, steps, k);
    assert Follows(rules, run[k], steps[k], run[k + 1]);
    StepMovesForward(rules, run[k], steps[k], run[k + 1]);
    DecisionsMoveForward(rules, run, steps, k + 1, n);
  }

  /** The last decision is the initial one or one that some step had considered. */
  lemma {:induction false} LastWasConsidered(rules: Rules, run: seq<Track>, steps: seq<Step>, n: nat)
    requires Fair(rules) && IsRun(rules, run, steps) && n <= |steps|
    ensures var last := run[n].last;
      last == run[0].last || (last.Some? && exists k :: 0 <= k < n && WasConsidered(rules, run, steps, k, last.value))
  {
    if n > 0 {
      LastWasConsidered(rules, run, steps, n - 1);
      RunsStayValid(rules, run, steps, n - 1);
      assert Follows(rules, run[n - 1], steps[n - 1], run[n]);
      StepMovesForward(rules, run[n - 1], steps[n - 1], run[n]);
      if run[n].last != run[n - 1].last {
        assert WasConsidered(rules, run, steps, n - 1, run[n].last.value);
      }
    }
  }

  /** Revision `r` was approved: an accepted, passing decision on it is the initial one or was
      considered by one of the first `n` steps. */
  ghost predicate Approved(rules: Rules, run: seq<Track>, steps: seq<Step>, n: nat, r: string)
    requires n <= |steps| < |run|
  {
    || (run[0].last.Some? && Approves(run[0].last.value, r))
    || exists k, d :: 0 <= k < n && WasConsidered(rules, run, steps, k, d) && Approves(d, r)
  }

  predicate Approves(d: Decision, r: string)
  {
    d.accepted && d.verdict.Pass? && d.revision == r
  }

  lemma {:induction false} StepSetsCurrent(rules: Rules, t: Track, step: Step, next: Track)
    requires Fair(rules) && IsTrack(rules, t) && Follows(rules, t, step, next) && next.current != t.current
    ensures next.last.Some? && Approves(next.last.value, next.current)
  {
  }

  /** What is released was there from the start or was approved. */
  lemma {:induction false} CurrentWasApproved(rules: Rules, run: seq<Track>, steps: seq<Step>, n: nat)
    requires Fair(rules) && IsRun(rules, run, steps) && n <= |steps|
    ensures run[n].current == run[0].current || Approved(rules, run, steps, n, run[n].current)
  {
    if n > 0 {
      CurrentWasApproved(rules, run, steps, n - 1);
      RunsStayValid(rules, run, steps, n - 1);
      assert Follows(rules, run[n - 1], steps[n - 1], run[n]);
      if run[n].current != run[n - 1].current {
        StepSetsCurrent(rules, run[n - 1], steps[n - 1], run[n]);
        LastWasConsidered(rules, run, steps, n);
      }
    }
  }

  /** A pinned track releases only by promotion, and then its own accepted candidate. */
  lemma {:induction false} PinnedStep(rules: Rules, t: Track, step: Step, next: Track)
    requires Fair(rules) && IsTrack(rules, t) && Follows(rules, t, step, next) && t.mode.Pinned?
    requires next.current != t.current
    ensures step == DoPromote(next.current) && t.candidate == next.current && next.candidate == ""
    ensures t.last.Some? && Approves(t.last.value, next.current)
  {
  }

  /** Over any run of a pinned track, what is released stands until it is promoted away. */
  lemma {:induction false} PinnedStands(rules: Rules, run: seq<Track>, steps: seq<Step>, m: nat, n: nat)
    requires Fair(rules) && IsRun(rules, run, steps) && m <= n <= |steps| && run[0].mode.Pinned?
    requires forall k :: m <= k < n ==> !steps[k].DoPromote?
    ensures run[n].current == run[m].current
  {
    if m < n {
      PinnedStands(rules, run, steps, m, n - 1);
      RunsStayValid(rules, run, steps, n - 1);
      assert Follows(rules, run[n - 1], steps[n - 1], run[n]);
      if run[n].current != run[n - 1].current {
        PinnedStep(rules, run[n - 1], steps[n - 1], run[n]);
      }
    }
  }

  /** On a following track the released revision is that of the last decision as soon as that
      one was accepted, and stands while decisions are not accepted. */
  lemma {:induction false} FollowingStep(rules: Rules, t: Track, step: Step, next: Track)
    requires Fair(rules) && IsTrack(rules, t) && Follows(rules, t, step, next) && t.mode.Following?
    ensures next.last.Some? && next.last.value.accepted ==> next.current == next.last.value.revision
    ensures next.last.Some? && !next.last.value.accepted ==>
      next.current == t.current && next.candidate == next.last.value.revision
    ensures next.last.None? ==> next == t
  {
  }

  /** Considering and promoting again changes nothing. */
  lemma {:induction false} ReplayIsIdle(rules: Rules, t: Track, step: Step)
    requires Fair(rules) && IsTrack(rules, t)
    requires step.DoConsider? ==> Consider(rules, t, step.decision).Ok?
    requires step.DoPromote? ==> Promote(rules, t, step.revision).Ok?
    ensures !step.DoLegacy? ==> Next(rules, Next(rules, t, step), step) == Next(rules, t, step)
    ensures step.DoConsider? ==> Consider(rules, Next(rules, t, step), step.decision) == Ok(Considered(Next(rules, t, step), false))
    ensures step.DoPromote? ==> Promote(rules, Next(rules, t, step), step.revision) == Ok(Next(rules, t, step))
  {
    if step.DoConsider? {
      ConsiderKeepsValidity(rules, t, step.decision);
    }
    if step.DoPromote? {
      PromoteKeepsValidity(rules, t, step.revision);
    }
  }

  /** The legacy helper: once it has accepted, its verdict stands whatever it is asked next. */
  lemma {:induction false} LegacyAcceptanceStands(rules: Rules, t: Track, revision: string, again: string, accepted: bool)
    requires Fair(rules) && IsTrack(rules, t) && ConsiderLegacy(rules, t, revision, true).Ok?
    ensures var next := ConsiderLegacy(rules, t, revision, true).value;
      && next.last.Some? && next.last.value.accepted && next.last.value.revision == revision
      && Next(rules, next, DoLegacy(again, accepted)) == next
  {
  }
}
