/** From the review engine to the release: what an accepted release rests on. */
module ReleaseEvidence {
  import opened Wrappers
  import ReleaseTrack
  import opened ReleaseService
  import SpecDiff
  import Policy
  import opened Review
  import opened ReviewReport

  /** The service's report check is the review engine's, and what a stored review says of its
      report is what the report says. */
  ghost predicate Agree(context: Context, engine: Engine, reportOf: ReleaseService.Review -> Report)
  {
    forall r: ReleaseService.Review, contract, base, candidate :: context.isReport(r, contract, base, candidate) ==>
      && Accepts(engine, reportOf(r), contract, base, candidate)
      && (r.verdict.Pass? <==> reportOf(r).verdict.Pass?) && r.evaluatedAt == reportOf(r).evaluatedAt
  }

  /** The snapshot of a stored revision. */
  function SnapshotOf(context: Context, contract: string, id: string): SpecDiff.Snapshot
    requires context.revision(contract, id).Some? && context.revision(contract, id).value.snapshot.Some?
  {
    context.revision(contract, id).value.snapshot.value
  }

  /** A command that accepts gets past the checks only if, between the stored snapshots of
      the baseline and the candidate, no layer of the reviewed policy objects to any change
      without an excuse. */
  lemma {:induction false} AcceptanceIsEarned(
    context: Context, engine: Engine, reportOf: ReleaseService.Review -> Report, c: Command)
    requires Agree(context, engine, reportOf) && IsReady(context, c) && c.accepted
    ensures var e := EvidenceFor(context, c).value;
      var base, candidate :=
        SnapshotOf(context, c.contract, e.authorization.baseline), SnapshotOf(context, c.contract, e.authorization.candidate);
      && Accepts(engine, reportOf(e.review), c.contract, base, candidate)
      && !Policy.SomeoneObjects(
        engine.rules, CanonicalOf(engine, Rebuilt(reportOf(e.review).policy)).layers,
        Findings(engine.text, base, candidate), e.review.evaluatedAt)
  {
    var e := EvidenceFor(context, c).value;
    var base, candidate :=
      SnapshotOf(context, c.contract, e.authorization.baseline), SnapshotOf(context, c.contract, e.authorization.candidate);
    assert context.isReport(e.review, c.contract, base, candidate);
    AcceptedVerdict(engine, reportOf(e.review), c.contract, base, candidate);
  }

  /** So what a commit makes current by an acceptance was earned. */
  lemma {:induction false} CommitIsEarned(
    context: Context, engine: Engine, reportOf: ReleaseService.Review -> Report, before: Store, after: Store,
    c: Command, next: ReleaseTrack.Track, now: int)
    requires Agree(context, engine, reportOf) && IsReady(context, c)
    requires Commits(context, before, after, c, EvidenceFor(context, c).value, next, now)
    requires next.current != before.tracks[(c.contract, c.track)].current
    ensures c.accepted && next.current == EvidenceFor(context, c).value.authorization.candidate
    ensures var e := EvidenceFor(context, c).value;
      !Policy.SomeoneObjects(
        engine.rules, CanonicalOf(engine, Rebuilt(reportOf(e.review).policy)).layers,
        Findings(
          engine.text, SnapshotOf(context, c.contract, e.authorization.baseline),
          SnapshotOf(context, c.contract, e.authorization.candidate)),
        e.review.evaluatedAt)
  {
    ChangedCurrentWasAccepted(context, before, after, c, EvidenceFor(context, c).value, next, now);
    AcceptanceIsEarned(context, engine, reportOf, c);
  }

  lemma {:induction false} ChangedCurrentWasAccepted(
    context: Context, before: Store, after: Store, c: Command, e: Evidence, next: ReleaseTrack.Track, now: int)
    requires IsSelected(context, c, e) && Commits(context, before, after, c, e, next, now)
    requires next.current != before.tracks[(c.contract, c.track)].current
    ensures c.accepted && next.current == e.authorization.candidate
  {
    var t := before.tracks[(c.contract, c.track)];
    var d := DecisionOf(e.review, c.accepted);
    assert ReleaseTrack.Explained(context.rules, t, next);
  }
}
