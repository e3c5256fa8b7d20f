/** `ReleaseService.Coordinate` in application/release.go over an atomic store: what one call
    commits, that repeating it commits nothing, and what every run of calls adds up to. */
module ReleaseService {
  import opened Wrappers
  import opened ReleaseTrack
  import SpecDiff

  /** `ReleaseReviewMaxFutureSkew`, in nanoseconds. */
  const MAX_SKEW: int := 300_000000000

  datatype Authorization = Authorization(
    contract: string, track: string, review: string, sync: string, baseline: string, candidate: string,
    source: string, boundRef: string, path: string, policyDigest: string)

  /** The digests of a reviewed revision. */
  datatype Digests = Digests(spec: string, contract: string)

  /** A persisted review: its identities, and of its report the verdict, the digest of its
      canonical form, the evaluation time and when the applied exceptions expire. */
  datatype Review = Review(
    id: string, contract: string, baseline: string, baselineDigests: Digests,
    candidate: string, candidateDigests: Digests, policyDigest: string,
    verdict: Verdict, digest: string, evaluatedAt: int, expiries: seq<seq<int>>)

  datatype Sync = Sync(
    id: string, contract: string, source: string, revision: string, ref: string, commit: string, succeeded: bool)

  /** A stored revision with its canonical review snapshot, if it has one. */
  datatype Revision = Revision(
    id: string, contract: string, source: string, ref: string, commit: string, digests: Digests,
    snapshot: Option<SpecDiff.Snapshot>)

  datatype Evidence = Evidence(authorization: Authorization, review: Review, sync: Sync)

  datatype Command = Command(
    contract: string, track: string, revision: string, accepted: bool, review: string, sync: string, actor: string)

  datatype AuditEvent = AuditEvent(
    id: string, contract: string, track: string, revision: string, kind: string, actor: string, occurredAt: int)

  datatype Message = Message(
    id: string, contract: string, track: string, revision: string, topic: string, createdAt: int)

  type Key = (string, string)

  datatype Store = Store(
    tracks: map<Key, Track>, publications: map<Key, string>, audit: seq<AuditEvent>, outbox: seq<Message>)

  datatype Operation = LoadTrack | SaveTrack | SavePublication | AppendAudit | Enqueue

  /** What the service is given: the command and authorization checks, the readers of evidence
      and revisions, the validation of snapshots and of reports against them, and the
      identities derived from a digest. */
  datatype Context = Context(
    rules: Rules,
    isCommand: Command -> bool,
    isAuthorization: Authorization -> bool,
    evidence: (string, string, string) -> Option<Evidence>,
    revision: (string, string) -> Option<Revision>,
    isSnapshot: SpecDiff.Snapshot -> bool,
    isReport: (Review, string, SpecDiff.Snapshot, SpecDiff.Snapshot) -> bool,
    eventId: (Authorization, bool, nat) -> string,
    messageId: string -> string)

  // ----- What a call demands -------------------------------------------------------------

  /** `validateSelectedReleaseEvidence`. */
  predicate IsSelected(context: Context, c: Command, e: Evidence)
  {
    var a := e.authorization;
    && context.isAuthorization(a)
    && a.contract == c.contract && a.track == c.track && a.review == c.review && a.sync == c.sync
    && a.candidate == c.revision
    && e.review.id == a.review && e.review.contract == a.contract && e.review.baseline == a.baseline
    && e.review.candidate == a.candidate && e.review.policyDigest == a.policyDigest
    && e.sync.id == a.sync && e.sync.contract == a.contract && e.sync.source == a.source
    && e.sync.revision == a.candidate && e.sync.ref == a.boundRef
    && (c.accepted ==> e.review.verdict.Pass? && e.sync.succeeded)
  }

  function EvidenceFor(context: Context, c: Command): Option<Evidence>
  {
    context.evidence(c.contract, c.track, c.review)
  }

  /** `validateReleaseRevisionIdentity`: source and ref are checked where they are given. */
  predicate IsRevision(r: Revision, contract: string, id: string, source: string, boundRef: string)
  {
    && r.contract == contract && r.id == id
    && (source != "" ==> r.source == source)
    && (boundRef != "" ==> r.ref == boundRef || (r.commit != "" && r.ref == r.commit))
  }

  /** `revisionReviewSnapshot`: the snapshot is valid and describes this very revision. */
  predicate HasSnapshot(context: Context, r: Revision)
  {
    && r.snapshot.Some? && context.isSnapshot(r.snapshot.value)
    && r.snapshot.value.contract == r.contract && r.snapshot.value.revision == r.id
    && DigestsOf(r.snapshot.value) == r.digests
  }

  function DigestsOf(s: SpecDiff.Snapshot): Digests
  {
    Digests(s.specDigest, s.contractDigest)
  }

  /** Lines 79-127: the evidence is about the stored revisions, and its report is the one that
      their snapshots give. */
  predicate IsBound(context: Context, c: Command, e: Evidence)
  {
    var a := e.authorization;
    var baseline, candidate := context.revision(c.contract, a.baseline), context.revision(c.contract, a.candidate);
    && baseline.Some? && candidate.Some?
    && IsRevision(baseline.value, a.contract, a.baseline, "", "")
    && IsRevision(candidate.value, a.contract, a.candidate, a.source, a.boundRef)
    && candidate.value.commit == e.sync.commit
    && HasSnapshot(context, baseline.value) && HasSnapshot(context, candidate.value)
    && IsReviewOf(e.review, baseline.value.snapshot.value, candidate.value.snapshot.value)
    && context.isReport(e.review, c.contract, baseline.value.snapshot.value, candidate.value.snapshot.value)
  }

  /** `validateContractReviewSnapshots`. */
  predicate IsReviewOf(review: Review, baseline: SpecDiff.Snapshot, candidate: SpecDiff.Snapshot)
  {
    && review.baseline == baseline.revision && review.baselineDigests == DigestsOf(baseline)
    && review.candidate == candidate.revision && review.candidateDigests == DigestsOf(candidate)
  }

  /** Everything demanded before the transaction begins. */
  predicate IsReady(context: Context, c: Command)
  {
    && context.isCommand(c) && EvidenceFor(context, c).Some?
    && IsSelected(context, c, EvidenceFor(context, c).value) && IsBound(context, c, EvidenceFor(context, c).value)
  }

  /** `releaseDecision`. */
  function DecisionOf(review: Review, accepted: bool): Decision
  {
    Decision(review.candidate, review.id, review.digest, review.verdict, accepted, review.evaluatedAt)
  }

  predicate IsUnexpired(expiries: seq<seq<int>>, now: int)
  {
    forall i, j :: 0 <= i < |expiries| && 0 <= j < |expiries[i]| ==> now < expiries[i][j]
  }

  /** The trusted clock allows the review to be applied now. */
  predicate IsTimely(review: Review, now: int)
  {
    now != 0 && review.evaluatedAt <= now + MAX_SKEW && IsUnexpired(review.expiries, now)
  }

  /** The track is there, valid and meant by the authorization. */
  predicate IsAuthorized(context: Context, store: Store, e: Evidence)
  {
    var a := e.authorization;
    && (a.contract, a.track) in store.tracks
    && var t := store.tracks[(a.contract, a.track)];
      && IsTrack(context.rules, t) && t.contract == a.contract && t.id == a.track && t.boundRef == a.boundRef
      && (t.candidate != "" ==> t.current == a.baseline)
  }

  predicate IsPublished(t: Track, c: Command, a: Authorization)
  {
    c.accepted && t.current == a.candidate
  }

  // ----- What a call commits -------------------------------------------------------------

  /** One effective call: the track moves on by one decision and one generation, exactly one
      audit event and one message are added, and the candidate is published exactly when it
      was accepted and became current. */
  ghost predicate Commits(context: Context, before: Store, after: Store, c: Command, e: Evidence, next: Track, now: int)
  {
    var a := e.authorization;
    var key := (a.contract, a.track);
    var id := context.eventId(a, c.accepted, next.generation);
    && key in before.tracks && before.tracks[key] != next
    && next.generation == before.tracks[key].generation + 1
    && next.last == Some(DecisionOf(e.review, c.accepted))
    && IsTransition(context.rules, before.tracks[key], next)
    && after.tracks == before.tracks[key := next]
    && after.audit == before.audit
      + [AuditEvent(id, a.contract, a.track, a.candidate, "release.track.considered", c.actor, now)]
    && after.outbox == before.outbox
      + [Message(context.messageId(id), a.contract, a.track, a.candidate, "release.track.updated", now)]
    && after.publications ==
      (if IsPublished(next, c, a) then before.publications[(a.contract, a.candidate) := a.path] else before.publications)
  }

  /** The decision is already the track's last one. */
  predicate IsReplay(context: Context, store: Store, c: Command, e: Evidence)
  {
    var key := (e.authorization.contract, e.authorization.track);
    key in store.tracks && store.tracks[key].last == Some(DecisionOf(e.review, c.accepted))
  }

  predicate IsStale(context: Context, store: Store, c: Command, e: Evidence)
  {
    var key := (e.authorization.contract, e.authorization.track);
    key in store.tracks &&
    Consider(context.rules, store.tracks[key], DecisionOf(e.review, c.accepted)) == Ok(Considered(store.tracks[key], false))
  }

  /** The decision moves the track on. */
  predicate IsEffective(context: Context, store: Store, c: Command, e: Evidence)
  {
    var key := (e.authorization.contract, e.authorization.track);
    key in store.tracks && store.tracks[key].current == e.authorization.baseline &&
    var considered := Consider(context.rules, store.tracks[key], DecisionOf(e.review, c.accepted));
    considered.Ok? && considered.value.changed
  }

  /** `SaveReleaseTrack` of a store that checks generations and transitions. */
  function Save(rules: Rules, store: Store, expected: nat, t: Track): Option<Store>
  {
    var key := (t.contract, t.id);
    if !IsTrack(rules, t) then None
    else if key in store.tracks then
      if store.tracks[key].generation != expected || !IsTransition(rules, store.tracks[key], t) then None
      else Some(store.(tracks := store.tracks[key := t]))
    else if expected != 0 then None
    else Some(store.(tracks := store.tracks[key := t]))
  }

  /** The store's own checks never refuse what the service saves. */
  lemma {:induction false} SaveAccepts(context: Context, store: Store, c: Command, e: Evidence)
    requires Fair(context.rules) && IsAuthorized(context, store, e) && IsEffective(context, store, c, e)
    ensures var t := store.tracks[(e.authorization.contract, e.authorization.track)];
      var next := Consider(context.rules, t, DecisionOf(e.review, c.accepted)).value.track;
      && Save(context.rules, store, t.generation, next)
        == Some(store.(tracks := store.tracks[(e.authorization.contract, e.authorization.track) := next]))
      && IsTransition(context.rules, t, next)
  {
    var t := store.tracks[(e.authorization.contract, e.authorization.track)];
    var d := DecisionOf(e.review, c.accepted);
    var next := Consider(context.rules, t, d).value.track;
    assert Consider(context.rules, t, d) == Ok(Considered(next, true));
    assert IsEffectiveDecision(context.rules, t, next);
    TransitionsAreExactly(context.rules, t, next);
  }

  // ----- The service ---------------------------------------------------------------------

  /** The store operations that an effective call performs. */
  predicate CommitFails(fails: Operation -> bool, t: Track, c: Command, a: Authorization)
  {
    fails(SaveTrack) || fails(AppendAudit) || fails(Enqueue) || (IsPublished(t, c, a) && fails(SavePublication))
  }

  class Service {
    const context: Context
    var store: Store

    constructor (context: Context, store: Store)
      ensures this.context == context && this.store == store
    {
      this.context, this.store := context, store;
    }

    /** `Coordinate`, with the clock reading and the store failures as parameters. It either
        fails and leaves the store alone, or returns the stored track unchanged (the decision
        is the last one already, or an older one), or commits one effective step. */
    method Coordinate(c: Command, now: int, fails: Operation -> bool) returns (r: Result<Track>)
      requires Fair(context.rules)
      modifies this`store
      ensures Steps(context, old(store), store)
      ensures r.Err? ==> store == old(store)
      ensures r.Ok? ==> IsReady(context, c) && IsAuthorized(context, old(store), EvidenceFor(context, c).value)
      ensures r.Ok? ==> (c.contract, c.track) in store.tracks && r.value == store.tracks[(c.contract, c.track)]
      ensures r.Ok? ==>
        var e := EvidenceFor(context, c).value;
        || (store == old(store) && (IsReplay(context, old(store), c, e) || IsStale(context, old(store), c, e)))
        || (Commits(context, old(store), store, c, e, r.value, now) && IsEffective(context, old(store), c, e))
      ensures r.Ok? && !IsReplay(context, old(store), c, EvidenceFor(context, c).value) ==>
        var review := EvidenceFor(context, c).value.review;
        && now != 0 && review.evaluatedAt <= now + MAX_SKEW
        && forall i, j :: 0 <= i < |review.expiries| && 0 <= j < |review.expiries[i]| ==> now < review.expiries[i][j]
      ensures IsReady(context, c) && IsAuthorized(context, old(store), EvidenceFor(context, c).value) && !fails(LoadTrack) ==>
        var e := EvidenceFor(context, c).value;
        var timely := now != 0 && e.review.evaluatedAt <= now + MAX_SKEW && IsUnexpired(e.review.expiries, now);
        && (IsReplay(context, old(store), c, e) ==> r.Ok? && store == old(store))
        && (timely && IsStale(context, old(store), c, e) ==> r.Ok? && store == old(store))
        && (timely && IsEffective(context, old(store), c, e) && (forall o :: !fails(o)) ==>
          r.Ok? && Commits(context, old(store), store, c, e, r.value, now))
    {
      if !context.isCommand(c) || EvidenceFor(context, c).None? {
        return Err;
      }
      var e := EvidenceFor(context, c).value;
      if !IsSelected(context, c, e) || !IsBound(context, c, e) {
        return Err;
      }
      var committed;
      r, committed := Transact(c, e, now, fails);
      if r.Ok? {
        store := committed;
      }
    }

    /** The body of the transaction, on a store that is only committed if it succeeds. */
    method Transact(c: Command, e: Evidence, now: int, fails: Operation -> bool)
      returns (r: Result<Track>, after: Store)
      requires Fair(context.rules) && IsSelected(context, c, e)
      ensures r.Ok? ==> IsAuthorized(context, store, e)
      ensures r.Ok? ==> (c.contract, c.track) in after.tracks && r.value == after.tracks[(c.contract, c.track)]
      ensures r.Ok? ==>
        || (after == store && (IsReplay(context, store, c, e) || IsStale(context, store, c, e)))
        || (Commits(context, store, after, c, e, r.value, now) && IsEffective(context, store, c, e))
      ensures r.Ok? && !IsReplay(context, store, c, e) ==> IsTimely(e.review, now)
      ensures IsAuthorized(context, store, e) && !fails(LoadTrack) ==>
        && (IsReplay(context, store, c, e) ==> r.Ok? && after == store)
        && (IsTimely(e.review, now) && IsStale(context, store, c, e) ==> r.Ok? && after == store)
        && (IsTimely(e.review, now) && IsEffective(context, store, c, e) && (forall o :: !fails(o)) ==>
          r.Ok? && Commits(context, store, after, c, e, r.value, now))
    {
      after := store;
      var a := e.authorization;
      if fails(LoadTrack) || (c.contract, c.track) !in store.tracks {
        return Err, after;
      }
      var t := store.tracks[(c.contract, c.track)];
      if !IsTrack(context.rules, t) || t.contract != a.contract || t.id != a.track || t.boundRef != a.boundRef {
        return Err, after;
      }
      if t.candidate != "" && t.current != a.baseline {
        return Err, after;
      }
      var d := DecisionOf(e.review, c.accepted);
      if t.last == Some(d) {
        return Ok(t), after;
      }
      if now == 0 || e.review.evaluatedAt > now + MAX_SKEW {
        return Err, after;
      }
      var unexpired := CheckExceptions(e.review.expiries, now);
      if !unexpired {
        return Err, after;
      }
      var considered := Consider(context.rules, t, d);
      if considered.Err? {
        return Err, after;
      }
      if !considered.value.changed {
        return Ok(considered.value.track), after;
      }
      if t.current != a.baseline {
        return Err, after;
      }
      SaveAccepts(context, store, c, e);
      r, after := Write(c, e, t, considered.value.track, now, fails);
    }

    /** Lines 184-210. */
    method Write(c: Command, e: Evidence, t: Track, next: Track, now: int, fails: Operation -> bool)
      returns (r: Result<Track>, after: Store)
      requires var a := e.authorization;
        && (a.contract, a.track) in store.tracks && t == store.tracks[(a.contract, a.track)] && t != next
        && next.generation == t.generation + 1 && next.last == Some(DecisionOf(e.review, c.accepted))
        && IsTransition(context.rules, t, next)
        && Save(context.rules, store, t.generation, next)
          == Some(store.(tracks := store.tracks[(a.contract, a.track) := next]))
      ensures r.Ok? <==> !CommitFails(fails, next, c, e.authorization)
      ensures r.Ok? ==> r.value == next && Commits(context, store, after, c, e, next, now)
    {
      after := store;
      var a := e.authorization;
      var saved := Save(context.rules, store, t.generation, next);
      if fails(SaveTrack) || saved.None? {
        return Err, after;
      }
      after := saved.value;
      if c.accepted && next.current == a.candidate {
        if fails(SavePublication) {
          return Err, after;
        }
        after := after.(publications := after.publications[(a.contract, a.candidate) := a.path]);
      }
      var id := context.eventId(a, c.accepted, next.generation);
      if fails(AppendAudit) {
        return Err, after;
      }
      after := after.(audit := after.audit
        + [AuditEvent(id, a.contract, a.track, a.candidate, "release.track.considered", c.actor, now)]);
      if fails(Enqueue) {
        return Err, after;
      }
      after := after.(outbox := after.outbox
        + [Message(context.messageId(id), a.contract, a.track, a.candidate, "release.track.updated", now)]);
      r := Ok(next);
    }

    /** `validateAppliedExceptionsAtReleaseTime`. */
    method CheckExceptions(expiries: seq<seq<int>>, now: int) returns (ok: bool)
      ensures ok <==> IsUnexpired(expiries, now)
    {
      for i := 0 to |expiries|
        invariant forall h, j :: 0 <= h < i && 0 <= j < |expiries[h]| ==> now < expiries[h][j]
      {
        for j := 0 to |expiries[i]|
          invariant forall k :: 0 <= k < j ==> now < expiries[i][k]
        {
          if now >= expiries[i][j] {
            return false;
          }
        }
      }
      return true;
    }

    /** A call that took effect, made again: nothing changes and the same track comes back,
        whatever the clock says and whatever writes would fail. */
    method CoordinateTwice(c: Command, now: int, later: int, fails: Operation -> bool, failsLater: Operation -> bool)
      returns (first: Result<Track>, second: Result<Track>, ghost between: Store)
      requires Fair(context.rules)
      modifies this`store
      ensures first.Ok? && between != old(store) && !failsLater(LoadTrack) ==> second == first && store == between
    {
      first := Coordinate(c, now, fails);
      between := store;
      if first.Ok? && between != old(store) {
        RepeatIsReplay(context, old(store), store, c, EvidenceFor(context, c).value, first.value, now);
      }
      second := Coordinate(c, later, failsLater);
    }
  }

  /** What an effective call commits makes its own repetition a replay. */
  lemma {:induction false} RepeatIsReplay(
    context: Context, before: Store, after: Store, c: Command, e: Evidence, next: Track, now: int)
    requires Fair(context.rules) && IsAuthorized(context, before, e) && IsSelected(context, c, e)
    requires Commits(context, before, after, c, e, next, now) && IsEffective(context, before, c, e)
    ensures IsAuthorized(context, after, e) && IsReplay(context, after, c, e)
  {
    var t := before.tracks[(e.authorization.contract, e.authorization.track)];
    var d := DecisionOf(e.review, c.accepted);
    assert t.last != Some(d);
    assert Explained(context.rules, t, next);
    assert Consider(context.rules, t, d) == Ok(Considered(next, true));
  }

  // ----- What the checks and the commit come to ------------------------------------------

  /** The command that asks for just what the authorization is about. */
  function Asking(a: Authorization, accepted: bool, actor: string): Command
  {
    Command(a.contract, a.track, a.candidate, accepted, a.review, a.sync, actor)
  }

  /** Evidence serves a command exactly when the command, the review and the sync are those that
      a valid authorization names and, if the command accepts, the review passed and the sync
      succeeded. */
  lemma {:induction false} SelectedIff(context: Context, c: Command, e: Evidence)
    ensures
      var a := e.authorization;
      IsSelected(context, c, e) <==>
      && context.isAuthorization(a) && c == Asking(a, c.accepted, c.actor)
      && e.review == e.review.(
        id := a.review, contract := a.contract, baseline := a.baseline, candidate := a.candidate,
        policyDigest := a.policyDigest)
      && e.sync == Sync(a.sync, a.contract, a.source, a.candidate, a.boundRef, e.sync.commit, e.sync.succeeded)
      && (c.accepted ==> e.review.verdict == Pass && e.sync.succeeded)
  {
  }

  /** The snapshot is the valid one of this very revision. */
  ghost predicate Describes(context: Context, s: SpecDiff.Snapshot, r: Revision)
  {
    && context.isSnapshot(s)
    && (s.contract, s.revision, s.specDigest, s.contractDigest) == (r.contract, r.id, r.digests.spec, r.digests.contract)
  }

  /** The revision as the authorization places it: from its source, and at its ref unless it was
      taken at its very commit. */
  ghost predicate IsPlaced(r: Revision, a: Authorization)
  {
    && (a.source == "" || r.source == a.source)
    && (a.boundRef == "" || r.ref == a.boundRef || (r.ref == r.commit && r.ref != ""))
  }

  /** Evidence is bound exactly when both revisions are stored under the authorized names with
      their own snapshots, the candidate is placed as authorized at the commit that was synced,
      and the review and its report are about just these two snapshots. */
  lemma {:induction false} BoundIff(context: Context, c: Command, e: Evidence)
    ensures
      var a := e.authorization;
      IsBound(context, c, e) <==> exists baseline, candidate, base, head ::
        IsBoundTo(context, c, e, baseline, candidate, base, head)
  {
    var a := e.authorization;
    if IsBound(context, c, e) {
      var baseline, candidate := context.revision(c.contract, a.baseline).value, context.revision(c.contract, a.candidate).value;
      assert IsBoundTo(context, c, e, baseline, candidate, baseline.snapshot.value, candidate.snapshot.value);
    }
  }

  ghost predicate IsBoundTo(
    context: Context, c: Command, e: Evidence, baseline: Revision, candidate: Revision,
    base: SpecDiff.Snapshot, head: SpecDiff.Snapshot)
  {
    var a := e.authorization;
    && context.revision(c.contract, a.baseline) == Some(baseline.(contract := a.contract, id := a.baseline, snapshot := Some(base)))
    && context.revision(c.contract, a.candidate) == Some(candidate.(contract := a.contract, id := a.candidate, snapshot := Some(head)))
    && baseline.contract == candidate.contract == a.contract && baseline.id == a.baseline && candidate.id == a.candidate
    && IsPlaced(candidate, a) && candidate.commit == e.sync.commit
    && Describes(context, base, baseline) && Describes(context, head, candidate)
    && (e.review.baseline, e.review.baselineDigests) == (baseline.id, baseline.digests)
    && (e.review.candidate, e.review.candidateDigests) == (candidate.id, candidate.digests)
    && context.isReport(e.review, c.contract, base, head)
  }

  /** A newer, dated decision on a track whose released revision is the reviewed baseline moves
      it on, and only such a one. */
  lemma {:induction false} EffectiveIff(context: Context, store: Store, c: Command, e: Evidence)
    requires IsAuthorized(context, store, e)
    ensures
      var a := e.authorization;
      var t, d := store.tracks[(a.contract, a.track)],
        Decision(e.review.candidate, e.review.id, e.review.digest, e.review.verdict, c.accepted, e.review.evaluatedAt);
      IsEffective(context, store, c, e) <==>
      && t.current == a.baseline && IsDecision(context.rules, d) && d.evaluatedAt != 0
      && t.generation < MAX_GENERATION && IsNewer(t, d)
  {
    var a := e.authorization;
    var t, d := store.tracks[(a.contract, a.track)], DecisionOf(e.review, c.accepted);
    if IsDecision(context.rules, d) {
      ConsiderAnswers(context.rules, t, d);
    }
  }

  /** On a pinned track a commit never changes what is released, and so publishes nothing new; on
      a following track an accepting command releases and publishes the candidate, and any
      other leaves both alone. */
  lemma {:induction false} CommitMeans(
    context: Context, before: Store, after: Store, c: Command, e: Evidence, next: Track, now: int)
    requires IsSelected(context, c, e) && IsEffective(context, before, c, e)
    requires Commits(context, before, after, c, e, next, now)
    ensures
      var a := e.authorization;
      var t := before.tracks[(a.contract, a.track)];
      && t.current == a.baseline && next == after.tracks[(a.contract, a.track)]
      && (t.mode.Pinned? ==> next.current == t.current && next.candidate == a.candidate)
      && (t.mode.Pinned? && a.baseline != a.candidate ==> after.publications == before.publications)
      && (t.mode.Following? && c.accepted ==>
        && next.current == a.candidate && next.candidate == ""
        && after.publications == before.publications[(a.contract, a.candidate) := a.path])
      && (t.mode.Following? && !c.accepted ==>
        && next.current == t.current && next.candidate == a.candidate
        && after.publications == before.publications)
  {
    var a := e.authorization;
    var t, d := before.tracks[(a.contract, a.track)], DecisionOf(e.review, c.accepted);
    assert Explained(context.rules, t, next);
    assert Consider(context.rules, t, d) == Ok(Considered(next, true));
    DecisionEffect(context.rules, t, d);
  }

  // ----- Runs of calls -------------------------------------------------------------------

  /** What a call may do to the store: nothing, or commit an effective step. */
  ghost predicate Steps(context: Context, before: Store, after: Store)
  {
    before == after || exists c, e, next, now :: Commits(context, before, after, c, e, next, now)
  }

  ghost predicate IsHistory(context: Context, stores: seq<Store>)
  {
    forall k :: 0 <= k < |stores| - 1 ==> Steps(context, stores[k], stores[k + 1])
  }

  function GenerationOf(store: Store, key: Key): nat
  {
    if key in store.tracks then store.tracks[key].generation else 0
  }

  function Audited(events: seq<AuditEvent>, key: Key): nat
  {
    if events == [] then 0
    else
      var last := events[|events| - 1];
      Audited(events[..|events| - 1], key) + (if (last.contract, last.track) == key then 1 else 0)
  }

  function Announced(messages: seq<Message>, key: Key): nat
  {
    if messages == [] then 0
    else
      var last := messages[|messages| - 1];
      Announced(messages[..|messages| - 1], key) + (if (last.contract, last.track) == key then 1 else 0)
  }

  /** From `a` to `b`, generation, audit trail and outbox of a track rose by the same number. */
  ghost predicate Balanced(a: Store, b: Store, key: Key)
  {
    GenerationOf(b, key) - GenerationOf(a, key)
      == Audited(b.audit, key) - Audited(a.audit, key)
      == Announced(b.outbox, key) - Announced(a.outbox, key)
  }

  lemma {:induction false} StepBalances(context: Context, before: Store, after: Store, key: Key)
    requires Steps(context, before, after)
    ensures Balanced(before, after, key)
  {
    if before != after {
      var c, e, next, now :| Commits(context, before, after, c, e, next, now);
      assert after.audit[..|before.audit|] == before.audit;
      assert after.outbox[..|before.outbox|] == before.outbox;
    }
  }

  lemma {:induction false} BalancesAdd(a: Store, b: Store, c: Store, key: Key)
    requires Balanced(a, b, key) && Balanced(b, c, key)
    ensures Balanced(a, c, key)
  {
  }

  /** Over any run, every track has risen by as many generations as audit events and messages
      were recorded for it. */
  lemma {:induction false} HistoryBalances(context: Context, stores: seq<Store>, n: nat, key: Key)
    requires IsHistory(context, stores) && n < |stores|
    ensures Balanced(stores[0], stores[n], key)
  {
    if n > 0 {
      var k := n - 1;
      HistoryBalances(context, stores, k, key);
      assert Steps(context, stores[k], stores[k + 1]);
      StepBalances(context, stores[k], stores[n], key);
      BalancesAdd(stores[0], stores[k], stores[n], key);
    }
  }
}
