/** What the guards and constraints of the verification tables admit, in plain terms. */
module VerificationAdmission {
  import opened Common
  import opened SqlLogic
  import D = PayoutDestinations
  import opened Verification

  /// ## Rows

  predicate HasKeyType(s: Option<string>) {
    s == Some("CPF") || s == Some("PHONE") || s == Some("EMAIL") || s == Some("EVP")
  }

  predicate IsOpenState(s: Option<string>) {
    s == Some("REQUESTED") || s == Some("PENDING")
  }

  predicate IsSoundAttempt(a: Attempt) {
    && IsFilled(a.attemptId) && IsFilled(a.idempotencyKey) && IsFilled(a.provider)
    && a.destinationId.Some? && a.destinationVersion.Some? && a.destinationVersion.value > 0 && HasKeyType(a.keyType)
    && a.requestedAt.Some? && a.createdAt.Some? && (IsOpenState(a.state) || a.state == Some("FINAL"))
  }

  /** Different keys, and not two open attempts on one destination. */
  predicate AttemptsApart(a: Attempt, b: Attempt) {
    && a.id != b.id && a.attemptId != b.attemptId && a.idempotencyKey != b.idempotencyKey
    && (a.destinationId == b.destinationId ==> !IsOpenState(a.state) || !IsOpenState(b.state))
  }

  predicate HasOutcome(s: Option<string>) {
    || s == Some("CONFIRMED") || s == Some("NOT_CONFIRMED") || s == Some("RETRYABLE") || s == Some("AMBIGUOUS")
    || s == Some("INVALID_RESPONSE")
  }

  /** Unchecked and without a method, or checked by some method at some time. */
  predicate HasAuthenticity(e: Evidence) {
    || (e.authenticity == Some("NOT_CHECKED") && e.verificationMethod.None? && e.checkedAt.None?)
    || (&& (e.authenticity == Some("AUTHENTIC") || e.authenticity == Some("INVALID") || e.authenticity == Some("UNVERIFIABLE"))
        && IsFilled(e.verificationMethod) && e.checkedAt.Some?)
  }

  predicate HasFreshness(s: Option<string>) {
    s == Some("CURRENT") || s == Some("STALE") || s == Some("REVOKED") || s == Some("NOT_UNVERIFIED")
  }

  /** `sha256:` and 64 more characters. */
  predicate IsDigestText(s: Option<string>) {
    s.Some? && |s.value| == 71 && s.value[..7] == "sha256:"
  }

  predicate IsSoundEvidence(e: Evidence) {
    && e.attempt.Some? && e.sequence.Some? && e.sequence.value > 0 && e.receivedAt.Some? && e.createdAt.Some?
    && ((e.result == Some("PENDING") && e.outcome.None?) || (e.result == Some("FINAL") && HasOutcome(e.outcome)))
    && HasAuthenticity(e) && HasFreshness(e.freshness) && IsDigestText(e.digest)
  }

  /** Different keys; in one attempt different sequence numbers and digests, and not two final results. */
  predicate EvidenceApart(a: Evidence, b: Evidence) {
    && a.id != b.id
    && (a.attempt == b.attempt ==>
          a.sequence != b.sequence && a.digest != b.digest && !(a.result == Some("FINAL") && b.result == Some("FINAL")))
  }

  lemma SoundAttempt(a: Attempt)
    ensures AttemptNotNull(a) && AttemptChecked(a) <==> IsSoundAttempt(a)
  {
  }

  lemma ApartAttempts(a: Attempt, b: Attempt)
    requires IsSoundAttempt(a) && IsSoundAttempt(b)
    ensures !AttemptsConflict(a, b) <==> AttemptsApart(a, b)
  {
  }

  lemma SoundEvidence(e: Evidence)
    ensures EvidenceNotNull(e) && EvidenceChecked(e) <==> IsSoundEvidence(e)
  {
    hide HasText, IsFilled;
    assert HasText(e.verificationMethod).True? <==> IsFilled(e.verificationMethod) by {
      FilledText(e.verificationMethod);
    }
    assert HasText(e.verificationMethod).Unknown? <==> e.verificationMethod.None? by {
      FilledText(e.verificationMethod);
    }
  }

  lemma FilledText(s: Option<string>)
    ensures HasText(s).True? <==> IsFilled(s)
    ensures HasText(s).Unknown? <==> s.None?
  {
  }

  lemma ApartEvidence(a: Evidence, b: Evidence)
    requires IsSoundEvidence(a) && IsSoundEvidence(b)
    ensures !EvidenceConflict(a, b) <==> EvidenceApart(a, b)
  {
    hide HasAuthenticity, HasFreshness, IsFilled;
  }

  /** The stored attempts are sound and pairwise apart, and nothing else is stored. */
  lemma AttemptsStoredIff(attempts: seq<Attempt>)
    ensures AttemptsStored(attempts) <==>
            && (forall i :: 0 <= i < |attempts| ==> IsSoundAttempt(attempts[i]))
            && forall i, j :: 0 <= i < j < |attempts| ==> AttemptsApart(attempts[i], attempts[j])
  {
    hide AttemptNotNull, AttemptChecked, AttemptsConflict, IsSoundAttempt, AttemptsApart;
    forall i | 0 <= i < |attempts|
      ensures AttemptNotNull(attempts[i]) && AttemptChecked(attempts[i]) <==> IsSoundAttempt(attempts[i])
    {
      SoundAttempt(attempts[i]);
    }
    forall i, j | 0 <= i < j < |attempts| && IsSoundAttempt(attempts[i]) && IsSoundAttempt(attempts[j])
      ensures !AttemptsConflict(attempts[i], attempts[j]) <==> AttemptsApart(attempts[i], attempts[j])
    {
      ApartAttempts(attempts[i], attempts[j]);
    }
  }

  lemma EvidenceStoredIff(evidence: seq<Evidence>)
    ensures EvidenceStored(evidence) <==>
            && (forall i :: 0 <= i < |evidence| ==> IsSoundEvidence(evidence[i]))
            && forall i, j :: 0 <= i < j < |evidence| ==> EvidenceApart(evidence[i], evidence[j])
  {
    hide EvidenceNotNull, EvidenceChecked, EvidenceConflict, IsSoundEvidence, EvidenceApart;
    forall i | 0 <= i < |evidence|
      ensures EvidenceNotNull(evidence[i]) && EvidenceChecked(evidence[i]) <==> IsSoundEvidence(evidence[i])
    {
      SoundEvidence(evidence[i]);
    }
    forall i, j | 0 <= i < j < |evidence| && IsSoundEvidence(evidence[i]) && IsSoundEvidence(evidence[j])
      ensures !EvidenceConflict(evidence[i], evidence[j]) <==> EvidenceApart(evidence[i], evidence[j])
    {
      ApartEvidence(evidence[i], evidence[j]);
    }
  }

  /// ## Statements

  /** The unverified destination the attempt names by id, version and key type. */
  predicate IsFor(a: Attempt, d: D.Destination) {
    && a.destinationId == Some(d.id) && a.destinationVersion == d.version && a.keyType == d.keyType
    && d.status == Some("UNVERIFIED")
  }

  /** A request on a stored unverified destination. */
  predicate IsRequest(db: Db, a: Attempt) {
    && IsSoundAttempt(a) && a.state == Some("REQUESTED")
    && (exists i :: 0 <= i < |db.destinations| && IsFor(a, db.destinations[i]))
    && forall i :: 0 <= i < |db.attempts| ==> AttemptsApart(db.attempts[i], a)
  }

  /** Evidence of the attempt with this result. */
  predicate IsEvidenceOf(e: Evidence, id: int, result: string) {
    e.attempt == Some(id) && e.result == Some(result)
  }

  /** The attempt as it was, or moved forward to a state it has evidence for. */
  predicate IsMove(db: Db, was: Attempt, a: Attempt) {
    || a == was
    || (&& a == was.(state := a.state)
        && ((was.state == Some("REQUESTED") && a.state == Some("PENDING")) || (IsOpenState(was.state) && a.state == Some("FINAL")))
        && exists i :: 0 <= i < |db.evidence| && IsEvidenceOf(db.evidence[i], was.id, a.state.value))
  }

  /** Evidence for an open attempt that has no final evidence. */
  predicate IsFinding(db: Db, e: Evidence) {
    && IsSoundEvidence(e)
    && (exists i :: 0 <= i < |db.attempts| && e.attempt == Some(db.attempts[i].id) && IsOpenState(db.attempts[i].state))
    && (forall i :: 0 <= i < |db.evidence| ==> !IsEvidenceOf(db.evidence[i], e.attempt.value, "FINAL"))
    && forall i :: 0 <= i < |db.evidence| ==> EvidenceApart(db.evidence[i], e)
  }

  lemma RequestGuard(db: Db, a: Attempt)
    requires IsSoundAttempt(a) && D.Stored(db.destinations)
    ensures !AttemptInsertFires(db, a).True? <==>
            a.state == Some("REQUESTED") && exists i :: 0 <= i < |db.destinations| && IsFor(a, db.destinations[i])
  {
    hide IsSoundAttempt, D.Stored;
    assert a.state.Some? && a.destinationId.Some? by {
      SoundHas(a);
    }
    forall i | 0 <= i < |db.destinations|
      ensures Matches(db.destinations[i], a) <==> IsFor(a, db.destinations[i])
    {
      DestinationMatches(db.destinations, i, a);
    }
  }

  lemma SoundHas(a: Attempt)
    requires IsSoundAttempt(a)
    ensures a.state.Some? && a.destinationId.Some? && a.destinationVersion.Some? && a.keyType.Some?
  {
  }

  lemma DestinationMatches(destinations: D.Table, i: nat, a: Attempt)
    requires D.Stored(destinations) && i < |destinations| && IsSoundAttempt(a)
    ensures Matches(destinations[i], a) <==> IsFor(a, destinations[i])
  {
    hide D.Checked, D.Unique;
    assert D.NotNull(destinations[i]);
  }

  lemma MoveGuard(dialect: Dialect, db: Db, was: Attempt, a: Attempt)
    requires IsSoundAttempt(was) && (a.state == was.state || IsSoundAttempt(a))
    ensures !UpdateRejected(dialect, db, was, a) <==> IsMove(db, was, a)
  {
    hide IsSoundAttempt, HasEvidence, IdentityChanges, SqliteUpdateFires;
    UpdateGuardsAgree(db, was, a);
    UpdateIdentity(was, a);
    SoundStates(was);
    if a.state != was.state {
      SoundStates(a);
    }
    EvidenceFound(db.evidence, was.id, "PENDING");
    EvidenceFound(db.evidence, was.id, "FINAL");
  }

  lemma SoundStates(a: Attempt)
    requires IsSoundAttempt(a)
    ensures IsOpenState(a.state) || a.state == Some("FINAL")
  {
  }

  lemma EvidenceFound(evidence: seq<Evidence>, id: int, result: string)
    ensures HasEvidence(evidence, Some(id), result) <==> exists i :: 0 <= i < |evidence| && IsEvidenceOf(evidence[i], id, result)
  {
    forall i | 0 <= i < |evidence|
      ensures And(Equal(evidence[i].attempt, Some(id)), Equal(evidence[i].result, Some(result))).True?
              <==> IsEvidenceOf(evidence[i], id, result)
    {
    }
  }

  lemma FindingGuard(dialect: Dialect, db: Db, e: Evidence)
    requires AttemptsStored(db.attempts) && IsSoundEvidence(e)
    ensures !EvidenceRejected(dialect, db, e) <==>
            && (exists i :: 0 <= i < |db.attempts| && e.attempt == Some(db.attempts[i].id) && IsOpenState(db.attempts[i].state))
            && forall i :: 0 <= i < |db.evidence| ==> !IsEvidenceOf(db.evidence[i], e.attempt.value, "FINAL")
  {
    hide AttemptsStored, HasEvidence, SelectState, HasAuthenticity, HasFreshness, IsDigestText;
    EvidenceGuardsAgree(db, e);
    EvidenceFound(db.evidence, e.attempt.value, "FINAL");
    forall i | 0 <= i < |db.attempts|
      ensures IsOpenFor(db.attempts[i], e) <==> e.attempt == Some(db.attempts[i].id) && IsOpenState(db.attempts[i].state)
    {
    }
  }

  /** A moved attempt conflicts with nothing its old row did not conflict with. */
  lemma MovedStaysApart(db: Db, x: Attempt, was: Attempt, a: Attempt)
    requires IsMove(db, was, a) && AttemptsApart(x, was)
    ensures AttemptsApart(x, a) && AttemptsApart(a, x)
  {
  }

  lemma MoveIsSound(db: Db, was: Attempt, a: Attempt)
    requires IsMove(db, was, a) && IsSoundAttempt(was)
    ensures IsSoundAttempt(a)
  {
  }

  lemma AttemptsNext(attempts: seq<Attempt>, a: Attempt)
    requires AttemptsStored(attempts)
    ensures AttemptsStored(attempts + [a]) <==>
            IsSoundAttempt(a) && forall i :: 0 <= i < |attempts| ==> AttemptsApart(attempts[i], a)
  {
    hide AttemptsStored, IsSoundAttempt, AttemptsApart;
    AttemptsStoredIff(attempts);
    AttemptsStoredIff(attempts + [a]);
    var after := attempts + [a];
    assert after[|attempts|] == a && forall i :: 0 <= i < |attempts| ==> after[i] == attempts[i];
  }

  lemma EvidenceNext(evidence: seq<Evidence>, e: Evidence)
    requires EvidenceStored(evidence)
    ensures EvidenceStored(evidence + [e]) <==>
            IsSoundEvidence(e) && forall i :: 0 <= i < |evidence| ==> EvidenceApart(evidence[i], e)
  {
    hide EvidenceStored, IsSoundEvidence, EvidenceApart;
    EvidenceStoredIff(evidence);
    EvidenceStoredIff(evidence + [e]);
    var after := evidence + [e];
    assert after[|evidence|] == e && forall i :: 0 <= i < |evidence| ==> after[i] == evidence[i];
  }

  lemma AttemptsMoved(db: Db, at: nat, a: Attempt)
    requires AttemptsStored(db.attempts) && at < |db.attempts| && IsMove(db, db.attempts[at], a)
    ensures AttemptsStored(db.attempts[at := a])
  {
    hide AttemptsStored, IsSoundAttempt, AttemptsApart, IsMove;
    AttemptsStoredIff(db.attempts);
    var after := db.attempts[at := a];
    MoveIsSound(db, db.attempts[at], a);
    forall i, j | 0 <= i < j < |after|
      ensures AttemptsApart(after[i], after[j])
    {
      assert AttemptsApart(db.attempts[i], db.attempts[j]);
      if i == at || j == at {
        ApartBothWays(db.attempts[i], db.attempts[j]);
        MovedStaysApart(db, db.attempts[if i == at then j else i], db.attempts[at], a);
      }
    }
    AttemptsStoredIff(after);
  }

  lemma ApartBothWays(a: Attempt, b: Attempt)
    ensures AttemptsApart(a, b) <==> AttemptsApart(b, a)
  {
  }

  lemma SoundAt(attempts: seq<Attempt>, i: nat)
    requires AttemptsStored(attempts) && i < |attempts|
    ensures IsSoundAttempt(attempts[i])
  {
    hide IsSoundAttempt, AttemptsApart, AttemptsStored;
    AttemptsStoredIff(attempts);
  }

  /** A statement on the destinations alone, as `AdmittedIff` of their module describes it. */
  predicate IsDestinationStep(dialect: Dialect, db: Db, step: Step) {
    step.Destinations? && D.Admits(dialect, db.destinations, step.step)
  }

  /**
   What the three tables admit in either dialect, from every state of a run: what
   the destinations admit, a request on an unverified destination, an attempt that
   stays or moves forward with evidence, evidence for an open attempt, and nothing
   else.
   */
  lemma AdmittedIff(dialect: Dialect, db: Db, step: Step)
    requires Inv(db)
    ensures Admits(dialect, db, step) <==>
            || IsDestinationStep(dialect, db, step)
            || (step.InsertAttempt? && IsRequest(db, step.attempt))
            || (step.UpdateAttempt? && step.at < |db.attempts| && IsMove(db, db.attempts[step.at], step.attempt))
            || (step.InsertEvidence? && IsFinding(db, step.row))
  {
    hide AttemptsStored, EvidenceStored, D.Stored, D.Admits, D.Apply, D.Inv, Bound, Justified, FinalLast, References,
         AttemptInsertFires, UpdateRejected, EvidenceRejected, IsSoundAttempt, AttemptsApart, IsSoundEvidence, EvidenceApart,
         IsMove, IsFor, IsEvidenceOf, IsOpenState;
    DestinationsStored(db);
    if Unguarded(dialect, db, step) && Stored(Apply(db, step)) {
      StepKeepsReferences(dialect, db, step);
    }
    match step
    case Destinations(s) =>
      if D.Admits(dialect, db.destinations, s) {
        AdmittedStored(dialect, db.destinations, s);
      }
    case InsertAttempt(a) =>
      AttemptsNext(db.attempts, a);
      if IsSoundAttempt(a) {
        RequestGuard(db, a);
      }
    case UpdateAttempt(at, a) =>
      if at < |db.attempts| {
        SoundAt(db.attempts, at);
        if AttemptsStored(Apply(db, step).attempts) {
          assert Apply(db, step).attempts[at] == a;
          SoundAt(Apply(db, step).attempts, at);
          MoveGuard(dialect, db, db.attempts[at], a);
        }
        if IsMove(db, db.attempts[at], a) {
          AttemptsMoved(db, at, a);
        }
      }
    case InsertEvidence(e) =>
      EvidenceNext(db.evidence, e);
      if IsSoundEvidence(e) {
        FindingGuard(dialect, db, e);
      }
    case _ =>
  }

  lemma DestinationsStored(db: Db)
    requires Inv(db)
    ensures D.Stored(db.destinations) && D.Inv(db.destinations)
  {
  }

  lemma AdmittedStored(dialect: Dialect, t: D.Table, s: D.Step)
    requires D.Inv(t) && D.Admits(dialect, t, s)
    ensures D.Stored(D.Apply(t, s))
  {
    hide D.Admits, D.Apply, D.Stored, D.Extends;
    D.StepKeeps(dialect, t, s);
  }
}
