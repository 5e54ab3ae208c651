/**
 Verification attempts on payout destinations and their evidence: the guards of
 both database dialects, and what every run of admitted steps keeps.
 */
module Verification {
  import opened Common
  import opened SqlLogic
  import D = PayoutDestinations

  /** An attempt as a statement offers it. */
  datatype Attempt = Attempt(
    id: int, attemptId: Option<string>, idempotencyKey: Option<string>, destinationId: Option<int>,
    destinationVersion: Option<int>, keyType: Option<string>, provider: Option<string>,
    requestedAt: Option<int>, requestedBy: Option<int>, createdAt: Option<int>,
    state: Option<string>)

  /** An evidence row, without the nullable columns no guard or check reads. */
  datatype Evidence = Evidence(
    id: int, attempt: Option<int>, sequence: Option<int>, result: Option<string>, outcome: Option<string>,
    authenticity: Option<string>, verificationMethod: Option<string>, checkedAt: Option<int>, freshness: Option<string>,
    digest: Option<string>, receivedAt: Option<int>, createdAt: Option<int>)

  datatype Db = Db(destinations: D.Table, attempts: seq<Attempt>, evidence: seq<Evidence>)

  datatype Step =
    | Destinations(step: D.Step)
    | InsertAttempt(attempt: Attempt)
    | UpdateAttempt(at: nat, attempt: Attempt)
    | DeleteAttempt(at: nat)
    | InsertEvidence(row: Evidence)
    | UpdateEvidence(at: nat, row: Evidence)
    | DeleteEvidence(at: nat)

  const REQUESTED := "REQUESTED"
  const PENDING := "PENDING"
  const FINAL := "FINAL"
  const OPEN := {REQUESTED, PENDING}

  /// ## The guards

  /** `EXISTS (SELECT 1 FROM destinations WHERE ...)`: the row that an attempt names, still unverified. */
  predicate Matches(d: D.Destination, a: Attempt) {
    And(And(Equal(Some(d.id), a.destinationId), Equal(d.version, a.destinationVersion)),
        And(Equal(d.keyType, a.keyType), Equal(d.status, Some(D.UNVERIFIED)))).True?
  }

  function AttemptInsertFires(db: Db, a: Attempt): Truth {
    Or(Differ(a.state, Some(REQUESTED)),
       Not(Of(exists i :: 0 <= i < |db.destinations| && Matches(db.destinations[i], a))))
  }

  function IdentityChanges(was: Attempt, a: Attempt): Truth {
    Or(Or(Or(Not(Of(a.id == was.id)), Not(Same(a.attemptId, was.attemptId))),
          Or(Or(Not(Same(a.idempotencyKey, was.idempotencyKey)), Not(Same(a.destinationId, was.destinationId))),
             Not(Same(a.destinationVersion, was.destinationVersion)))),
       Or(Or(Not(Same(a.keyType, was.keyType)), Not(Same(a.provider, was.provider))),
          Or(Or(Not(Same(a.requestedAt, was.requestedAt)), Not(Same(a.requestedBy, was.requestedBy))),
             Not(Same(a.createdAt, was.createdAt)))))
  }

  function Advances(was: Attempt, a: Attempt): Truth {
    Or(And(Equal(was.state, Some(REQUESTED)), In(a.state, {PENDING, FINAL})),
       And(Equal(was.state, Some(PENDING)), Equal(a.state, Some(FINAL))))
  }

  /** `EXISTS` evidence of the attempt with this result. */
  predicate HasEvidence(evidence: seq<Evidence>, id: Option<int>, result: string) {
    exists i :: 0 <= i < |evidence| && And(Equal(evidence[i].attempt, id), Equal(evidence[i].result, Some(result))).True?
  }

  /** The new state needs evidence that is not there. */
  function Lacks(db: Db, was: Attempt, a: Attempt, state: string): Truth {
    And(Equal(a.state, Some(state)), Not(Of(HasEvidence(db.evidence, Some(was.id), state))))
  }

  predicate SqliteUpdateFires(db: Db, was: Attempt, a: Attempt) {
    Or(Or(IdentityChanges(was, a), Not(Or(Same(a.state, was.state), Advances(was, a)))),
       Or(And(Not(Same(a.state, was.state)), Lacks(db, was, a, PENDING)),
          And(Not(Same(a.state, was.state)), Lacks(db, was, a, FINAL)))).True?
  }

  predicate PostgresUpdateRaises(db: Db, was: Attempt, a: Attempt) {
    if IdentityChanges(was, a).True? then true
    else if Same(a.state, was.state).True? then false
    else if Not(Advances(was, a)).True? then true
    else if Lacks(db, was, a, PENDING).True? then true
    else Lacks(db, was, a, FINAL).True?
  }

  predicate UpdateRejected(dialect: Dialect, db: Db, was: Attempt, a: Attempt) {
    match dialect
    case Sqlite(_) => SqliteUpdateFires(db, was, a)
    case Postgres => PostgresUpdateRaises(db, was, a)
  }

  predicate IsOpenFor(a: Attempt, e: Evidence) {
    And(Equal(Some(a.id), e.attempt), In(a.state, OPEN)).True?
  }

  predicate SqliteEvidenceFires(db: Db, e: Evidence) {
    Or(Not(Of(exists i :: 0 <= i < |db.attempts| && IsOpenFor(db.attempts[i], e))),
       Of(HasEvidence(db.evidence, e.attempt, FINAL))).True?
  }

  /** `SELECT ... INTO`: the state of the first attempt with this id. */
  function SelectState(attempts: seq<Attempt>, id: Option<int>): Option<Option<string>> {
    if attempts == [] then None
    else if Equal(Some(attempts[0].id), id).True? then Some(attempts[0].state)
    else SelectState(attempts[1..], id)
  }

  predicate PostgresEvidenceRaises(db: Db, e: Evidence) {
    var found := SelectState(db.attempts, e.attempt);
    if Or(Of(found.None?), Not(In(if found.Some? then found.value else None, OPEN))).True? then true
    else HasEvidence(db.evidence, e.attempt, FINAL)
  }

  predicate EvidenceRejected(dialect: Dialect, db: Db, e: Evidence) {
    match dialect
    case Sqlite(_) => SqliteEvidenceFires(db, e)
    case Postgres => PostgresEvidenceRaises(db, e)
  }

  /// ## The tables' own constraints

  predicate AttemptNotNull(a: Attempt) {
    && a.attemptId.Some? && a.idempotencyKey.Some? && a.destinationId.Some? && a.destinationVersion.Some?
    && a.keyType.Some? && a.provider.Some? && a.state.Some? && a.requestedAt.Some? && a.createdAt.Some?
  }

  predicate AttemptChecked(a: Attempt) {
    && Passes(HasText(a.attemptId)) && Passes(HasText(a.idempotencyKey)) && Passes(AtLeast(a.destinationVersion, 1))
    && Passes(In(a.keyType, D.KEY_TYPES)) && Passes(HasText(a.provider))
    && Passes(In(a.state, {REQUESTED, PENDING, FINAL}))
  }

  /** The attempt is in the partial index of open attempts. */
  predicate IsOpen(a: Attempt) {
    In(a.state, OPEN).True?
  }

  predicate AttemptsConflict(a: Attempt, b: Attempt) {
    || a.id == b.id || Clash(a.attemptId, b.attemptId) || Clash(a.idempotencyKey, b.idempotencyKey)
    || (IsOpen(a) && IsOpen(b) && Clash(a.destinationId, b.destinationId))
  }

  predicate AttemptsUnique(attempts: seq<Attempt>) {
    forall i, j :: 0 <= i < j < |attempts| ==> !AttemptsConflict(attempts[i], attempts[j])
  }

  predicate EvidenceNotNull(e: Evidence) {
    && e.attempt.Some? && e.sequence.Some? && e.result.Some? && e.receivedAt.Some? && e.authenticity.Some?
    && e.freshness.Some? && e.digest.Some? && e.createdAt.Some?
  }

  const OUTCOMES := {"CONFIRMED", "NOT_CONFIRMED", "RETRYABLE", "AMBIGUOUS", "INVALID_RESPONSE"}

  function ResultOutcome(e: Evidence): Truth {
    Or(And(Equal(e.result, Some(PENDING)), Null(e.outcome)),
       And(And(Equal(e.result, Some(FINAL)), Not(Null(e.outcome))), In(e.outcome, OUTCOMES)))
  }

  function AuthenticityFields(e: Evidence): Truth {
    Or(And(And(Equal(e.authenticity, Some("NOT_CHECKED")), Null(e.verificationMethod)), Null(e.checkedAt)),
       And(And(Differ(e.authenticity, Some("NOT_CHECKED")), Not(Null(e.verificationMethod))),
           And(HasText(e.verificationMethod), Not(Null(e.checkedAt)))))
  }

  function IsShaDigest(s: Option<string>): Truth {
    And(HasLength(s, 71), if s.None? then Unknown else Of(|s.value| >= 7 && s.value[..7] == "sha256:"))
  }

  predicate EvidenceChecked(e: Evidence) {
    && Passes(AtLeast(e.sequence, 1)) && Passes(ResultOutcome(e))
    && Passes(In(e.authenticity, {"NOT_CHECKED", "AUTHENTIC", "INVALID", "UNVERIFIABLE"}))
    && Passes(AuthenticityFields(e)) && Passes(In(e.freshness, {"CURRENT", "STALE", "REVOKED", "NOT_UNVERIFIED"}))
    && Passes(IsShaDigest(e.digest))
  }

  predicate IsFinal(e: Evidence) {
    Equal(e.result, Some(FINAL)).True?
  }

  predicate EvidenceConflict(a: Evidence, b: Evidence) {
    || a.id == b.id
    || (Clash(a.attempt, b.attempt)
        && (Clash(a.sequence, b.sequence) || Clash(a.digest, b.digest) || (IsFinal(a) && IsFinal(b))))
  }

  predicate EvidenceUnique(evidence: seq<Evidence>) {
    forall i, j :: 0 <= i < j < |evidence| ==> !EvidenceConflict(evidence[i], evidence[j])
  }

  predicate AttemptsStored(attempts: seq<Attempt>) {
    && (forall i :: 0 <= i < |attempts| ==> AttemptNotNull(attempts[i]) && AttemptChecked(attempts[i]))
    && AttemptsUnique(attempts)
  }

  predicate EvidenceStored(evidence: seq<Evidence>) {
    && (forall i :: 0 <= i < |evidence| ==> EvidenceNotNull(evidence[i]) && EvidenceChecked(evidence[i]))
    && EvidenceUnique(evidence)
  }

  predicate Stored(db: Db) {
    D.Stored(db.destinations) && AttemptsStored(db.attempts) && EvidenceStored(db.evidence)
  }

  predicate HasDestination(destinations: D.Table, id: Option<int>) {
    exists k :: 0 <= k < |destinations| && Some(destinations[k].id) == id
  }

  predicate HasAttempt(attempts: seq<Attempt>, id: Option<int>) {
    exists k :: 0 <= k < |attempts| && Some(attempts[k].id) == id
  }

  /** The foreign keys between the three tables. */
  predicate References(db: Db) {
    && (forall i :: 0 <= i < |db.attempts| ==> HasDestination(db.destinations, db.attempts[i].destinationId))
    && (forall i :: 0 <= i < |db.evidence| ==> HasAttempt(db.attempts, db.evidence[i].attempt))
  }

  /// ## Steps

  function Without<T>(s: seq<T>, at: nat): seq<T> {
    if at < |s| then s[..at] + s[at + 1..] else s
  }

  function Replace<T>(s: seq<T>, at: nat, x: T): seq<T> {
    if at < |s| then s[at := x] else s
  }

  function Apply(db: Db, step: Step): Db {
    match step
    case Destinations(s) => db.(destinations := D.Apply(db.destinations, s))
    case InsertAttempt(a) => db.(attempts := db.attempts + [a])
    case UpdateAttempt(at, a) => db.(attempts := Replace(db.attempts, at, a))
    case DeleteAttempt(at) => db.(attempts := Without(db.attempts, at))
    case InsertEvidence(e) => db.(evidence := db.evidence + [e])
    case UpdateEvidence(at, e) => db.(evidence := Replace(db.evidence, at, e))
    case DeleteEvidence(at) => db.(evidence := Without(db.evidence, at))
  }

  /** No trigger rejects the statement. */
  predicate Unguarded(dialect: Dialect, db: Db, step: Step) {
    match step
    case Destinations(s) => D.Admits(dialect, db.destinations, s)
    case InsertAttempt(a) => !AttemptInsertFires(db, a).True?
    case UpdateAttempt(at, a) => at < |db.attempts| && !UpdateRejected(dialect, db, db.attempts[at], a)
    case InsertEvidence(e) => !EvidenceRejected(dialect, db, e)
    case _ => false
  }

  /** The statement goes through: no trigger rejects it and the result meets every constraint. */
  predicate Admits(dialect: Dialect, db: Db, step: Step) {
    && Unguarded(dialect, db, step) && Stored(Apply(db, step))
    && (dialect.Enforces() ==> References(Apply(db, step)))
  }

  /// ## The two dialects

  lemma {:induction false} SelectsTheRow(attempts: seq<Attempt>, id: Option<int>, i: nat)
    requires AttemptsUnique(attempts) && i < |attempts| && Some(attempts[i].id) == id
    ensures SelectState(attempts, id) == Some(attempts[i].state)
  {
    hide AttemptsConflict;
    if i > 0 {
      assert AttemptsConflict(attempts[0], attempts[i]) ==> false;
      AttemptIdsApart(attempts[0], attempts[i]);
      assert AttemptsUnique(attempts[1..]);
      SelectsTheRow(attempts[1..], id, i - 1);
    }
  }

  lemma AttemptIdsApart(a: Attempt, b: Attempt)
    requires !AttemptsConflict(a, b)
    ensures a.id != b.id
  {
  }

  lemma {:induction false} SelectsNone(attempts: seq<Attempt>, id: Option<int>)
    requires forall i :: 0 <= i < |attempts| ==> Some(attempts[i].id) != id
    ensures SelectState(attempts, id) == None
  {
    if attempts != [] {
      SelectsNone(attempts[1..], id);
    }
  }

  /** Looking the attempt up by key finds what searching all open attempts finds. */
  lemma EvidenceGuardsAgree(db: Db, e: Evidence)
    requires AttemptsStored(db.attempts)
    ensures SqliteEvidenceFires(db, e) <==> PostgresEvidenceRaises(db, e)
  {
    hide AttemptsUnique, AttemptChecked, HasEvidence, SelectState;
    if i: nat :| i < |db.attempts| && Some(db.attempts[i].id) == e.attempt {
      SelectsTheRow(db.attempts, e.attempt, i);
      assert AttemptNotNull(db.attempts[i]);
      forall k | 0 <= k < |db.attempts| && IsOpenFor(db.attempts[k], e)
        ensures db.attempts[k].state == db.attempts[i].state
      {
        SelectsTheRow(db.attempts, e.attempt, k);
      }
      assert IsOpen(db.attempts[i]) <==> IsOpenFor(db.attempts[i], e);
    } else {
      SelectsNone(db.attempts, e.attempt);
    }
  }

  lemma SameGuards(foreignKeys: bool, db: Db, step: Step)
    requires Stored(db)
    ensures Unguarded(Sqlite(foreignKeys), db, step) <==> Unguarded(Postgres, db, step)
  {
    hide AttemptsStored, EvidenceStored, D.Stored, IdentityChanges, Advances, HasEvidence, References, D.Admits,
         AttemptInsertFires, SqliteEvidenceFires, PostgresEvidenceRaises;
    match step
    case Destinations(s) =>
      D.SameSteps(foreignKeys, db.destinations, s);
    case UpdateAttempt(at, a) =>
      if at < |db.attempts| {
        UpdateGuardsAgree(db, db.attempts[at], a);
      }
    case InsertEvidence(e) =>
      EvidenceGuardsAgree(db, e);
    case _ =>
  }

  /**
   The two dialects admit the same steps, nulls in the offered row included: from
   every stored state when SQLite enforces foreign keys, and from every state
   that keeps the invariant also when it does not.
   */
  lemma SameSteps(foreignKeys: bool, db: Db, step: Step)
    requires Stored(db) && (foreignKeys || Inv(db))
    ensures Admits(Sqlite(foreignKeys), db, step) <==> Admits(Postgres, db, step)
  {
    hide Stored, References, Unguarded, Inv;
    SameGuards(foreignKeys, db, step);
    if !foreignKeys && Unguarded(Postgres, db, step) && Stored(Apply(db, step)) {
      StepKeepsReferences(Postgres, db, step);
    }
  }

  lemma UpdateGuardsAgree(db: Db, was: Attempt, a: Attempt)
    ensures SqliteUpdateFires(db, was, a) <==> PostgresUpdateRaises(db, was, a)
  {
    hide HasEvidence, IdentityChanges;
  }

  /** Without the key's uniqueness they would differ: the lookup stops at the first row. */
  lemma LookupDiffersWithoutKey(a: Attempt, e: Evidence)
    requires a.state == Some(FINAL) && e.attempt == Some(a.id)
    ensures var db := Db([], [a, a.(state := Some(PENDING))], []);
            PostgresEvidenceRaises(db, e) && !SqliteEvidenceFires(db, e)
  {
    var db := Db([], [a, a.(state := Some(PENDING))], []);
    assert IsOpenFor(db.attempts[1], e);
  }

  /// ## What every run keeps

  /** The attempt names a destination by id, version and key type. */
  predicate Bound(destinations: D.Table, a: Attempt) {
    exists k :: 0 <= k < |destinations|
      && Some(destinations[k].id) == a.destinationId && destinations[k].version == a.destinationVersion
      && destinations[k].keyType == a.keyType
  }

  /** An attempt that has left its first state has the evidence for the state it is in. */
  predicate Justified(evidence: seq<Evidence>, a: Attempt) {
    && (a.state == Some(PENDING) ==> HasEvidence(evidence, Some(a.id), PENDING))
    && (a.state == Some(FINAL) ==> HasEvidence(evidence, Some(a.id), FINAL))
  }

  /** Final evidence is the last of its attempt. */
  predicate FinalLast(evidence: seq<Evidence>) {
    forall i, j :: 0 <= i < j < |evidence| && evidence[i].attempt == evidence[j].attempt ==> !IsFinal(evidence[i])
  }

  predicate Inv(db: Db) {
    && D.Inv(db.destinations) && AttemptsStored(db.attempts) && EvidenceStored(db.evidence)
    && (forall i :: 0 <= i < |db.attempts| ==> Bound(db.destinations, db.attempts[i]) && Justified(db.evidence, db.attempts[i]))
    && FinalLast(db.evidence) && References(db)
  }

  function Rank(state: Option<string>): nat {
    if state == Some(FINAL) then 2 else if state == Some(PENDING) then 1 else 0
  }

  /** Only the state moved, and only forward. */
  predicate Forward(was: Attempt, a: Attempt) {
    a == was.(state := a.state) && Rank(was.state) <= Rank(a.state) && (Rank(was.state) == Rank(a.state) ==> a == was)
  }

  predicate Extends(before: Db, after: Db) {
    && D.Extends(before.destinations, after.destinations)
    && |before.attempts| <= |after.attempts|
    && (forall i :: 0 <= i < |before.attempts| ==> Forward(before.attempts[i], after.attempts[i]))
    && before.evidence <= after.evidence
  }

  lemma BoundKept(before: D.Table, after: D.Table, a: Attempt)
    requires D.Extends(before, after) && Bound(before, a)
    ensures Bound(after, a)
  {
    var k :| 0 <= k < |before|
      && Some(before[k].id) == a.destinationId && before[k].version == a.destinationVersion
      && before[k].keyType == a.keyType;
    assert D.Kept(before[k], after[k]);
  }

  lemma AttemptInserted(db: Db, a: Attempt)
    requires !AttemptInsertFires(db, a).True? && AttemptNotNull(a)
    ensures a.state == Some(REQUESTED) && Bound(db.destinations, a)
  {
    hide D.Stored;
    var k :| 0 <= k < |db.destinations| && Matches(db.destinations[k], a);
  }

  lemma AttemptUpdated(dialect: Dialect, db: Db, was: Attempt, a: Attempt)
    requires !UpdateRejected(dialect, db, was, a) && AttemptNotNull(was) && AttemptNotNull(a)
    requires AttemptChecked(was) && AttemptChecked(a) && Justified(db.evidence, was)
    ensures Forward(was, a) && Justified(db.evidence, a)
  {
    hide HasEvidence, HasText;
    UpdateGuardsAgree(db, was, a);
    UpdateIdentity(was, a);
    UpdateState(db, was, a);
  }

  lemma UpdateIdentity(was: Attempt, a: Attempt)
    ensures !IdentityChanges(was, a).True? <==> a == was.(state := a.state)
  {
  }

  lemma UpdateState(db: Db, was: Attempt, a: Attempt)
    requires !PostgresUpdateRaises(db, was, a) && AttemptNotNull(was) && AttemptNotNull(a)
    requires AttemptChecked(was) && AttemptChecked(a)
    ensures a.state == was.state || Rank(was.state) < Rank(a.state)
    ensures a.state != was.state && a.state == Some(PENDING) ==> HasEvidence(db.evidence, Some(was.id), PENDING)
    ensures a.state != was.state && a.state == Some(FINAL) ==> HasEvidence(db.evidence, Some(was.id), FINAL)
  {
    hide HasEvidence, HasText, IdentityChanges;
  }

  lemma JustifiedKept(before: seq<Evidence>, after: seq<Evidence>, a: Attempt)
    requires before <= after && Justified(before, a)
    ensures Justified(after, a)
  {
    forall result | HasEvidence(before, Some(a.id), result)
      ensures HasEvidence(after, Some(a.id), result)
    {
      var i :| 0 <= i < |before| && And(Equal(before[i].attempt, Some(a.id)), Equal(before[i].result, Some(result))).True?;
      assert after[i] == before[i];
    }
  }

  lemma EvidenceInserted(dialect: Dialect, db: Db, e: Evidence)
    requires AttemptsStored(db.attempts) && FinalLast(db.evidence) && !EvidenceRejected(dialect, db, e) && EvidenceNotNull(e)
    ensures FinalLast(db.evidence + [e])
  {
    hide AttemptsStored, SelectState, IsOpenFor;
    EvidenceGuardsAgree(db, e);
    assert !HasEvidence(db.evidence, e.attempt, FINAL);
    forall i | 0 <= i < |db.evidence| && db.evidence[i].attempt == e.attempt
      ensures !IsFinal(db.evidence[i])
    {
      assert !And(Equal(db.evidence[i].attempt, e.attempt), Equal(db.evidence[i].result, Some(FINAL))).True?;
    }
  }

  /** The guards alone keep the references between the three tables, so nothing rests on enforced foreign keys. */
  lemma StepKeepsReferences(dialect: Dialect, db: Db, step: Step)
    requires Inv(db) && Unguarded(dialect, db, step) && Stored(Apply(db, step))
    ensures References(Apply(db, step))
  {
    hide AttemptsUnique, EvidenceStored, D.Stored, D.Admits, D.Apply, Bound, Justified, FinalLast, HasAttempt, HasDestination,
         AttemptInsertFires, UpdateRejected, EvidenceRejected, AttemptNotNull, AttemptChecked, EvidenceNotNull, D.Kept;
    var after := Apply(db, step);
    match step
    case Destinations(s) =>
      D.StepKeeps(dialect, db.destinations, s);
      forall i | 0 <= i < |db.attempts|
        ensures HasDestination(after.destinations, db.attempts[i].destinationId)
      {
        BoundKept(db.destinations, after.destinations, db.attempts[i]);
        BoundHas(after.destinations, db.attempts[i]);
      }
    case InsertAttempt(a) =>
      assert after.attempts[|db.attempts|] == a && AttemptNotNull(a);
      AttemptInserted(db, a);
      BoundHas(db.destinations, a);
      forall i | 0 <= i < |db.evidence|
        ensures HasAttempt(after.attempts, db.evidence[i].attempt)
      {
        AttemptStays(db.attempts, after.attempts, db.evidence[i].attempt);
      }
    case UpdateAttempt(at, a) =>
      assert after.attempts[at] == a && AttemptNotNull(a) && AttemptChecked(a);
      AttemptUpdated(dialect, db, db.attempts[at], a);
      forall i | 0 <= i < |db.evidence|
        ensures HasAttempt(after.attempts, db.evidence[i].attempt)
      {
        AttemptStays(db.attempts, after.attempts, db.evidence[i].attempt);
      }
    case InsertEvidence(e) =>
      OpenAttemptExists(dialect, db, e);
  }

  lemma BoundHas(destinations: D.Table, a: Attempt)
    requires Bound(destinations, a)
    ensures HasDestination(destinations, a.destinationId)
  {
  }

  lemma OpenAttemptExists(dialect: Dialect, db: Db, e: Evidence)
    requires AttemptsStored(db.attempts) && !EvidenceRejected(dialect, db, e)
    ensures HasAttempt(db.attempts, e.attempt)
  {
    hide AttemptsStored, HasEvidence, SelectState;
    EvidenceGuardsAgree(db, e);
    var i :| 0 <= i < |db.attempts| && IsOpenFor(db.attempts[i], e);
    assert Some(db.attempts[i].id) == e.attempt;
  }

  lemma StepKeeps(dialect: Dialect, db: Db, step: Step)
    requires Inv(db) && Admits(dialect, db, step)
    ensures Inv(Apply(db, step)) && Extends(db, Apply(db, step))
  {
    hide AttemptsUnique, EvidenceStored, D.Stored, D.Admits, D.Apply, Bound, Justified, FinalLast, References,
         AttemptInsertFires, UpdateRejected, EvidenceRejected, AttemptNotNull, AttemptChecked, EvidenceNotNull, D.Kept;
    var after := Apply(db, step);
    ExtendsItself(db);
    StepKeepsReferences(dialect, db, step);
    match step
    case Destinations(s) =>
      D.StepKeeps(dialect, db.destinations, s);
      forall i | 0 <= i < |db.attempts|
        ensures Bound(after.destinations, db.attempts[i])
      {
        BoundKept(db.destinations, after.destinations, db.attempts[i]);
      }
    case InsertAttempt(a) =>
      assert after.attempts[|db.attempts|] == a;
      AttemptInserted(db, a);
      assert Justified(db.evidence, a) by {
        NothingToJustify(db.evidence, a);
      }
    case UpdateAttempt(at, a) =>
      assert after.attempts[at] == a;
      AttemptUpdated(dialect, db, db.attempts[at], a);
      SameBinding(db.destinations, db.attempts[at], a);
    case InsertEvidence(e) =>
      EvidenceRowStored(after.evidence, |db.evidence|);
      EvidenceInserted(dialect, db, e);
      forall i | 0 <= i < |db.attempts|
        ensures Justified(after.evidence, db.attempts[i])
      {
        JustifiedKept(db.evidence, after.evidence, db.attempts[i]);
      }
  }

  lemma NothingToJustify(evidence: seq<Evidence>, a: Attempt)
    requires a.state == Some(REQUESTED)
    ensures Justified(evidence, a)
  {
  }

  lemma SameBinding(destinations: D.Table, was: Attempt, a: Attempt)
    requires Bound(destinations, was) && Forward(was, a)
    ensures Bound(destinations, a)
  {
  }

  lemma EvidenceRowStored(evidence: seq<Evidence>, i: nat)
    requires EvidenceStored(evidence) && i < |evidence|
    ensures EvidenceNotNull(evidence[i])
  {
  }

  predicate Next(dialect: Dialect, before: Db, after: Db, step: Step) {
    Admits(dialect, before, step) && after == Apply(before, step)
  }

  predicate IsRun(dialect: Dialect, run: seq<Db>, steps: seq<Step>) {
    && |run| == |steps| + 1 && run[0] == Db([], [], [])
    && forall k :: 0 <= k < |steps| ==> Next(dialect, run[k], run[k + 1], steps[k])
  }

  lemma {:induction false} RunKeeps(dialect: Dialect, run: seq<Db>, steps: seq<Step>, k: nat)
    requires IsRun(dialect, run, steps) && k < |run|
    ensures Inv(run[k])
  {
    hide Admits, Apply, Inv;
    if k == 0 {
      EmptyInv();
    } else {
      RunKeeps(dialect, run, steps, k - 1);
      assert Next(dialect, run[k - 1], run[k], steps[k - 1]);
      StepKeeps(dialect, run[k - 1], steps[k - 1]);
    }
  }

  lemma EmptyInv()
    ensures Inv(Db([], [], []))
  {
  }

  /** Between any two moments of a run attempts only move forward, and evidence and destinations are only added to. */
  lemma {:induction false} HistoryGrows(dialect: Dialect, run: seq<Db>, steps: seq<Step>, a: nat, b: nat)
    requires IsRun(dialect, run, steps) && a <= b < |run|
    ensures Extends(run[a], run[b])
    decreases b
  {
    hide Admits, Apply, Inv, D.Extends, Forward;
    if a == b {
      ExtendsItself(run[a]);
    } else {
      HistoryGrows(dialect, run, steps, a, b - 1);
      RunKeeps(dialect, run, steps, b - 1);
      assert Next(dialect, run[b - 1], run[b], steps[b - 1]);
      StepKeeps(dialect, run[b - 1], steps[b - 1]);
      ExtendsTransitive(run[a], run[b - 1], run[b]);
    }
  }

  lemma ExtendsItself(db: Db)
    ensures Extends(db, db)
  {
  }

  lemma ExtendsTransitive(x: Db, y: Db, z: Db)
    requires Extends(x, y) && Extends(y, z)
    ensures Extends(x, z)
  {
    forall i | 0 <= i < |x.attempts|
      ensures Forward(x.attempts[i], z.attempts[i])
    {
      assert Forward(x.attempts[i], y.attempts[i]) && Forward(y.attempts[i], z.attempts[i]);
    }
    forall i | 0 <= i < |x.destinations|
      ensures D.Kept(x.destinations[i], z.destinations[i])
    {
      D.KeptTransitive(x.destinations[i], y.destinations[i], z.destinations[i]);
    }
  }

  /** The evidence of an attempt, in the order it was added. */
  function EvidenceOf(evidence: seq<Evidence>, id: int): seq<Evidence> {
    Filter(BelongsTo(id), evidence)
  }

  function BelongsTo(id: int): Evidence -> bool {
    (e: Evidence) => e.attempt == Some(id)
  }

  lemma FinalRow(evidence: seq<Evidence>, id: int) returns (f: nat)
    requires HasEvidence(evidence, Some(id), FINAL)
    ensures f < |evidence| && evidence[f].attempt == Some(id) && evidence[f].result == Some(FINAL)
  {
    f :| f < |evidence| && And(Equal(evidence[f].attempt, Some(id)), Equal(evidence[f].result, Some(FINAL))).True?;
  }

  /** A FINAL attempt has exactly one FINAL evidence row, and it is the attempt's last. */
  lemma FinalHasOne(dialect: Dialect, run: seq<Db>, steps: seq<Step>, k: nat, i: nat)
    requires IsRun(dialect, run, steps) && k < |run| && i < |run[k].attempts| && run[k].attempts[i].state == Some(FINAL)
    ensures var es := EvidenceOf(run[k].evidence, run[k].attempts[i].id);
            && es != [] && es[|es| - 1].result == Some(FINAL)
            && forall j :: 0 <= j < |es| - 1 ==> es[j].result == Some(PENDING)
  {
    hide Admits, D.Inv, AttemptsStored, EvidenceStored, References, HasEvidence, FinalLast, EvidenceOf;
    RunKeeps(dialect, run, steps, k);
    var a, evidence := run[k].attempts[i], run[k].evidence;
    assert Justified(evidence, a);
    var f := FinalRow(evidence, a.id);
    FinalAtEnd(evidence, a.id, f);
  }

  lemma EvidenceResult(e: Evidence)
    requires EvidenceNotNull(e) && EvidenceChecked(e)
    ensures e.result in {Some(PENDING), Some(FINAL)}
  {
  }

  lemma FinalAtEnd(evidence: seq<Evidence>, id: int, f: nat)
    requires EvidenceStored(evidence) && FinalLast(evidence)
    requires f < |evidence| && evidence[f].attempt == Some(id) && evidence[f].result == Some(FINAL)
    ensures var es := EvidenceOf(evidence, id);
            && es != [] && es[|es| - 1] == evidence[f]
            && forall j :: 0 <= j < |es| - 1 ==> es[j].result == Some(PENDING)
  {
    hide EvidenceUnique, EvidenceNotNull, EvidenceChecked;
    var before, after := evidence[..f], evidence[f + 1..];
    assert evidence == before + [evidence[f]] + after;
    FilterConcat(BelongsTo(id), before + [evidence[f]], after);
    FilterConcat(BelongsTo(id), before, [evidence[f]]);
    forall e | e in after
      ensures !BelongsTo(id)(e)
    {
      var j :| 0 <= j < |after| && after[j] == e;
      assert evidence[f + 1 + j] == e;
      assert IsFinal(evidence[f]);
    }
    FilterNone(BelongsTo(id), after);
    FilterAll(BelongsTo(id), [evidence[f]]);
    PendingBefore(evidence, id, f);
  }

  lemma PendingBefore(evidence: seq<Evidence>, id: int, f: nat)
    requires EvidenceStored(evidence) && FinalLast(evidence) && f < |evidence| && evidence[f].attempt == Some(id)
    ensures forall e :: e in EvidenceOf(evidence[..f], id) ==> e.result == Some(PENDING)
  {
    hide EvidenceUnique, EvidenceNotNull, EvidenceChecked;
    forall e | e in EvidenceOf(evidence[..f], id)
      ensures e.result == Some(PENDING)
    {
      var i :| 0 <= i < f && evidence[i] == e;
      EvidenceResult(evidence[i]);
      assert !IsFinal(evidence[i]);
    }
  }

  /** Nothing is added to an attempt that has FINAL evidence, and one that is FINAL never changes again. */
  lemma FinalIsClosed(dialect: Dialect, run: seq<Db>, steps: seq<Step>, a: nat, b: nat, i: nat)
    requires IsRun(dialect, run, steps) && a <= b < |run| && i < |run[a].attempts|
    requires HasEvidence(run[a].evidence, Some(run[a].attempts[i].id), FINAL)
    ensures var id := run[a].attempts[i].id; EvidenceOf(run[b].evidence, id) == EvidenceOf(run[a].evidence, id)
    ensures i < |run[b].attempts|
    ensures run[a].attempts[i].state == Some(FINAL) ==> run[b].attempts[i] == run[a].attempts[i]
  {
    hide Admits, D.Inv, AttemptsStored, EvidenceStored, D.Extends, References, Bound, Justified;
    HistoryGrows(dialect, run, steps, a, b);
    RunKeeps(dialect, run, steps, b);
    assert Forward(run[a].attempts[i], run[b].attempts[i]);
    var id := run[a].attempts[i].id;
    var before, after := run[a].evidence, run[b].evidence;
    var f := FinalRow(before, id);
    var added := after[|before|..];
    assert after == before + added && IsFinal(after[f]);
    forall e | e in added
      ensures !BelongsTo(id)(e)
    {
      var j :| 0 <= j < |added| && added[j] == e;
      assert after[|before| + j] == e;
    }
    FilterConcat(BelongsTo(id), before, added);
    FilterNone(BelongsTo(id), added);
  }

  /** Each destination has at most one attempt that is still open. */
  lemma OneOpen(dialect: Dialect, run: seq<Db>, steps: seq<Step>, k: nat, i: nat, j: nat)
    requires IsRun(dialect, run, steps) && k < |run| && i < |run[k].attempts| && j < |run[k].attempts| && i != j
    requires run[k].attempts[i].destinationId == run[k].attempts[j].destinationId
    ensures run[k].attempts[i].state == Some(FINAL) || run[k].attempts[j].state == Some(FINAL)
  {
    hide Admits, D.Inv, EvidenceStored, Justified, Bound, FinalLast;
    RunKeeps(dialect, run, steps, k);
    var x, y := run[k].attempts[if i < j then i else j], run[k].attempts[if i < j then j else i];
    assert AttemptNotNull(x) && AttemptChecked(x) && AttemptNotNull(y) && AttemptChecked(y);
    assert !AttemptsConflict(x, y);
  }

  /** The one row with the attempt's destination id, in the version and of the key type the attempt names. */
  predicate IsDestinationOf(ds: D.Table, a: Attempt, d: nat) {
    && d < |ds| && Some(ds[d].id) == a.destinationId
    && ds[d].version == a.destinationVersion && ds[d].keyType == a.keyType
    && forall x :: 0 <= x < |ds| && x != d ==> Some(ds[x].id) != a.destinationId
  }

  /** At every moment of a run each attempt still matches the destination it was made for. */
  lemma StillBound(dialect: Dialect, run: seq<Db>, steps: seq<Step>, k: nat, i: nat)
    requires IsRun(dialect, run, steps) && k < |run| && i < |run[k].attempts|
    ensures exists d: nat :: IsDestinationOf(run[k].destinations, run[k].attempts[i], d)
  {
    hide Admits, AttemptsStored, EvidenceStored, Justified, FinalLast, D.Checked, D.NotNull;
    RunKeeps(dialect, run, steps, k);
    var ds, a := run[k].destinations, run[k].attempts[i];
    assert Bound(ds, a);
    var d: nat :| d < |ds|
      && Some(ds[d].id) == a.destinationId && ds[d].version == a.destinationVersion && ds[d].keyType == a.keyType;
    forall x | 0 <= x < |ds| && x != d
      ensures Some(ds[x].id) != a.destinationId
    {
      assert !D.Conflict(ds[if x < d then x else d], ds[if x < d then d else x]);
    }
    assert IsDestinationOf(ds, a, d);
  }

  /// ## What the guards leave open

  /** An unverified destination without an open attempt can have one requested. */
  lemma CanRequest(dialect: Dialect, db: Db, d: nat, a: Attempt)
    requires Inv(db) && d < |db.destinations| && Matches(db.destinations[d], a)
    requires AttemptNotNull(a) && AttemptChecked(a) && a.state == Some(REQUESTED)
    requires forall i :: 0 <= i < |db.attempts| ==> !AttemptsConflict(db.attempts[i], a)
    ensures Admits(dialect, db, InsertAttempt(a))
  {
    hide AttemptsConflict, EvidenceStored, D.Stored, FinalLast, AttemptChecked, Justified, Bound, HasAttempt;
    var after := Apply(db, InsertAttempt(a));
    assert HasDestination(db.destinations, a.destinationId) by {
      assert Some(db.destinations[d].id) == a.destinationId;
    }
    forall i | 0 <= i < |db.evidence|
      ensures HasAttempt(after.attempts, db.evidence[i].attempt)
    {
      AttemptStays(db.attempts, after.attempts, db.evidence[i].attempt);
    }
    assert forall i :: 0 <= i < |db.attempts| ==> after.attempts[i] == db.attempts[i];
  }

  /** An open attempt without final evidence can be given it, and then be closed. */
  lemma CanFinish(dialect: Dialect, db: Db, i: nat, e: Evidence)
    requires Inv(db) && i < |db.attempts| && IsOpen(db.attempts[i]) && e.attempt == Some(db.attempts[i].id)
    requires !HasEvidence(db.evidence, e.attempt, FINAL)
    requires EvidenceNotNull(e) && EvidenceChecked(e) && e.result == Some(FINAL)
    requires forall j :: 0 <= j < |db.evidence| ==> !EvidenceConflict(db.evidence[j], e)
    ensures Admits(dialect, db, InsertEvidence(e))
    ensures Admits(dialect, Apply(db, InsertEvidence(e)), UpdateAttempt(i, db.attempts[i].(state := Some(FINAL))))
  {
    hide AttemptsStored, EvidenceConflict, D.Stored, FinalLast, EvidenceChecked, Justified, Bound, HasEvidence;
    var given := Apply(db, InsertEvidence(e));
    assert IsOpenFor(db.attempts[i], e);
    EvidenceGuardsAgree(db, e);
    assert given.evidence[|db.evidence|] == e;
    assert Admits(dialect, db, InsertEvidence(e)) by {
      assert forall j :: 0 <= j < |db.evidence| ==> given.evidence[j] == db.evidence[j];
    }
    CanClose(dialect, given, i);
  }

  lemma CanClose(dialect: Dialect, db: Db, i: nat)
    requires Stored(db) && References(db) && i < |db.attempts| && IsOpen(db.attempts[i])
    requires var last := |db.evidence| - 1;
             0 <= last && db.evidence[last].attempt == Some(db.attempts[i].id) && db.evidence[last].result == Some(FINAL)
    ensures Admits(dialect, db, UpdateAttempt(i, db.attempts[i].(state := Some(FINAL))))
  {
    hide EvidenceStored, D.Stored;
    var was := db.attempts[i];
    var a := was.(state := Some(FINAL));
    var e := db.evidence[|db.evidence| - 1];
    assert And(Equal(e.attempt, Some(was.id)), Equal(e.result, Some(FINAL))).True?;
    assert HasEvidence(db.evidence, Some(was.id), FINAL);
    UpdateIdentity(was, a);
    UpdateGuardsAgree(db, was, a);
    ClosingKeepsStored(db.attempts, i);
    ClosingKeepsReferences(db, i);
  }

  lemma ClosingKeepsStored(attempts: seq<Attempt>, i: nat)
    requires AttemptsStored(attempts) && i < |attempts|
    ensures AttemptsStored(attempts[i := attempts[i].(state := Some(FINAL))])
  {
    var after := attempts[i := attempts[i].(state := Some(FINAL))];
    forall j, k | 0 <= j < k < |after|
      ensures !AttemptsConflict(after[j], after[k])
    {
      assert !AttemptsConflict(attempts[j], attempts[k]);
    }
  }

  lemma ClosingKeepsReferences(db: Db, i: nat)
    requires References(db) && i < |db.attempts|
    ensures References(db.(attempts := db.attempts[i := db.attempts[i].(state := Some(FINAL))]))
  {
    hide HasAttempt, HasDestination;
    var after := db.attempts[i := db.attempts[i].(state := Some(FINAL))];
    forall j | 0 <= j < |db.evidence|
      ensures HasAttempt(after, db.evidence[j].attempt)
    {
      AttemptStays(db.attempts, after, db.evidence[j].attempt);
    }
    forall j | 0 <= j < |after|
      ensures HasDestination(db.destinations, after[j].destinationId)
    {
      assert HasDestination(db.destinations, db.attempts[j].destinationId);
    }
  }

  lemma AttemptStays(before: seq<Attempt>, after: seq<Attempt>, id: Option<int>)
    requires |before| <= |after| && forall k :: 0 <= k < |before| ==> before[k].id == after[k].id
    requires HasAttempt(before, id)
    ensures HasAttempt(after, id)
  {
    var k :| 0 <= k < |before| && Some(before[k].id) == id;
    assert Some(after[k].id) == id;
  }

  /** The three tables behind their guards. */
  class VerificationStore {
    const dialect: Dialect
    var db: Db

    constructor (d: Dialect)
      ensures db == Db([], [], []) && dialect == d && Inv(db)
    {
      dialect := d;
      db := Db([], [], []);
    }

    /** An admitted statement takes effect; any other leaves the tables as they were. */
    method Execute(step: Step) returns (ok: bool)
      requires Inv(db)
      modifies this
      ensures ok == Admits(dialect, old(db), step)
      ensures db == if ok then Apply(old(db), step) else old(db)
      ensures Inv(db) && Extends(old(db), db)
    {
      hide Inv, Extends, Stored, Unguarded, References;
      ok := Admits(dialect, db, step);
      if ok {
        StepKeeps(dialect, db, step);
        db := Apply(db, step);
      } else {
        ExtendsItself(db);
      }
    }
  }
}
