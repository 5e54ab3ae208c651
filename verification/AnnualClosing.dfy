/**
 The annual closing tables: closings with their approved-review link, immutable
 snapshots, cash evidence and reviews, and payout obligations, behind the guards
 of both database dialects.
 */
module AnnualClosing {
  import opened Common
  import opened SqlLogic

  /// ## Rows as statements offer them; amounts are in cents

  datatype Closing = Closing(id: int, cycle: Option<int>, status: Option<string>, revision: Option<int>, review: Option<int>)

  datatype Snapshot = Snapshot(
    id: int, closing: Option<int>, cycle: Option<int>, hash: Option<string>, gross: Option<int>, fee: Option<int>,
    distributable: Option<int>, contributions: Option<int>, feeRate: Option<int>)

  datatype Cash = Cash(id: int, closing: Option<int>, cycle: Option<int>, fileHash: Option<string>, balance: Option<int>)

  datatype Review = Review(
    id: int, closing: Option<int>, cycle: Option<int>, cash: Option<int>, version: Option<int>, processRevision: Option<int>,
    actualCash: Option<int>, difference: Option<int>, liability: Option<int>, fee: Option<int>, required: Option<int>,
    surplus: Option<int>, calculationHash: Option<string>, cashHash: Option<string>, reconciliationHash: Option<string>,
    reviewHash: Option<string>)

  datatype Obligation = Obligation(
    id: int, snapshot: Option<int>, closing: Option<int>, cycle: Option<int>, member: Option<int>,
    participation: Option<int>, amount: Option<int>, hash: Option<string>)

  datatype Participation = Participation(id: int, member: int, cycle: int)

  /** Participations are another table's rows, which may change at any time. */
  datatype Db = Db(closings: seq<Closing>, snapshots: seq<Snapshot>, cash: seq<Cash>, reviews: seq<Review>,
                   obligations: seq<Obligation>, participations: seq<Participation>)

  datatype Immutable = Snapshots | CashEvidence | Reviews | Obligations

  /** `sets` says whether the statement names the approved-review column. */
  datatype Step =
    | InsertClosing(closing: Closing)
    | UpdateClosing(at: nat, sets: bool, closing: Closing)
    | DeleteClosing(at: nat)
    | InsertSnapshot(snapshot: Snapshot)
    | InsertCash(cash: Cash)
    | InsertReview(review: Review)
    | InsertObligation(obligation: Obligation)
    | Rewrite(table: Immutable, at: nat)
    | Participate(participations: seq<Participation>)

  const CLOSED := "CLOSED"
  const STATUSES := {"ASSESSING", "READY_FOR_REVIEW", "MASTER_APPROVED", "CLOSED", "PAYING", "LIQUIDATED"}

  /// ## The guards

  /** `EXISTS (SELECT 1 FROM reviews ...)` of a closing's new link. */
  predicate LinkFound(reviews: seq<Review>, c: Closing) {
    exists i :: 0 <= i < |reviews| && IsReviewOf(reviews[i], c)
  }

  predicate IsReviewOf(r: Review, c: Closing) {
    And(Equal(Some(r.id), c.review), And(Equal(r.closing, Some(c.id)), Equal(r.cycle, c.cycle))).True?
  }

  predicate LinkChanges(was: Closing, c: Closing) {
    And(Not(Null(was.review)), Not(Same(c.review, was.review))).True?
  }

  predicate LinkDangles(db: Db, c: Closing) {
    And(Not(Null(c.review)), Not(Of(LinkFound(db.reviews, c)))).True?
  }

  /** SQLite's trigger is on updates of the link column only; PostgreSQL's is on every insert and update. */
  predicate UpdateRejected(dialect: Dialect, db: Db, was: Closing, sets: bool, c: Closing) {
    match dialect
    case Sqlite(_) => sets && (LinkChanges(was, c) || LinkDangles(db, c))
    case Postgres => LinkChanges(was, c) || LinkDangles(db, c)
  }

  predicate InsertRejected(dialect: Dialect, db: Db, c: Closing) {
    match dialect
    case Sqlite(_) => Not(Null(c.review)).True?
    case Postgres => Not(Null(c.review)).True? || LinkDangles(db, c)
  }

  /** The join of the obligation guard: the snapshot of a closed closing, with the obligation's hash. */
  predicate IsSourceOf(s: Snapshot, c: Closing, o: Obligation) {
    And(And(And(Equal(Some(c.id), o.closing), Equal(c.cycle, o.cycle)), Equal(Some(s.id), o.snapshot)),
        And(And(Equal(s.closing, o.closing), Equal(s.cycle, o.cycle)),
            And(Equal(s.hash, o.hash), Equal(c.status, Some(CLOSED))))).True?
  }

  predicate HasSource(db: Db, o: Obligation) {
    exists i, k :: 0 <= i < |db.snapshots| && 0 <= k < |db.closings| && IsSourceOf(db.snapshots[i], db.closings[k], o)
  }

  predicate IsParticipationOf(p: Participation, o: Obligation) {
    And(Equal(Some(p.id), o.participation), And(Equal(Some(p.member), o.member), Equal(Some(p.cycle), o.cycle))).True?
  }

  predicate HasParticipation(db: Db, o: Obligation) {
    exists i :: 0 <= i < |db.participations| && IsParticipationOf(db.participations[i], o)
  }

  /// ## The tables' own constraints

  predicate ClosingChecked(c: Closing) {
    && c.cycle.Some? && c.status.Some? && c.revision.Some?
    && Passes(In(c.status, STATUSES)) && Passes(AtLeast(c.revision, 0))
  }

  predicate ClosingsConflict(a: Closing, b: Closing) {
    a.id == b.id || Clash(a.cycle, b.cycle)
  }

  /** `total = a + b` */
  function IsSum(total: Option<int>, a: Option<int>, b: Option<int>): Truth {
    if total.None? || a.None? || b.None? then Unknown else Of(total.value == a.value + b.value)
  }

  /** `a <= n` */
  function AtMost(a: Option<int>, n: int): Truth {
    if a.None? then Unknown else Of(a.value <= n)
  }

  const WHOLE_RATE := 10000

  predicate SnapshotChecked(s: Snapshot) {
    && s.closing.Some? && s.cycle.Some? && s.hash.Some? && s.gross.Some? && s.fee.Some? && s.distributable.Some?
    && s.contributions.Some? && s.feeRate.Some?
    && Passes(HasLength(s.hash, 64))
    && Passes(And(And(And(AtLeast(s.gross, 0), AtLeast(s.fee, 0)), And(AtLeast(s.distributable, 0), AtLeast(s.contributions, 0))),
                  And(AtLeast(s.feeRate, 0), AtMost(s.feeRate, WHOLE_RATE))))
    && Passes(IsSum(s.gross, s.fee, s.distributable))
  }

  predicate SnapshotsConflict(a: Snapshot, b: Snapshot) {
    a.id == b.id || Clash(a.closing, b.closing) || Clash(a.cycle, b.cycle) || Clash(a.hash, b.hash)
  }

  predicate CashChecked(c: Cash) {
    && c.closing.Some? && c.cycle.Some? && c.fileHash.Some? && c.balance.Some?
    && Passes(AtLeast(c.balance, 0)) && Passes(HasLength(c.fileHash, 64))
  }

  predicate ReviewNotNull(r: Review) {
    && r.closing.Some? && r.cycle.Some? && r.cash.Some? && r.version.Some? && r.processRevision.Some?
    && r.actualCash.Some? && r.difference.Some? && r.liability.Some? && r.fee.Some? && r.required.Some? && r.surplus.Some?
    && r.calculationHash.Some? && r.cashHash.Some? && r.reconciliationHash.Some? && r.reviewHash.Some?
  }

  predicate ReviewChecked(r: Review) {
    && ReviewNotNull(r)
    && Passes(And(AtLeast(r.version, 1), AtLeast(r.processRevision, 1)))
    && Passes(And(And(AtLeast(r.actualCash, 0), Equal(r.difference, Some(0))), AtLeast(r.surplus, 0)))
    && Passes(IsSum(r.required, r.liability, r.fee))
    && Passes(And(And(HasLength(r.calculationHash, 64), HasLength(r.cashHash, 64)),
                  And(HasLength(r.reconciliationHash, 64), HasLength(r.reviewHash, 64))))
  }

  predicate ReviewsConflict(a: Review, b: Review) {
    a.id == b.id || (Clash(a.closing, b.closing) && (Clash(a.version, b.version) || Clash(a.reviewHash, b.reviewHash)))
  }

  predicate ObligationChecked(o: Obligation) {
    && o.snapshot.Some? && o.closing.Some? && o.cycle.Some? && o.member.Some? && o.participation.Some? && o.amount.Some?
    && o.hash.Some?
    && Passes(AtLeast(o.amount, 0)) && Passes(HasLength(o.hash, 64))
  }

  predicate ObligationsConflict(a: Obligation, b: Obligation) {
    || a.id == b.id
    || (Clash(a.snapshot, b.snapshot) && (Clash(a.member, b.member) || Clash(a.participation, b.participation)))
  }

  predicate ClosingsStored(closings: seq<Closing>) {
    && (forall i :: 0 <= i < |closings| ==> ClosingChecked(closings[i]))
    && forall i, j :: 0 <= i < j < |closings| ==> !ClosingsConflict(closings[i], closings[j])
  }

  predicate SnapshotsStored(snapshots: seq<Snapshot>) {
    && (forall i :: 0 <= i < |snapshots| ==> SnapshotChecked(snapshots[i]))
    && forall i, j :: 0 <= i < j < |snapshots| ==> !SnapshotsConflict(snapshots[i], snapshots[j])
  }

  predicate CashStored(cash: seq<Cash>) {
    && (forall i :: 0 <= i < |cash| ==> CashChecked(cash[i]))
    && forall i, j :: 0 <= i < j < |cash| ==> cash[i].id != cash[j].id
  }

  predicate ReviewsStored(reviews: seq<Review>) {
    && (forall i :: 0 <= i < |reviews| ==> ReviewChecked(reviews[i]))
    && forall i, j :: 0 <= i < j < |reviews| ==> !ReviewsConflict(reviews[i], reviews[j])
  }

  predicate ObligationsStored(obligations: seq<Obligation>) {
    && (forall i :: 0 <= i < |obligations| ==> ObligationChecked(obligations[i]))
    && forall i, j :: 0 <= i < j < |obligations| ==> !ObligationsConflict(obligations[i], obligations[j])
  }

  predicate Stored(db: Db) {
    && ClosingsStored(db.closings) && SnapshotsStored(db.snapshots) && CashStored(db.cash) && ReviewsStored(db.reviews)
    && ObligationsStored(db.obligations)
  }

  /// ## Foreign keys

  predicate HasClosing(closings: seq<Closing>, id: Option<int>, cycle: Option<int>) {
    exists k :: 0 <= k < |closings| && Some(closings[k].id) == id && closings[k].cycle == cycle
  }

  predicate HasCash(cash: seq<Cash>, id: Option<int>, closing: Option<int>, cycle: Option<int>) {
    exists k :: 0 <= k < |cash| && Some(cash[k].id) == id && cash[k].closing == closing && cash[k].cycle == cycle
  }

  predicate HasReview(reviews: seq<Review>, id: Option<int>) {
    id.Some? ==> exists k :: 0 <= k < |reviews| && Some(reviews[k].id) == id
  }

  predicate HasSnapshot(snapshots: seq<Snapshot>, id: Option<int>) {
    exists k :: 0 <= k < |snapshots| && Some(snapshots[k].id) == id
  }

  predicate References(db: Db) {
    && (forall i :: 0 <= i < |db.closings| ==> HasReview(db.reviews, db.closings[i].review))
    && (forall i :: 0 <= i < |db.snapshots| ==> HasClosing(db.closings, db.snapshots[i].closing, db.snapshots[i].cycle))
    && (forall i :: 0 <= i < |db.cash| ==> HasClosing(db.closings, db.cash[i].closing, db.cash[i].cycle))
    && (forall i :: 0 <= i < |db.reviews| ==>
          && HasClosing(db.closings, db.reviews[i].closing, db.reviews[i].cycle)
          && HasCash(db.cash, db.reviews[i].cash, db.reviews[i].closing, db.reviews[i].cycle))
    && (forall i :: 0 <= i < |db.obligations| ==>
          && HasClosing(db.closings, db.obligations[i].closing, db.obligations[i].cycle)
          && HasSnapshot(db.snapshots, db.obligations[i].snapshot))
  }

  /// ## Steps

  function Apply(db: Db, step: Step): Db {
    match step
    case InsertClosing(c) => db.(closings := db.closings + [c])
    case UpdateClosing(at, _, c) => if at < |db.closings| then db.(closings := db.closings[at := c]) else db
    case DeleteClosing(at) =>
      if at < |db.closings| then db.(closings := db.closings[..at] + db.closings[at + 1..]) else db
    case InsertSnapshot(s) => db.(snapshots := db.snapshots + [s])
    case InsertCash(c) => db.(cash := db.cash + [c])
    case InsertReview(r) => db.(reviews := db.reviews + [r])
    case InsertObligation(o) => db.(obligations := db.obligations + [o])
    case Rewrite(_, _) => db
    case Participate(ps) => db.(participations := ps)
  }

  /** No trigger rejects the statement; a column the statement does not name keeps its value. */
  predicate Unguarded(dialect: Dialect, db: Db, step: Step) {
    match step
    case InsertClosing(c) => !InsertRejected(dialect, db, c)
    case UpdateClosing(at, sets, c) =>
      && at < |db.closings| && (sets || c.review == db.closings[at].review)
      && !UpdateRejected(dialect, db, db.closings[at], sets, c)
    case DeleteClosing(at) => at < |db.closings|
    case InsertObligation(o) => HasSource(db, o) && HasParticipation(db, o)
    case Rewrite(_, _) => false
    case _ => true
  }

  /** The statement goes through: no trigger rejects it and the result meets every constraint the connection enforces. */
  predicate Admits(dialect: Dialect, db: Db, step: Step) {
    && Unguarded(dialect, db, step) && Stored(Apply(db, step))
    && (dialect.Enforces() ==> References(Apply(db, step)))
  }

  /// ## What every run keeps

  /** A link names a stored review of the same closing and cycle. */
  predicate Linked(reviews: seq<Review>, c: Closing) {
    c.review.Some? ==> LinkFound(reviews, c)
  }

  /** The snapshot an obligation names, of the same closing and cycle, has the obligation's hash. */
  predicate Sourced(snapshots: seq<Snapshot>, o: Obligation) {
    exists i :: 0 <= i < |snapshots|
      && Some(snapshots[i].id) == o.snapshot && snapshots[i].closing == o.closing && snapshots[i].cycle == o.cycle
      && snapshots[i].hash == o.hash
  }

  /** What every dialect keeps, with or without enforced foreign keys. */
  predicate Base(db: Db) {
    Stored(db) && forall i :: 0 <= i < |db.obligations| ==> Sourced(db.snapshots, db.obligations[i])
  }

  /** What enforced foreign keys keep besides. */
  predicate Inv(db: Db) {
    && Base(db) && References(db)
    && (forall i :: 0 <= i < |db.closings| ==> Linked(db.reviews, db.closings[i]))
  }

  /** A linked closing is there, with its cycle and link. */
  predicate StillLinked(before: Closing, after: seq<Closing>) {
    before.review.Some? ==>
      exists k :: 0 <= k < |after| && after[k].id == before.id && after[k].cycle == before.cycle && after[k].review == before.review
  }

  predicate Grows(before: Db, after: Db) {
    && before.snapshots <= after.snapshots && before.cash <= after.cash && before.reviews <= after.reviews
    && before.obligations <= after.obligations
  }

  predicate LinksStay(before: Db, after: Db) {
    forall i :: 0 <= i < |before.closings| ==> StillLinked(before.closings[i], after.closings)
  }

  lemma LinkStays(before: seq<Review>, after: seq<Review>, c: Closing)
    requires before <= after && Linked(before, c)
    ensures Linked(after, c)
  {
    hide IsReviewOf;
    if c.review.Some? {
      var i :| 0 <= i < |before| && IsReviewOf(before[i], c);
      assert IsReviewOf(after[i], c);
    }
  }

  lemma SourceStays(before: seq<Snapshot>, after: seq<Snapshot>, o: Obligation)
    requires before <= after && Sourced(before, o)
    ensures Sourced(after, o)
  {
    var i :| 0 <= i < |before|
      && Some(before[i].id) == o.snapshot && before[i].closing == o.closing && before[i].cycle == o.cycle
      && before[i].hash == o.hash;
    assert after[i] == before[i];
  }

  /**
   A linked closing is referenced by its own review, so whatever a statement
   does, some closing has its id and cycle afterwards.
   */
  lemma LinkedClosingKept(db: Db, after: Db, i: nat)
    requires Inv(db) && References(after) && after.reviews == db.reviews && i < |db.closings| && db.closings[i].review.Some?
    ensures HasClosing(after.closings, Some(db.closings[i].id), db.closings[i].cycle)
  {
    hide Stored, Sourced, HasReview, HasCash, HasSnapshot, HasClosing;
    var c := db.closings[i];
    assert Linked(db.reviews, c);
    var r: nat :| r < |db.reviews| && IsReviewOf(db.reviews[r], c);
    assert HasClosing(after.closings, after.reviews[r].closing, after.reviews[r].cycle);
  }

  lemma ClosingsApart(closings: seq<Closing>, i: nat, j: nat)
    requires ClosingsStored(closings) && i < |closings| && j < |closings| && i != j
    ensures closings[i].id != closings[j].id && closings[i].cycle != closings[j].cycle
  {
    assert !ClosingsConflict(closings[if i < j then i else j], closings[if i < j then j else i]);
    assert ClosingChecked(closings[i]);
  }

  lemma UpdateKeepsLink(dialect: Dialect, db: Db, at: nat, sets: bool, c: Closing)
    requires dialect.Enforces() && Inv(db) && Admits(dialect, db, UpdateClosing(at, sets, c))
    ensures Linked(db.reviews, c) && StillLinked(db.closings[at], db.closings[at := c])
    ensures db.closings[at].review.Some? ==>
              c.id == db.closings[at].id && c.cycle == db.closings[at].cycle && c.review == db.closings[at].review
  {
    hide SnapshotsStored, CashStored, ReviewsStored, ObligationsStored, HasReview, Sourced, HasCash, HasSnapshot, LinkFound,
         References, ClosingsStored;
    var was, after := db.closings[at], Apply(db, UpdateClosing(at, sets, c));
    assert Linked(db.reviews, was);
    if was.review.Some? {
      LinkedClosingKept(db, after, at);
      var k :| 0 <= k < |after.closings| && Some(after.closings[k].id) == Some(was.id) && after.closings[k].cycle == was.cycle;
      if k != at {
        ClosingsApart(db.closings, k, at);
      }
      assert after.closings[at] == c;
      assert c.review == was.review;
      SameLink(db.reviews, was, c);
    }
  }

  lemma SameLink(reviews: seq<Review>, was: Closing, c: Closing)
    requires c.id == was.id && c.cycle == was.cycle && c.review == was.review
    ensures LinkFound(reviews, was) <==> LinkFound(reviews, c)
  {
    assert forall i :: 0 <= i < |reviews| ==> (IsReviewOf(reviews[i], was) <==> IsReviewOf(reviews[i], c));
  }

  lemma DeleteKeepsLinks(dialect: Dialect, db: Db, at: nat)
    requires dialect.Enforces() && Inv(db) && Admits(dialect, db, DeleteClosing(at))
    ensures db.closings[at].review.None?
  {
    hide SnapshotsStored, CashStored, ReviewsStored, ObligationsStored, HasReview, Sourced, HasCash, HasSnapshot, LinkFound,
         References, ClosingsStored;
    var was, after := db.closings[at], Apply(db, DeleteClosing(at));
    if was.review.Some? {
      LinkedClosingKept(db, after, at);
      var k :| 0 <= k < |after.closings| && Some(after.closings[k].id) == Some(was.id) && after.closings[k].cycle == was.cycle;
      ClosingsApart(db.closings, if k < at then k else k + 1, at);
      assert false;
    }
  }

  lemma ObligationInserted(db: Db, o: Obligation)
    requires HasSource(db, o)
    ensures Sourced(db.snapshots, o)
  {
    var i, k :| 0 <= i < |db.snapshots| && 0 <= k < |db.closings| && IsSourceOf(db.snapshots[i], db.closings[k], o);
    assert Some(db.snapshots[i].id) == o.snapshot;
  }

  lemma StillThere(closings: seq<Closing>, after: seq<Closing>, i: nat, k: nat)
    requires i < |closings| && k < |after| && after[k] == closings[i]
    ensures StillLinked(closings[i], after)
  {
  }

  lemma ClosingStep(dialect: Dialect, db: Db, step: Step)
    requires dialect.Enforces() && Inv(db) && Admits(dialect, db, step)
    requires (step.InsertClosing? || step.UpdateClosing? || step.DeleteClosing?)
    ensures forall i :: 0 <= i < |db.closings| ==> StillLinked(db.closings[i], Apply(db, step).closings)
    ensures forall i :: 0 <= i < |Apply(db, step).closings| ==> Linked(db.reviews, Apply(db, step).closings[i])
  {
    hide Stored, References, Sourced, StillLinked, Linked, UpdateRejected, InsertRejected;
    var after := Apply(db, step);
    match step
    case InsertClosing(c) =>
      LinkOfInserted(dialect, db, c);
      forall i | 0 <= i < |db.closings|
        ensures StillLinked(db.closings[i], after.closings)
      {
        StillThere(db.closings, after.closings, i, i);
      }
    case UpdateClosing(at, sets, c) =>
      UpdateKeepsLink(dialect, db, at, sets, c);
      forall i | 0 <= i < |db.closings|
        ensures StillLinked(db.closings[i], after.closings)
      {
        if i != at {
          StillThere(db.closings, after.closings, i, i);
        }
      }
    case DeleteClosing(at) =>
      DeleteKeepsLinks(dialect, db, at);
      forall i | 0 <= i < |db.closings|
        ensures StillLinked(db.closings[i], after.closings)
      {
        if i == at {
          NothingLinked(db.closings[at], after.closings);
        } else {
          StillThere(db.closings, after.closings, i, if i < at then i else i - 1);
        }
      }
  }

  lemma NothingLinked(c: Closing, after: seq<Closing>)
    requires c.review.None?
    ensures StillLinked(c, after)
  {
  }

  lemma LinkOfInserted(dialect: Dialect, db: Db, c: Closing)
    requires !InsertRejected(dialect, db, c)
    ensures c.review.None? && Linked(db.reviews, c)
  {
  }

  /** Snapshots, cash evidence, reviews and obligations only grow, and obligations carry their snapshot's hash, in every dialect. */
  lemma StepGrows(dialect: Dialect, db: Db, step: Step)
    requires Base(db) && Admits(dialect, db, step)
    ensures Base(Apply(db, step)) && Grows(db, Apply(db, step))
  {
    hide Stored, References, Sourced, UpdateRejected, InsertRejected, HasSource, HasParticipation;
    var after := Apply(db, step);
    match step
    case InsertSnapshot(s) =>
      forall i | 0 <= i < |db.obligations|
        ensures Sourced(after.snapshots, db.obligations[i])
      {
        SourceStays(db.snapshots, after.snapshots, db.obligations[i]);
      }
    case InsertObligation(o) =>
      ObligationInserted(db, o);
    case _ =>
  }

  /** With enforced foreign keys links name reviews of their own closing and cycle, and stay. */
  lemma StepKeeps(dialect: Dialect, db: Db, step: Step)
    requires dialect.Enforces() && Inv(db) && Admits(dialect, db, step)
    ensures Inv(Apply(db, step)) && LinksStay(db, Apply(db, step))
  {
    hide Base, References, StillLinked, Linked, Unguarded, Stored;
    var after := Apply(db, step);
    StepGrows(dialect, db, step);
    LinksStayHere(db);
    match step
    case InsertReview(r) =>
      forall i | 0 <= i < |db.closings|
        ensures Linked(after.reviews, db.closings[i])
      {
        LinkStays(db.reviews, after.reviews, db.closings[i]);
      }
    case InsertSnapshot(_) =>
    case InsertObligation(_) =>
    case InsertCash(_) =>
    case Rewrite(_, _) =>
    case Participate(_) =>
    case _ =>
      ClosingStep(dialect, db, step);
  }

  lemma LinksStayHere(db: Db)
    ensures LinksStay(db, db)
  {
    hide StillLinked;
    forall i | 0 <= i < |db.closings|
      ensures StillLinked(db.closings[i], db.closings)
    {
      StillThere(db.closings, db.closings, i, i);
    }
  }

  lemma LinksStayTwice(x: Db, y: Db, z: Db)
    requires LinksStay(x, y) && LinksStay(y, z)
    ensures LinksStay(x, z)
  {
    forall i | 0 <= i < |x.closings| && x.closings[i].review.Some?
      ensures StillLinked(x.closings[i], z.closings)
    {
      assert StillLinked(x.closings[i], y.closings);
      var c := x.closings[i];
      var k :| 0 <= k < |y.closings| && y.closings[k].id == c.id && y.closings[k].cycle == c.cycle
            && y.closings[k].review == c.review;
      assert StillLinked(y.closings[k], z.closings);
    }
  }

  predicate Next(dialect: Dialect, before: Db, after: Db, step: Step) {
    Admits(dialect, before, step) && after == Apply(before, step)
  }

  const EMPTY := Db([], [], [], [], [], [])

  predicate IsRun(dialect: Dialect, run: seq<Db>, steps: seq<Step>) {
    && |run| == |steps| + 1 && run[0] == EMPTY
    && forall k :: 0 <= k < |steps| ==> Next(dialect, run[k], run[k + 1], steps[k])
  }

  lemma {:induction false} RunBase(dialect: Dialect, run: seq<Db>, steps: seq<Step>, k: nat)
    requires IsRun(dialect, run, steps) && k < |run|
    ensures Base(run[k])
  {
    hide Admits, Apply, Base;
    if k == 0 {
      EmptyInv();
    } else {
      RunBase(dialect, run, steps, k - 1);
      assert Next(dialect, run[k - 1], run[k], steps[k - 1]);
      StepGrows(dialect, run[k - 1], steps[k - 1]);
    }
  }

  lemma {:induction false} RunKeeps(dialect: Dialect, run: seq<Db>, steps: seq<Step>, k: nat)
    requires dialect.Enforces() && IsRun(dialect, run, steps) && k < |run|
    ensures Inv(run[k])
  {
    hide Admits, Apply, Inv;
    if k == 0 {
      EmptyInv();
    } else {
      RunKeeps(dialect, run, steps, k - 1);
      assert Next(dialect, run[k - 1], run[k], steps[k - 1]);
      StepKeeps(dialect, run[k - 1], steps[k - 1]);
    }
  }

  lemma EmptyInv()
    ensures Inv(EMPTY) && Base(EMPTY)
  {
  }

  /** Between any two moments of a run the immutable tables only grow, in every dialect. */
  lemma {:induction false} HistoryGrows(dialect: Dialect, run: seq<Db>, steps: seq<Step>, a: nat, b: nat)
    requires IsRun(dialect, run, steps) && a <= b < |run|
    ensures Grows(run[a], run[b])
    decreases b
  {
    hide Admits, Apply, Base;
    if a < b {
      HistoryGrows(dialect, run, steps, a, b - 1);
      RunBase(dialect, run, steps, b - 1);
      assert Next(dialect, run[b - 1], run[b], steps[b - 1]);
      StepGrows(dialect, run[b - 1], steps[b - 1]);
    }
  }

  lemma {:induction false} LinksStayInRun(dialect: Dialect, run: seq<Db>, steps: seq<Step>, a: nat, b: nat)
    requires dialect.Enforces() && IsRun(dialect, run, steps) && a <= b < |run|
    ensures LinksStay(run[a], run[b])
    decreases b
  {
    hide Admits, Apply, Inv, LinksStay;
    if a == b {
      LinksStayHere(run[a]);
    } else {
      LinksStayInRun(dialect, run, steps, a, b - 1);
      RunKeeps(dialect, run, steps, b - 1);
      assert Next(dialect, run[b - 1], run[b], steps[b - 1]);
      StepKeeps(dialect, run[b - 1], steps[b - 1]);
      LinksStayTwice(run[a], run[b - 1], run[b]);
    }
  }

  /** The same closing: only its status and revision may have moved. */
  predicate KeepsLink(c: Closing, later: Closing) {
    later == c.(status := later.status, revision := later.revision)
  }

  /** An approved-review link once set stays: its closing is never deleted, and keeps its id, cycle and link. */
  lemma LinkIsFinal(dialect: Dialect, run: seq<Db>, steps: seq<Step>, a: nat, b: nat, i: nat)
    requires dialect.Enforces() && IsRun(dialect, run, steps)
    requires a <= b < |run| && i < |run[a].closings| && run[a].closings[i].review.Some?
    ensures exists k :: 0 <= k < |run[b].closings| && KeepsLink(run[a].closings[i], run[b].closings[k])
  {
    hide Admits;
    LinksStayInRun(dialect, run, steps, a, b);
    var c := run[a].closings[i];
    assert StillLinked(c, run[b].closings);
    var k :| 0 <= k < |run[b].closings| && run[b].closings[k].id == c.id && run[b].closings[k].cycle == c.cycle
          && run[b].closings[k].review == c.review;
    assert KeepsLink(c, run[b].closings[k]);
  }

  /** The review passed its gates: no difference, and the required liquidity is the liability plus the fee. */
  predicate IsApprovable(r: Review, c: Closing) {
    && Some(r.id) == c.review && r.closing == Some(c.id) && r.cycle == c.cycle
    && r.difference == Some(0) && r.surplus.Some? && r.surplus.value >= 0 && r.actualCash.Some? && r.actualCash.value >= 0
    && r.required.Some? && r.liability.Some? && r.fee.Some? && r.required.value == r.liability.value + r.fee.value
  }

  /**
   The link always names a stored review of the same closing and cycle that
   passed its gates, and that review is the same row ever after.
   */
  lemma LinkNamesReview(dialect: Dialect, run: seq<Db>, steps: seq<Step>, a: nat, b: nat, i: nat)
    requires dialect.Enforces() && IsRun(dialect, run, steps)
    requires a <= b < |run| && i < |run[a].closings| && run[a].closings[i].review.Some?
    ensures exists r: nat :: r < |run[a].reviews| <= |run[b].reviews| && run[b].reviews[r] == run[a].reviews[r]
                          && IsApprovable(run[a].reviews[r], run[a].closings[i])
  {
    hide Admits, ClosingsStored, SnapshotsStored, CashStored, ObligationsStored, References, Sourced, StillLinked, ReviewsConflict;
    RunKeeps(dialect, run, steps, a);
    HistoryGrows(dialect, run, steps, a, b);
    assert Linked(run[a].reviews, run[a].closings[i]);
    var r: nat :| r < |run[a].reviews| && IsReviewOf(run[a].reviews[r], run[a].closings[i]);
    assert ReviewChecked(run[a].reviews[r]);
    assert IsApprovable(run[a].reviews[r], run[a].closings[i]);
    assert run[b].reviews[r] == run[a].reviews[r];
  }

  /** The snapshot an obligation names, with its hash and its result split into fee and distributable part. */
  predicate IsSnapshotOf(s: Snapshot, o: Obligation) {
    && Some(s.id) == o.snapshot && s.closing == o.closing && s.cycle == o.cycle && s.hash == o.hash
    && s.gross.Some? && s.fee.Some? && s.distributable.Some? && s.gross.value == s.fee.value + s.distributable.value
  }

  /** An obligation never changes, and at every later moment carries the hash of the one snapshot it names. */
  lemma ObligationForever(dialect: Dialect, run: seq<Db>, steps: seq<Step>, a: nat, b: nat, i: nat)
    requires IsRun(dialect, run, steps) && a <= b < |run| && i < |run[a].obligations|
    ensures i < |run[b].obligations| && run[b].obligations[i] == run[a].obligations[i]
    ensures exists s: nat :: s < |run[b].snapshots| && IsSnapshotOf(run[b].snapshots[s], run[b].obligations[i])
              && forall x :: 0 <= x < |run[b].snapshots| && x != s ==>
                   Some(run[b].snapshots[x].id) != run[b].obligations[i].snapshot
  {
    hide Admits, ClosingsStored, CashStored, ReviewsStored, ObligationsStored;
    RunBase(dialect, run, steps, b);
    HistoryGrows(dialect, run, steps, a, b);
    var snapshots, o := run[b].snapshots, run[b].obligations[i];
    assert Sourced(snapshots, o);
    var s: nat :| s < |snapshots|
      && Some(snapshots[s].id) == o.snapshot && snapshots[s].closing == o.closing && snapshots[s].cycle == o.cycle
      && snapshots[s].hash == o.hash;
    assert SnapshotChecked(snapshots[s]);
    forall x | 0 <= x < |snapshots| && x != s
      ensures Some(snapshots[x].id) != o.snapshot
    {
      assert !SnapshotsConflict(snapshots[if x < s then x else s], snapshots[if x < s then s else x]);
    }
    assert IsSnapshotOf(snapshots[s], o);
  }

  /** A snapshot gives a member, and a participation, at most one obligation. */
  lemma OneObligation(dialect: Dialect, run: seq<Db>, steps: seq<Step>, k: nat, i: nat, j: nat)
    requires IsRun(dialect, run, steps) && k < |run| && i < |run[k].obligations| && j < |run[k].obligations| && i != j
    requires run[k].obligations[i].snapshot == run[k].obligations[j].snapshot
    ensures run[k].obligations[i].member != run[k].obligations[j].member
    ensures run[k].obligations[i].participation != run[k].obligations[j].participation
  {
    hide Admits, ClosingsStored, SnapshotsStored, CashStored, ReviewsStored, Sourced;
    RunBase(dialect, run, steps, k);
    var os := run[k].obligations;
    assert ObligationChecked(os[i]) && ObligationChecked(os[j]);
    assert !ObligationsConflict(os[if i < j then i else j], os[if i < j then j else i]);
  }

  /// ## The two dialects

  /**
   With foreign keys enforced the two dialects admit the same steps from every
   state that keeps the invariant: where SQLite's trigger does not look, the
   foreign keys on the closing's id and cycle reject what PostgreSQL's rejects.
   */
  lemma SameSteps(db: Db, step: Step)
    requires Inv(db)
    ensures Admits(Sqlite(true), db, step) <==> Admits(Postgres, db, step)
  {
    hide Stored, References, Sourced, StillLinked, LinkFound, HasSource, HasParticipation, LinkChanges, Inv;
    match step
    case UpdateClosing(at, sets, c) =>
      if Admits(Sqlite(true), db, step) && !sets {
        UpdateKeepsLink(Sqlite(true), db, at, sets, c);
        SameIsNoChange(db.closings[at], c);
      }
    case _ =>
  }

  lemma SameIsNoChange(was: Closing, c: Closing)
    requires c.review == was.review
    ensures !LinkChanges(was, c)
  {
  }

  /** The triggers alone do differ: on a statement that moves a linked closing to another cycle. */
  lemma TriggersDiffer(foreignKeys: bool, db: Db, at: nat, cycle: int)
    requires at < |db.closings| && db.closings[at].review.Some?
    requires forall i :: 0 <= i < |db.reviews| ==> db.reviews[i].cycle != Some(cycle)
    ensures var moved := db.closings[at].(cycle := Some(cycle));
            && !UpdateRejected(Sqlite(foreignKeys), db, db.closings[at], false, moved)
            && UpdateRejected(Postgres, db, db.closings[at], false, moved)
  {
    var moved := db.closings[at].(cycle := Some(cycle));
    assert forall i :: 0 <= i < |db.reviews| ==> !IsReviewOf(db.reviews[i], moved);
  }

  /// ## SQLite without enforced foreign keys

  /** Some row of another table names the closing. */
  predicate Referenced(db: Db, c: Closing) {
    || (exists i :: 0 <= i < |db.snapshots| && db.snapshots[i].closing == Some(c.id) && db.snapshots[i].cycle == c.cycle)
    || (exists i :: 0 <= i < |db.cash| && db.cash[i].closing == Some(c.id) && db.cash[i].cycle == c.cycle)
    || (exists i :: 0 <= i < |db.reviews| && db.reviews[i].closing == Some(c.id) && db.reviews[i].cycle == c.cycle)
    || (exists i :: 0 <= i < |db.obligations| && db.obligations[i].closing == Some(c.id) && db.obligations[i].cycle == c.cycle)
  }

  /** The statement moves or deletes a closing that is named elsewhere, or adds a row that names one that is not there. */
  predicate BreaksReference(db: Db, step: Step) {
    match step
    case UpdateClosing(at, _, c) =>
      && at < |db.closings| && (c.id != db.closings[at].id || c.cycle != db.closings[at].cycle)
      && Referenced(db, db.closings[at])
    case DeleteClosing(at) => at < |db.closings| && Referenced(db, db.closings[at])
    case InsertSnapshot(s) => !HasClosing(db.closings, s.closing, s.cycle)
    case InsertCash(c) => !HasClosing(db.closings, c.closing, c.cycle)
    case InsertReview(r) => !HasClosing(db.closings, r.closing, r.cycle) || !HasCash(db.cash, r.cash, r.closing, r.cycle)
    case _ => false
  }

  /** The rows of the other tables name closings of the list. */
  predicate ClosingsNamed(db: Db, closings: seq<Closing>) {
    && (forall i :: 0 <= i < |db.snapshots| ==> HasClosing(closings, db.snapshots[i].closing, db.snapshots[i].cycle))
    && (forall i :: 0 <= i < |db.cash| ==> HasClosing(closings, db.cash[i].closing, db.cash[i].cycle))
    && (forall i :: 0 <= i < |db.reviews| ==> HasClosing(closings, db.reviews[i].closing, db.reviews[i].cycle))
    && (forall i :: 0 <= i < |db.obligations| ==> HasClosing(closings, db.obligations[i].closing, db.obligations[i].cycle))
  }

  /** No other closing has the id and cycle of the one that went. */
  lemma GoneIsGone(before: seq<Closing>, after: seq<Closing>, at: nat)
    requires ClosingsStored(before) && at < |before|
    requires forall c :: c in after ==>
               || (exists k :: 0 <= k < |before| && k != at && before[k] == c)
               || c.id != before[at].id || c.cycle != before[at].cycle
    ensures !HasClosing(after, Some(before[at].id), before[at].cycle)
  {
    hide ClosingChecked, ClosingsStored;
    forall k | 0 <= k < |after|
      ensures !(Some(after[k].id) == Some(before[at].id) && after[k].cycle == before[at].cycle)
    {
      assert after[k] in after;
      if j: nat :| j < |before| && j != at && before[j] == after[k] {
        ClosingsApart(before, j, at);
      }
    }
  }

  /** What names a closing other than `gone` still finds it. */
  lemma OtherStays(before: seq<Closing>, after: seq<Closing>, gone: Closing, id: Option<int>, cycle: Option<int>)
    requires forall c :: c in before && (c.id != gone.id || c.cycle != gone.cycle) ==> c in after
    requires HasClosing(before, id, cycle) && !(id == Some(gone.id) && cycle == gone.cycle)
    ensures HasClosing(after, id, cycle)
  {
    var k :| 0 <= k < |before| && Some(before[k].id) == id && before[k].cycle == cycle;
    assert before[k] in before;
    var j :| 0 <= j < |after| && after[j] == before[k];
  }

  /** Changing the closings keeps the references exactly when the closing that goes was not named. */
  lemma NamedWithoutOne(db: Db, after: seq<Closing>, at: nat)
    requires ClosingsStored(db.closings) && at < |db.closings| && ClosingsNamed(db, db.closings)
    requires forall c :: c in after ==>
               || (exists k :: 0 <= k < |db.closings| && k != at && db.closings[k] == c)
               || c.id != db.closings[at].id || c.cycle != db.closings[at].cycle
    requires forall c :: c in db.closings && (c.id != db.closings[at].id || c.cycle != db.closings[at].cycle) ==> c in after
    ensures ClosingsNamed(db, after) <==> !Referenced(db, db.closings[at])
  {
    hide HasClosing, ClosingsStored;
    var gone := db.closings[at];
    GoneIsGone(db.closings, after, at);
    forall id, cycle | HasClosing(db.closings, id, cycle) && !(id == Some(gone.id) && cycle == gone.cycle)
      ensures HasClosing(after, id, cycle)
    {
      OtherStays(db.closings, after, gone, id, cycle);
    }
  }

  /** All references but those to closings. */
  predicate OtherReferences(db: Db) {
    && (forall i :: 0 <= i < |db.closings| ==> HasReview(db.reviews, db.closings[i].review))
    && (forall i :: 0 <= i < |db.reviews| ==> HasCash(db.cash, db.reviews[i].cash, db.reviews[i].closing, db.reviews[i].cycle))
    && (forall i :: 0 <= i < |db.obligations| ==> HasSnapshot(db.snapshots, db.obligations[i].snapshot))
  }

  lemma ReferencesInTwo(db: Db)
    ensures References(db) <==> ClosingsNamed(db, db.closings) && OtherReferences(db)
  {
    hide HasClosing, HasCash, HasReview, HasSnapshot;
  }

  lemma ClosingMoved(db: Db, at: nat, c: Closing)
    requires ClosingsStored(db.closings) && at < |db.closings| && ClosingsNamed(db, db.closings)
    requires c.id != db.closings[at].id || c.cycle != db.closings[at].cycle
    ensures ClosingsNamed(db, db.closings[at := c]) <==> !Referenced(db, db.closings[at])
  {
    hide ClosingsNamed, Referenced, ClosingsStored;
    var before, after := db.closings, db.closings[at := c];
    forall x | x in after
      ensures (exists k :: 0 <= k < |before| && k != at && before[k] == x) || x.id != before[at].id || x.cycle != before[at].cycle
    {
      var k :| 0 <= k < |after| && after[k] == x;
      assert k != at ==> before[k] == x;
    }
    forall x | x in before && (x.id != before[at].id || x.cycle != before[at].cycle)
      ensures x in after
    {
      var k :| 0 <= k < |before| && before[k] == x;
      assert after[k] == x;
    }
    NamedWithoutOne(db, after, at);
  }

  lemma ClosingDeleted(db: Db, at: nat)
    requires ClosingsStored(db.closings) && at < |db.closings| && ClosingsNamed(db, db.closings)
    ensures ClosingsNamed(db, db.closings[..at] + db.closings[at + 1..]) <==> !Referenced(db, db.closings[at])
  {
    hide ClosingsNamed, Referenced, ClosingsStored;
    var before, after := db.closings, db.closings[..at] + db.closings[at + 1..];
    forall x | x in after
      ensures exists k :: 0 <= k < |before| && k != at && before[k] == x
    {
      var k :| 0 <= k < |after| && after[k] == x;
      assert before[if k < at then k else k + 1] == x;
    }
    forall x | x in before && (x.id != before[at].id || x.cycle != before[at].cycle)
      ensures x in after
    {
      var k :| 0 <= k < |before| && before[k] == x;
      assert after[if k < at then k else k - 1] == x;
    }
    NamedWithoutOne(db, after, at);
  }

  lemma SameClosingNames(db: Db, closings: seq<Closing>, after: seq<Closing>)
    requires ClosingsNamed(db, closings)
    requires |closings| <= |after|
    requires forall k :: 0 <= k < |closings| ==> closings[k].id == after[k].id && closings[k].cycle == after[k].cycle
    ensures ClosingsNamed(db, after)
  {
    hide HasClosing;
    forall id, cycle | HasClosing(closings, id, cycle)
      ensures HasClosing(after, id, cycle)
    {
      ClosingStays(closings, after, id, cycle);
    }
  }

  /** A link that the SQLite trigger passes, or that stays as it was, names a review that is there. */
  lemma LinkHasReview(db: Db, was: Closing, sets: bool, c: Closing)
    requires HasReview(db.reviews, was.review) && (sets || c.review == was.review)
    requires sets ==> !LinkDangles(db, c)
    ensures HasReview(db.reviews, c.review)
  {
    if sets && c.review.Some? {
      var i :| 0 <= i < |db.reviews| && IsReviewOf(db.reviews[i], c);
      assert Some(db.reviews[i].id) == c.review;
    }
  }

  lemma SourceHasClosing(db: Db, o: Obligation)
    requires HasSource(db, o)
    ensures HasClosing(db.closings, o.closing, o.cycle) && HasSnapshot(db.snapshots, o.snapshot)
  {
    var i, k :| 0 <= i < |db.snapshots| && 0 <= k < |db.closings| && IsSourceOf(db.snapshots[i], db.closings[k], o);
    assert Some(db.closings[k].id) == o.closing && Some(db.snapshots[i].id) == o.snapshot;
  }

  /** What a statement of unenforcing SQLite does to the references. */
  lemma ReferencesAfter(db: Db, step: Step)
    requires Inv(db) && Unguarded(Sqlite(false), db, step) && Stored(Apply(db, step))
    ensures References(Apply(db, step)) <==> !BreaksReference(db, step)
  {
    hide Base, HasClosing, HasCash, HasReview, HasSnapshot, Linked, Sourced, HasSource, HasParticipation, ClosingsStored,
         SnapshotsStored, CashStored, ReviewsStored, ObligationsStored, LinkChanges, LinkDangles, Referenced;
    var after := Apply(db, step);
    BaseClosings(db);
    ReferencesInTwo(db);
    ReferencesInTwo(after);
    match step
    case InsertClosing(c) =>
      SameClosingNames(db, db.closings, after.closings);
      NoLinkHasReview(db, c);
    case UpdateClosing(at, sets, c) =>
      LinkHasReview(db, db.closings[at], sets, c);
      if c.id == db.closings[at].id && c.cycle == db.closings[at].cycle {
        SameClosingNames(db, db.closings, after.closings);
      } else {
        ClosingMoved(db, at, c);
      }
    case DeleteClosing(at) =>
      ClosingDeleted(db, at);
    case InsertSnapshot(s) =>
      SnapshotsMore(db, s);
    case InsertCash(c) =>
      CashMore(db, c);
    case InsertReview(r) =>
      ReviewsMore(db, r);
    case InsertObligation(o) =>
      SourceHasClosing(db, o);
    case Rewrite(_, _) =>
    case Participate(_) =>
  }

  lemma BaseClosings(db: Db)
    requires Base(db)
    ensures ClosingsStored(db.closings)
  {
  }

  lemma NoLinkHasReview(db: Db, c: Closing)
    requires !InsertRejected(Sqlite(false), db, c)
    ensures HasReview(db.reviews, c.review)
  {
  }

  lemma SnapshotsMore(db: Db, s: Snapshot)
    requires References(db)
    ensures References(db.(snapshots := db.snapshots + [s])) <==> HasClosing(db.closings, s.closing, s.cycle)
  {
    hide HasClosing, HasCash, HasReview;
    var more := db.snapshots + [s];
    assert more[|db.snapshots|] == s;
    forall id | HasSnapshot(db.snapshots, id)
      ensures HasSnapshot(more, id)
    {
      var k :| 0 <= k < |db.snapshots| && Some(db.snapshots[k].id) == id;
      assert Some(more[k].id) == id;
    }
  }

  lemma CashMore(db: Db, c: Cash)
    requires References(db)
    ensures References(db.(cash := db.cash + [c])) <==> HasClosing(db.closings, c.closing, c.cycle)
  {
    hide HasClosing, HasSnapshot, HasReview;
    var more := db.cash + [c];
    assert more[|db.cash|] == c;
    forall id, closing, cycle | HasCash(db.cash, id, closing, cycle)
      ensures HasCash(more, id, closing, cycle)
    {
      var k :| 0 <= k < |db.cash| && Some(db.cash[k].id) == id && db.cash[k].closing == closing && db.cash[k].cycle == cycle;
      assert more[k] == db.cash[k];
    }
  }

  lemma ReviewsMore(db: Db, r: Review)
    requires References(db)
    ensures References(db.(reviews := db.reviews + [r]))
            <==> HasClosing(db.closings, r.closing, r.cycle) && HasCash(db.cash, r.cash, r.closing, r.cycle)
  {
    hide HasClosing, HasSnapshot, HasCash;
    var more := db.reviews + [r];
    assert more[|db.reviews|] == r;
    forall id | HasReview(db.reviews, id)
      ensures HasReview(more, id)
    {
      if id.Some? {
        var k :| 0 <= k < |db.reviews| && Some(db.reviews[k].id) == id;
        assert Some(more[k].id) == id;
      }
    }
  }

  /** An unmoved or unnamed closing passes PostgreSQL's trigger when it passes SQLite's. */
  lemma UnmovedPasses(db: Db, at: nat, sets: bool, c: Closing)
    requires Inv(db) && Unguarded(Sqlite(false), db, UpdateClosing(at, sets, c))
    requires !BreaksReference(db, UpdateClosing(at, sets, c))
    ensures !UpdateRejected(Postgres, db, db.closings[at], sets, c)
  {
    hide Base, References;
    var was := db.closings[at];
    if !sets {
      SameIsNoChange(was, c);
      if c.review.Some? {
        assert Linked(db.reviews, was);
        var r :| 0 <= r < |db.reviews| && IsReviewOf(db.reviews[r], was);
        assert Referenced(db, was);
        assert IsReviewOf(db.reviews[r], c);
      }
    }
  }

  /**
   Without enforced foreign keys SQLite admits more: of the steps it admits from
   a state that keeps the invariant, PostgreSQL rejects exactly those that move or
   delete a closing named elsewhere or add a row that names a missing one.
   */
  lemma WithoutForeignKeys(db: Db, step: Step)
    requires Inv(db) && Admits(Sqlite(false), db, step)
    ensures Admits(Postgres, db, step) <==> !BreaksReference(db, step)
  {
    hide Inv, References, Stored, BreaksReference, UpdateRejected, InsertRejected, HasSource, HasParticipation;
    ReferencesAfter(db, step);
    if !BreaksReference(db, step) {
      match step
      case UpdateClosing(at, sets, c) =>
        UnmovedPasses(db, at, sets, c);
      case InsertClosing(c) =>
        InsertPasses(db, c);
      case _ =>
    }
  }

  lemma InsertPasses(db: Db, c: Closing)
    requires !InsertRejected(Sqlite(false), db, c)
    ensures !InsertRejected(Postgres, db, c)
  {
  }

  /// ## Whole runs without enforced foreign keys

  /** The statement moves or deletes a closing whose link is set. */
  predicate Unlinks(db: Db, step: Step) {
    match step
    case UpdateClosing(at, _, c) =>
      && at < |db.closings| && db.closings[at].review.Some?
      && (c.id != db.closings[at].id || c.cycle != db.closings[at].cycle)
    case DeleteClosing(at) => at < |db.closings| && db.closings[at].review.Some?
    case _ => false
  }

  predicate AllLinked(db: Db) {
    forall i :: 0 <= i < |db.closings| ==> Linked(db.reviews, db.closings[i])
  }

  /** What an update that does not move a linked closing leaves of its link. */
  lemma UnmovedKeepsLink(dialect: Dialect, db: Db, at: nat, sets: bool, c: Closing)
    requires AllLinked(db) && Unguarded(dialect, db, UpdateClosing(at, sets, c)) && !Unlinks(db, UpdateClosing(at, sets, c))
    ensures Linked(db.reviews, c) && StillLinked(db.closings[at], db.closings[at := c])
  {
    hide LinkFound;
    var was, after := db.closings[at], db.closings[at := c];
    assert Linked(db.reviews, was);
    if was.review.Some? {
      assert c.review == was.review;
      SameLink(db.reviews, was, c);
      assert after[at] == c;
    }
  }

  /** A step that moves or deletes no linked closing keeps every link, whether or not foreign keys are enforced. */
  lemma StepKeepsLinks(dialect: Dialect, db: Db, step: Step)
    requires AllLinked(db) && Unguarded(dialect, db, step) && !Unlinks(db, step)
    ensures AllLinked(Apply(db, step)) && LinksStay(db, Apply(db, step))
  {
    hide StillLinked, Linked, UpdateRejected, InsertRejected, HasSource, HasParticipation;
    var after := Apply(db, step);
    LinksStayHere(db);
    match step
    case InsertReview(r) =>
      forall i | 0 <= i < |db.closings|
        ensures Linked(after.reviews, db.closings[i])
      {
        LinkStays(db.reviews, after.reviews, db.closings[i]);
      }
    case InsertClosing(c) =>
      LinkOfInserted(dialect, db, c);
      forall i | 0 <= i < |db.closings|
        ensures StillLinked(db.closings[i], after.closings)
      {
        StillThere(db.closings, after.closings, i, i);
      }
    case UpdateClosing(at, sets, c) =>
      UnmovedKeepsLink(dialect, db, at, sets, c);
      forall i | 0 <= i < |db.closings|
        ensures StillLinked(db.closings[i], after.closings)
      {
        if i != at {
          StillThere(db.closings, after.closings, i, i);
        }
      }
    case DeleteClosing(at) =>
      forall i | 0 <= i < |db.closings|
        ensures StillLinked(db.closings[i], after.closings)
      {
        if i == at {
          NothingLinked(db.closings[at], after.closings);
        } else {
          StillThere(db.closings, after.closings, i, if i < at then i else i - 1);
        }
      }
    case _ =>
  }

  /** A step that moves or deletes a linked closing loses its link. */
  lemma UnlinkingLoses(db: Db, step: Step)
    requires ClosingsStored(db.closings) && Unlinks(db, step)
    ensures !LinksStay(db, Apply(db, step))
  {
    hide ClosingsStored;
    var at, after := step.at, Apply(db, step).closings;
    var was := db.closings[at];
    forall k | 0 <= k < |after|
      ensures !(after[k].id == was.id && after[k].cycle == was.cycle)
    {
      var i := if step.DeleteClosing? && k >= at then k + 1 else k;
      if i != at {
        ClosingsApart(db.closings, i, at);
      }
    }
    assert !StillLinked(was, after);
  }

  /** Without such a step set links stay from any moment to any later one, and name their review. */
  lemma {:induction false} LinksHold(dialect: Dialect, run: seq<Db>, steps: seq<Step>, a: nat, b: nat)
    requires IsRun(dialect, run, steps) && a <= b < |run|
    requires forall k :: 0 <= k < |steps| ==> !Unlinks(run[k], steps[k])
    ensures AllLinked(run[b]) && LinksStay(run[a], run[b])
    decreases b
  {
    hide Stored, References, Unguarded, Apply, AllLinked, LinksStay, Unlinks;
    if b == 0 {
      NoClosings();
      LinksStayHere(EMPTY);
    } else {
      LinksHold(dialect, run, steps, if a < b then a else b - 1, b - 1);
      assert Next(dialect, run[b - 1], run[b], steps[b - 1]);
      StepKeepsLinks(dialect, run[b - 1], steps[b - 1]);
      LinksStayHere(run[b]);
      LinksStayTwice(run[if a < b then a else b - 1], run[b - 1], run[b]);
    }
  }

  lemma NoClosings()
    ensures AllLinked(EMPTY)
  {
  }

  /**
   In every run of every dialect, unenforcing SQLite too, set links stay and name
   a review of their own closing and cycle at every moment exactly when no step
   moves or deletes a closing whose link is set.
   */
  lemma LinksHoldIff(dialect: Dialect, run: seq<Db>, steps: seq<Step>)
    requires IsRun(dialect, run, steps)
    ensures (forall a, b :: 0 <= a <= b < |run| ==> LinksStay(run[a], run[b]) && AllLinked(run[b]))
            <==> forall k :: 0 <= k < |steps| ==> !Unlinks(run[k], steps[k])
  {
    hide Admits, Apply, AllLinked, LinksStay, Unlinks;
    if forall k :: 0 <= k < |steps| ==> !Unlinks(run[k], steps[k]) {
      forall a, b | 0 <= a <= b < |run|
        ensures LinksStay(run[a], run[b]) && AllLinked(run[b])
      {
        LinksHold(dialect, run, steps, a, b);
      }
    } else {
      var k :| 0 <= k < |steps| && Unlinks(run[k], steps[k]);
      RunBase(dialect, run, steps, k);
      BaseClosings(run[k]);
      assert Next(dialect, run[k], run[k + 1], steps[k]);
      UnlinkingLoses(run[k], steps[k]);
      assert !LinksStay(run[k], run[k + 1]);
    }
  }

  const FIRST := Closing(1, Some(1), Some("ASSESSING"), Some(0), None)
  const LINKED := FIRST.(review := Some(1))
  const MOVED := LINKED.(cycle := Some(2))

  function CashWith(hash: string): Cash {
    Cash(1, Some(1), Some(1), Some(hash), Some(0))
  }

  function ReviewWith(hash: string): Review {
    Review(1, Some(1), Some(1), Some(1), Some(1), Some(1), Some(0), Some(0), Some(0), Some(0), Some(0), Some(0),
           Some(hash), Some(hash), Some(hash), Some(hash))
  }

  lemma RowsChecked(hash: string)
    requires |hash| == 64
    ensures ClosingChecked(FIRST) && ClosingChecked(LINKED) && ClosingChecked(MOVED)
    ensures CashChecked(CashWith(hash)) && ReviewChecked(ReviewWith(hash))
    ensures IsReviewOf(ReviewWith(hash), LINKED)
  {
  }

  function Prepared(hash: string): seq<Db> {
    [EMPTY, Db([FIRST], [], [], [], [], []), Db([FIRST], [], [CashWith(hash)], [], [], []),
     Db([FIRST], [], [CashWith(hash)], [ReviewWith(hash)], [], []),
     Db([LINKED], [], [CashWith(hash)], [ReviewWith(hash)], [], [])]
  }

  function Preparing(hash: string): seq<Step> {
    [InsertClosing(FIRST), InsertCash(CashWith(hash)), InsertReview(ReviewWith(hash)), UpdateClosing(0, true, LINKED)]
  }

  lemma LinkPrepared(hash: string)
    requires |hash| == 64
    ensures IsRun(Sqlite(false), Prepared(hash), Preparing(hash))
  {
    hide ClosingChecked, CashChecked, ReviewChecked, IsReviewOf;
    RowsChecked(hash);
    var run, steps := Prepared(hash), Preparing(hash);
    assert Next(Sqlite(false), run[0], run[1], steps[0]);
    assert Next(Sqlite(false), run[1], run[2], steps[1]);
    assert Next(Sqlite(false), run[2], run[3], steps[2]);
    assert LinkFound(run[3].reviews, LINKED) by {
      assert IsReviewOf(run[3].reviews[0], LINKED);
    }
    assert Next(Sqlite(false), run[3], run[4], steps[3]);
  }

  /**
   Runs of unenforcing SQLite in which a link that was set is lost: the linked
   closing moves to a cycle that its review is not of, or is deleted.
   */
  lemma LinkLostWithoutForeignKeys(hash: string)
    requires |hash| == 64
    ensures var run, steps := Prepared(hash), Preparing(hash);
            && run[4].closings == [LINKED] && LINKED.review.Some?
            && IsRun(Sqlite(false), run + [run[4].(closings := [MOVED])], steps + [UpdateClosing(0, false, MOVED)])
            && !KeepsLink(LINKED, MOVED) && !Linked(run[4].reviews, MOVED)
            && IsRun(Sqlite(false), run + [run[4].(closings := [])], steps + [DeleteClosing(0)])
  {
    hide ClosingChecked, CashChecked, ReviewChecked;
    RowsChecked(hash);
    LinkPrepared(hash);
    var db := Prepared(hash)[4];
    var moved, deleted := db.(closings := [MOVED]), db.(closings := []);
    assert Stored(db) by {
      assert Next(Sqlite(false), Prepared(hash)[3], db, Preparing(hash)[3]);
    }
    assert Next(Sqlite(false), db, moved, UpdateClosing(0, false, MOVED));
    assert db.closings[..0] + db.closings[1..] == [];
    assert Next(Sqlite(false), db, deleted, DeleteClosing(0));
    RunOnce(Sqlite(false), Prepared(hash), Preparing(hash), moved, UpdateClosing(0, false, MOVED));
    RunOnce(Sqlite(false), Prepared(hash), Preparing(hash), deleted, DeleteClosing(0));
    assert forall i :: 0 <= i < |db.reviews| ==> !IsReviewOf(db.reviews[i], MOVED);
  }

  lemma RunOnce(dialect: Dialect, run: seq<Db>, steps: seq<Step>, after: Db, step: Step)
    requires IsRun(dialect, run, steps) && Next(dialect, run[|run| - 1], after, step)
    ensures IsRun(dialect, run + [after], steps + [step])
  {
    hide Next;
    var longer, more := run + [after], steps + [step];
    forall k | 0 <= k < |more|
      ensures Next(dialect, longer[k], longer[k + 1], more[k])
    {
      assert k < |steps| ==> Next(dialect, run[k], run[k + 1], steps[k]);
    }
  }

  /// ## What the guards leave open

  /** A closing without a link can be linked to any stored review of its own closing and cycle. */
  lemma CanApprove(dialect: Dialect, db: Db, at: nat, r: nat)
    requires Inv(db) && at < |db.closings| && db.closings[at].review.None? && r < |db.reviews|
    requires db.reviews[r].closing == Some(db.closings[at].id) && db.reviews[r].cycle == db.closings[at].cycle
    ensures Admits(dialect, db, UpdateClosing(at, true, db.closings[at].(review := Some(db.reviews[r].id))))
  {
    hide SnapshotsStored, CashStored, ReviewsStored, ObligationsStored, Sourced, HasCash, HasSnapshot, Linked, HasClosing;
    var was := db.closings[at];
    var c := was.(review := Some(db.reviews[r].id));
    var after := db.closings[at := c];
    assert ClosingChecked(was);
    assert IsReviewOf(db.reviews[r], c);
    forall i, j | 0 <= i < j < |after|
      ensures !ClosingsConflict(after[i], after[j])
    {
      assert !ClosingsConflict(db.closings[i], db.closings[j]);
    }
    forall id, cycle | HasClosing(db.closings, id, cycle)
      ensures HasClosing(after, id, cycle)
    {
      ClosingStays(db.closings, after, id, cycle);
    }
  }

  lemma ClosingStays(before: seq<Closing>, after: seq<Closing>, id: Option<int>, cycle: Option<int>)
    requires |before| <= |after|
    requires forall k :: 0 <= k < |before| ==> before[k].id == after[k].id && before[k].cycle == after[k].cycle
    requires HasClosing(before, id, cycle)
    ensures HasClosing(after, id, cycle)
  {
    var k :| 0 <= k < |before| && Some(before[k].id) == id && before[k].cycle == cycle;
    assert Some(after[k].id) == id && after[k].cycle == cycle;
  }

  /** The closing tables behind their guards. */
  class ClosingStore {
    const dialect: Dialect
    var db: Db

    constructor (d: Dialect)
      ensures db == EMPTY && dialect == d && Base(db) && Inv(db)
    {
      dialect := d;
      db := EMPTY;
    }

    /** An admitted statement takes effect; any other leaves the tables as they were. */
    method Execute(step: Step) returns (ok: bool)
      requires Base(db) && (dialect.Enforces() ==> Inv(db))
      modifies this
      ensures ok == Admits(dialect, old(db), step)
      ensures db == if ok then Apply(old(db), step) else old(db)
      ensures Base(db) && Grows(old(db), db)
      ensures dialect.Enforces() ==> Inv(db) && LinksStay(old(db), db)
    {
      hide Inv, Base, LinksStay, Stored, Unguarded, References;
      ok := Admits(dialect, db, step);
      if ok {
        StepGrows(dialect, db, step);
        if dialect.Enforces() {
          StepKeeps(dialect, db, step);
        }
        db := Apply(db, step);
      } else {
        LinksStayHere(db);
      }
    }
  }
}
