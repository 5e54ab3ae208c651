/** What the guards and constraints of the annual closing tables admit, in plain terms. */
module ClosingAdmission {
  import opened Common
  import opened SqlLogic
  import opened AnnualClosing

  /// ## Rows

  predicate HasHash(s: Option<string>) {
    s.Some? && |s.value| == 64
  }

  predicate IsNotNegative(n: Option<int>) {
    n.Some? && n.value >= 0
  }

  predicate IsPositive(n: Option<int>) {
    n.Some? && n.value > 0
  }

  predicate HasStatus(s: Option<string>) {
    || s == Some("ASSESSING") || s == Some("READY_FOR_REVIEW") || s == Some("MASTER_APPROVED") || s == Some("CLOSED")
    || s == Some("PAYING") || s == Some("LIQUIDATED")
  }

  predicate IsSoundClosing(c: Closing) {
    c.cycle.Some? && HasStatus(c.status) && IsNotNegative(c.revision)
  }

  predicate IsSoundSnapshot(s: Snapshot) {
    && s.closing.Some? && s.cycle.Some? && HasHash(s.hash)
    && IsNotNegative(s.gross) && IsNotNegative(s.fee) && IsNotNegative(s.distributable) && IsNotNegative(s.contributions)
    && s.gross.value == s.fee.value + s.distributable.value
    && IsNotNegative(s.feeRate) && s.feeRate.value <= 10000
  }

  predicate IsSoundCash(c: Cash) {
    c.closing.Some? && c.cycle.Some? && HasHash(c.fileHash) && IsNotNegative(c.balance)
  }

  predicate IsSoundReview(r: Review) {
    && r.closing.Some? && r.cycle.Some? && r.cash.Some? && IsPositive(r.version) && IsPositive(r.processRevision)
    && IsNotNegative(r.actualCash) && r.difference == Some(0) && IsNotNegative(r.surplus)
    && r.required.Some? && r.liability.Some? && r.fee.Some? && r.required.value == r.liability.value + r.fee.value
    && HasHash(r.calculationHash) && HasHash(r.cashHash) && HasHash(r.reconciliationHash) && HasHash(r.reviewHash)
  }

  predicate IsSoundObligation(o: Obligation) {
    && o.snapshot.Some? && o.closing.Some? && o.cycle.Some? && o.member.Some? && o.participation.Some?
    && IsNotNegative(o.amount) && HasHash(o.hash)
  }

  predicate ClosingsDiffer(a: Closing, b: Closing) {
    a.id != b.id && a.cycle != b.cycle
  }

  predicate SnapshotsDiffer(a: Snapshot, b: Snapshot) {
    a.id != b.id && a.closing != b.closing && a.cycle != b.cycle && a.hash != b.hash
  }

  predicate ReviewsDiffer(a: Review, b: Review) {
    a.id != b.id && (a.closing == b.closing ==> a.version != b.version && a.reviewHash != b.reviewHash)
  }

  predicate ObligationsDiffer(a: Obligation, b: Obligation) {
    a.id != b.id && (a.snapshot == b.snapshot ==> a.member != b.member && a.participation != b.participation)
  }

  lemma SoundClosing(c: Closing)
    ensures ClosingChecked(c) <==> IsSoundClosing(c)
  {
  }

  lemma SoundSnapshot(s: Snapshot)
    ensures SnapshotChecked(s) <==> IsSoundSnapshot(s)
  {
  }

  lemma SoundCash(e: Cash)
    ensures CashChecked(e) <==> IsSoundCash(e)
  {
  }

  lemma SoundReview(r: Review)
    ensures ReviewChecked(r) <==> IsSoundReview(r)
  {
  }

  lemma SoundObligation(o: Obligation)
    ensures ObligationChecked(o) <==> IsSoundObligation(o)
  {
  }

  /** The tables store exactly sound rows that differ pairwise in their keys. */
  lemma ClosingsStoredIff(t: seq<Closing>)
    ensures ClosingsStored(t) <==>
            && (forall i :: 0 <= i < |t| ==> IsSoundClosing(t[i]))
            && forall i, j :: 0 <= i < j < |t| ==> ClosingsDiffer(t[i], t[j])
  {
    hide ClosingChecked, IsSoundClosing;
    forall i | 0 <= i < |t|
      ensures ClosingChecked(t[i]) <==> IsSoundClosing(t[i])
      ensures IsSoundClosing(t[i]) ==> t[i].cycle.Some?
    {
      SoundClosing(t[i]);
      CycleGiven(t[i]);
    }
    assert forall i, j :: 0 <= i < j < |t| && t[i].cycle.Some? ==> (!ClosingsConflict(t[i], t[j]) <==> ClosingsDiffer(t[i], t[j]));
  }

  lemma CycleGiven(c: Closing)
    ensures IsSoundClosing(c) ==> c.cycle.Some?
  {
  }

  lemma SnapshotsStoredIff(t: seq<Snapshot>)
    ensures SnapshotsStored(t) <==>
            && (forall i :: 0 <= i < |t| ==> IsSoundSnapshot(t[i]))
            && forall i, j :: 0 <= i < j < |t| ==> SnapshotsDiffer(t[i], t[j])
  {
    hide SnapshotChecked, IsSoundSnapshot, SnapshotsConflict, SnapshotsDiffer;
    forall i | 0 <= i < |t|
      ensures SnapshotChecked(t[i]) <==> IsSoundSnapshot(t[i])
    {
      SoundSnapshot(t[i]);
    }
    forall i, j | 0 <= i < j < |t| && IsSoundSnapshot(t[i])
      ensures !SnapshotsConflict(t[i], t[j]) <==> SnapshotsDiffer(t[i], t[j])
    {
      SnapshotKeys(t[i], t[j]);
    }
  }

  lemma SnapshotKeys(a: Snapshot, b: Snapshot)
    requires IsSoundSnapshot(a)
    ensures !SnapshotsConflict(a, b) <==> SnapshotsDiffer(a, b)
  {
  }

  lemma CashStoredIff(t: seq<Cash>)
    ensures CashStored(t) <==>
            && (forall i :: 0 <= i < |t| ==> IsSoundCash(t[i]))
            && forall i, j :: 0 <= i < j < |t| ==> t[i].id != t[j].id
  {
    hide CashChecked, IsSoundCash;
    forall i | 0 <= i < |t|
      ensures CashChecked(t[i]) <==> IsSoundCash(t[i])
    {
      SoundCash(t[i]);
    }
  }

  lemma ReviewsStoredIff(t: seq<Review>)
    ensures ReviewsStored(t) <==>
            && (forall i :: 0 <= i < |t| ==> IsSoundReview(t[i]))
            && forall i, j :: 0 <= i < j < |t| ==> ReviewsDiffer(t[i], t[j])
  {
    hide ReviewChecked, IsSoundReview, ReviewsConflict, ReviewsDiffer;
    forall i | 0 <= i < |t|
      ensures ReviewChecked(t[i]) <==> IsSoundReview(t[i])
    {
      SoundReview(t[i]);
    }
    forall i, j | 0 <= i < j < |t| && IsSoundReview(t[i])
      ensures !ReviewsConflict(t[i], t[j]) <==> ReviewsDiffer(t[i], t[j])
    {
      ReviewKeys(t[i], t[j]);
    }
  }

  lemma ReviewKeys(a: Review, b: Review)
    requires IsSoundReview(a)
    ensures !ReviewsConflict(a, b) <==> ReviewsDiffer(a, b)
  {
  }

  lemma ObligationsStoredIff(t: seq<Obligation>)
    ensures ObligationsStored(t) <==>
            && (forall i :: 0 <= i < |t| ==> IsSoundObligation(t[i]))
            && forall i, j :: 0 <= i < j < |t| ==> ObligationsDiffer(t[i], t[j])
  {
    hide ObligationChecked, IsSoundObligation, ObligationsConflict, ObligationsDiffer;
    forall i | 0 <= i < |t|
      ensures ObligationChecked(t[i]) <==> IsSoundObligation(t[i])
    {
      SoundObligation(t[i]);
    }
    forall i, j | 0 <= i < j < |t| && IsSoundObligation(t[i])
      ensures !ObligationsConflict(t[i], t[j]) <==> ObligationsDiffer(t[i], t[j])
    {
      ObligationKeys(t[i], t[j]);
    }
  }

  lemma ObligationKeys(a: Obligation, b: Obligation)
    requires IsSoundObligation(a)
    ensures !ObligationsConflict(a, b) <==> ObligationsDiffer(a, b)
  {
  }

  /// ## Statements

  /** The row names this closing by id and cycle. */
  predicate Names(closing: Option<int>, cycle: Option<int>, c: Closing) {
    closing == Some(c.id) && cycle == c.cycle
  }

  predicate NamesSome(db: Db, closing: Option<int>, cycle: Option<int>) {
    exists k :: 0 <= k < |db.closings| && Names(closing, cycle, db.closings[k])
  }

  /** Some snapshot, cash evidence, review or obligation names the closing. */
  predicate IsNamed(db: Db, c: Closing) {
    || (exists i :: 0 <= i < |db.snapshots| && Names(db.snapshots[i].closing, db.snapshots[i].cycle, c))
    || (exists i :: 0 <= i < |db.cash| && Names(db.cash[i].closing, db.cash[i].cycle, c))
    || (exists i :: 0 <= i < |db.reviews| && Names(db.reviews[i].closing, db.reviews[i].cycle, c))
    || (exists i :: 0 <= i < |db.obligations| && Names(db.obligations[i].closing, db.obligations[i].cycle, c))
  }

  /** A stored review of the closing's own id and cycle, named by its link. */
  predicate IsOwnReview(r: Review, c: Closing) {
    c.review == Some(r.id) && Names(r.closing, r.cycle, c)
  }

  /**
   A new version of a closing. A set link stays and a link names a review of the
   closing's own; plain SQLite looks at that only when the statement sets the link.
   */
  predicate IsChange(dialect: Dialect, db: Db, at: nat, sets: bool, c: Closing)
    requires at < |db.closings|
  {
    var was := db.closings[at];
    && IsSoundClosing(c) && (forall i :: 0 <= i < |db.closings| && i != at ==> ClosingsDiffer(db.closings[i], c))
    && (sets || c.review == was.review)
    && (dialect.Enforces() || sets ==>
          && (was.review.Some? ==> c.review == was.review)
          && (c.review.Some? ==> exists i :: 0 <= i < |db.reviews| && IsOwnReview(db.reviews[i], c)))
    && (dialect.Enforces() ==> (c.id == was.id && c.cycle == was.cycle) || !IsNamed(db, was))
  }

  /** The cash evidence a review names, of the review's own closing and cycle. */
  predicate IsCashOf(c: Cash, r: Review) {
    r.cash == Some(c.id) && c.closing == r.closing && c.cycle == r.cycle
  }

  /** The snapshot an obligation names, with its closing, cycle and hash. */
  predicate IsOrigin(s: Snapshot, o: Obligation) {
    o.snapshot == Some(s.id) && s.closing == o.closing && s.cycle == o.cycle && s.hash == o.hash
  }

  /** The participation an obligation names, of its member in its cycle. */
  predicate Participates(p: Participation, o: Obligation) {
    o.participation == Some(p.id) && o.member == Some(p.member) && o.cycle == Some(p.cycle)
  }

  /** What an obligation needs of the other tables: its snapshot, its closing, which is CLOSED, and its participation. */
  predicate IsOwed(db: Db, o: Obligation) {
    && (exists i :: 0 <= i < |db.snapshots| && IsOrigin(db.snapshots[i], o))
    && (exists i :: 0 <= i < |db.closings| && Names(o.closing, o.cycle, db.closings[i]) && db.closings[i].status == Some("CLOSED"))
    && exists i :: 0 <= i < |db.participations| && Participates(db.participations[i], o)
  }

  predicate IsAllowed(dialect: Dialect, db: Db, step: Step) {
    match step
    case InsertClosing(c) =>
      && IsSoundClosing(c) && c.review.None?
      && forall i :: 0 <= i < |db.closings| ==> ClosingsDiffer(db.closings[i], c)
    case UpdateClosing(at, sets, c) => at < |db.closings| && IsChange(dialect, db, at, sets, c)
    case DeleteClosing(at) => at < |db.closings| && (dialect.Enforces() ==> !IsNamed(db, db.closings[at]))
    case InsertSnapshot(s) =>
      && IsSoundSnapshot(s) && (forall i :: 0 <= i < |db.snapshots| ==> SnapshotsDiffer(db.snapshots[i], s))
      && (dialect.Enforces() ==> NamesSome(db, s.closing, s.cycle))
    case InsertCash(c) =>
      && IsSoundCash(c) && (forall i :: 0 <= i < |db.cash| ==> db.cash[i].id != c.id)
      && (dialect.Enforces() ==> NamesSome(db, c.closing, c.cycle))
    case InsertReview(r) =>
      && IsSoundReview(r) && (forall i :: 0 <= i < |db.reviews| ==> ReviewsDiffer(db.reviews[i], r))
      && (dialect.Enforces() ==>
            NamesSome(db, r.closing, r.cycle) && exists i :: 0 <= i < |db.cash| && IsCashOf(db.cash[i], r))
    case InsertObligation(o) =>
      && IsSoundObligation(o) && (forall i :: 0 <= i < |db.obligations| ==> ObligationsDiffer(db.obligations[i], o))
      && IsOwed(db, o)
    case Rewrite(_, _) => false
    case Participate(_) => true
  }

  /// ## Guards

  lemma OwedGuard(db: Db, o: Obligation)
    requires IsSoundObligation(o)
    ensures HasSource(db, o) && HasParticipation(db, o) <==> IsOwed(db, o)
  {
    hide IsSoundObligation;
    ObligationGiven(o);
    forall i, k | 0 <= i < |db.snapshots| && 0 <= k < |db.closings|
      ensures IsSourceOf(db.snapshots[i], db.closings[k], o) <==>
              IsOrigin(db.snapshots[i], o) && Names(o.closing, o.cycle, db.closings[k]) && db.closings[k].status == Some("CLOSED")
    {
    }
    forall i | 0 <= i < |db.participations|
      ensures IsParticipationOf(db.participations[i], o) <==> Participates(db.participations[i], o)
    {
    }
    if HasSource(db, o) {
      var i, k :| 0 <= i < |db.snapshots| && 0 <= k < |db.closings| && IsSourceOf(db.snapshots[i], db.closings[k], o);
      assert IsOrigin(db.snapshots[i], o) && Names(o.closing, o.cycle, db.closings[k]);
    }
    if IsOwed(db, o) {
      var i :| 0 <= i < |db.snapshots| && IsOrigin(db.snapshots[i], o);
      var k :| 0 <= k < |db.closings| && Names(o.closing, o.cycle, db.closings[k]) && db.closings[k].status == Some("CLOSED");
      assert IsSourceOf(db.snapshots[i], db.closings[k], o);
    }
  }

  lemma ObligationGiven(o: Obligation)
    requires IsSoundObligation(o)
    ensures o.snapshot.Some? && o.closing.Some? && o.cycle.Some? && o.member.Some? && o.participation.Some? && o.hash.Some?
  {
  }

  lemma LinkGuard(db: Db, was: Closing, c: Closing)
    requires c.cycle.Some?
    ensures !LinkChanges(was, c) <==> (was.review.Some? ==> c.review == was.review)
    ensures !LinkDangles(db, c) <==>
            (c.review.Some? ==> exists i :: 0 <= i < |db.reviews| && IsOwnReview(db.reviews[i], c))
  {
    forall i | 0 <= i < |db.reviews|
      ensures IsReviewOf(db.reviews[i], c) <==> IsOwnReview(db.reviews[i], c)
    {
    }
  }

  lemma NamedIff(db: Db, c: Closing)
    ensures Referenced(db, c) <==> IsNamed(db, c)
  {
  }

  lemma NamesIff(db: Db, closing: Option<int>, cycle: Option<int>)
    ensures HasClosing(db.closings, closing, cycle) <==> NamesSome(db, closing, cycle)
  {
    forall k | 0 <= k < |db.closings|
      ensures Some(db.closings[k].id) == closing && db.closings[k].cycle == cycle <==> Names(closing, cycle, db.closings[k])
    {
    }
  }

  lemma CashIff(db: Db, r: Review)
    ensures HasCash(db.cash, r.cash, r.closing, r.cycle) <==> exists i :: 0 <= i < |db.cash| && IsCashOf(db.cash[i], r)
  {
    forall k | 0 <= k < |db.cash|
      ensures Some(db.cash[k].id) == r.cash && db.cash[k].closing == r.closing && db.cash[k].cycle == r.cycle
              <==> IsCashOf(db.cash[k], r)
    {
    }
  }

  /// ## The result

  lemma StoredParts(db: Db)
    requires Base(db)
    ensures ClosingsStored(db.closings) && SnapshotsStored(db.snapshots) && CashStored(db.cash) && ReviewsStored(db.reviews)
            && ObligationsStored(db.obligations)
  {
  }

  lemma ClosingAdded(t: seq<Closing>, c: Closing)
    requires ClosingsStored(t)
    ensures ClosingsStored(t + [c]) <==> IsSoundClosing(c) && forall i :: 0 <= i < |t| ==> ClosingsDiffer(t[i], c)
  {
    hide ClosingsStored, IsSoundClosing, ClosingsDiffer;
    ClosingsStoredIff(t);
    ClosingsStoredIff(t + [c]);
    assert (t + [c])[|t|] == c && forall i :: 0 <= i < |t| ==> (t + [c])[i] == t[i];
  }

  lemma ClosingChanged(t: seq<Closing>, at: nat, c: Closing)
    requires ClosingsStored(t) && at < |t|
    ensures ClosingsStored(t[at := c]) <==>
            IsSoundClosing(c) && forall i :: 0 <= i < |t| && i != at ==> ClosingsDiffer(t[i], c)
  {
    hide ClosingsStored, IsSoundClosing;
    ClosingsStoredIff(t);
    ClosingsStoredIff(t[at := c]);
    var after := t[at := c];
    assert after[at] == c && forall i :: 0 <= i < |t| && i != at ==> after[i] == t[i];
    if ClosingsStored(after) {
      forall i | 0 <= i < |t| && i != at
        ensures ClosingsDiffer(t[i], c)
      {
        assert ClosingsDiffer(after[if i < at then i else at], after[if i < at then at else i]);
      }
    }
  }

  lemma ClosingRemoved(t: seq<Closing>, at: nat)
    requires ClosingsStored(t) && at < |t|
    ensures ClosingsStored(t[..at] + t[at + 1..])
  {
    hide ClosingsStored, IsSoundClosing, ClosingsDiffer;
    ClosingsStoredIff(t);
    var after := t[..at] + t[at + 1..];
    assert forall i :: 0 <= i < |after| ==> after[i] == t[if i < at then i else i + 1];
    ClosingsStoredIff(after);
  }

  lemma SnapshotAdded(t: seq<Snapshot>, s: Snapshot)
    requires SnapshotsStored(t)
    ensures SnapshotsStored(t + [s]) <==> IsSoundSnapshot(s) && forall i :: 0 <= i < |t| ==> SnapshotsDiffer(t[i], s)
  {
    hide SnapshotsStored, IsSoundSnapshot, SnapshotsDiffer;
    SnapshotsStoredIff(t);
    SnapshotsStoredIff(t + [s]);
    assert (t + [s])[|t|] == s && forall i :: 0 <= i < |t| ==> (t + [s])[i] == t[i];
  }

  lemma CashAdded(t: seq<Cash>, c: Cash)
    requires CashStored(t)
    ensures CashStored(t + [c]) <==> IsSoundCash(c) && forall i :: 0 <= i < |t| ==> t[i].id != c.id
  {
    hide CashStored, IsSoundCash;
    CashStoredIff(t);
    CashStoredIff(t + [c]);
    assert (t + [c])[|t|] == c && forall i :: 0 <= i < |t| ==> (t + [c])[i] == t[i];
  }

  lemma ReviewAdded(t: seq<Review>, r: Review)
    requires ReviewsStored(t)
    ensures ReviewsStored(t + [r]) <==> IsSoundReview(r) && forall i :: 0 <= i < |t| ==> ReviewsDiffer(t[i], r)
  {
    hide ReviewsStored, IsSoundReview, ReviewsDiffer;
    ReviewsStoredIff(t);
    ReviewsStoredIff(t + [r]);
    assert (t + [r])[|t|] == r && forall i :: 0 <= i < |t| ==> (t + [r])[i] == t[i];
  }

  lemma ObligationAdded(t: seq<Obligation>, o: Obligation)
    requires ObligationsStored(t)
    ensures ObligationsStored(t + [o]) <==> IsSoundObligation(o) && forall i :: 0 <= i < |t| ==> ObligationsDiffer(t[i], o)
  {
    hide ObligationsStored, IsSoundObligation, ObligationsDiffer;
    ObligationsStoredIff(t);
    ObligationsStoredIff(t + [o]);
    assert (t + [o])[|t|] == o && forall i :: 0 <= i < |t| ==> (t + [o])[i] == t[i];
  }

  /** Without foreign keys: the trigger conditions and the tables' own constraints. */
  lemma PlainSteps(db: Db, step: Step)
    requires Base(db)
    ensures Admits(Sqlite(false), db, step) <==> IsAllowed(Sqlite(false), db, step)
  {
    hide ClosingsStored, SnapshotsStored, CashStored, ReviewsStored, ObligationsStored, References, LinkChanges, LinkDangles,
         HasSource, HasParticipation, IsSoundSnapshot, IsSoundReview, IsSoundObligation, IsSoundCash, ClosingsDiffer,
         SnapshotsDiffer, ReviewsDiffer, ObligationsDiffer, IsNamed, NamesSome, IsOwed, IsOwnReview, Sourced, HasStatus;
    StoredParts(db);
    match step
    case InsertClosing(c) =>
      ClosingAdded(db.closings, c);
    case UpdateClosing(at, sets, c) =>
      if at < |db.closings| {
        ClosingChanged(db.closings, at, c);
        if c.cycle.Some? {
          LinkGuard(db, db.closings[at], c);
        }
      }
    case DeleteClosing(at) =>
      if at < |db.closings| {
        ClosingRemoved(db.closings, at);
      }
    case InsertSnapshot(s) =>
      SnapshotAdded(db.snapshots, s);
    case InsertCash(c) =>
      CashAdded(db.cash, c);
    case InsertReview(r) =>
      ReviewAdded(db.reviews, r);
    case InsertObligation(o) =>
      ObligationAdded(db.obligations, o);
      if IsSoundObligation(o) {
        OwedGuard(db, o);
      }
    case Rewrite(_, _) =>
    case Participate(_) =>
  }

  /** Of what plain SQLite allows, enforced foreign keys leave what breaks no reference. */
  lemma EnforcedSteps(db: Db, step: Step)
    requires Inv(db)
    ensures IsAllowed(Postgres, db, step) <==> IsAllowed(Sqlite(false), db, step) && !BreaksReference(db, step)
  {
    hide Inv, IsSoundSnapshot, IsSoundReview, IsSoundObligation, IsSoundCash, IsSoundClosing, ClosingsDiffer,
         SnapshotsDiffer, ReviewsDiffer, ObligationsDiffer, IsNamed, NamesSome, IsOwed, HasClosing, HasCash, Referenced, IsCashOf;
    match step
    case UpdateClosing(at, sets, c) =>
      if at < |db.closings| {
        NamedIff(db, db.closings[at]);
        if !sets && c.review == db.closings[at].review && c.review.Some? && c.id == db.closings[at].id && c.cycle == db.closings[at].cycle {
          LinkOwn(db, at);
        }
        if !sets && c.review.Some? && c.review == db.closings[at].review {
          LinkedIsNamed(db, at);
        }
      }
    case DeleteClosing(at) =>
      if at < |db.closings| {
        NamedIff(db, db.closings[at]);
      }
    case InsertSnapshot(s) =>
      NamesIff(db, s.closing, s.cycle);
    case InsertCash(c) =>
      NamesIff(db, c.closing, c.cycle);
    case InsertReview(r) =>
      NamesIff(db, r.closing, r.cycle);
      CashIff(db, r);
    case _ =>
  }

  /** A linked closing's own review is stored, and names it. */
  lemma LinkOwn(db: Db, at: nat)
    requires Inv(db) && at < |db.closings| && db.closings[at].review.Some?
    ensures exists i :: 0 <= i < |db.reviews| && IsOwnReview(db.reviews[i], db.closings[at])
  {
    hide Base, References, IsOwnReview;
    var c := db.closings[at];
    assert Linked(db.reviews, c);
    var i :| 0 <= i < |db.reviews| && IsReviewOf(db.reviews[i], c);
    assert IsOwnReview(db.reviews[i], c) by {
      ReviewIsOwn(db.reviews[i], c);
    }
  }

  lemma ReviewIsOwn(r: Review, c: Closing)
    requires IsReviewOf(r, c)
    ensures IsOwnReview(r, c)
  {
  }

  lemma LinkedIsNamed(db: Db, at: nat)
    requires Inv(db) && at < |db.closings| && db.closings[at].review.Some?
    ensures IsNamed(db, db.closings[at])
  {
    hide Inv;
    LinkOwn(db, at);
    var i :| 0 <= i < |db.reviews| && IsOwnReview(db.reviews[i], db.closings[at]);
    assert Names(db.reviews[i].closing, db.reviews[i].cycle, db.closings[at]);
  }

  /**
   What the closing tables admit: in both enforcing dialects from every state of a
   run, and in plain SQLite from every state it can reach.
   */
  lemma AdmittedIff(dialect: Dialect, db: Db, step: Step)
    requires Base(db) && (dialect.Enforces() ==> Inv(db))
    ensures Admits(dialect, db, step) <==> IsAllowed(dialect, db, step)
  {
    hide Inv, Base, References, Stored, IsAllowed, BreaksReference, UpdateRejected, InsertRejected, HasSource, HasParticipation;
    PlainSteps(db, step);
    if dialect.Enforces() {
      SameSteps(db, step);
      EnforcedSteps(db, step);
      SameGuards(db, step);
      if Unguarded(Sqlite(false), db, step) && Stored(Apply(db, step)) {
        ReferencesAfter(db, step);
      }
      SameAllowed(dialect, db, step);
    } else {
      assert dialect == Sqlite(false);
    }
  }

  lemma SameGuards(db: Db, step: Step)
    ensures Unguarded(Sqlite(true), db, step) <==> Unguarded(Sqlite(false), db, step)
  {
    hide LinkChanges, LinkDangles, HasSource, HasParticipation;
  }

  lemma SameAllowed(dialect: Dialect, db: Db, step: Step)
    requires dialect.Enforces()
    ensures IsAllowed(dialect, db, step) <==> IsAllowed(Postgres, db, step)
  {
    hide IsNamed, NamesSome, IsOwed;
  }

  /// ## Where obligations come from

  /**
   Every stored obligation was inserted at some moment of the run when its closing
   was CLOSED, its snapshot had its hash, and its member took part in its cycle
   under the participation it names.
   */
  lemma {:induction false} ObligationWasOwed(dialect: Dialect, run: seq<Db>, steps: seq<Step>, k: nat, i: nat) returns (m: nat)
    requires IsRun(dialect, run, steps) && k < |run| && i < |run[k].obligations|
    ensures m < k && steps[m] == InsertObligation(run[k].obligations[i]) && IsOwed(run[m], run[k].obligations[i])
  {
    hide Admits, Apply, IsOwed;
    var db := run[k - 1];
    assert Next(dialect, db, run[k], steps[k - 1]);
    RunBase(dialect, run, steps, k - 1);
    OnlyInserts(dialect, db, steps[k - 1]);
    if i < |db.obligations| {
      m := ObligationWasOwed(dialect, run, steps, k - 1, i);
    } else {
      m := k - 1;
    }
  }

  lemma OnlyInserts(dialect: Dialect, db: Db, step: Step)
    requires Admits(dialect, db, step)
    ensures step.InsertObligation? ==>
              Apply(db, step).obligations == db.obligations + [step.obligation] && IsOwed(db, step.obligation)
    ensures !step.InsertObligation? ==> Apply(db, step).obligations == db.obligations
  {
    hide ClosingsStored, SnapshotsStored, CashStored, ReviewsStored, References, IsOwed, HasSource, HasParticipation;
    if step.InsertObligation? {
      var after := Apply(db, step).obligations;
      assert after[|db.obligations|] == step.obligation;
      SoundObligation(step.obligation);
      OwedGuard(db, step.obligation);
    }
  }
}
