/**
 Payout destinations of members: the guards both database dialects put on the
 table, and what every run of admitted steps keeps.
 */
module PayoutDestinations {
  import opened Common
  import opened SqlLogic

  /** A row as a statement offers it: any column but the assigned key may be null. */
  datatype Destination = Destination(
    id: int, memberId: Option<int>, version: Option<int>, keyType: Option<string>,
    encrypted: Option<string>, masked: Option<string>, createdAt: Option<int>, createdBy: Option<int>,
    status: Option<string>,
    verifiedAt: Option<int>, verifiedBy: Option<int>, revokedAt: Option<int>, revokedBy: Option<int>)

  type Table = seq<Destination>

  datatype Step = Insert(row: Destination) | Update(at: nat, row: Destination) | Delete(at: nat)

  const UNVERIFIED := "UNVERIFIED"
  const VERIFIED := "VERIFIED"
  const REVOKED := "REVOKED"
  const KEY_TYPES := {"CPF", "PHONE", "EMAIL", "EVP"}

  /// ## The guards

  /** The insert condition, which both dialects write the same way. */
  function InsertFires(row: Destination): Truth {
    Or(Differ(row.status, Some(UNVERIFIED)),
       Or(Or(Not(Null(row.verifiedAt)), Not(Null(row.verifiedBy))),
          Or(Not(Null(row.revokedAt)), Not(Null(row.revokedBy)))))
  }

  function IdentityChanges(was: Destination, row: Destination): Truth {
    Or(Or(Or(Not(Of(row.id == was.id)), Not(Same(row.memberId, was.memberId))),
          Or(Not(Same(row.version, was.version)), Not(Same(row.keyType, was.keyType)))),
       Or(Or(Not(Same(row.encrypted, was.encrypted)), Not(Same(row.masked, was.masked))),
          Or(Not(Same(row.createdAt, was.createdAt)), Not(Same(row.createdBy, was.createdBy)))))
  }

  function VerifiedSame(was: Destination, row: Destination): Truth {
    And(Same(row.verifiedAt, was.verifiedAt), Same(row.verifiedBy, was.verifiedBy))
  }

  function LifecycleSame(was: Destination, row: Destination): Truth {
    And(And(Same(row.status, was.status), VerifiedSame(was, row)),
        And(Same(row.revokedAt, was.revokedAt), Same(row.revokedBy, was.revokedBy)))
  }

  function Revokes(was: Destination, row: Destination): Truth {
    And(And(And(In(was.status, {UNVERIFIED, VERIFIED}), Equal(row.status, Some(REVOKED))), VerifiedSame(was, row)),
        And(And(Not(Null(row.revokedAt)), Not(Null(row.revokedBy))), And(Null(was.revokedAt), Null(was.revokedBy))))
  }

  /** SQLite: one condition, and the trigger fires when it is true. */
  predicate SqliteUpdateFires(was: Destination, row: Destination) {
    Or(IdentityChanges(was, row), Not(Or(LifecycleSame(was, row), Revokes(was, row)))).True?
  }

  /** PostgreSQL: three statements in order, each taken when its condition is true. */
  predicate PostgresUpdateRaises(was: Destination, row: Destination) {
    if IdentityChanges(was, row).True? then true
    else if LifecycleSame(was, row).True? then false
    else if Revokes(was, row).True? then false
    else true
  }

  predicate UpdateRejected(dialect: Dialect, was: Destination, row: Destination) {
    match dialect
    case Sqlite(_) => SqliteUpdateFires(was, row)
    case Postgres => PostgresUpdateRaises(was, row)
  }

  /// ## The table's own constraints

  predicate NotNull(row: Destination) {
    && row.memberId.Some? && row.version.Some? && row.keyType.Some? && row.encrypted.Some? && row.masked.Some?
    && row.createdAt.Some? && row.createdBy.Some? && row.status.Some?
  }

  function Lifecycle(row: Destination): Truth {
    Or(Or(And(Equal(row.status, Some(UNVERIFIED)),
              And(And(Null(row.verifiedAt), Null(row.verifiedBy)), And(Null(row.revokedAt), Null(row.revokedBy)))),
          And(Equal(row.status, Some(VERIFIED)),
              And(And(Not(Null(row.verifiedAt)), Not(Null(row.verifiedBy))),
                  And(Null(row.revokedAt), Null(row.revokedBy))))),
       And(Equal(row.status, Some(REVOKED)),
           And(And(Not(Null(row.revokedAt)), Not(Null(row.revokedBy))),
               Or(And(Null(row.verifiedAt), Null(row.verifiedBy)),
                  And(Not(Null(row.verifiedAt)), Not(Null(row.verifiedBy)))))))
  }

  predicate Checked(row: Destination) {
    && Passes(AtLeast(row.version, 1)) && Passes(In(row.keyType, KEY_TYPES))
    && Passes(In(row.status, {UNVERIFIED, VERIFIED, REVOKED})) && Passes(Lifecycle(row))
  }

  /** The row is in the partial index of active destinations. */
  predicate IsActive(row: Destination) {
    Differ(row.status, Some(REVOKED)).True?
  }

  predicate Conflict(a: Destination, b: Destination) {
    || a.id == b.id
    || (Clash(a.memberId, b.memberId) && Clash(a.version, b.version))
    || (IsActive(a) && IsActive(b) && Clash(a.memberId, b.memberId))
  }

  predicate Unique(t: Table) {
    forall i, j :: 0 <= i < j < |t| ==> !Conflict(t[i], t[j])
  }

  predicate Stored(t: Table) {
    && (forall i :: 0 <= i < |t| ==> NotNull(t[i]) && Checked(t[i]))
    && Unique(t)
  }

  /// ## Steps

  function Apply(t: Table, step: Step): Table {
    match step
    case Insert(row) => t + [row]
    case Update(at, row) => if at < |t| then t[at := row] else t
    case Delete(at) => if at < |t| then t[..at] + t[at + 1..] else t
  }

  /** The statement goes through: no trigger rejects it and the result meets every constraint. */
  predicate Admits(dialect: Dialect, t: Table, step: Step) {
    match step
    case Insert(row) =>
      !InsertFires(row).True? && NotNull(row) && Checked(row) && Unique(Apply(t, step))
    case Update(at, row) =>
      at < |t| && !UpdateRejected(dialect, t[at], row) && NotNull(row) && Checked(row) && Unique(Apply(t, step))
    case Delete(at) => false
  }

  /// ## The two dialects

  /** What SQLite's condition rejects PostgreSQL's statements reject too; they differ exactly on a null status. */
  lemma GuardsDiffer(was: Destination, row: Destination)
    ensures SqliteUpdateFires(was, row) ==> PostgresUpdateRaises(was, row)
    ensures PostgresUpdateRaises(was, row) && !SqliteUpdateFires(was, row) <==>
            && (was.status.None? || row.status.None?)
            && (was.status.None? || was.status.value in {UNVERIFIED, VERIFIED})
            && (row.status.None? || row.status.value == REVOKED)
            && !IdentityChanges(was, row).True? && VerifiedSame(was, row).True?
            && row.revokedAt.Some? && row.revokedBy.Some? && was.revokedAt.None? && was.revokedBy.None?
  {
  }

  /** A row on which they do differ: a revocation that forgets the status. */
  lemma GuardsDifferWitness(row: Destination)
    requires row.status == Some(UNVERIFIED) && row.revokedAt == None && row.revokedBy == None
    ensures var forgotten := row.(status := None, revokedAt := Some(1), revokedBy := Some(1));
            PostgresUpdateRaises(row, forgotten) && !SqliteUpdateFires(row, forgotten) && !NotNull(forgotten)
  {
  }

  /** With the NOT NULL columns the two dialects admit the same steps from every stored table. */
  lemma SameSteps(foreignKeys: bool, t: Table, step: Step)
    requires Stored(t)
    ensures Admits(Sqlite(foreignKeys), t, step) <==> Admits(Postgres, t, step)
  {
    hide Lifecycle, Unique, IdentityChanges, VerifiedSame, Conflict;
    if step.Update? && step.at < |t| {
      assert NotNull(t[step.at]);
      GuardsDiffer(t[step.at], step.row);
    }
  }

  /// ## What is admitted, in plain terms

  /** Every required column has a value, and the status goes with the four lifecycle columns. */
  predicate IsSound(d: Destination) {
    && d.memberId.Some? && d.version.Some? && d.version.value > 0
    && (d.keyType == Some("CPF") || d.keyType == Some("PHONE") || d.keyType == Some("EMAIL") || d.keyType == Some("EVP"))
    && d.encrypted.Some? && d.masked.Some? && d.createdAt.Some? && d.createdBy.Some?
    && (d.status == Some("UNVERIFIED") || d.status == Some("VERIFIED") || d.status == Some("REVOKED"))
    && (d.revokedAt.Some? <==> d.status == Some("REVOKED")) && (d.revokedBy.Some? <==> d.status == Some("REVOKED"))
    && (d.verifiedAt.Some? <==> d.verifiedBy.Some?)
    && (d.status == Some("UNVERIFIED") ==> d.verifiedAt.None?) && (d.status == Some("VERIFIED") ==> d.verifiedAt.Some?)
  }

  /** Different keys, different versions of one member, and not two active destinations of one member. */
  predicate AreApart(a: Destination, b: Destination) {
    && a.id != b.id
    && (a.memberId == b.memberId ==>
          a.version != b.version && (a.status == Some("REVOKED") || b.status == Some("REVOKED")))
  }

  lemma SoundRow(d: Destination)
    ensures NotNull(d) && Checked(d) <==> IsSound(d)
  {
  }

  lemma ApartRows(a: Destination, b: Destination)
    requires IsSound(a) && IsSound(b)
    ensures !Conflict(a, b) <==> AreApart(a, b)
  {
  }

  /** The stored tables are those of sound rows that are pairwise apart. */
  lemma StoredIsSound(t: Table)
    ensures Stored(t) <==>
            && (forall i :: 0 <= i < |t| ==> IsSound(t[i]))
            && forall i, j :: 0 <= i < j < |t| ==> AreApart(t[i], t[j])
  {
    hide NotNull, Checked, IsSound, Conflict, AreApart;
    forall i | 0 <= i < |t|
      ensures NotNull(t[i]) && Checked(t[i]) <==> IsSound(t[i])
    {
      SoundRow(t[i]);
    }
    forall i, j | 0 <= i < j < |t| && IsSound(t[i]) && IsSound(t[j])
      ensures !Conflict(t[i], t[j]) <==> AreApart(t[i], t[j])
    {
      ApartRows(t[i], t[j]);
    }
  }

  /** A new destination: unverified and apart from every stored row. */
  predicate IsNew(t: Table, d: Destination) {
    IsSound(d) && d.status == Some("UNVERIFIED") && forall i :: 0 <= i < |t| ==> AreApart(t[i], d)
  }

  /** The row as it was, or its revocation by someone at some time. */
  predicate IsKeptOrRevoked(was: Destination, d: Destination) {
    || d == was
    || (&& (was.status == Some("UNVERIFIED") || was.status == Some("VERIFIED")) && d.revokedAt.Some? && d.revokedBy.Some?
        && d == was.(status := Some("REVOKED"), revokedAt := d.revokedAt, revokedBy := d.revokedBy))
  }

  lemma NewRow(d: Destination)
    requires IsSound(d)
    ensures !InsertFires(d).True? <==> d.status == Some("UNVERIFIED")
  {
  }

  lemma ChangedRow(dialect: Dialect, was: Destination, d: Destination)
    requires IsSound(was)
    ensures IsSound(d) && !UpdateRejected(dialect, was, d) <==> IsKeptOrRevoked(was, d)
  {
  }

  /** A row that is kept or revoked conflicts with nothing its old row did not conflict with. */
  lemma KeptStaysApart(a: Destination, was: Destination, d: Destination)
    requires IsKeptOrRevoked(was, d) && AreApart(a, was)
    ensures AreApart(a, d) && AreApart(d, a)
  {
  }

  /**
   What both dialects admit on a stored table: inserting a new unverified
   destination, leaving a row as it is, revoking an active row, and nothing else.
   */
  lemma AdmittedIff(dialect: Dialect, t: Table, step: Step)
    requires Stored(t)
    ensures Admits(dialect, t, step) <==>
            || (step.Insert? && IsNew(t, step.row))
            || (step.Update? && step.at < |t| && IsKeptOrRevoked(t[step.at], step.row))
  {
    hide NotNull, Checked, IsSound, Conflict, AreApart, InsertFires, UpdateRejected, Unique, IsKeptOrRevoked;
    StoredIsSound(t);
    match step
    case Insert(row) =>
      SoundRow(row);
      if IsSound(row) {
        NewRow(row);
        UniqueNext(t, row);
        forall i | 0 <= i < |t|
          ensures !Conflict(t[i], row) <==> AreApart(t[i], row)
        {
          ApartRows(t[i], row);
        }
      }
    case Update(at, row) =>
      if at < |t| {
        SoundRow(row);
        ChangedRow(dialect, t[at], row);
        if IsKeptOrRevoked(t[at], row) {
          UniqueAfter(t, at, row);
        }
      }
    case Delete(_) =>
  }

  lemma UniqueNext(t: Table, row: Destination)
    requires Unique(t)
    ensures Unique(t + [row]) <==> forall i :: 0 <= i < |t| ==> !Conflict(t[i], row)
  {
    hide Conflict;
    var after := t + [row];
    assert after[|t|] == row && forall i :: 0 <= i < |t| ==> after[i] == t[i];
  }

  lemma UniqueAfter(t: Table, at: nat, row: Destination)
    requires Stored(t) && at < |t| && IsSound(row) && IsKeptOrRevoked(t[at], row)
    ensures Unique(t[at := row])
  {
    hide NotNull, Checked, IsSound, Conflict, AreApart, IsKeptOrRevoked;
    StoredIsSound(t);
    var after := t[at := row];
    forall i, j | 0 <= i < j < |after|
      ensures !Conflict(after[i], after[j])
    {
      assert AreApart(t[i], t[j]);
      if i == at || j == at {
        ApartBothWays(t[i], t[j]);
        KeptStaysApart(t[if i == at then j else i], t[at], row);
      }
      ApartRows(after[i], after[j]);
    }
  }

  lemma ApartBothWays(a: Destination, b: Destination)
    ensures AreApart(a, b) <==> AreApart(b, a)
  {
  }

  /// ## What every run keeps

  /** No row is verified, and each row is either untouched or revoked. */
  predicate Inv(t: Table) {
    Stored(t) && forall i :: 0 <= i < |t| ==> t[i].status != Some(VERIFIED)
  }

  /** `row` is `was` with its revocation filled in. */
  predicate IsRevocation(was: Destination, row: Destination) {
    && was.status == Some(UNVERIFIED) && was.revokedAt.None? && was.revokedBy.None?
    && row.status == Some(REVOKED) && row.revokedAt.Some? && row.revokedBy.Some?
    && row == was.(status := Some(REVOKED), revokedAt := row.revokedAt, revokedBy := row.revokedBy)
  }

  predicate Kept(was: Destination, row: Destination) {
    row == was || IsRevocation(was, row)
  }

  /** The later table extends the earlier one, row by row. */
  predicate Extends(before: Table, after: Table) {
    && |before| <= |after|
    && forall i :: 0 <= i < |before| ==> Kept(before[i], after[i])
  }

  lemma InsertedRow(row: Destination)
    requires !InsertFires(row).True? && NotNull(row)
    ensures row.status == Some(UNVERIFIED)
    ensures row.verifiedAt.None? && row.verifiedBy.None? && row.revokedAt.None? && row.revokedBy.None?
  {
  }

  lemma UpdatedRow(dialect: Dialect, was: Destination, row: Destination)
    requires NotNull(was) && NotNull(row) && was.status != Some(VERIFIED) && !UpdateRejected(dialect, was, row)
    ensures Kept(was, row)
  {
    GuardsDiffer(was, row);
  }

  lemma StepKeeps(dialect: Dialect, t: Table, step: Step)
    requires Inv(t) && Admits(dialect, t, step)
    ensures Inv(Apply(t, step)) && Extends(t, Apply(t, step))
  {
    hide Lifecycle, InsertFires, UpdateRejected, Unique, Conflict;
    match step
    case Insert(row) =>
      InsertedRow(row);
    case Update(at, row) =>
      UpdatedRow(dialect, t[at], row);
  }

  predicate Next(dialect: Dialect, before: Table, after: Table, step: Step) {
    Admits(dialect, before, step) && after == Apply(before, step)
  }

  /** A run from the empty table, one admitted step at a time. */
  predicate IsRun(dialect: Dialect, run: seq<Table>, steps: seq<Step>) {
    && |run| == |steps| + 1 && run[0] == []
    && forall k :: 0 <= k < |steps| ==> Next(dialect, run[k], run[k + 1], steps[k])
  }

  lemma {:induction false} RunKeeps(dialect: Dialect, run: seq<Table>, steps: seq<Step>, k: nat)
    requires IsRun(dialect, run, steps) && k < |run|
    ensures Inv(run[k])
  {
    hide Admits, Apply, Stored;
    if k == 0 {
      EmptyInv();
    } else {
      RunKeeps(dialect, run, steps, k - 1);
      assert Next(dialect, run[k - 1], run[k], steps[k - 1]);
      StepKeeps(dialect, run[k - 1], steps[k - 1]);
    }
  }

  lemma EmptyInv()
    ensures Inv([])
  {
  }

  /** No destination is ever VERIFIED. */
  lemma NeverVerified(dialect: Dialect, run: seq<Table>, steps: seq<Step>, k: nat, i: nat)
    requires IsRun(dialect, run, steps) && k < |run| && i < |run[k]|
    ensures run[k][i].status in {Some(UNVERIFIED), Some(REVOKED)}
  {
    RunKeeps(dialect, run, steps, k);
    assert NotNull(run[k][i]) && Checked(run[k][i]);
  }

  /** Each member has at most one destination that is not revoked. */
  lemma OneActive(dialect: Dialect, run: seq<Table>, steps: seq<Step>, k: nat, i: nat, j: nat)
    requires IsRun(dialect, run, steps) && k < |run| && i < |run[k]| && j < |run[k]| && i != j
    requires run[k][i].memberId == run[k][j].memberId
    ensures run[k][i].status == Some(REVOKED) || run[k][j].status == Some(REVOKED)
  {
    hide Checked;
    RunKeeps(dialect, run, steps, k);
    assert NotNull(run[k][i]) && NotNull(run[k][j]);
    assert !Conflict(run[k][if i < j then i else j], run[k][if i < j then j else i]);
  }

  /**
   History only grows: between any two moments of a run no row goes away, no
   identity column changes, and a row either stays as it is or is revoked.
   */
  lemma {:induction false} HistoryGrows(dialect: Dialect, run: seq<Table>, steps: seq<Step>, a: nat, b: nat)
    requires IsRun(dialect, run, steps) && a <= b < |run|
    ensures Extends(run[a], run[b])
    decreases b
  {
    hide Admits, Apply, Stored, IsRevocation;
    if a < b {
      HistoryGrows(dialect, run, steps, a, b - 1);
      RunKeeps(dialect, run, steps, b - 1);
      assert Next(dialect, run[b - 1], run[b], steps[b - 1]);
      StepKeeps(dialect, run[b - 1], steps[b - 1]);
      forall i | 0 <= i < |run[a]|
        ensures Kept(run[a][i], run[b][i])
      {
        KeptTransitive(run[a][i], run[b - 1][i], run[b][i]);
      }
    }
  }

  lemma KeptTransitive(a: Destination, b: Destination, c: Destination)
    requires Kept(a, b) && Kept(b, c)
    ensures Kept(a, c)
  {
  }

  /** Revocation is permanent. */
  lemma RevokedForever(dialect: Dialect, run: seq<Table>, steps: seq<Step>, a: nat, b: nat, i: nat)
    requires IsRun(dialect, run, steps) && a <= b < |run| && i < |run[a]| && run[a][i].status == Some(REVOKED)
    ensures i < |run[b]| && run[b][i] == run[a][i]
  {
    hide Admits;
    HistoryGrows(dialect, run, steps, a, b);
    assert Kept(run[a][i], run[b][i]);
  }

  /**
   The guards leave the way open that the table is for: an active destination
   can be revoked, and then a fresh version can take its place.
   */
  lemma CanReplace(dialect: Dialect, t: Table, at: nat, when: int, who: int, newer: Destination)
    requires Inv(t) && at < |t| && t[at].status == Some(UNVERIFIED)
    requires NotNull(newer) && !InsertFires(newer).True? && Checked(newer)
    requires newer.memberId == t[at].memberId
    requires forall i :: 0 <= i < |t| ==> t[i].id != newer.id && (t[i].memberId == newer.memberId ==> t[i].version != newer.version)
    ensures var revoked := t[at].(status := Some(REVOKED), revokedAt := Some(when), revokedBy := Some(who));
            && Admits(dialect, t, Update(at, revoked))
            && Admits(dialect, Apply(t, Update(at, revoked)), Insert(newer))
  {
    var was := t[at];
    var revoked := was.(status := Some(REVOKED), revokedAt := Some(when), revokedBy := Some(who));
    var after := t[at := revoked];
    assert NotNull(was) && Checked(was);
    assert !IsActive(revoked);
    forall i, j | 0 <= i < j < |after|
      ensures !Conflict(after[i], after[j])
    {
      assert !Conflict(t[i], t[j]);
    }
    forall i | 0 <= i < |after|
      ensures !Conflict(after[i], newer)
    {
      if i != at {
        assert !Conflict(t[if i < at then i else at], t[if i < at then at else i]);
      }
    }
  }

  /** The table behind its guards. */
  class DestinationTable {
    const dialect: Dialect
    var rows: Table

    constructor (d: Dialect)
      ensures rows == [] && dialect == d && Inv(rows)
    {
      dialect := d;
      rows := [];
    }

    /** An admitted statement takes effect; any other leaves the table as it was. */
    method Execute(step: Step) returns (ok: bool)
      requires Inv(rows)
      modifies this
      ensures ok == Admits(dialect, old(rows), step)
      ensures rows == if ok then Apply(old(rows), step) else old(rows)
      ensures Inv(rows) && Extends(old(rows), rows)
    {
      ok := Admits(dialect, rows, step);
      if ok {
        StepKeeps(dialect, rows, step);
        rows := Apply(rows, step);
      }
    }
  }
}
