/**
 Realized gain events: an append-only table whose rows are originals and full
 reversals, guarded by both database dialects.
 */
module GainEvents {
  import opened Common
  import opened SqlLogic

  /** A row as a statement offers it; amounts are in cents and instants are numbers. */
  datatype Event = Event(
    id: int, cycle: Option<int>, kind: Option<string>, amount: Option<int>, realizedAt: Option<int>,
    sourceType: Option<string>, sourceId: Option<string>, idempotencyKey: Option<string>,
    evidenceReference: Option<string>, evidenceHash: Option<string>, createdAt: Option<int>, createdBy: Option<int>,
    reversalOf: Option<int>)

  type Table = seq<Event>

  datatype Step = Insert(row: Event) | Update(at: nat, row: Event) | Delete(at: nat)

  const KINDS := {"INVESTMENT_YIELD_REALIZED", "OTHER_REALIZED_GAIN"}
  const SOURCES := {"BANK_STATEMENT", "BANK_CORRECTION"}

  /// ## The guards

  /** `a <= b` */
  function AtMost(a: Option<int>, b: Option<int>): Truth {
    if a.None? || b.None? then Unknown else Of(a.value <= b.value)
  }

  /** SQLite's search for the original that the row fully compensates. */
  predicate Compensates(original: Event, row: Event) {
    And(And(And(Equal(Some(original.id), row.reversalOf), Null(original.reversalOf)),
            And(Equal(original.cycle, row.cycle), Equal(original.kind, row.kind))),
        And(Equal(original.amount, row.amount), AtMost(original.realizedAt, row.realizedAt))).True?
  }

  predicate SqliteInsertFires(t: Table, row: Event) {
    row.reversalOf.Some? && !exists i :: 0 <= i < |t| && Compensates(t[i], row)
  }

  /** `SELECT * INTO original ... WHERE id = ...` */
  function Find(t: Table, id: int): Option<Event> {
    if t == [] then None else if t[0].id == id then Some(t[0]) else Find(t[1..], id)
  }

  /** PostgreSQL's condition on the row it looked up. */
  function Mismatch(original: Event, row: Event): Truth {
    Or(Or(Not(Null(original.reversalOf)), Or(Differ(original.cycle, row.cycle), Differ(original.kind, row.kind))),
       Or(Differ(original.amount, row.amount), Not(AtMost(original.realizedAt, row.realizedAt))))
  }

  predicate PostgresInsertRaises(t: Table, row: Event) {
    row.reversalOf.Some?
    && var original := Find(t, row.reversalOf.value); original.None? || Mismatch(original.value, row).True?
  }

  predicate InsertRejected(dialect: Dialect, t: Table, row: Event) {
    match dialect
    case Sqlite(_) => SqliteInsertFires(t, row)
    case Postgres => PostgresInsertRaises(t, row)
  }

  /// ## The table's own constraints

  predicate NotNull(e: Event) {
    && e.cycle.Some? && e.kind.Some? && e.amount.Some? && e.realizedAt.Some? && e.sourceType.Some? && e.sourceId.Some?
    && e.idempotencyKey.Some? && e.evidenceReference.Some? && e.evidenceHash.Some? && e.createdAt.Some?
  }

  predicate Checked(e: Event) {
    && Passes(In(e.kind, KINDS)) && Passes(AtLeast(e.amount, 1))
    && Passes(And(HasText(e.sourceType), HasText(e.sourceId))) && Passes(In(e.sourceType, SOURCES))
    && Passes(HasText(e.idempotencyKey)) && Passes(HasText(e.evidenceReference)) && Passes(HasLength(e.evidenceHash, 64))
  }

  predicate Conflict(a: Event, b: Event) {
    || a.id == b.id || Clash(a.idempotencyKey, b.idempotencyKey)
    || (Clash(a.cycle, b.cycle) && Clash(a.kind, b.kind) && Clash(a.sourceType, b.sourceType) && Clash(a.sourceId, b.sourceId))
    || Clash(a.reversalOf, b.reversalOf)
  }

  predicate Unique(t: Table) {
    forall i, j :: 0 <= i < j < |t| ==> !Conflict(t[i], t[j])
  }

  predicate Stored(t: Table) {
    (forall i :: 0 <= i < |t| ==> NotNull(t[i]) && Checked(t[i])) && Unique(t)
  }

  /// ## Steps

  function Apply(t: Table, step: Step): Table {
    match step
    case Insert(row) => t + [row]
    case Update(at, row) => if at < |t| then t[at := row] else t
    case Delete(at) => if at < |t| then t[..at] + t[at + 1..] else t
  }

  /** The statement goes through: no trigger rejects it and the result meets every constraint. */
  predicate Admits(dialect: Dialect, t: Table, step: Step) {
    match step
    case Insert(row) => !InsertRejected(dialect, t, row) && NotNull(row) && Checked(row) && Unique(Apply(t, step))
    case _ => false
  }

  /// ## The two dialects

  lemma {:induction false} FindsTheRow(t: Table, id: int, i: nat)
    requires Unique(t) && i < |t| && t[i].id == id
    ensures Find(t, id) == Some(t[i])
  {
    if i > 0 {
      assert !Conflict(t[0], t[i]);
      assert forall j, k :: 0 <= j < k < |t[1..]| ==> t[1..][j] == t[j + 1] && t[1..][k] == t[k + 1];
      FindsTheRow(t[1..], id, i - 1);
    }
  }

  lemma {:induction false} FindsNone(t: Table, id: int)
    requires forall i :: 0 <= i < |t| ==> t[i].id != id
    ensures Find(t, id) == None
  {
    if t != [] {
      FindsNone(t[1..], id);
    }
  }

  lemma MatchOrMismatch(original: Event, row: Event)
    requires NotNull(original) && NotNull(row) && Some(original.id) == row.reversalOf
    ensures Compensates(original, row) <==> !Mismatch(original, row).True?
  {
  }

  /** With the NOT NULL columns the two dialects admit the same steps from every stored table. */
  lemma SameSteps(foreignKeys: bool, t: Table, step: Step)
    requires Stored(t)
    ensures Admits(Sqlite(foreignKeys), t, step) <==> Admits(Postgres, t, step)
  {
    hide Checked, Unique, Find, Mismatch, NotNull, Compensates;
    if step.Insert? && NotNull(step.row) && step.row.reversalOf.Some? {
      var row := step.row;
      forall i | 0 <= i < |t| && Compensates(t[i], row)
        ensures t[i].id == row.reversalOf.value
      {
        CompensatesById(t[i], row);
      }
      if i: nat :| i < |t| && t[i].id == row.reversalOf.value {
        FindsTheRow(t, row.reversalOf.value, i);
        forall k | 0 <= k < |t| && Compensates(t[k], row)
          ensures t[k] == t[i]
        {
          FindsTheRow(t, row.reversalOf.value, k);
        }
        MatchOrMismatch(t[i], row);
      } else {
        FindsNone(t, row.reversalOf.value);
      }
    }
  }

  lemma CompensatesById(original: Event, row: Event)
    requires Compensates(original, row)
    ensures row.reversalOf == Some(original.id)
  {
  }

  /** Nothing that is not null tells the row from a full reversal of `original`. */
  predicate NoKnownMismatch(original: Event, row: Event) {
    && original.reversalOf.None?
    && (original.cycle.None? || row.cycle.None? || original.cycle == row.cycle)
    && (original.kind.None? || row.kind.None? || original.kind == row.kind)
    && (original.amount.None? || row.amount.None? || original.amount == row.amount)
    && (original.realizedAt.None? || row.realizedAt.None? || original.realizedAt.value <= row.realizedAt.value)
  }

  /** A column the trigger compares is null in the offered row. */
  predicate HasNullCompared(row: Event) {
    row.cycle.None? || row.kind.None? || row.amount.None? || row.realizedAt.None?
  }

  lemma ConditionsDiffer(original: Event, row: Event)
    requires NotNull(original) && Some(original.id) == row.reversalOf
    ensures Mismatch(original, row).True? ==> !Compensates(original, row)
    ensures !Mismatch(original, row).True? && !Compensates(original, row) <==> NoKnownMismatch(original, row) && HasNullCompared(row)
  {
  }

  /**
   What PostgreSQL's trigger rejects SQLite's rejects too. They differ exactly on
   a reversal of a stored original in which a compared column is null and no
   other one disagrees; the columns' NOT NULL rejects it in both dialects.
   */
  lemma GuardsDiffer(t: Table, row: Event)
    requires Stored(t)
    ensures PostgresInsertRaises(t, row) ==> SqliteInsertFires(t, row)
    ensures SqliteInsertFires(t, row) && !PostgresInsertRaises(t, row) <==>
            HasNullCompared(row) && exists i :: 0 <= i < |t| && Some(t[i].id) == row.reversalOf && NoKnownMismatch(t[i], row)
    ensures SqliteInsertFires(t, row) && !PostgresInsertRaises(t, row) ==> !NotNull(row)
  {
    hide Checked, Unique, Find, Mismatch, Compensates, NoKnownMismatch;
    if row.reversalOf.Some? {
      if i: nat :| i < |t| && t[i].id == row.reversalOf.value {
        FindsTheRow(t, row.reversalOf.value, i);
        ConditionsDiffer(t[i], row);
        forall k | 0 <= k < |t| && Some(t[k].id) == row.reversalOf
          ensures t[k] == t[i]
        {
          FindsTheRow(t, row.reversalOf.value, k);
        }
        forall k | 0 <= k < |t| && Compensates(t[k], row)
          ensures t[k].id == row.reversalOf.value
        {
          CompensatesById(t[k], row);
        }
      } else {
        FindsNone(t, row.reversalOf.value);
        forall k | 0 <= k < |t|
          ensures !Compensates(t[k], row)
        {
          if Compensates(t[k], row) {
            CompensatesById(t[k], row);
          }
        }
      }
    }
  }

  /** A row on which they do differ: a reversal without an amount. */
  lemma GuardsDifferOnNull(original: Event)
    requires NotNull(original) && original.reversalOf == None
    ensures var row := original.(id := original.id + 1, amount := None, reversalOf := Some(original.id));
            SqliteInsertFires([original], row) && !PostgresInsertRaises([original], row) && !NotNull(row)
  {
    var row := original.(id := original.id + 1, amount := None, reversalOf := Some(original.id));
    assert Find([original], original.id) == Some(original);
    assert !Compensates(original, row);
  }

  /// ## What is admitted, in plain terms

  /** Every required column has a value, and the values are well-formed. */
  predicate IsSound(e: Event) {
    && e.cycle.Some? && e.realizedAt.Some? && e.createdAt.Some?
    && (e.kind == Some("INVESTMENT_YIELD_REALIZED") || e.kind == Some("OTHER_REALIZED_GAIN"))
    && e.amount.Some? && e.amount.value > 0
    && (e.sourceType == Some("BANK_STATEMENT") || e.sourceType == Some("BANK_CORRECTION"))
    && IsFilled(e.sourceId) && IsFilled(e.idempotencyKey) && IsFilled(e.evidenceReference)
    && e.evidenceHash.Some? && |e.evidenceHash.value| == 64
  }

  /** The rows have different keys, different sources, and reverse different events. */
  predicate AreApart(a: Event, b: Event) {
    && a.id != b.id && a.idempotencyKey != b.idempotencyKey
    && !(a.cycle == b.cycle && a.kind == b.kind && a.sourceType == b.sourceType && a.sourceId == b.sourceId)
    && (a.reversalOf.None? || a.reversalOf != b.reversalOf)
  }

  /** The row is an original, or the full reversal of a stored original realized no later than itself. */
  predicate IsOriginalOrReversal(t: Table, e: Event) {
    e.reversalOf.None? || exists i :: 0 <= i < |t| && IsFullReversal(t[i], e)
  }

  predicate IsFullReversal(original: Event, e: Event) {
    && e.reversalOf == Some(original.id) && original.reversalOf.None?
    && original.cycle == e.cycle && original.kind == e.kind && original.amount == e.amount
    && original.realizedAt.Some? && e.realizedAt.Some? && original.realizedAt.value <= e.realizedAt.value
  }

  lemma SoundRow(e: Event)
    ensures NotNull(e) && Checked(e) <==> IsSound(e)
  {
    if IsSound(e) {
      assert e.sourceType.value[0] == 'B';
    }
  }

  lemma ApartRows(a: Event, b: Event)
    requires IsSound(a) && IsSound(b)
    ensures !Conflict(a, b) <==> AreApart(a, b)
  {
  }

  /** The stored tables are those of sound rows that are pairwise apart. */
  lemma StoredIsSound(t: Table)
    ensures Stored(t) <==>
            && (forall i :: 0 <= i < |t| ==> IsSound(t[i]))
            && forall i, j :: 0 <= i < j < |t| ==> AreApart(t[i], t[j])
  {
    hide NotNull, Checked, IsSound, Conflict, AreApart;
    forall i | 0 <= i < |t|
      ensures NotNull(t[i]) && Checked(t[i]) <==> IsSound(t[i])
    {
      SoundRow(t[i]);
    }
    forall i, j | 0 <= i < j < |t| && IsSound(t[i]) && IsSound(t[j])
      ensures !Conflict(t[i], t[j]) <==> AreApart(t[i], t[j])
    {
      ApartRows(t[i], t[j]);
    }
  }

  lemma CompensatesFullyOnly(original: Event, row: Event)
    requires IsSound(original) && IsSound(row)
    ensures Compensates(original, row) <==> IsFullReversal(original, row)
  {
  }

  /**
   What both dialects admit on a stored table: inserting a sound row that is apart
   from every stored one and is an original or a full reversal, and nothing else.
   */
  lemma AdmittedIff(dialect: Dialect, t: Table, step: Step)
    requires Stored(t)
    ensures Admits(dialect, t, step) <==>
            && step.Insert? && IsSound(step.row) && IsOriginalOrReversal(t, step.row)
            && forall i :: 0 <= i < |t| ==> AreApart(t[i], step.row)
  {
    hide NotNull, Checked, IsSound, Conflict, AreApart, Compensates, IsFullReversal, Unique, PostgresInsertRaises;
    if step.Insert? {
      var row := step.row;
      SameSteps(true, t, step);
      SameSteps(false, t, step);
      SoundRow(row);
      StoredIsSound(t);
      if IsSound(row) {
        forall i | 0 <= i < |t|
          ensures !Conflict(t[i], row) <==> AreApart(t[i], row)
          ensures Compensates(t[i], row) <==> IsFullReversal(t[i], row)
        {
          ApartRows(t[i], row);
          CompensatesFullyOnly(t[i], row);
        }
        UniqueNext(t, row);
      }
    }
  }

  lemma UniqueNext(t: Table, row: Event)
    requires Unique(t)
    ensures Unique(t + [row]) <==> forall i :: 0 <= i < |t| ==> !Conflict(t[i], row)
  {
    hide Conflict;
    var after := t + [row];
    assert after[|t|] == row && forall i :: 0 <= i < |t| ==> after[i] == t[i];
  }

  /// ## What every run keeps

  /** A reversal compensates an original that stands before it. */
  predicate HasOriginal(t: Table, k: nat)
    requires k < |t|
  {
    t[k].reversalOf.Some? ==> exists i :: 0 <= i < k && Compensates(t[i], t[k])
  }

  predicate Inv(t: Table) {
    Stored(t) && forall k :: 0 <= k < |t| ==> HasOriginal(t, k)
  }

  lemma StepKeeps(dialect: Dialect, t: Table, step: Step)
    requires Inv(t) && Admits(dialect, t, step)
    ensures Inv(Apply(t, step)) && t < Apply(t, step)
  {
    hide Checked, Compensates, NotNull, Unique, PostgresInsertRaises;
    SameSteps(true, t, step);
    SameSteps(false, t, step);
    var row, after := step.row, Apply(t, step);
    forall k | 0 <= k < |after|
      ensures HasOriginal(after, k)
    {
      if k < |t| {
        assert HasOriginal(t, k);
        OriginalStays(t, after, k);
      } else if row.reversalOf.Some? {
        var i :| 0 <= i < |t| && Compensates(t[i], row);
        assert Compensates(after[i], after[k]);
      }
    }
  }

  lemma OriginalStays(t: Table, after: Table, k: nat)
    requires t <= after && k < |t| && HasOriginal(t, k)
    ensures HasOriginal(after, k)
  {
    hide Compensates;
    if t[k].reversalOf.Some? {
      var i :| 0 <= i < k && Compensates(t[i], t[k]);
      assert Compensates(after[i], after[k]);
    }
  }

  /// ## The balance

  function AmountOf(e: Event): int {
    if e.amount.Some? then e.amount.value else 0
  }

  function Sum(t: Table, counts: Event -> bool): int {
    if t == [] then 0
    else
      var last := t[|t| - 1];
      Sum(t[..|t| - 1], counts) + if counts(last) then AmountOf(last) else 0
  }

  /** Realized in the cycle, of the kind, by the cutoff. */
  predicate Counts(e: Event, cycle: int, kind: string, cutoff: int) {
    e.cycle == Some(cycle) && e.kind == Some(kind) && e.realizedAt.Some? && e.realizedAt.value <= cutoff
  }

  function Originals(cycle: int, kind: string, cutoff: int): Event -> bool {
    (e: Event) => e.reversalOf.None? && Counts(e, cycle, kind, cutoff)
  }

  function Reversals(cycle: int, kind: string, cutoff: int): Event -> bool {
    (e: Event) => e.reversalOf.Some? && Counts(e, cycle, kind, cutoff)
  }

  /** Some row realized by the cutoff reverses the event with this id. */
  predicate ReversedBy(t: Table, id: int, cutoff: int) {
    exists i :: 0 <= i < |t| && t[i].reversalOf == Some(id) && t[i].realizedAt.Some? && t[i].realizedAt.value <= cutoff
  }

  /** Originals realized by the cutoff and not reversed by then. */
  function Outstanding(t: Table, cycle: int, kind: string, cutoff: int): Event -> bool {
    (e: Event) => e.reversalOf.None? && Counts(e, cycle, kind, cutoff) && !ReversedBy(t, e.id, cutoff)
  }

  /** What the events realized by the cutoff add up to: originals less reversals. */
  function Balance(t: Table, cycle: int, kind: string, cutoff: int): int {
    Sum(t, Originals(cycle, kind, cutoff)) - Sum(t, Reversals(cycle, kind, cutoff))
  }

  lemma {:induction false} SumSame(t: Table, p: Event -> bool, q: Event -> bool)
    requires forall i :: 0 <= i < |t| ==> p(t[i]) == q(t[i])
    ensures Sum(t, p) == Sum(t, q)
  {
    if t != [] {
      SumSame(t[..|t| - 1], p, q);
    }
  }

  lemma {:induction false} SumWithout(t: Table, p: Event -> bool, q: Event -> bool, at: nat)
    requires at < |t| && p(t[at]) && !q(t[at])
    requires forall i :: 0 <= i < |t| && i != at ==> p(t[i]) == q(t[i])
    ensures Sum(t, p) == Sum(t, q) + AmountOf(t[at])
  {
    if at == |t| - 1 {
      SumSame(t[..at], p, q);
    } else {
      SumWithout(t[..|t| - 1], p, q, at);
    }
  }

  lemma SumNext(t: Table, e: Event, p: Event -> bool)
    ensures Sum(t + [e], p) == Sum(t, p) + if p(e) then AmountOf(e) else 0
  {
    assert (t + [e])[..|t|] == t;
  }

  lemma {:induction false} SumNotNegative(t: Table, p: Event -> bool)
    requires forall i :: 0 <= i < |t| ==> NotNull(t[i]) && Checked(t[i])
    ensures Sum(t, p) >= 0
  {
    if t != [] {
      SumNotNegative(t[..|t| - 1], p);
      assert Checked(t[|t| - 1]) && NotNull(t[|t| - 1]);
    }
  }

  lemma ReversedNext(t: Table, e: Event, id: int, cutoff: int)
    ensures ReversedBy(t + [e], id, cutoff) <==>
            ReversedBy(t, id, cutoff) || (e.reversalOf == Some(id) && e.realizedAt.Some? && e.realizedAt.value <= cutoff)
  {
    var after := t + [e];
    assert after[|t|] == e;
    if ReversedBy(t, id, cutoff) {
      var i :| 0 <= i < |t| && t[i].reversalOf == Some(id) && t[i].realizedAt.Some? && t[i].realizedAt.value <= cutoff;
      assert after[i] == t[i];
    }
  }

  /** No row reverses an event that is not in the table yet. */
  lemma NewNotReversed(t: Table, id: int, cutoff: int)
    requires Inv(t) && forall i :: 0 <= i < |t| ==> t[i].id != id
    ensures !ReversedBy(t, id, cutoff)
  {
    hide Stored;
    forall k | 0 <= k < |t|
      ensures t[k].reversalOf != Some(id)
    {
      assert HasOriginal(t, k);
    }
  }

  /** Adding an original adds it to the outstanding events and changes no other. */
  lemma OutstandingOriginal(t: Table, e: Event, cycle: int, kind: string, cutoff: int)
    requires Inv(t) && Inv(t + [e]) && e.reversalOf.None?
    ensures Sum(t + [e], Outstanding(t + [e], cycle, kind, cutoff))
         == Sum(t, Outstanding(t, cycle, kind, cutoff)) + (if Counts(e, cycle, kind, cutoff) then AmountOf(e) else 0)
  {
    hide HasOriginal, Compensates, Checked, Counts, ReversedBy;
    var after := t + [e];
    var p, q := Outstanding(t, cycle, kind, cutoff), Outstanding(after, cycle, kind, cutoff);
    assert after[|t|] == e && NotNull(after[|t|]);
    IdsApart(t, e);
    NewNotReversed(t, e.id, cutoff);
    ReversedNext(t, e, e.id, cutoff);
    forall i | 0 <= i < |t|
      ensures p(t[i]) == q(t[i])
    {
      ReversedNext(t, e, t[i].id, cutoff);
    }
    SumSame(t, p, q);
    SumNext(t, e, q);
  }

  lemma IdsApart(t: Table, e: Event)
    requires Unique(t + [e])
    ensures forall i :: 0 <= i < |t| ==> t[i].id != e.id && !Clash(t[i].reversalOf, e.reversalOf)
    ensures forall i, j :: 0 <= i < j < |t| ==> t[i].id != t[j].id
  {
    var after := t + [e];
    forall i | 0 <= i < |t|
      ensures t[i].id != e.id && !Clash(t[i].reversalOf, e.reversalOf)
    {
      assert !Conflict(after[i], after[|t|]);
    }
    forall i, j | 0 <= i < j < |t|
      ensures t[i].id != t[j].id
    {
      assert !Conflict(after[i], after[j]);
    }
  }

  lemma CompensatesFully(original: Event, row: Event, cycle: int, kind: string, cutoff: int)
    requires Compensates(original, row)
    ensures row.reversalOf == Some(original.id) && original.reversalOf.None?
    ensures original.amount.Some? && original.amount == row.amount && row.realizedAt.Some?
    ensures Counts(row, cycle, kind, cutoff) ==> Counts(original, cycle, kind, cutoff)
    ensures !Counts(row, cycle, kind, cutoff) && row.realizedAt.value <= cutoff ==> !Counts(original, cycle, kind, cutoff)
  {
  }

  /** Adding a reversal takes its original, which was outstanding until then, away. */
  lemma OutstandingReversal(t: Table, e: Event, cycle: int, kind: string, cutoff: int)
    requires Inv(t) && Inv(t + [e]) && e.reversalOf.Some?
    ensures Sum(t + [e], Outstanding(t + [e], cycle, kind, cutoff))
         == Sum(t, Outstanding(t, cycle, kind, cutoff)) - (if Counts(e, cycle, kind, cutoff) then AmountOf(e) else 0)
  {
    hide Compensates, Checked, Counts, NotNull;
    var after := t + [e];
    var p, q := Outstanding(t, cycle, kind, cutoff), Outstanding(after, cycle, kind, cutoff);
    assert after[|t|] == e && HasOriginal(after, |t|);
    var o: nat :| o < |t| && Compensates(after[o], e);
    CompensatesFully(t[o], e, cycle, kind, cutoff);
    assert Unique(after);
    IdsApart(t, e);
    forall i | 0 <= i < |t|
      ensures i != o ==> p(t[i]) == q(t[i])
      ensures i == o ==> q(t[o]) == (p(t[o]) && e.realizedAt.value > cutoff) && !ReversedBy(t, t[o].id, cutoff)
    {
      ReversedNext(t, e, t[i].id, cutoff);
      assert t[i].id == t[o].id ==> i == o;
    }
    if Counts(e, cycle, kind, cutoff) {
      CountedByCutoff(e, cycle, kind, cutoff);
      SumWithout(t, p, q, o);
    } else {
      SumSame(t, p, q);
    }
    SumNext(t, e, q);
  }

  lemma CountedByCutoff(e: Event, cycle: int, kind: string, cutoff: int)
    requires Counts(e, cycle, kind, cutoff)
    ensures e.realizedAt.Some? && e.realizedAt.value <= cutoff
  {
  }

  lemma InvPrefix(t: Table)
    requires Inv(t) && t != []
    ensures Inv(t[..|t| - 1])
  {
    hide Compensates, NotNull, Checked, Conflict;
    var before := t[..|t| - 1];
    forall k | 0 <= k < |before|
      ensures HasOriginal(before, k)
    {
      assert HasOriginal(t, k);
      if t[k].reversalOf.Some? {
        var i :| 0 <= i < k && Compensates(t[i], t[k]);
        assert Compensates(before[i], before[k]);
      }
    }
  }

  /**
   Originals realized by the cutoff, less reversals realized by the cutoff, are
   the originals not reversed by then; the balance is never negative.
   */
  lemma {:induction false} BalanceIsOutstanding(t: Table, cycle: int, kind: string, cutoff: int)
    requires Inv(t)
    ensures Balance(t, cycle, kind, cutoff) == Sum(t, Outstanding(t, cycle, kind, cutoff))
    ensures Balance(t, cycle, kind, cutoff) >= 0
  {
    hide Inv, Counts, Stored, Outstanding;
    if t != [] {
      var before, e := t[..|t| - 1], t[|t| - 1];
      assert t == before + [e];
      InvPrefix(t);
      BalanceIsOutstanding(before, cycle, kind, cutoff);
      SumNext(before, e, Originals(cycle, kind, cutoff));
      SumNext(before, e, Reversals(cycle, kind, cutoff));
      AmountsKnown(t);
      if e.reversalOf.None? {
        OutstandingOriginal(before, e, cycle, kind, cutoff);
      } else {
        OutstandingReversal(before, e, cycle, kind, cutoff);
      }
    }
    AmountsKnown(t);
    SumNotNegative(t, Outstanding(t, cycle, kind, cutoff));
  }

  lemma AmountsKnown(t: Table)
    requires Inv(t)
    ensures forall i :: 0 <= i < |t| ==> NotNull(t[i]) && Checked(t[i])
  {
  }

  predicate Next(dialect: Dialect, before: Table, after: Table, step: Step) {
    Admits(dialect, before, step) && after == Apply(before, step)
  }

  predicate IsRun(dialect: Dialect, run: seq<Table>, steps: seq<Step>) {
    && |run| == |steps| + 1 && run[0] == []
    && forall k :: 0 <= k < |steps| ==> Next(dialect, run[k], run[k + 1], steps[k])
  }

  /** In every run, at every moment, the balance is what is outstanding; events are only ever added. */
  lemma {:induction false} RunBalance(dialect: Dialect, run: seq<Table>, steps: seq<Step>, k: nat,
                                      cycle: int, kind: string, cutoff: int)
    requires IsRun(dialect, run, steps) && k < |run|
    ensures Inv(run[k])
    ensures Balance(run[k], cycle, kind, cutoff) == Sum(run[k], Outstanding(run[k], cycle, kind, cutoff)) >= 0
    ensures k > 0 ==> run[k - 1] < run[k]
  {
    hide Inv, Balance, Sum, Admits, Apply, Outstanding;
    if k == 0 {
      EmptyInv();
    } else {
      RunBalance(dialect, run, steps, k - 1, cycle, kind, cutoff);
      assert Next(dialect, run[k - 1], run[k], steps[k - 1]);
      StepKeeps(dialect, run[k - 1], steps[k - 1]);
    }
    BalanceIsOutstanding(run[k], cycle, kind, cutoff);
  }

  lemma EmptyInv()
    ensures Inv([])
  {
  }

  /** Any original not reversed yet can be reversed, once, by a row that meets the column constraints. */
  lemma CanReverse(dialect: Dialect, t: Table, o: nat, row: Event)
    requires Inv(t) && o < |t| && t[o].reversalOf.None? && row.reversalOf == Some(t[o].id)
    requires NotNull(row) && Checked(row)
    requires row.cycle == t[o].cycle && row.kind == t[o].kind && row.amount == t[o].amount
    requires t[o].realizedAt.Some? && t[o].realizedAt.value <= row.realizedAt.value
    requires forall i :: 0 <= i < |t| ==> !Conflict(t[i], row)
    ensures Admits(dialect, t, Insert(row))
    ensures Balance(Apply(t, Insert(row)), row.cycle.value, row.kind.value, row.realizedAt.value)
         == Balance(t, row.cycle.value, row.kind.value, row.realizedAt.value) - row.amount.value
  {
    hide Checked, Conflict, PostgresInsertRaises, Sum;
    assert NotNull(t[o]);
    assert Compensates(t[o], row);
    assert Admits(Sqlite(true), t, Insert(row)) && Admits(Sqlite(false), t, Insert(row));
    SameSteps(true, t, Insert(row));
    SumNext(t, row, Originals(row.cycle.value, row.kind.value, row.realizedAt.value));
    SumNext(t, row, Reversals(row.cycle.value, row.kind.value, row.realizedAt.value));
  }

  /** The table behind its guards. */
  class GainEventTable {
    const dialect: Dialect
    var rows: Table

    constructor (d: Dialect)
      ensures rows == [] && dialect == d && Inv(rows)
    {
      dialect := d;
      rows := [];
    }

    /** An admitted statement takes effect; any other leaves the table as it was. */
    method Execute(step: Step) returns (ok: bool)
      requires Inv(rows)
      modifies this
      ensures ok == Admits(dialect, old(rows), step)
      ensures rows == if ok then Apply(old(rows), step) else old(rows)
      ensures Inv(rows) && old(rows) <= rows
    {
      hide Inv, InsertRejected, Unique;
      ok := Admits(dialect, rows, step);
      if ok {
        StepKeeps(dialect, rows, step);
        rows := Apply(rows, step);
      }
    }
  }
}
