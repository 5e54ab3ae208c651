/** The hash chain a migration builds over the ledger, and what its last hash pins down. */
module LedgerChain {
  import opened Common

  datatype Entry = Entry(
    id: int, account: string, direction: string, amount: real, referenceType: Option<string>, referenceId: Option<int>,
    reversalOf: Option<int>, createdAt: string, previousHash: Option<string>, entryHash: Option<string>)

  /// ## What is hashed

  /** The sign and the cents a quantized amount is printed with. */
  datatype Amount = Amount(negative: bool, cents: nat)

  /** The nearest integer, ties to the even one. */
  function RoundHalfEven(x: real): int {
    var whole := x.Floor;
    var part := x - whole as real;
    if part < 0.5 || (part == 0.5 && whole % 2 == 0) then whole else whole + 1
  }

  /** `Decimal(amount).quantize(Decimal("0.01"))`; a negative amount keeps its sign even when it rounds to zero. */
  function Quantize(amount: real): Amount {
    if amount < 0.0 then Amount(true, RoundHalfEven(-amount * 100.0)) else Amount(false, RoundHalfEven(amount * 100.0))
  }

  /** The entry's fields in the hashed payload; its id is not among them. */
  datatype Fields = Fields(account: string, direction: string, amount: Amount, referenceType: Option<string>,
                           referenceId: Option<int>, reversalOf: Option<int>, createdAt: string)

  datatype Payload = Payload(fields: Fields, previous: Option<string>)

  /** The hash of the payload's canonical text. */
  type Hash = Payload -> string

  ghost predicate CollisionFree(hash: Hash) {
    forall p, q :: hash(p) == hash(q) ==> p == q
  }

  function FieldsOf(e: Entry): Fields {
    Fields(e.account, e.direction, Quantize(e.amount), e.referenceType, e.referenceId, e.reversalOf, e.createdAt)
  }

  function CentsOf(q: Amount): int {
    if q.negative then -(q.cents as int) else q.cents
  }

  lemma RoundNearest(x: real)
    ensures var r := RoundHalfEven(x);
            && -0.5 <= r as real - x <= 0.5
            && (r as real - x == 0.5 || r as real - x == -0.5 ==> r % 2 == 0)
  {
    var whole := x.Floor;
    var part := x - whole as real;
    assert 0.0 <= part < 1.0;
    assert (whole + 1) as real == whole as real + 1.0;
  }

  /** `n` is the integer nearest to `x`, or the even one of the two nearest. */
  predicate IsNearestEven(n: int, x: real) {
    && -0.5 <= n as real - x <= 0.5
    && (n as real - x == 0.5 || n as real - x == -0.5 ==> n % 2 == 0)
  }

  lemma NearestIsOne(m: int, n: int, x: real)
    requires IsNearestEven(m, x) && IsNearestEven(n, x)
    ensures m == n
  {
    assert -1.0 <= (m - n) as real <= 1.0;
  }

  /** The printed sign is the amount's own, also when it rounds to zero, and the printed cents are the nearest. */
  lemma QuantizeIs(amount: real, q: Amount)
    ensures Quantize(amount) == q <==>
            && (q.negative <==> amount < 0.0)
            && IsNearestEven(q.cents, if amount < 0.0 then -amount * 100.0 else amount * 100.0)
  {
    hide RoundHalfEven;
    var size := if amount < 0.0 then -amount * 100.0 else amount * 100.0;
    RoundNearest(size);
    assert Quantize(amount).cents == RoundHalfEven(size);
    if IsNearestEven(q.cents, size) {
      NearestIsOne(q.cents, RoundHalfEven(size), size);
    }
  }

  /** Rounding moves an amount by at most half a cent, and a tie goes to the even cent. */
  lemma QuantizeNearest(amount: real)
    ensures var cents := CentsOf(Quantize(amount));
            && -0.5 <= cents as real - amount * 100.0 <= 0.5
            && (cents as real - amount * 100.0 == 0.5 || cents as real - amount * 100.0 == -0.5 ==> cents % 2 == 0)
  {
    hide RoundHalfEven;
    var size := if amount < 0.0 then -amount * 100.0 else amount * 100.0;
    RoundNearest(size);
    var r := RoundHalfEven(size);
    assert CentsOf(Quantize(amount)) == if amount < 0.0 then -r else r;
    assert (-r) as real == -(r as real);
    assert (-r) % 2 == 0 <==> r % 2 == 0;
  }

  /** Amounts of whole cents are hashed exactly. */
  lemma WholeCentsExact(a: real, b: real, m: int, n: int)
    requires a * 100.0 == m as real && b * 100.0 == n as real
    requires Quantize(a) == Quantize(b)
    ensures a == b
  {
    WholeCents(a, m);
    WholeCents(b, n);
  }

  lemma WholeCents(a: real, m: int)
    requires a * 100.0 == m as real
    ensures Quantize(a) == Amount(m < 0, if m < 0 then -m else m)
  {
    if m < 0 {
      assert -a * 100.0 == (-m) as real;
      assert ((-m) as real).Floor == -m;
    } else {
      assert (m as real).Floor == m;
    }
  }

  /// ## The chain

  /** The hash of the last of these entries, chained from the first. */
  function Tail(hash: Hash, entries: seq<Entry>): Option<string> {
    if entries == [] then None
    else Some(hash(Payload(FieldsOf(entries[|entries| - 1]), Tail(hash, entries[..|entries| - 1]))))
  }

  predicate InOrder(entries: seq<Entry>) {
    forall i, j :: 0 <= i < j < |entries| ==> entries[i].id < entries[j].id
  }

  /** The ledger with every entry's two hashes filled in. */
  function Chained(hash: Hash, entries: seq<Entry>): (r: seq<Entry>)
    ensures |r| == |entries|
  {
    seq(|entries|, i requires 0 <= i < |entries| => LinkedAt(hash, entries, i))
  }

  function LinkedAt(hash: Hash, entries: seq<Entry>, i: nat): Entry
    requires i < |entries|
  {
    entries[i].(previousHash := Tail(hash, entries[..i]), entryHash := Tail(hash, entries[..i + 1]))
  }

  lemma TailNext(hash: Hash, entries: seq<Entry>, i: nat)
    requires i < |entries|
    ensures Tail(hash, entries[..i + 1]) == Some(hash(Payload(FieldsOf(entries[i]), Tail(hash, entries[..i]))))
  {
    assert entries[..i + 1][..i] == entries[..i];
  }

  /** `UPDATE ledger_entries SET previous_hash, entry_hash WHERE id = ...` */
  function SetHashes(entries: seq<Entry>, id: int, previous: Option<string>, h: string): (r: seq<Entry>)
    ensures |r| == |entries|
  {
    seq(|entries|, i requires 0 <= i < |entries| =>
      if entries[i].id == id then entries[i].(previousHash := previous, entryHash := Some(h)) else entries[i])
  }

  /** The ledger table, its rows in key order. */
  class Ledger {
    var entries: seq<Entry>

    constructor (rows: seq<Entry>)
      ensures entries == rows
    {
      entries := rows;
    }

    /** Walks the entries in id order, threading the previous hash, and updates each row by its id. */
    method Upgrade(hash: Hash)
      requires InOrder(entries)
      modifies this
      ensures entries == Chained(hash, old(entries))
    {
      var rows := entries;
      var previous: Option<string> := None;
      for i := 0 to |rows|
        invariant |entries| == |rows|
        invariant previous == Tail(hash, rows[..i])
        invariant forall k :: 0 <= k < i ==> entries[k] == LinkedAt(hash, rows, k)
        invariant forall k :: i <= k < |rows| ==> entries[k] == rows[k]
      {
        var h := hash(Payload(FieldsOf(rows[i]), previous));
        TailNext(hash, rows, i);
        entries := SetHashes(entries, rows[i].id, previous, h);
        previous := Some(h);
      }
    }
  }

  /// ## What the last hash pins down

  /** The two entries differ at most in their ids, their stored hashes and fractions of a cent. */
  predicate SameEntry(x: Entry, y: Entry) {
    && x.account == y.account && x.direction == y.direction && x.referenceType == y.referenceType
    && x.referenceId == y.referenceId && x.reversalOf == y.reversalOf && x.createdAt == y.createdAt
    && Quantize(x.amount).negative == Quantize(y.amount).negative && Quantize(x.amount).cents == Quantize(y.amount).cents
  }

  lemma FieldsAreEntry(x: Entry, y: Entry)
    ensures FieldsOf(x) == FieldsOf(y) <==> SameEntry(x, y)
  {
    hide Quantize;
  }

  /** Row by row the same but for ids, stored hashes and fractions of a cent. */
  predicate SameRows(a: seq<Entry>, b: seq<Entry>) {
    && |a| == |b|
    && forall i :: 0 <= i < |a| ==> SameEntry(a[i], b[i])
  }

  /**
   With a collision-free hash two chains end in the same hash exactly when they
   have the same length and agree row by row in account, direction, reference,
   reversal, creation time and the sign and cents of the amount: any change,
   removal, insertion or reordering shows in the last hash.
   */
  lemma {:induction false} TailPinsChain(hash: Hash, a: seq<Entry>, b: seq<Entry>)
    requires CollisionFree(hash)
    ensures Tail(hash, a) == Tail(hash, b) <==> SameRows(a, b)
  {
    hide FieldsOf, SameEntry;
    if a != [] && b != [] {
      var x, y := a[..|a| - 1], b[..|b| - 1];
      TailPinsChain(hash, x, y);
      FieldsAreEntry(a[|a| - 1], b[|b| - 1]);
      if Tail(hash, a) == Tail(hash, b) {
        assert Payload(FieldsOf(a[|a| - 1]), Tail(hash, x)) == Payload(FieldsOf(b[|b| - 1]), Tail(hash, y));
        assert forall i :: 0 <= i < |x| ==> a[i] == x[i] && b[i] == y[i];
      }
      if SameRows(a, b) {
        assert forall i :: 0 <= i < |x| ==> a[i] == x[i] && b[i] == y[i];
      }
    }
  }

  /** The entry hashes of a chain are all different, so the unique constraint on them always holds. */
  lemma HashesDistinct(hash: Hash, entries: seq<Entry>, i: nat, j: nat)
    requires CollisionFree(hash) && i < j < |entries|
    ensures Chained(hash, entries)[i].entryHash != Chained(hash, entries)[j].entryHash
  {
    TailPinsChain(hash, entries[..i + 1], entries[..j + 1]);
  }

  /** Two ledgers after the migration: equal last hashes, equal hashed rows, and equal hashes all along. */
  lemma ChainedLedgersAgree(hash: Hash, a: seq<Entry>, b: seq<Entry>)
    requires CollisionFree(hash) && a != [] && b != []
    ensures var x, y := Chained(hash, a), Chained(hash, b);
            x[|a| - 1].entryHash == y[|b| - 1].entryHash <==>
            && SameRows(x, y)
            && forall i :: 0 <= i < |a| ==> x[i].entryHash == y[i].entryHash && x[i].previousHash == y[i].previousHash
  {
    hide Tail, FieldsOf, Quantize;
    assert a[..|a|] == a && b[..|b|] == b;
    TailPinsChain(hash, a, b);
    ChainKeepsFields(hash, a);
    ChainKeepsFields(hash, b);
    if SameRows(a, b) {
      forall i | 0 <= i <= |a|
        ensures Tail(hash, a[..i]) == Tail(hash, b[..i])
      {
        TailPinsChain(hash, a[..i], b[..i]);
      }
    }
  }

  lemma ChainKeepsFields(hash: Hash, entries: seq<Entry>)
    ensures SameRows(entries, Chained(hash, entries))
  {
  }

  /** The link of each row to the one before: what a later check of the chain recomputes. */
  lemma ChainRecomputes(hash: Hash, entries: seq<Entry>, i: nat)
    requires i < |entries|
    ensures var r := Chained(hash, entries);
            && r[i].previousHash == (if i == 0 then None else r[i - 1].entryHash)
            && r[i].entryHash == Some(hash(Payload(
                 Fields(r[i].account, r[i].direction, Quantize(r[i].amount), r[i].referenceType, r[i].referenceId,
                        r[i].reversalOf, r[i].createdAt),
                 r[i].previousHash)))
            && r[i] == entries[i].(previousHash := r[i].previousHash, entryHash := r[i].entryHash)
  {
    TailNext(hash, entries, i);
    assert entries[..0] == [];
  }

  /** Renumbering the rows is the change the chain does not see. */
  lemma IdsNotHashed(hash: Hash, a: seq<Entry>, b: seq<Entry>)
    requires |a| == |b| && forall i :: 0 <= i < |a| ==> b[i] == a[i].(id := b[i].id)
    ensures Tail(hash, a) == Tail(hash, b)
  {
    TailOfFields(hash, a, b);
  }

  lemma {:induction false} TailOfFields(hash: Hash, a: seq<Entry>, b: seq<Entry>)
    requires SameRows(a, b)
    ensures Tail(hash, a) == Tail(hash, b)
  {
    if a != [] {
      FieldsAreEntry(a[|a| - 1], b[|b| - 1]);
      TailOfFields(hash, a[..|a| - 1], b[..|b| - 1]);
    }
  }
}
