/**
 Rows and how INSERT ... SELECT with unquoted names copies them: three names are
 not read from the row but from the clock.
 */
module TableRows {
  import opened Common

  datatype Value = Null | Text(text: string)

  /** Values by lower-cased column name. */
  type Row = map<string, Value>

  /** What CURRENT_DATE, CURRENT_TIME and CURRENT_TIMESTAMP give while a statement runs. */
  datatype Clock = Clock(date: string, time: string, timestamp: string)

  const CURRENT_DATE := "current_date"
  const CURRENT_TIME := "current_time"
  const CURRENT_TIMESTAMP := "current_timestamp"

  predicate IsClockName(c: string) {
    c == CURRENT_DATE || c == CURRENT_TIME || c == CURRENT_TIMESTAMP
  }

  function Told(now: Clock, c: string): Value {
    Text(if c == CURRENT_DATE then now.date else if c == CURRENT_TIME then now.time else now.timestamp)
  }

  /** The row as a SELECT of its unquoted column names reads it. */
  function ReadRow(row: Row, now: Clock): Row {
    map c | c in row :: if IsClockName(c) then Told(now, c) else row[c]
  }

  function ReadRows(rows: seq<Row>, now: Clock): (r: seq<Row>)
    ensures |r| == |rows|
  {
    seq(|rows|, i requires 0 <= i < |rows| => ReadRow(rows[i], now))
  }

  /** A row of the replacement: the copied columns as they are read, the others NULL. */
  function CopyRow(row: Row, copied: set<string>, columns: set<string>, now: Clock): Row {
    map c | c in columns :: if c in copied && c in row then ReadRow(row, now)[c] else Null
  }

  function CopyRows(rows: seq<Row>, copied: set<string>, columns: set<string>, now: Clock): (r: seq<Row>)
    ensures |r| == |rows|
  {
    seq(|rows|, i requires 0 <= i < |rows| => CopyRow(rows[i], copied, columns, now))
  }

  lemma CopyRowsNext(rows: seq<Row>, row: Row, copied: set<string>, columns: set<string>, now: Clock)
    ensures CopyRows(rows + [row], copied, columns, now)
         == CopyRows(rows, copied, columns, now) + [CopyRow(row, copied, columns, now)]
  {
    hide CopyRow;
    forall i | 0 <= i <= |rows|
      ensures CopyRows(rows + [row], copied, columns, now)[i]
           == (CopyRows(rows, copied, columns, now) + [CopyRow(row, copied, columns, now)])[i]
    {
      assert (rows + [row])[i] == if i < |rows| then rows[i] else row;
    }
  }

  /// ## Keys

  /** Two rows a UNIQUE on `columns` does not allow together; NULL is equal to nothing. */
  predicate SameKey(a: Row, b: Row, columns: seq<string>) {
    && columns != []
    && forall i :: 0 <= i < |columns| ==>
         var c := columns[i]; c in a && c in b && a[c] != Null && a[c] == b[c]
  }

  predicate DistinctOn(rows: seq<Row>, columns: seq<string>) {
    forall i, j :: 0 <= i < j < |rows| ==> !SameKey(rows[i], rows[j], columns)
  }

  predicate NoClockName(columns: seq<string>) {
    forall c :: c in columns ==> !IsClockName(c)
  }

  lemma SameKeyAsStored(a: Row, b: Row, columns: seq<string>, now: Clock)
    requires NoClockName(columns)
    ensures SameKey(ReadRow(a, now), ReadRow(b, now), columns) <==> SameKey(a, b, columns)
  {
    hide IsClockName, Told;
    var x, y := ReadRow(a, now), ReadRow(b, now);
    forall i | 0 <= i < |columns|
      ensures columns[i] in x <==> columns[i] in a
      ensures columns[i] in y <==> columns[i] in b
      ensures columns[i] in a ==> x[columns[i]] == a[columns[i]]
      ensures columns[i] in b ==> y[columns[i]] == b[columns[i]]
    {
      assert columns[i] in columns;
    }
  }

  /** A key without the three names tells the rows apart as they are stored. */
  lemma KeyAsStored(rows: seq<Row>, columns: seq<string>, now: Clock)
    requires NoClockName(columns)
    ensures DistinctOn(ReadRows(rows, now), columns) <==> DistinctOn(rows, columns)
  {
    hide ReadRow, SameKey, NoClockName;
    forall i, j | 0 <= i < j < |rows|
      ensures SameKey(ReadRows(rows, now)[i], ReadRows(rows, now)[j], columns) <==> SameKey(rows[i], rows[j], columns)
    {
      SameKeyAsStored(rows[i], rows[j], columns, now);
    }
  }

  /// ## What a copy keeps

  /** Every row says under the three names what the clock says. */
  predicate Agrees(rows: seq<Row>, now: Clock) {
    forall i, c :: 0 <= i < |rows| && c in rows[i] && IsClockName(c) ==> rows[i][c] == Told(now, c)
  }

  /** Rows are read as they are exactly when they agree with the clock. */
  lemma ReadsAsStored(rows: seq<Row>, now: Clock)
    ensures ReadRows(rows, now) == rows <==> Agrees(rows, now)
  {
    hide IsClockName, Told;
    if ReadRows(rows, now) == rows {
      forall i, c | 0 <= i < |rows| && c in rows[i] && IsClockName(c)
        ensures rows[i][c] == Told(now, c)
      {
        assert ReadRows(rows, now)[i] == ReadRow(rows[i], now);
      }
    }
    if Agrees(rows, now) {
      forall i | 0 <= i < |rows|
        ensures ReadRow(rows[i], now) == rows[i]
      {
      }
    }
  }

  /** No clock can change the rows exactly when none of them has one of the three names. */
  lemma AgreesAtAnyTime(rows: seq<Row>)
    ensures (forall now :: Agrees(rows, now)) <==> forall i :: 0 <= i < |rows| ==> NoClockColumn(rows[i].Keys)
  {
    hide IsClockName;
    if forall now :: Agrees(rows, now) {
      var a, b := Clock("", "", ""), Clock("0", "0", "0");
      assert Agrees(rows, a) && Agrees(rows, b);
      forall i, c | 0 <= i < |rows| && c in rows[i]
        ensures !IsClockName(c)
      {
        assert Told(a, c) != Told(b, c);
      }
    }
  }

  predicate NoClockColumn(columns: set<string>) {
    forall c :: c in columns ==> !IsClockName(c)
  }

  /** Copying a row into a table with one more column, and back later, leaves it as the second copy reads it. */
  lemma CopyForthAndBack(row: Row, columns: set<string>, name: string, now: Clock, later: Clock)
    requires row.Keys == columns && name !in columns
    ensures var up := CopyRow(row, columns, columns + {name}, now);
            && up == ReadRow(row, now)[name := Null]
            && CopyRow(up, columns, columns, later) == ReadRow(row, later)
  {
    hide IsClockName, Told;
  }

  /** Copying a row into a table without one of its columns leaves the others as they are read. */
  lemma CopyWithout(row: Row, columns: set<string>, name: string, now: Clock)
    requires row.Keys == columns && name in columns
    ensures var left := columns - {name};
            && CopyRow(row, left, left, now) == ReadRow(row, now) - {name}
            && CopyRow(row, left, left, now).Keys == left
  {
    hide IsClockName, Told;
  }

  /** A key without the dropped column tells the same rows apart after the copy. */
  lemma SameKeyKept(a: Row, b: Row, columns: set<string>, name: string, key: seq<string>, now: Clock)
    requires a.Keys == columns && b.Keys == columns && name in columns && name !in key
    ensures var left := columns - {name};
            SameKey(CopyRow(a, left, left, now), CopyRow(b, left, left, now), key)
            <==> SameKey(ReadRow(a, now), ReadRow(b, now), key)
  {
    hide CopyRow, ReadRow;
    CopyWithout(a, columns, name, now);
    CopyWithout(b, columns, name, now);
    var left := columns - {name};
    var x, y := CopyRow(a, left, left, now), CopyRow(b, left, left, now);
    var p, q := ReadRow(a, now), ReadRow(b, now);
    assert forall i :: 0 <= i < |key| ==> key[i] in key && (key[i] in x <==> key[i] in p) && (key[i] in y <==> key[i] in q);
  }

  lemma DistinctKept(rows: seq<Row>, columns: set<string>, name: string, key: seq<string>, now: Clock)
    requires forall i :: 0 <= i < |rows| ==> rows[i].Keys == columns
    requires name in columns && name !in key
    ensures DistinctOn(CopyRows(rows, columns - {name}, columns - {name}, now), key) <==> DistinctOn(ReadRows(rows, now), key)
  {
    hide CopyRow, SameKey, ReadRow;
    var left := columns - {name};
    var copies, read := CopyRows(rows, left, left, now), ReadRows(rows, now);
    forall i, j | 0 <= i < j < |rows|
      ensures SameKey(copies[i], copies[j], key) <==> SameKey(read[i], read[j], key)
    {
      SameKeyKept(rows[i], rows[j], columns, name, key, now);
    }
  }
}
