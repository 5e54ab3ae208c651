/**
 Revision 0096 on the stored tables: each rebuild creates a replacement table,
 copies every row, drops the table and takes its name, and the downgrade refuses
 before it could drop a value the upgrade cannot restore.
 */
module CycleTables {
  import opened Common
  import opened Strings
  import opened SqlGrammar
  import opened SqlStatement
  import opened CycleMigration
  import opened SqlTokens
  import opened SqlText
  import opened TableRows

  /** The statement SQLite keeps for a table, and its rows by lower-cased column name. */
  datatype Table = Table(sql: string, rows: seq<Row>)

  type Tables = map<string, Table>

  /** What a statement sequence leaves behind, and the error that ended it. */
  datatype Outcome = Outcome(db: Tables, error: Option<SqlError>)

  const COLUMN := "cycle_id"
  const REFERENCE := " INTEGER REFERENCES cycles"
  const NEW_COLUMN := COLUMN + REFERENCE + "(id)"
  const QUOTAS := "quotas"
  const QUOTAS_UNIQUE := "member_id"
  const CONTRIBUTIONS := "contributions"
  const CONTRIBUTIONS_UNIQUE := "member_id, competence"

  function DefinitionsOf(t: Table): seq<string> {
    match Split(t.sql)
    case Success(st) => st.definitions
    case Failure(_) => []
  }

  /** What SQLite guarantees of a table: its statement was taken, and its rows have its columns. */
  ghost predicate Stored(t: Table) {
    Split(t.sql).Success? ==>
      && Creatable(DefinitionsOf(t))
      && forall i :: 0 <= i < |t.rows| ==> t.rows[i].Keys == ColumnSet(DefinitionsOf(t))
  }

  /// ## One rebuild

  /** SQLite compares table names without regard to case. */
  predicate Taken(db: Tables, name: string) {
    exists n :: n in db && ToLower(n) == ToLower(name)
  }

  const UP_SUFFIX := "__a377a"
  const DOWN_SUFFIX := "__a377a_down"

  /**
   CREATE, INSERT ... SELECT of the `copied` columns, which the statement names
   without quotes and reads at the time `now`, DROP and RENAME. `unique` are the
   columns of a UNIQUE that the old table did not have.
   */
  function Replaced(db: Tables, name: string, replacement: string, definitions: seq<string>, copied: set<string>,
                    unique: seq<string>, now: Clock): Outcome
    requires name in db
  {
    match BuildTableSql(db[name].sql, name, replacement, definitions)
    case Failure(e) => Outcome(db, Some(e))
    case Success(built) =>
      if HasParameter(built) then Outcome(db, Some(UnboundParameter))
      else if Taken(db, replacement) then Outcome(db, Some(ReplacementExists))
      else if !Creatable(definitions) then Outcome(db, Some(InvalidTable))
      else
        var created := db[replacement := Table(built, [])];
        var rows := CopyRows(db[name].rows, copied, ColumnSet(definitions), now);
        if !AllBare(copied) then Outcome(created, Some(NamesUnquoted))
        else if !DistinctOn(rows, unique) then Outcome(created, Some(UniqueViolated))
        else
          match Renamed(built, replacement, name)
          case Failure(e) => Outcome(created[replacement := Table(built, rows)] - {name}, Some(e))
          case Success(sql) => Outcome(db[name := Table(sql, rows)], None)
  }

  function Rebuilt(db: Tables, name: string, newColumn: string, oldUnique: string, now: Clock): Outcome {
    if name !in db then Outcome(db, Some(TableMissing))
    else
      match Split(db[name].sql)
      case Failure(e) => Outcome(db, Some(e))
      case Success(st) =>
        match RebuiltDefinitions(st.definitions, newColumn, oldUnique)
        case Failure(e) => Outcome(db, Some(e))
        case Success(definitions) =>
          Replaced(db, name, name + UP_SUFFIX, definitions, ColumnSet(st.definitions), [], now)
  }

  /** The columns of the restored UNIQUE; none when nothing is restored. */
  function RestoredKey(unique: string): seq<string> {
    if unique == "" then [] else NormalizeColumns(unique)
  }

  function Reduced(db: Tables, name: string, column: string, restoreUnique: string, now: Clock): Outcome {
    if name !in db then Outcome(db, Some(TableMissing))
    else
      match Split(db[name].sql)
      case Failure(e) => Outcome(db, Some(e))
      case Success(st) =>
        match ReducedDefinitions(st.definitions, column, restoreUnique)
        case Failure(e) => Outcome(db, Some(e))
        case Success(definitions) =>
          Replaced(db, name, name + DOWN_SUFFIX, definitions, ColumnSet(st.definitions) - {ToLower(column)},
                   RestoredKey(restoreUnique), now)
  }

  /// ## The migration

  function CycleRows(t: Table): seq<Row> {
    Filter((row: Row) => COLUMN in row && row[COLUMN] != Null, t.rows)
  }

  /** A query on the cycle column fails. */
  predicate LacksCycle(t: Table) {
    Split(t.sql).Success? && COLUMN !in ColumnSet(DefinitionsOf(t))
  }

  /** The upgrade rebuilds one table at the time `now` and the other at the time `next`. */
  function Upgraded(db: Tables, now: Clock, next: Clock): Outcome {
    var first := Rebuilt(db, QUOTAS, NEW_COLUMN, QUOTAS_UNIQUE, now);
    if first.error.Some? then first else Rebuilt(first.db, CONTRIBUTIONS, NEW_COLUMN, CONTRIBUTIONS_UNIQUE, next)
  }

  function Downgraded(db: Tables, now: Clock, next: Clock): Outcome {
    if QUOTAS !in db || CONTRIBUTIONS !in db then Outcome(db, Some(TableMissing))
    else if LacksCycle(db[QUOTAS]) || LacksCycle(db[CONTRIBUTIONS]) then Outcome(db, Some(NoSuchColumn))
    else if |CycleRows(db[QUOTAS])| + |CycleRows(db[CONTRIBUTIONS])| > 0 then Outcome(db, Some(CycleRowsExist))
    else
      var first := Reduced(db, QUOTAS, COLUMN, QUOTAS_UNIQUE, now);
      if first.error.Some? then first else Reduced(first.db, CONTRIBUTIONS, COLUMN, CONTRIBUTIONS_UNIQUE, next)
  }

  /** The definitions read as columns and those read as table constraints. */
  method Classify(definitions: seq<string>) returns (columns: seq<string>, constraints: seq<string>)
    ensures columns == ColumnsOf(definitions) && constraints == ConstraintsOf(definitions)
  {
    hide IsTableConstraint, Filter;
    columns, constraints := [], [];
    FilterEmpty(IsColumn);
    FilterEmpty(IsTableConstraint);
    assert definitions[..0] == [];
    for i := 0 to |definitions|
      invariant columns == ColumnsOf(definitions[..i]) && constraints == ConstraintsOf(definitions[..i])
    {
      FilterNext(IsColumn, definitions, i);
      FilterNext(IsTableConstraint, definitions, i);
      if IsTableConstraint(definitions[i]) {
        constraints := constraints + [definitions[i]];
      } else {
        columns := columns + [definitions[i]];
      }
    }
    assert definitions[..|definitions|] == definitions;
  }

  /** The constraints other than UNIQUE on `target`, and how many were dropped. */
  method WithoutUnique(constraints: seq<string>, target: seq<string>) returns (kept: seq<string>, removed: nat)
    ensures kept == Filter(Not(IsUniqueOn(target)), constraints)
    ensures removed == |Filter(IsUniqueOn(target), constraints)|
  {
    hide UniqueColumns, Filter;
    kept, removed := [], 0;
    FilterEmpty(IsUniqueOn(target));
    FilterEmpty(Not(IsUniqueOn(target)));
    assert constraints[..0] == [];
    for i := 0 to |constraints|
      invariant kept == Filter(Not(IsUniqueOn(target)), constraints[..i])
      invariant removed == |Filter(IsUniqueOn(target), constraints[..i])|
    {
      FilterNext(Not(IsUniqueOn(target)), constraints, i);
      FilterNext(IsUniqueOn(target), constraints, i);
      if UniqueColumns(constraints[i]) == Some(target) {
        removed := removed + 1;
      } else {
        kept := kept + [constraints[i]];
      }
    }
    assert constraints[..|constraints|] == constraints;
  }

  /** The tables of the database; each statement takes effect as it runs. */
  class SqliteDatabase {
    var tables: Tables

    constructor (tables: Tables)
      ensures this.tables == tables
    {
      this.tables := tables;
    }

    /** Creates the replacement, copies the rows, drops the table and takes its name. */
    method Replace(name: string, replacement: string, definitions: seq<string>, copied: set<string>, unique: seq<string>,
                   now: Clock) returns (error: Option<SqlError>)
      requires name in tables
      modifies this
      ensures Outcome(tables, error) == Replaced(old(tables), name, replacement, definitions, copied, unique, now)
    {
      hide Split, MatchName, BuildTableSql, Renamed, ColumnSet, CopyRow, Creatable, IsBare, SameKey, HasParameter;
      var t := tables[name];
      var built := BuildTableSql(t.sql, name, replacement, definitions);
      if built.Failure? {
        return Some(built.error);
      }
      if HasParameter(built.value) {
        return Some(UnboundParameter);
      }
      if Taken(tables, replacement) {
        return Some(ReplacementExists);
      }
      if !Creatable(definitions) {
        return Some(InvalidTable);
      }
      tables := tables[replacement := Table(built.value, [])];
      if !AllBare(copied) {
        return Some(NamesUnquoted);
      }
      var columns := ColumnSet(definitions);
      var rows: seq<Row> := [];
      for i := 0 to |t.rows|
        invariant tables == old(tables)[replacement := Table(built.value, [])]
        invariant rows == CopyRows(t.rows[..i], copied, columns, now)
      {
        assert t.rows[..i + 1] == t.rows[..i] + [t.rows[i]];
        CopyRowsNext(t.rows[..i], t.rows[i], copied, columns, now);
        rows := rows + [CopyRow(t.rows[i], copied, columns, now)];
      }
      assert t.rows[..|t.rows|] == t.rows;
      if !DistinctOn(rows, unique) {
        return Some(UniqueViolated);
      }
      tables := tables[replacement := Table(built.value, rows)];
      tables := tables - {name};
      var stored := Renamed(built.value, replacement, name);
      if stored.Failure? {
        return Some(stored.error);
      }
      tables := (tables - {replacement})[name := Table(stored.value, rows)];
      return None;
    }

    method Rebuild(name: string, newColumn: string, oldUnique: string, now: Clock) returns (error: Option<SqlError>)
      modifies this
      ensures Outcome(tables, error) == Rebuilt(old(tables), name, newColumn, oldUnique, now)
    {
      hide Split, Replaced, IsTableConstraint, ColumnName, UniqueColumns, NormalizeColumns, CopyRows, ColumnSet,
           Filter, ToLower, Trim, UniqueDefinition, FirstConstraint;
      if name !in tables {
        return Some(TableMissing);
      }
      var st := SplitDefinitions(tables[name].sql);
      if st.Failure? {
        return Some(st.error);
      }
      var definitions := st.value.definitions;
      var columns, constraints := Classify(definitions);
      var kept, removed := WithoutUnique(constraints, NormalizeColumns(oldUnique));
      if removed != 1 {
        return Some(UniqueCount(removed));
      }
      if IsColumn(newColumn) && Trim(newColumn) == "" {
        return Some(UnparsableColumn);
      }
      if ColumnName(newColumn) in NamesOf(columns) {
        return Some(ColumnExists);
      }
      error := Replace(name, name + UP_SUFFIX, columns + [newColumn] + kept, ColumnSet(definitions), [], now);
    }

    method RemoveColumn(name: string, column: string, restoreUnique: string, now: Clock) returns (error: Option<SqlError>)
      modifies this
      ensures Outcome(tables, error) == Reduced(old(tables), name, column, restoreUnique, now)
    {
      hide Split, Replaced, IsTableConstraint, ColumnName, UniqueColumns, NormalizeColumns, CopyRows, ColumnSet,
           Filter, ToLower, Trim, UniqueDefinition, FirstConstraint;
      if name !in tables {
        return Some(TableMissing);
      }
      var st := SplitDefinitions(tables[name].sql);
      if st.Failure? {
        return Some(st.error);
      }
      var definitions := st.value.definitions;
      var named := IsNamed(ToLower(column));
      var kept: seq<string> := [];
      var removed := 0;
      FilterEmpty(named);
      FilterEmpty(Not(named));
      for i := 0 to |definitions|
        invariant tables == old(tables)
        invariant kept == Filter(Not(named), definitions[..i])
        invariant removed == |Filter(named, definitions[..i])|
      {
        FilterNext(Not(named), definitions, i);
        FilterNext(named, definitions, i);
        if IsColumn(definitions[i]) && ColumnName(definitions[i]) == Some(ToLower(column)) {
          removed := removed + 1;
        } else {
          kept := kept + [definitions[i]];
        }
      }
      assert definitions[..|definitions|] == definitions;
      if removed != 1 {
        return Some(ColumnCount(removed));
      }
      if restoreUnique != "" {
        if UniquesOf(kept, NormalizeColumns(restoreUnique)) != [] {
          return Some(UniqueExists);
        }
        kept := InsertUnique(kept, restoreUnique);
      }
      error := Replace(name, name + DOWN_SUFFIX, kept, ColumnSet(definitions) - {ToLower(column)},
                       RestoredKey(restoreUnique), now);
    }

    /** The table part of `upgrade`; a failure of the second rebuild leaves the first one done. */
    method Upgrade(now: Clock, next: Clock) returns (error: Option<SqlError>)
      modifies this
      ensures Outcome(tables, error) == Upgraded(old(tables), now, next)
    {
      hide Rebuilt;
      error := Rebuild(QUOTAS, NEW_COLUMN, QUOTAS_UNIQUE, now);
      if error.None? {
        error := Rebuild(CONTRIBUTIONS, NEW_COLUMN, CONTRIBUTIONS_UNIQUE, next);
      }
    }

    /** The table part of `downgrade`; it changes nothing when a row belongs to a cycle. */
    method Downgrade(now: Clock, next: Clock) returns (error: Option<SqlError>)
      modifies this
      ensures Outcome(tables, error) == Downgraded(old(tables), now, next)
    {
      hide Reduced, Filter, LacksCycle;
      if QUOTAS !in tables || CONTRIBUTIONS !in tables {
        return Some(TableMissing);
      }
      if LacksCycle(tables[QUOTAS]) || LacksCycle(tables[CONTRIBUTIONS]) {
        return Some(NoSuchColumn);
      }
      if |CycleRows(tables[QUOTAS])| + |CycleRows(tables[CONTRIBUTIONS])| > 0 {
        return Some(CycleRowsExist);
      }
      error := RemoveColumn(QUOTAS, COLUMN, QUOTAS_UNIQUE, now);
      if error.None? {
        error := RemoveColumn(CONTRIBUTIONS, COLUMN, CONTRIBUTIONS_UNIQUE, next);
      }
    }
  }

  /// ## Undoing the upgrade

  lemma GoodSublist(definitions: seq<string>, sub: seq<string>)
    requires GoodDefinitions(definitions)
    requires forall d :: d in sub ==> d in definitions
    ensures forall d :: d in sub ==> Trimmed(d) && IsDefinition(d)
  {
  }

  /** The parts of a rebuilt statement are definitions again. */
  lemma RebuiltGood(definitions: seq<string>, newColumn: string, unique: string)
    requires GoodDefinitions(definitions)
    requires Trimmed(newColumn) && IsDefinition(newColumn) && Balanced(unique)
    ensures RebuiltDefinitions(definitions, newColumn, unique).Success?
            ==> GoodDefinitions(RebuiltDefinitions(definitions, newColumn, unique).value)
    ensures GoodDefinitions(RestoredDefinitions(definitions, unique))
  {
    hide IsTableConstraint, ColumnName, UniqueColumns, NormalizeColumns, IsDefinition, Trimmed, UniqueDefinition;
    GoodSublist(definitions, ColumnsOf(definitions));
    GoodSublist(definitions, OthersOf(definitions, NormalizeColumns(unique)));
    UniqueDefinitionRead(unique);
    UniqueIsDefinition(unique);
  }

  /** A list of columns in balanced text makes a UNIQUE definition. */
  lemma UniqueIsDefinition(columns: string)
    requires Balanced(columns)
    ensures IsDefinition(UniqueDefinition(columns))
  {
    hide IsSpace;
    var inner :| WellFormed(inner) && Show(inner) == columns;
    var t := PlainThenGroup("UNIQUE ", inner);
  }

  /** Plain text without commas, followed by a parenthesised balanced text. */
  lemma {:induction false} PlainThenGroup(text: string, inner: Tree) returns (t: Tree)
    requires forall c :: c in text ==> IsPlain(c) && c != ','
    requires WellFormed(inner)
    ensures WellFormed(t) && CommaFree(t) && Show(t) == text + "(" + Show(inner) + ")"
  {
    if text == "" {
      t := Group(inner, End);
    } else {
      var more := PlainThenGroup(text[1..], inner);
      t := Plain(text[0], more);
      assert text == [text[0]] + text[1..];
    }
  }

  /** Plain text is balanced. */
  lemma {:induction false} PlainIsBalanced(text: string) returns (t: Tree)
    requires forall c :: c in text ==> IsPlain(c)
    ensures WellFormed(t) && Show(t) == text
  {
    if text == "" {
      t := End;
    } else {
      var more := PlainIsBalanced(text[1..]);
      t := Plain(text[0], more);
      assert text == [text[0]] + text[1..];
    }
  }

  lemma SuffixesPlain()
    ensures var c := UP_SUFFIX[|UP_SUFFIX| - 1]; !IsSpace(c) && !IsQuote(c) && c != ']'
    ensures var c := DOWN_SUFFIX[|DOWN_SUFFIX| - 1]; !IsSpace(c) && !IsQuote(c) && c != ']'
    ensures '(' !in UP_SUFFIX && '(' !in DOWN_SUFFIX && ':' !in UP_SUFFIX && ':' !in DOWN_SUFFIX
  {
  }

  ghost predicate IsPlainSuffix(suffix: string) {
    suffix != "" && '(' !in suffix && ':' !in suffix && var c := suffix[|suffix| - 1]; !IsSpace(c) && !IsQuote(c) && c != ']'
  }

  /** `after` is `db` with the table `name` replaced by `t`. */
  ghost predicate OnlyChanged(after: Tables, db: Tables, name: string) {
    name in after && after.Keys == db.Keys && after - {name} == db - {name}
  }

  /**
   The statements of a rebuild go through exactly when the table's name is found
   in its own statement, the printed text has no bind parameter, the replacement's
   name is free, CREATE TABLE takes the list, the copied names need no quotes and
   the rows as they are read obey a restored UNIQUE.
   */
  lemma ReplaceAccepts(db: Tables, name: string, suffix: string, definitions: seq<string>, copied: set<string>,
                       unique: seq<string>, now: Clock)
    requires name in db && Split(db[name].sql).Success? && GoodDefinitions(definitions)
    requires '(' !in name && ':' !in name && IsPlainSuffix(suffix)
    ensures var out := Replaced(db, name, name + suffix, definitions, copied, unique, now);
            var rows := CopyRows(db[name].rows, copied, ColumnSet(definitions), now);
            && (out.error.None? <==>
                && Holds(db[name].sql, name, DefinitionsOf(db[name]))
                && !AnyParameter(definitions) && !HasParameter(SuffixOf(db[name].sql)) && !Taken(db, name + suffix)
                && Creatable(definitions) && AllBare(copied) && DistinctOn(rows, unique))
            && (out.error.None? ==>
                  && OnlyChanged(out.db, db, name) && Holds(out.db[name].sql, name, definitions) && out.db[name].rows == rows
                  && SuffixOf(out.db[name].sql) == SuffixOf(db[name].sql))
  {
    hide GoodDefinitions, IsSpace, CopyRows, ColumnSet, MatchName, Print, Split, Creatable, IsBare, SameKey, Renamed, Taken,
         HasParameter, AnyParameter, SuffixOf;
    SplitGivesDefinitions(db[name].sql);
    var out := Replaced(db, name, name + suffix, definitions, copied, unique, now);
    assert BuildTableSql(db[name].sql, name, name + suffix, definitions).Success?
           <==> Holds(db[name].sql, name, DefinitionsOf(db[name]));
    if BuildTableSql(db[name].sql, name, name + suffix, definitions).Success? {
      assert (name + suffix)[|name + suffix| - 1] == suffix[|suffix| - 1];
      RebuiltSplits(db[name].sql, name, name + suffix, definitions);
      SuffixKept(db[name].sql, name, name + suffix, definitions);
      GoodIsSome(definitions);
      BuiltParameter(db[name].sql, name, name + suffix, definitions);
    }
  }

  lemma GoodIsSome(definitions: seq<string>)
    requires GoodDefinitions(definitions)
    ensures definitions != []
  {
  }

  /** The conditions under which one table of the migration is rebuilt. */
  ghost predicate Rebuildable(name: string, newColumn: string, column: string, unique: string) {
    && '(' !in name && ':' !in name && IsUniqueText(unique)
    && Trimmed(newColumn) && IsDefinition(newColumn) && IsColumn(newColumn) && IsColumnText(newColumn) && !HasParameter(newColumn)
    && ColumnName(newColumn) == Some(ToLower(column)) && TokenName(newColumn) == ToLower(column)
  }

  /** A list of columns that can be written as a UNIQUE. */
  ghost predicate IsUniqueText(unique: string) {
    unique != "" && Balanced(unique) && !HasParameter(UniqueDefinition(unique)) && NoClockName(NormalizeColumns(unique))
  }

  lemma GoodIsTrimmed(definitions: seq<string>)
    requires GoodDefinitions(definitions)
    ensures AllTrimmed(definitions)
  {
  }

  /** The definition is a UNIQUE that the upgrade drops. */
  predicate IsDropped(d: string, unique: string) {
    IsTableConstraint(d) && UniqueColumns(d) == Some(NormalizeColumns(unique))
  }

  /** Nothing stops a rebuild but what is listed here. */
  ghost predicate RebuildAllowed(db: Tables, name: string, newColumn: string, column: string, unique: string)
    requires name in db
  {
    var definitions := DefinitionsOf(db[name]);
    && Split(db[name].sql).Success? && Holds(db[name].sql, name, definitions)
    && |UniquesOf(definitions, NormalizeColumns(unique))| == 1
    && (forall d :: d in definitions ==> !IsNamed(ToLower(column))(d))
    && (forall d :: d in definitions && !IsDropped(d, unique) ==> !HasParameter(d)) && !HasParameter(SuffixOf(db[name].sql))
    && !Taken(db, name + UP_SUFFIX)
    && NoneMissed(definitions) && ToLower(column) !in ColumnSet(definitions) && AllBare(ColumnSet(definitions))
  }

  /** The list checks of a rebuild over the old definitions. */
  lemma RebuiltChecks(definitions: seq<string>, newColumn: string, column: string, unique: string)
    requires Trimmed(newColumn) && IsColumn(newColumn) && ColumnName(newColumn) == Some(ToLower(column))
    ensures RebuiltDefinitions(definitions, newColumn, unique).Success? <==>
            && |UniquesOf(definitions, NormalizeColumns(unique))| == 1
            && forall d :: d in definitions ==> !IsNamed(ToLower(column))(d)
  {
    hide IsTableConstraint, ColumnName, UniqueColumns, NormalizeColumns, ToLower;
    var columns := ColumnsOf(definitions);
    TrimOfTrimmed(newColumn);
    if Some(ToLower(column)) !in NamesOf(columns) {
      NotNamedAmong(columns, ToLower(column));
      assert forall d :: d in definitions && IsColumn(d) ==> d in columns;
    } else {
      var i :| 0 <= i < |columns| && NamesOf(columns)[i] == Some(ToLower(column));
      assert columns[i] in columns && IsNamed(ToLower(column))(columns[i]);
    }
  }

  /** The rebuilt list has no parameter exactly when the definitions that stay have none. */
  lemma RebuiltParameter(definitions: seq<string>, newColumn: string, unique: string)
    requires RebuiltDefinitions(definitions, newColumn, unique).Success? && !HasParameter(newColumn)
    ensures AnyParameter(RebuiltDefinitions(definitions, newColumn, unique).value) <==>
            exists d :: d in definitions && !IsDropped(d, unique) && HasParameter(d)
  {
    hide IsTableConstraint, ColumnName, UniqueColumns, NormalizeColumns, HasParameter;
    var rebuilt := RebuiltDefinitions(definitions, newColumn, unique).value;
    forall d | d in definitions && !IsDropped(d, unique)
      ensures d in rebuilt
    {
      assert d in ColumnsOf(definitions) || d in OthersOf(definitions, NormalizeColumns(unique));
    }
    assert forall d :: d in rebuilt ==> d == newColumn || (d in definitions && !IsDropped(d, unique));
  }

  /**
   A rebuild succeeds exactly when one UNIQUE on the old columns is found and no
   column of the new name, what is kept has no bind parameter, the replacement's
   name is free, the classifier missed no table constraint, no column has the new
   name for SQLite, and the old names can be written without quotes.
   */
  lemma RebuildAccepts(db: Tables, name: string, newColumn: string, column: string, unique: string, now: Clock)
    requires name in db && Stored(db[name]) && Rebuildable(name, newColumn, column, unique)
    ensures Rebuilt(db, name, newColumn, unique, now).error.None? <==> RebuildAllowed(db, name, newColumn, column, unique)
  {
    hide IsTableConstraint, IsConstraintText, ColumnName, TokenName, UniqueColumns, NormalizeColumns, IsDefinition, Trimmed,
         Balanced, GoodDefinitions, MatchName, IsSpace, Print, Renamed, IsMissed, Creatable, IsBare, CopyRow, Taken, ColumnSet,
         RebuiltDefinitions, Replaced, Holds, HasParameter, SuffixOf, IsUniqueText, ReadRow, AnyParameter,
         Stored, Filter, ToLower, IsDropped, IsNamed, NoneMissed, AllBare, Split;
    if Split(db[name].sql).Success? {
      var definitions := DefinitionsOf(db[name]);
      RebuiltChecks(definitions, newColumn, column, unique);
      if RebuiltDefinitions(definitions, newColumn, unique).Success? {
        RebuiltTable(db, name, newColumn, column, unique, now);
      }
    }
  }

  /** The statements of a rebuild whose list checks passed. */
  lemma RebuiltTable(db: Tables, name: string, newColumn: string, column: string, unique: string, now: Clock)
    requires name in db && Stored(db[name]) && Rebuildable(name, newColumn, column, unique)
    requires Split(db[name].sql).Success? && RebuiltDefinitions(DefinitionsOf(db[name]), newColumn, unique).Success?
    ensures var definitions := DefinitionsOf(db[name]);
            var out := Replaced(db, name, name + UP_SUFFIX, RebuiltDefinitions(definitions, newColumn, unique).value,
                                ColumnSet(definitions), [], now);
            out.error.None? <==>
              && Holds(db[name].sql, name, definitions)
              && (forall d :: d in definitions && !IsDropped(d, unique) ==> !HasParameter(d))
              && !HasParameter(SuffixOf(db[name].sql)) && !Taken(db, name + UP_SUFFIX)
              && NoneMissed(definitions) && ToLower(column) !in ColumnSet(definitions) && AllBare(ColumnSet(definitions))
  {
    hide IsTableConstraint, IsConstraintText, ColumnName, TokenName, UniqueColumns, NormalizeColumns, IsDefinition, Trimmed,
         Balanced, GoodDefinitions, MatchName, IsSpace, Print, Renamed, IsMissed, Creatable, IsBare, CopyRow, Taken, ColumnSet,
         RebuiltDefinitions, Replaced, Holds, HasParameter, SuffixOf, IsUniqueText, ReadRow, AnyParameter;
    var definitions := DefinitionsOf(db[name]);
    SplitGivesDefinitions(db[name].sql);
    GoodIsTrimmed(definitions);
    UniqueTextIsBalanced(unique);
    RebuiltGood(definitions, newColumn, unique);
    SuffixesPlain();
    ReplaceAccepts(db, name, UP_SUFFIX, RebuiltDefinitions(definitions, newColumn, unique).value,
                   ColumnSet(definitions), [], now);
    RebuiltCreatable(definitions, newColumn, unique);
    RebuiltParameter(definitions, newColumn, unique);
  }

  lemma UniqueTextIsBalanced(unique: string)
    requires IsUniqueText(unique)
    ensures unique != "" && Balanced(unique) && NoClockName(NormalizeColumns(unique))
    ensures !HasParameter(UniqueDefinition(unique))
  {
  }

  /**
   The upgraded table: the old rows, as they are read without quotes, with NULL in
   the new column, under the rebuilt definitions.
   */
  lemma UpgradedTable(db: Tables, name: string, newColumn: string, column: string, unique: string, now: Clock)
    requires name in db && Stored(db[name]) && Rebuildable(name, newColumn, column, unique)
    requires Rebuilt(db, name, newColumn, unique, now).error.None?
    ensures var up := Rebuilt(db, name, newColumn, unique, now).db;
            var definitions := DefinitionsOf(db[name]);
            var rebuilt := RebuiltDefinitions(definitions, newColumn, unique);
            && OnlyChanged(up, db, name) && rebuilt.Success? && Holds(up[name].sql, name, rebuilt.value)
            && Creatable(rebuilt.value) && ColumnSet(rebuilt.value) == ColumnSet(definitions) + {ToLower(column)}
            && SuffixOf(up[name].sql) == SuffixOf(db[name].sql)
            && |up[name].rows| == |db[name].rows|
            && (forall i :: 0 <= i < |up[name].rows| ==>
                  up[name].rows[i] == ReadRow(db[name].rows[i], now)[ToLower(column) := Null])
  {
    hide IsTableConstraint, IsConstraintText, ColumnName, TokenName, UniqueColumns, NormalizeColumns, IsDefinition, Trimmed,
         Balanced, GoodDefinitions, MatchName, IsSpace, Print, Renamed, IsMissed, Creatable, IsBare, CopyRow, Taken, ColumnSet,
         RebuiltDefinitions, Replaced, Holds, HasParameter, SuffixOf, IsUniqueText, ReadRow, AnyParameter,
         Filter, AllBare, DistinctOn, NoneMissed, IsDropped, IsNamed;
    var definitions := DefinitionsOf(db[name]);
    RebuildAccepts(db, name, newColumn, column, unique, now);
    SplitGivesDefinitions(db[name].sql);
    GoodIsTrimmed(definitions);
    UniqueTextIsBalanced(unique);
    RebuiltGood(definitions, newColumn, unique);
    SuffixesPlain();
    ReplaceAccepts(db, name, UP_SUFFIX, RebuiltDefinitions(definitions, newColumn, unique).value,
                   ColumnSet(definitions), [], now);
    ColumnSetRebuilt(definitions, newColumn, unique);
    forall i | 0 <= i < |db[name].rows|
      ensures CopyRow(db[name].rows[i], ColumnSet(definitions), ColumnSet(definitions) + {ToLower(column)}, now)
           == ReadRow(db[name].rows[i], now)[ToLower(column) := Null]
    {
      CopyForthAndBack(db[name].rows[i], ColumnSet(definitions), ToLower(column), now, now);
    }
  }

  /** The rows of a table obey its UNIQUE on these columns. */
  ghost predicate ObeysUnique(t: Table, unique: string) {
    DistinctOn(t.rows, NormalizeColumns(unique))
  }

  /**
   One table there and back. The downgrade of a freshly upgraded table succeeds
   exactly when its replacement's name is free and no column was misread as a
   constraint; its statement then splits into the original columns, the restored
   UNIQUE and the other constraints. The restored UNIQUE never stands in the way.
   Every row is as the last copy reads it, so the rows are the original ones
   exactly when they agree with the clock of that copy.
   */
  lemma TableThereAndBack(db: Tables, name: string, newColumn: string, column: string, unique: string, now: Clock, later: Clock)
    requires name in db && Stored(db[name]) && ObeysUnique(db[name], unique)
    requires Rebuildable(name, newColumn, column, unique) && Rebuilt(db, name, newColumn, unique, now).error.None?
    ensures var up := Rebuilt(db, name, newColumn, unique, now).db;
            var back := Reduced(up, name, column, unique, later);
            && (back.error.None? <==> !Taken(db, name + DOWN_SUFFIX) && NoneMisread(DefinitionsOf(db[name])))
            && (back.error.None? ==>
                  && OnlyChanged(back.db, db, name) && back.db[name].rows == ReadRows(db[name].rows, later)
                  && (back.db[name].rows == db[name].rows <==> Agrees(db[name].rows, later))
                  && SuffixOf(back.db[name].sql) == SuffixOf(db[name].sql)
                  && Holds(back.db[name].sql, name, RestoredDefinitions(DefinitionsOf(db[name]), unique)))
  {
    hide IsTableConstraint, IsConstraintText, ColumnName, TokenName, UniqueColumns, NormalizeColumns, IsDefinition, Trimmed,
         Balanced, GoodDefinitions, MatchName, IsSpace, Print, Renamed, IsMissed, Creatable, IsBare, CopyRow, ColumnSet,
         RebuiltDefinitions, Replaced, RestoredDefinitions, ReducedDefinitions, IsMisread, SameKey, BuildTableSql, Split,
         HasParameter, SuffixOf, IsUniqueText, ReadRow, AnyParameter, Agrees, IsNamed, Filter, AllBare, DistinctOn, CopyRows,
         ReadRows, NoClockName, UniqueDefinition, NoneMissed;
    var definitions := DefinitionsOf(db[name]);
    var low, columns := ToLower(column), ColumnSet(definitions);
    var restored := RestoredDefinitions(definitions, unique);
    var up := Rebuilt(db, name, newColumn, unique, now).db;
    RebuildAccepts(db, name, newColumn, column, unique, now);
    UpgradedTable(db, name, newColumn, column, unique, now);
    SplitGivesDefinitions(db[name].sql);
    GoodIsTrimmed(definitions);
    UniqueTextIsBalanced(unique);
    RebuiltGood(definitions, newColumn, unique);
    ReducedAfterRebuilt(definitions, newColumn, column, unique);
    RestoredCreatable(definitions, unique);
    RestoredParameter(definitions, unique);
    ColumnSetRestored(definitions, unique);
    SuffixesPlain();
    assert columns + {low} - {low} == columns;
    ReplaceAccepts(up, name, DOWN_SUFFIX, restored, columns, RestoredKey(unique), later);
    SameNamesTaken(up, db, name + DOWN_SUFFIX);
    RestoredRows(db[name].rows, up[name].rows, columns, low, now, later);
    KeyAsStored(db[name].rows, NormalizeColumns(unique), later);
    ReadsAsStored(db[name].rows, later);
  }

  lemma RestoredRows(rows: seq<Row>, up: seq<Row>, columns: set<string>, low: string, now: Clock, later: Clock)
    requires low !in columns && |up| == |rows|
    requires forall i :: 0 <= i < |rows| ==> rows[i].Keys == columns && up[i] == ReadRow(rows[i], now)[low := Null]
    ensures CopyRows(up, columns, columns, later) == ReadRows(rows, later)
  {
    hide CopyRow, ReadRow;
    forall i | 0 <= i < |rows|
      ensures CopyRow(up[i], columns, columns, later) == ReadRow(rows[i], later)
    {
      CopyForthAndBack(rows[i], columns, low, now, later);
    }
  }

  /** The restored list has no parameter when the definitions that stay have none. */
  lemma RestoredParameter(definitions: seq<string>, unique: string)
    requires !HasParameter(UniqueDefinition(unique))
    requires forall d :: d in definitions && !IsDropped(d, unique) ==> !HasParameter(d)
    ensures !AnyParameter(RestoredDefinitions(definitions, unique))
  {
    hide IsTableConstraint, UniqueColumns, NormalizeColumns, HasParameter, UniqueDefinition;
  }

  lemma SameNamesTaken(a: Tables, b: Tables, name: string)
    requires a.Keys == b.Keys
    ensures Taken(a, name) <==> Taken(b, name)
  {
  }

  /**
   After a downgrade that succeeded, upgrading once more succeeds and leaves the
   definitions and the rows of one upgrade at that time.
   */
  lemma TableUpAgain(db: Tables, name: string, newColumn: string, column: string, unique: string,
                     now: Clock, later: Clock, again: Clock)
    requires name in db && Stored(db[name]) && ObeysUnique(db[name], unique)
    requires Rebuildable(name, newColumn, column, unique) && Rebuilt(db, name, newColumn, unique, now).error.None?
    requires Reduced(Rebuilt(db, name, newColumn, unique, now).db, name, column, unique, later).error.None?
    ensures var back := Reduced(Rebuilt(db, name, newColumn, unique, now).db, name, column, unique, later).db;
            var twice, once := Rebuilt(back, name, newColumn, unique, again), Rebuilt(db, name, newColumn, unique, again);
            && twice.error.None? && once.error.None? && OnlyChanged(twice.db, db, name) && name in once.db
            && DefinitionsOf(twice.db[name]) == DefinitionsOf(once.db[name]) && twice.db[name].rows == once.db[name].rows
  {
    hide IsTableConstraint, IsConstraintText, ColumnName, TokenName, UniqueColumns, NormalizeColumns, IsDefinition, Trimmed,
         Balanced, GoodDefinitions, MatchName, IsSpace, Print, Renamed, IsMissed, Creatable, IsBare, CopyRow, ColumnSet,
         RebuiltDefinitions, Rebuilt, Reduced, Replaced, RestoredDefinitions, ReducedDefinitions, IsMisread, SameKey,
         BuildTableSql, Split, HasParameter, SuffixOf, IsUniqueText, ReadRow, AnyParameter, Agrees, IsNamed,
         Filter, AllBare, DistinctOn, NoneMissed, IsDropped, UniqueDefinition, Taken;
    var definitions := DefinitionsOf(db[name]);
    var restored := RestoredDefinitions(definitions, unique);
    var back := Reduced(Rebuilt(db, name, newColumn, unique, now).db, name, column, unique, later).db;
    RebuildAccepts(db, name, newColumn, column, unique, now);
    RebuildAccepts(db, name, newColumn, column, unique, again);
    UpgradedTable(db, name, newColumn, column, unique, again);
    TableThereAndBack(db, name, newColumn, column, unique, now, later);
    SplitGivesDefinitions(db[name].sql);
    GoodIsTrimmed(definitions);
    UniqueTextIsBalanced(unique);
    RebuiltChecks(definitions, newColumn, column, unique);
    ReducedAfterRebuilt(definitions, newColumn, column, unique);
    RebuiltChecks(restored, newColumn, column, unique);
    RestoredCreatable(definitions, unique);
    RestoredParameter(definitions, unique);
    NoParameterStays(restored, unique);
    ColumnSetRestored(definitions, unique);
    RestoredNoneMissed(definitions, unique);
    SameNamesTaken(back, db, name + UP_SUFFIX);
    StoredAsRead(db[name], back[name], restored, later);
    RebuildAccepts(back, name, newColumn, column, unique, again);
    UpgradedTable(back, name, newColumn, column, unique, again);
    forall i | 0 <= i < |db[name].rows|
      ensures ReadRow(back[name].rows[i], again) == ReadRow(db[name].rows[i], again)
    {
      ReadAgain(db[name].rows[i], later, again);
    }
  }

  lemma NoParameterStays(definitions: seq<string>, unique: string)
    requires !AnyParameter(definitions)
    ensures forall d :: d in definitions && !IsDropped(d, unique) ==> !HasParameter(d)
  {
    hide IsDropped, HasParameter;
  }

  lemma StoredAsRead(t: Table, back: Table, restored: seq<string>, later: Clock)
    requires Split(t.sql).Success? && Stored(t) && back.rows == ReadRows(t.rows, later)
    requires DefinitionsOf(back) == restored && Creatable(restored) && ColumnSet(restored) == ColumnSet(DefinitionsOf(t))
    ensures Stored(back)
  {
    hide Creatable, ColumnSet, Split, IsClockName, Told;
  }

  lemma ReadAgain(row: Row, later: Clock, again: Clock)
    ensures ReadRow(ReadRow(row, later), again) == ReadRow(row, again)
  {
    hide IsClockName, Told;
  }

  /// ## Any downgrade

  lemma ReducedGood(definitions: seq<string>, column: string, unique: string)
    requires GoodDefinitions(definitions) && Balanced(unique) && unique != ""
    requires ReducedDefinitions(definitions, column, unique).Success?
    ensures GoodDefinitions(ReducedDefinitions(definitions, column, unique).value)
  {
    hide IsTableConstraint, ColumnName, UniqueColumns, NormalizeColumns, IsDefinition, Trimmed, UniqueDefinition;
    UniqueDefinitionRead(unique);
    UniqueIsDefinition(unique);
    var kept := Filter(Not(IsNamed(ToLower(column))), definitions);
    GoodSublist(definitions, kept);
    var i := FirstConstraint(kept);
    assert forall d :: d in InsertUnique(kept, unique) ==> d in kept || d == UniqueDefinition(unique);
  }

  /** Nothing stops a downgrade of one table but what is listed here. */
  ghost predicate ReduceAllowed(db: Tables, name: string, column: string, unique: string, now: Clock)
    requires name in db
  {
    var definitions := DefinitionsOf(db[name]);
    var low := ToLower(column);
    && Split(db[name].sql).Success? && Holds(db[name].sql, name, definitions)
    && |Filter(IsNamed(low), definitions)| == 1
    && (forall d :: d in definitions ==> !IsDropped(d, unique))
    && (forall d :: d in definitions && !IsNamed(low)(d) ==> !HasParameter(d)) && !HasParameter(SuffixOf(db[name].sql))
    && !Taken(db, name + DOWN_SUFFIX)
    && NoneMisread(definitions) && ColumnSet(definitions) != {low} && AllBare(ColumnSet(definitions) - {low})
    && DistinctOn(ReadRows(db[name].rows, now), NormalizeColumns(unique))
  }

  /** The list checks of a downgrade over the old definitions. */
  lemma ReducedChecks(definitions: seq<string>, column: string, unique: string)
    requires unique != ""
    ensures ReducedDefinitions(definitions, column, unique).Success? <==>
            && |Filter(IsNamed(ToLower(column)), definitions)| == 1
            && forall d :: d in definitions ==> !IsDropped(d, unique)
  {
    hide IsTableConstraint, ColumnName, UniqueColumns, NormalizeColumns, ToLower;
    var kept, target := Filter(Not(IsNamed(ToLower(column))), definitions), NormalizeColumns(unique);
    forall d | d in definitions && IsDropped(d, unique)
      ensures UniquesOf(kept, target) != []
    {
      assert d in kept && d in ConstraintsOf(kept) && d in UniquesOf(kept, target);
    }
    if UniquesOf(kept, target) != [] {
      var d := UniquesOf(kept, target)[0];
      assert d in UniquesOf(kept, target);
      assert d in definitions && IsDropped(d, unique);
    }
  }

  /** The reduced list has no parameter exactly when the definitions that stay have none. */
  lemma ReducedParameter(definitions: seq<string>, column: string, unique: string)
    requires ReducedDefinitions(definitions, column, unique).Success? && unique != ""
    requires !HasParameter(UniqueDefinition(unique))
    ensures AnyParameter(ReducedDefinitions(definitions, column, unique).value) <==>
            exists d :: d in definitions && !IsNamed(ToLower(column))(d) && HasParameter(d)
  {
    hide IsTableConstraint, ColumnName, UniqueColumns, NormalizeColumns, HasParameter, ToLower, UniqueDefinition, IsNamed;
    var kept := Filter(Not(IsNamed(ToLower(column))), definitions);
    var i := FirstConstraint(kept);
    assert kept == kept[..i] + kept[i..];
    assert forall d :: d in InsertUnique(kept, unique) <==> d in kept || d == UniqueDefinition(unique);
  }

  /**
   A downgrade of a table succeeds exactly when one definition names the column
   and none is the UNIQUE to be restored, what is kept has no bind parameter, the
   replacement's name is free, no column was misread, another column is left and
   the names can be written without quotes, and no two rows as they are read agree
   on the restored UNIQUE. What it leaves is every row as it is read, without the
   dropped column.
   */
  lemma ReduceAccepts(db: Tables, name: string, column: string, unique: string, now: Clock)
    requires name in db && Stored(db[name]) && '(' !in name && ':' !in name
    requires unique != "" && Balanced(unique) && !HasParameter(UniqueDefinition(unique))
    requires IsPlainName(ToLower(column)) && ToLower(column) !in NormalizeColumns(unique)
    ensures var out := Reduced(db, name, column, unique, now);
            && (out.error.None? <==> ReduceAllowed(db, name, column, unique, now))
            && (out.error.None? ==>
                  && OnlyChanged(out.db, db, name) && ToLower(column) in ColumnSet(DefinitionsOf(db[name]))
                  && var left := ColumnSet(DefinitionsOf(db[name])) - {ToLower(column)};
                     out.db[name].rows == CopyRows(db[name].rows, left, left, now))
  {
    hide IsTableConstraint, IsConstraintText, ColumnName, TokenName, UniqueColumns, NormalizeColumns, IsDefinition, Trimmed,
         Balanced, GoodDefinitions, MatchName, IsSpace, Print, Renamed, IsBare, CopyRow, Taken, ColumnSet, ReadRow,
         ReducedDefinitions, Replaced, Holds, SameKey, IsPlainName, Split, BuildTableSql, AllBare, DistinctOn, HasParameter,
         SuffixOf, AnyParameter, IsNamed, Creatable, NoneMisread, IsDropped, UniqueDefinition, CopyRows, ReadRows, Stored,
         OnlyChanged, Filter, ToLower, RestoredKey;
    if Split(db[name].sql).Success? {
      var definitions := DefinitionsOf(db[name]);
      ReducedChecks(definitions, column, unique);
      if ReducedDefinitions(definitions, column, unique).Success? {
        ReducedTable(db, name, column, unique, now);
      }
    }
  }

  /** The statements of a downgrade whose list checks passed. */
  lemma ReducedTable(db: Tables, name: string, column: string, unique: string, now: Clock)
    requires name in db && Stored(db[name]) && '(' !in name && ':' !in name
    requires unique != "" && Balanced(unique) && !HasParameter(UniqueDefinition(unique))
    requires IsPlainName(ToLower(column)) && ToLower(column) !in NormalizeColumns(unique)
    requires Split(db[name].sql).Success? && ReducedDefinitions(DefinitionsOf(db[name]), column, unique).Success?
    ensures var definitions := DefinitionsOf(db[name]);
            var left := ColumnSet(definitions) - {ToLower(column)};
            var out := Replaced(db, name, name + DOWN_SUFFIX, ReducedDefinitions(definitions, column, unique).value, left,
                                RestoredKey(unique), now);
            && (out.error.None? <==>
                  && Holds(db[name].sql, name, definitions)
                  && (forall d :: d in definitions && !IsNamed(ToLower(column))(d) ==> !HasParameter(d))
                  && !HasParameter(SuffixOf(db[name].sql)) && !Taken(db, name + DOWN_SUFFIX)
                  && NoneMisread(definitions) && ColumnSet(definitions) != {ToLower(column)} && AllBare(left)
                  && DistinctOn(ReadRows(db[name].rows, now), NormalizeColumns(unique)))
            && (out.error.None? ==>
                  && OnlyChanged(out.db, db, name) && ToLower(column) in ColumnSet(definitions)
                  && out.db[name].rows == CopyRows(db[name].rows, left, left, now))
  {
    hide IsTableConstraint, IsConstraintText, ColumnName, TokenName, UniqueColumns, NormalizeColumns, IsDefinition, Trimmed,
         Balanced, GoodDefinitions, MatchName, IsSpace, Print, Renamed, IsBare, CopyRow, Taken, ColumnSet, ReadRow,
         ReducedDefinitions, Replaced, Holds, SameKey, IsPlainName, Split, BuildTableSql, AllBare, DistinctOn, HasParameter,
         SuffixOf, AnyParameter, IsNamed, Creatable, NoneMisread, IsDropped, UniqueDefinition, CopyRows, ReadRows;
    var definitions := DefinitionsOf(db[name]);
    var columns := ColumnSet(definitions);
    SplitGivesDefinitions(db[name].sql);
    GoodIsTrimmed(definitions);
    ReducedGood(definitions, column, unique);
    SuffixesPlain();
    ReplaceAccepts(db, name, DOWN_SUFFIX, ReducedDefinitions(definitions, column, unique).value, columns - {ToLower(column)},
                   RestoredKey(unique), now);
    ReducedParameter(definitions, column, unique);
    if AllBare(columns - {ToLower(column)}) {
      ColumnSetReduced(definitions, column, unique);
      ReducedCreatable(definitions, column, unique);
      DistinctKept(db[name].rows, columns, ToLower(column), NormalizeColumns(unique), now);
    }
  }

  /** A table whose cycle column holds only NULL has no cycle-scoped row. */
  lemma NoCycleRows(t: Table)
    ensures CycleRows(t) == [] <==> forall i :: 0 <= i < |t.rows| && COLUMN in t.rows[i] ==> t.rows[i][COLUMN] == Null
  {
    var p := (row: Row) => COLUMN in row && row[COLUMN] != Null;
    forall i | 0 <= i < |t.rows| && COLUMN in t.rows[i] && t.rows[i][COLUMN] != Null
      ensures CycleRows(t) != []
    {
      assert t.rows[i] in t.rows && p(t.rows[i]);
      assert t.rows[i] in CycleRows(t);
    }
    if CycleRows(t) != [] {
      var row := CycleRows(t)[0];
      assert row in CycleRows(t);
      var i :| 0 <= i < |t.rows| && t.rows[i] == row;
    }
  }

  /**
   What a downgrade loses: when its guard and its statements go through every row
   had NULL in the dropped column, so the row as it was read is its image with
   that column set to NULL. Nothing is lost exactly when the rows agree with the
   clock of the copy.
   */
  lemma TableDowngradeLosesNothing(db: Tables, name: string, unique: string, now: Clock)
    requires name in db && Stored(db[name]) && '(' !in name && ':' !in name
    requires unique != "" && Balanced(unique) && !HasParameter(UniqueDefinition(unique))
    requires COLUMN !in NormalizeColumns(unique)
    requires CycleRows(db[name]) == [] && Reduced(db, name, COLUMN, unique, now).error.None?
    ensures name in Reduced(db, name, COLUMN, unique, now).db
    ensures IsImageWithout(ReadRows(db[name].rows, now), Reduced(db, name, COLUMN, unique, now).db[name].rows)
    ensures IsImageWithout(db[name].rows, Reduced(db, name, COLUMN, unique, now).db[name].rows) <==> Agrees(db[name].rows, now)
  {
    hide *;
    CycleIsPlainName();
    ReduceAccepts(db, name, COLUMN, unique, now);
    ChangedHas(Reduced(db, name, COLUMN, unique, now).db, db, name);
    SplitWhenReduced(db, name, COLUMN, unique, now);
    StoredRows(db[name]);
    NoCycleRows(db[name]);
    DroppedNulls(db[name].rows, ColumnSet(DefinitionsOf(db[name])), now);
    ReadsAsStored(db[name].rows, now);
    SameImage(db[name].rows, ReadRows(db[name].rows, now), Reduced(db, name, COLUMN, unique, now).db[name].rows);
  }

  /** Each row is its image with NULL in the cycle column, which the image does not have. */
  predicate IsImageWithout(rows: seq<Row>, after: seq<Row>) {
    && |after| == |rows|
    && forall i :: 0 <= i < |rows| ==> rows[i] == after[i][COLUMN := Null] && COLUMN !in after[i]
  }

  /** The image determines the rows. */
  lemma SameImage(rows: seq<Row>, read: seq<Row>, after: seq<Row>)
    requires IsImageWithout(read, after)
    ensures IsImageWithout(rows, after) <==> read == rows
  {
  }

  lemma ChangedHas(after: Tables, db: Tables, name: string)
    requires OnlyChanged(after, db, name)
    ensures name in after
  {
  }

  lemma StoredRows(t: Table)
    requires Stored(t) && Split(t.sql).Success?
    ensures forall i :: 0 <= i < |t.rows| ==> t.rows[i].Keys == ColumnSet(DefinitionsOf(t))
  {
  }

  lemma DroppedNulls(rows: seq<Row>, columns: set<string>, now: Clock)
    requires COLUMN in columns
    requires forall i :: 0 <= i < |rows| ==> rows[i].Keys == columns && (COLUMN in rows[i] ==> rows[i][COLUMN] == Null)
    ensures IsImageWithout(ReadRows(rows, now), CopyRows(rows, columns - {COLUMN}, columns - {COLUMN}, now))
  {
    hide CopyRow, ReadRow;
    forall i | 0 <= i < |rows|
      ensures var copy := CopyRow(rows[i], columns - {COLUMN}, columns - {COLUMN}, now);
              ReadRow(rows[i], now) == copy[COLUMN := Null] && COLUMN !in copy
    {
      CopyWithout(rows[i], columns, COLUMN, now);
      CycleAsStored(rows[i], now);
    }
  }

  lemma CycleAsStored(row: Row, now: Clock)
    requires COLUMN in row
    ensures COLUMN in ReadRow(row, now) && ReadRow(row, now)[COLUMN] == row[COLUMN]
    ensures ReadRow(row, now) == (ReadRow(row, now) - {COLUMN})[COLUMN := row[COLUMN]]
  {
    assert COLUMN[1] == 'y' && CURRENT_DATE[1] == CURRENT_TIME[1] == CURRENT_TIMESTAMP[1] == 'u';
  }

  lemma SplitWhenReduced(db: Tables, name: string, column: string, unique: string, now: Clock)
    requires name in db && Reduced(db, name, column, unique, now).error.None?
    ensures Split(db[name].sql).Success?
  {
  }

  /// ## The migration's own tables

  lemma LowerCycle()
    ensures ToLower(COLUMN) == COLUMN
  {
  }

  lemma CycleIsPlainName()
    ensures IsPlainName(COLUMN) && ToLower(COLUMN) == COLUMN
  {
    ColumnIsWord();
    LowerCycle();
    assert ToUpper(COLUMN)[0] == 'C' && ToUpper(COLUMN)[1] == 'Y';
    assert !Is(ToUpper(COLUMN), "CONSTRAINT") && !Is(ToUpper(COLUMN), "PRIMARY") && !Is(ToUpper(COLUMN), "FOREIGN");
  }

  lemma ColumnIsWord()
    ensures forall i :: 0 <= i < |COLUMN| ==> IsWordChar(COLUMN[i]) && !IsSpace(COLUMN[i])
  {
  }

  /** The column of the migration is read back under its own name, by the classifier and by SQLite. */
  lemma NewColumnRead()
    ensures Trimmed(NEW_COLUMN) && IsColumn(NEW_COLUMN) && ColumnName(NEW_COLUMN) == Some(COLUMN)
    ensures IsColumnText(NEW_COLUMN) && TokenName(NEW_COLUMN) == COLUMN
  {
    hide IsTableConstraint, IsConstraintText, IsSpace, IsWordChar, NonSpaceRun, ToLower, IsPlainName, TokenName, IsBare, Trim;
    CycleColumnTrimmed();
    CycleColumnRead(NEW_COLUMN);
    CycleColumnWord();
    CycleIsPlainName();
    ColumnWordRead(NEW_COLUMN);
    NamedToken(NEW_COLUMN, COLUMN);
    ColumnTokenRead(NEW_COLUMN);
  }

  /** An unquoted column is read under its first word. */
  lemma ColumnWordRead(d: string)
    requires Trimmed(d) && IsColumn(d) && d[0] == 'c'
    ensures ColumnName(d) == Some(ToLower(NonSpaceRun(d)))
  {
    hide IsTableConstraint, IsSpace, NonSpaceRun, ToLower;
    TrimLeftOfTrimmed(d);
  }

  lemma ColumnTokenRead(d: string)
    requires Trimmed(d) && d[0] == 'c' && forall i :: 0 <= i < |NonSpaceRun(d)| ==> IsWordChar(NonSpaceRun(d)[i])
    ensures TokenName(d) == ToLower(NonSpaceRun(d))
  {
    hide IsSpace, ToLower, IsWordChar;
    TrimLeftOfTrimmed(d);
    RunIsWord(d);
  }

  lemma CycleColumnTrimmed()
    ensures Trimmed(NEW_COLUMN) && NEW_COLUMN[0] == 'c' && NEW_COLUMN[1] == 'y'
  {
    assert NEW_COLUMN[|NEW_COLUMN| - 1] == ')';
  }

  lemma CycleColumnWord()
    ensures NonSpaceRun(NEW_COLUMN) == COLUMN && forall i :: 0 <= i < |COLUMN| ==> IsWordChar(COLUMN[i])
  {
    hide IsSpace, NonSpaceRun, IsWordChar;
    var rest := REFERENCE + "(id)";
    assert NEW_COLUMN == COLUMN + rest;
    ColumnIsWord();
    LettersNoSpace();
    RunOfWord(COLUMN, rest);
  }

  predicate IsPlainText(text: string) {
    forall i :: 0 <= i < |text| ==> IsPlain(text[i]) && text[i] != ','
  }

  lemma NewColumnIsDefinition()
    ensures IsDefinition(NEW_COLUMN)
  {
    var text := COLUMN + REFERENCE;
    assert IsPlainText(COLUMN) && IsPlainText(REFERENCE);
    assert IsPlainText(text);
    var inner := PlainIsBalanced("id");
    var t := PlainThenGroup(text, inner);
    assert NEW_COLUMN == text + "(" + "id" + ")";
  }

  /** A name without quotes or white space is normalised to its lower case. */
  lemma PlainPart(part: string)
    requires part != "" && forall i :: 0 <= i < |part| ==> !IsSpace(part[i]) && !IsNameQuote(part[i])
    ensures ToLower(StripNameQuotes(Trim(part))) == ToLower(part)
    ensures ToLower(StripNameQuotes(Trim(" " + part))) == ToLower(part)
  {
    TrimOfTrimmed(part);
  }

  lemma QuotasKey()
    ensures NormalizeColumns(QUOTAS_UNIQUE) == [ToLower("member_id")]
  {
    hide SplitOn, ToLower, StripNameQuotes, Trim;
    assert ',' !in QUOTAS_UNIQUE;
    SplitOnPart(QUOTAS_UNIQUE, ',', "");
    PlainPart(QUOTAS_UNIQUE);
  }

  lemma ContributionsKey()
    ensures NormalizeColumns(CONTRIBUTIONS_UNIQUE) == [ToLower("member_id"), ToLower("competence")]
  {
    hide SplitOn, ToLower, StripNameQuotes, Trim;
    var first, second := "member_id", "competence";
    assert CONTRIBUTIONS_UNIQUE == first + [','] + (" " + second);
    assert ',' !in first && ',' !in " " + second;
    SplitOnPart(first, ',', " " + second);
    SplitOnPart(" " + second, ',', "");
    PlainPart(first);
    PlainPart(second);
  }

  lemma KeysAreNoClocks()
    ensures NoClockName(NormalizeColumns(QUOTAS_UNIQUE)) && NoClockName(NormalizeColumns(CONTRIBUTIONS_UNIQUE))
  {
    hide NormalizeColumns;
    QuotasKey();
    ContributionsKey();
    assert ToLower("member_id")[0] == 'm' && ToLower("competence")[1] == 'o';
    assert CURRENT_DATE[1] == CURRENT_TIME[1] == CURRENT_TIMESTAMP[1] == 'u';
    assert CURRENT_DATE[0] == CURRENT_TIME[0] == CURRENT_TIMESTAMP[0] == 'c';
  }

  lemma NoColonsWritten()
    ensures ':' !in QUOTAS && ':' !in CONTRIBUTIONS
    ensures !HasParameter(NEW_COLUMN)
    ensures !HasParameter(UniqueDefinition(QUOTAS_UNIQUE)) && !HasParameter(UniqueDefinition(CONTRIBUTIONS_UNIQUE))
  {
    hide HasParameter;
    assert ':' !in COLUMN && ':' !in REFERENCE && ':' !in "(id)";
    ColonNeeded(NEW_COLUMN);
    ColonNeeded(UniqueDefinition(QUOTAS_UNIQUE));
    ColonNeeded(UniqueDefinition(CONTRIBUTIONS_UNIQUE));
  }

  lemma BothRebuildable()
    ensures Rebuildable(QUOTAS, NEW_COLUMN, COLUMN, QUOTAS_UNIQUE)
    ensures Rebuildable(CONTRIBUTIONS, NEW_COLUMN, COLUMN, CONTRIBUTIONS_UNIQUE)
  {
    hide IsTableConstraint, IsConstraintText, ColumnName, TokenName, Trimmed, IsDefinition, HasParameter, NormalizeColumns,
         NoClockName, UniqueDefinition;
    NewColumnRead();
    NewColumnIsDefinition();
    LowerCycle();
    NoColonsWritten();
    KeysAreNoClocks();
    var a := PlainIsBalanced(QUOTAS_UNIQUE);
    var b := PlainIsBalanced(CONTRIBUTIONS_UNIQUE);
  }

  /** A stored table whose rows obey the UNIQUE the migration drops. */
  ghost predicate Fits(db: Tables, name: string, unique: string) {
    name in db && Stored(db[name]) && ObeysUnique(db[name], unique)
  }

  /**
   `down` has the restored definitions of `name` in `db` and its rows as read at
   the time `later`, which are the old rows exactly when they agree with it.
   */
  ghost predicate Restores(down: Tables, db: Tables, name: string, unique: string, later: Clock) {
    && name in db && name in down
    && down[name].rows == ReadRows(db[name].rows, later)
    && (down[name].rows == db[name].rows <==> Agrees(db[name].rows, later))
    && Holds(down[name].sql, name, RestoredDefinitions(DefinitionsOf(db[name]), unique))
  }

  /** Nothing stops the downgrade that follows an upgrade but a taken name or a misread column. */
  ghost predicate CanGoBack(db: Tables, name: string)
    requires name in db
  {
    !Taken(db, name + DOWN_SUFFIX) && NoneMisread(DefinitionsOf(db[name]))
  }

  /** An upgraded table has no cycle-scoped row. */
  lemma UpgradedHasNoCycleRows(db: Tables, name: string, unique: string, now: Clock)
    requires Fits(db, name, unique) && Rebuildable(name, NEW_COLUMN, COLUMN, unique)
    requires Rebuilt(db, name, NEW_COLUMN, unique, now).error.None?
    ensures var up := Rebuilt(db, name, NEW_COLUMN, unique, now).db;
            name in up && CycleRows(up[name]) == [] && !LacksCycle(up[name])
  {
    hide Rebuildable, Stored, ObeysUnique, Rebuilt, CycleRows, RebuiltDefinitions, ColumnSet, Creatable, MatchName, Split,
         ReadRow, SuffixOf;
    LowerCycle();
    UpgradedTable(db, name, NEW_COLUMN, COLUMN, unique, now);
    NoCycleRows(Rebuilt(db, name, NEW_COLUMN, unique, now).db[name]);
  }

  /** Rebuilding or reducing one table does not depend on another one, as long as no name changes. */
  lemma RebuiltElsewhere(a: Tables, b: Tables, name: string, newColumn: string, unique: string, now: Clock)
    requires a.Keys == b.Keys && name in a && a[name] == b[name]
    ensures var x, y := Rebuilt(a, name, newColumn, unique, now), Rebuilt(b, name, newColumn, unique, now);
            && x.error == y.error
            && (x.error.None? ==> x.db.Keys == a.Keys == y.db.Keys && x.db[name] == y.db[name] && x.db - {name} == a - {name})
  {
    hide Split, BuildTableSql, Renamed, Creatable, IsBare, CopyRow, SameKey, ColumnSet, RebuiltDefinitions, ToLower,
         HasParameter;
  }

  lemma ReducedElsewhere(a: Tables, b: Tables, name: string, column: string, unique: string, now: Clock)
    requires a.Keys == b.Keys && name in a && a[name] == b[name]
    ensures var x, y := Reduced(a, name, column, unique, now), Reduced(b, name, column, unique, now);
            && x.error == y.error
            && (x.error.None? ==> x.db.Keys == a.Keys == y.db.Keys && x.db[name] == y.db[name] && x.db - {name} == a - {name})
  {
    hide Split, BuildTableSql, Renamed, Creatable, IsBare, CopyRow, SameKey, ColumnSet, ReducedDefinitions, ToLower,
         RestoredKey, HasParameter;
  }

  lemma TablesApart()
    ensures QUOTAS != CONTRIBUTIONS
  {
  }

  /** An upgrade that went through did what the two rebuilds do on their own. */
  lemma UpgradeIsBoth(db: Tables, now: Clock, next: Clock)
    requires Fits(db, QUOTAS, QUOTAS_UNIQUE) && Fits(db, CONTRIBUTIONS, CONTRIBUTIONS_UNIQUE)
    ensures var up := Upgraded(db, now, next);
            var q := Rebuilt(db, QUOTAS, NEW_COLUMN, QUOTAS_UNIQUE, now);
            var c := Rebuilt(db, CONTRIBUTIONS, NEW_COLUMN, CONTRIBUTIONS_UNIQUE, next);
            && (up.error.None? <==> q.error.None? && c.error.None?)
            && (up.error.None? ==>
                  && up.db.Keys == db.Keys == q.db.Keys == c.db.Keys
                  && up.db[QUOTAS] == q.db[QUOTAS] && up.db[CONTRIBUTIONS] == c.db[CONTRIBUTIONS]
                  && up.db - {QUOTAS, CONTRIBUTIONS} == db - {QUOTAS, CONTRIBUTIONS})
  {
    hide Rebuilt, Stored, ObeysUnique, Rebuildable;
    TablesApart();
    var q := Rebuilt(db, QUOTAS, NEW_COLUMN, QUOTAS_UNIQUE, now);
    RebuiltElsewhere(db, db, QUOTAS, NEW_COLUMN, QUOTAS_UNIQUE, now);
    RebuiltElsewhere(db, db, CONTRIBUTIONS, NEW_COLUMN, CONTRIBUTIONS_UNIQUE, next);
    if q.error.None? {
      var first := q.db;
      assert first[CONTRIBUTIONS] == (first - {QUOTAS})[CONTRIBUTIONS] == (db - {QUOTAS})[CONTRIBUTIONS];
      RebuiltElsewhere(first, db, CONTRIBUTIONS, NEW_COLUMN, CONTRIBUTIONS_UNIQUE, next);
      var up := Upgraded(db, now, next).db;
      if Upgraded(db, now, next).error.None? {
        assert up[QUOTAS] == (up - {CONTRIBUTIONS})[QUOTAS] == (first - {CONTRIBUTIONS})[QUOTAS];
        assert up - {QUOTAS, CONTRIBUTIONS} == (up - {CONTRIBUTIONS}) - {QUOTAS};
        assert db - {QUOTAS, CONTRIBUTIONS} == (db - {QUOTAS}) - {CONTRIBUTIONS};
        assert (first - {CONTRIBUTIONS}) - {QUOTAS} == (first - {QUOTAS}) - {CONTRIBUTIONS};
      }
    }
  }

  /** The upgrade goes through exactly when both rebuilds are allowed, whatever the time. */
  lemma UpgradeAccepts(db: Tables, now: Clock, next: Clock)
    requires Fits(db, QUOTAS, QUOTAS_UNIQUE) && Fits(db, CONTRIBUTIONS, CONTRIBUTIONS_UNIQUE)
    ensures Upgraded(db, now, next).error.None? <==>
            && RebuildAllowed(db, QUOTAS, NEW_COLUMN, COLUMN, QUOTAS_UNIQUE)
            && RebuildAllowed(db, CONTRIBUTIONS, NEW_COLUMN, COLUMN, CONTRIBUTIONS_UNIQUE)
  {
    hide Rebuilt, Stored, ObeysUnique, Rebuildable, RebuildAllowed, Upgraded;
    BothRebuildable();
    UpgradeIsBoth(db, now, next);
    RebuildAccepts(db, QUOTAS, NEW_COLUMN, COLUMN, QUOTAS_UNIQUE, now);
    RebuildAccepts(db, CONTRIBUTIONS, NEW_COLUMN, COLUMN, CONTRIBUTIONS_UNIQUE, next);
  }

  /**
   The whole migration there and back: the downgrade that follows an upgrade
   always passes its guard. It goes through exactly when the names of both
   replacements are free and no column of either table was misread as a
   constraint; it then leaves every other table alone, restores both tables'
   definitions, and restores every row exactly when the rows agree with the clock
   of their last copy.
   */
  lemma MigrationThereAndBack(db: Tables, now: Clock, next: Clock, later: Clock, last: Clock)
    requires Fits(db, QUOTAS, QUOTAS_UNIQUE) && Fits(db, CONTRIBUTIONS, CONTRIBUTIONS_UNIQUE)
    requires Upgraded(db, now, next).error.None?
    ensures var up := Upgraded(db, now, next).db;
            var back := Downgraded(up, later, last);
            && up.Keys == db.Keys && CycleRows(up[QUOTAS]) == [] && CycleRows(up[CONTRIBUTIONS]) == []
            && (back.error.None? <==> CanGoBack(db, QUOTAS) && CanGoBack(db, CONTRIBUTIONS))
            && (back.error.None? ==>
                  && Restores(back.db, db, QUOTAS, QUOTAS_UNIQUE, later)
                  && Restores(back.db, db, CONTRIBUTIONS, CONTRIBUTIONS_UNIQUE, last)
                  && back.db.Keys == db.Keys && back.db - {QUOTAS, CONTRIBUTIONS} == db - {QUOTAS, CONTRIBUTIONS})
  {
    hide Rebuilt, Reduced, Stored, ObeysUnique, Rebuildable, Taken, NoneMisread, Holds, RestoredDefinitions, CycleRows,
         DefinitionsOf, Upgraded, ToLower, LacksCycle, ReadRows, Agrees, SuffixOf;
    TablesApart();
    BothRebuildable();
    UpgradeIsBoth(db, now, next);
    var up := Upgraded(db, now, next).db;
    var q := Rebuilt(db, QUOTAS, NEW_COLUMN, QUOTAS_UNIQUE, now).db;
    var c := Rebuilt(db, CONTRIBUTIONS, NEW_COLUMN, CONTRIBUTIONS_UNIQUE, next).db;
    UpgradedHasNoCycleRows(db, QUOTAS, QUOTAS_UNIQUE, now);
    UpgradedHasNoCycleRows(db, CONTRIBUTIONS, CONTRIBUTIONS_UNIQUE, next);
    TableThereAndBack(db, QUOTAS, NEW_COLUMN, COLUMN, QUOTAS_UNIQUE, now, later);
    TableThereAndBack(db, CONTRIBUTIONS, NEW_COLUMN, COLUMN, CONTRIBUTIONS_UNIQUE, next, last);
    ReducedElsewhere(up, q, QUOTAS, COLUMN, QUOTAS_UNIQUE, later);
    var first := Reduced(up, QUOTAS, COLUMN, QUOTAS_UNIQUE, later);
    if first.error.None? {
      assert first.db[CONTRIBUTIONS] == (first.db - {QUOTAS})[CONTRIBUTIONS] == (up - {QUOTAS})[CONTRIBUTIONS];
      ReducedElsewhere(first.db, c, CONTRIBUTIONS, COLUMN, CONTRIBUTIONS_UNIQUE, last);
      var second := Reduced(first.db, CONTRIBUTIONS, COLUMN, CONTRIBUTIONS_UNIQUE, last);
      if second.error.None? {
        assert second.db[QUOTAS] == (second.db - {CONTRIBUTIONS})[QUOTAS] == (first.db - {CONTRIBUTIONS})[QUOTAS];
        OthersAlone(second.db, first.db, up);
      }
    }
  }

  /** The rows of both tables are as they were after an upgrade and a downgrade at these times. */
  ghost predicate RowsComeBack(db: Tables, now: Clock, next: Clock, later: Clock, last: Clock) {
    var down := Downgraded(Upgraded(db, now, next).db, later, last).db;
    && QUOTAS in db && CONTRIBUTIONS in db && QUOTAS in down && CONTRIBUTIONS in down
    && down[QUOTAS].rows == db[QUOTAS].rows && down[CONTRIBUTIONS].rows == db[CONTRIBUTIONS].rows
  }

  /** The table has no row, or no column called CURRENT_DATE, CURRENT_TIME or CURRENT_TIMESTAMP. */
  ghost predicate NothingToOverwrite(t: Table) {
    t.rows == [] || NoClockColumn(ColumnSet(DefinitionsOf(t)))
  }

  /**
   The migration there and back restores every row, whatever the time, exactly
   when no column of a table with rows is called CURRENT_DATE, CURRENT_TIME or
   CURRENT_TIMESTAMP.
   */
  lemma RowsComeBackAtAnyTime(db: Tables)
    requires Fits(db, QUOTAS, QUOTAS_UNIQUE) && Fits(db, CONTRIBUTIONS, CONTRIBUTIONS_UNIQUE)
    requires RebuildAllowed(db, QUOTAS, NEW_COLUMN, COLUMN, QUOTAS_UNIQUE) && CanGoBack(db, QUOTAS)
    requires RebuildAllowed(db, CONTRIBUTIONS, NEW_COLUMN, COLUMN, CONTRIBUTIONS_UNIQUE) && CanGoBack(db, CONTRIBUTIONS)
    ensures (forall now, next, later, last :: RowsComeBack(db, now, next, later, last))
            <==> NothingToOverwrite(db[QUOTAS]) && NothingToOverwrite(db[CONTRIBUTIONS])
  {
    hide Upgraded, Downgraded, Stored, ObeysUnique, RebuildAllowed, CanGoBack, Agrees, NothingToOverwrite, CycleRows,
         ReadRows, RestoredDefinitions, Holds, DefinitionsOf;
    forall now, next, later, last
      ensures RowsComeBack(db, now, next, later, last)
              <==> Agrees(db[QUOTAS].rows, later) && Agrees(db[CONTRIBUTIONS].rows, last)
    {
      UpgradeAccepts(db, now, next);
      MigrationThereAndBack(db, now, next, later, last);
    }
    AllowedSplits(db, QUOTAS, QUOTAS_UNIQUE);
    AllowedSplits(db, CONTRIBUTIONS, CONTRIBUTIONS_UNIQUE);
    AgreesWhenNamed(db[QUOTAS]);
    AgreesWhenNamed(db[CONTRIBUTIONS]);
    var any := Clock("", "", "");
    if forall now, next, later, last :: RowsComeBack(db, now, next, later, last) {
      forall now
        ensures Agrees(db[QUOTAS].rows, now) && Agrees(db[CONTRIBUTIONS].rows, now)
      {
        assert RowsComeBack(db, any, any, now, now);
      }
    }
  }

  lemma AllowedSplits(db: Tables, name: string, unique: string)
    requires name in db && RebuildAllowed(db, name, NEW_COLUMN, COLUMN, unique)
    ensures Split(db[name].sql).Success?
  {
  }

  lemma AgreesWhenNamed(t: Table)
    requires Stored(t) && Split(t.sql).Success?
    ensures (forall now :: Agrees(t.rows, now)) <==> NothingToOverwrite(t)
  {
    hide Agrees, NoClockColumn, ColumnSet, DefinitionsOf, Creatable, Split;
    AgreesAtAnyTime(t.rows);
    StoredRows(t);
    assert t.rows != [] ==> t.rows[0].Keys == ColumnSet(DefinitionsOf(t));
  }

  lemma OthersAlone(last: Tables, first: Tables, up: Tables)
    requires last - {CONTRIBUTIONS} == first - {CONTRIBUTIONS} && first - {QUOTAS} == up - {QUOTAS}
    ensures last - {QUOTAS, CONTRIBUTIONS} == up - {QUOTAS, CONTRIBUTIONS}
  {
    assert last - {QUOTAS, CONTRIBUTIONS} == (last - {CONTRIBUTIONS}) - {QUOTAS};
    assert up - {QUOTAS, CONTRIBUTIONS} == (up - {QUOTAS}) - {CONTRIBUTIONS};
    assert (first - {CONTRIBUTIONS}) - {QUOTAS} == (first - {QUOTAS}) - {CONTRIBUTIONS};
  }

  /// ## Any downgrade of the migration

  lemma KeysWithoutCycle()
    ensures COLUMN !in NormalizeColumns(QUOTAS_UNIQUE) && COLUMN !in NormalizeColumns(CONTRIBUTIONS_UNIQUE)
  {
    hide NormalizeColumns;
    QuotasKey();
    ContributionsKey();
    assert ToLower("member_id")[0] == 'm' && ToLower("competence")[1] == 'o';
    assert COLUMN[0] == 'c' && COLUMN[1] == 'y';
  }

  /**
   A downgrade goes through exactly when no row belongs to a cycle and both
   tables can be reduced. Two rows of one member with no cycle pass the guard and
   stop it at the restored UNIQUE, with the first replacement table left behind.
   */
  lemma DowngradeAccepts(db: Tables, now: Clock, next: Clock)
    requires QUOTAS in db && Stored(db[QUOTAS]) && CONTRIBUTIONS in db && Stored(db[CONTRIBUTIONS])
    ensures Downgraded(db, now, next).error.None? <==>
            && CycleRows(db[QUOTAS]) == [] && CycleRows(db[CONTRIBUTIONS]) == []
            && ReduceAllowed(db, QUOTAS, COLUMN, QUOTAS_UNIQUE, now)
            && ReduceAllowed(db, CONTRIBUTIONS, COLUMN, CONTRIBUTIONS_UNIQUE, next)
  {
    hide Reduced, Stored, ReduceAllowed, CycleRows, NormalizeColumns, IsPlainName, ToLower, DefinitionsOf, ColumnSet, Split,
         SuffixOf, HasParameter, UniqueDefinition, CopyRows, ReadRows;
    TablesApart();
    BothRebuildable();
    LowerCycle();
    CycleIsPlainName();
    KeysWithoutCycle();
    NoColonsWritten();
    ReduceAccepts(db, QUOTAS, COLUMN, QUOTAS_UNIQUE, now);
    ReduceAccepts(db, CONTRIBUTIONS, COLUMN, CONTRIBUTIONS_UNIQUE, next);
    var first := Reduced(db, QUOTAS, COLUMN, QUOTAS_UNIQUE, now);
    if first.error.None? {
      assert first.db[CONTRIBUTIONS] == (first.db - {QUOTAS})[CONTRIBUTIONS] == (db - {QUOTAS})[CONTRIBUTIONS];
      ReducedElsewhere(first.db, db, CONTRIBUTIONS, COLUMN, CONTRIBUTIONS_UNIQUE, next);
    }
  }
}
