/**
 The SQLite side of revision 0096: the two tables are rebuilt with a nullable
 `cycle_id` column and without their old UNIQUE constraint, and rebuilt back.
 */
module CycleMigration {
  import opened Common
  import opened Strings
  import opened SqlGrammar
  import opened SqlStatement

  /// ## Reading a definition

  /** `s` starts with the upper-case `word`, in any case. */
  predicate StartsWith(s: string, word: string) {
    word <= ToUpper(s)
  }

  predicate IsTableConstraint(definition: string) {
    var s := TrimLeft(definition);
    || StartsWith(s, "CONSTRAINT ") || StartsWith(s, "PRIMARY KEY") || StartsWith(s, "FOREIGN KEY")
    || StartsWith(s, "UNIQUE") || StartsWith(s, "CHECK")
  }

  predicate IsColumn(definition: string) {
    !IsTableConstraint(definition)
  }

  /** The characters `strip('"`[]')` removes. */
  predicate IsNameQuote(c: char) {
    c == '"' || c == '`' || c == '[' || c == ']'
  }

  function StripNameQuotes(s: string): string {
    if s == "" then s
    else if IsNameQuote(s[0]) then StripNameQuotes(s[1..])
    else if IsNameQuote(s[|s| - 1]) then StripNameQuotes(s[..|s| - 1])
    else s
  }

  function NormalizeColumns(value: string): seq<string> {
    var parts := SplitOn(value, ',');
    seq(|parts|, i requires 0 <= i < |parts| => ToLower(StripNameQuotes(Trim(parts[i]))))
  }

  /** `UNIQUE`, optional white space and a parenthesised list that ends the text: the normalised list. */
  function UniqueList(s: string): Option<seq<string>> {
    if StartsWith(s, "UNIQUE") then
      assert |s| >= 6;
      var list := TrimLeft(s[6..]);
      if 2 <= |list| && list[0] == '(' && list[|list| - 1] == ')'
      then Some(NormalizeColumns(list[1..|list| - 1]))
      else None
    else None
  }

  /** The columns of a table-level UNIQUE, with or without a constraint name. */
  function UniqueColumns(definition: string): Option<seq<string>> {
    var s := Trim(definition);
    if StartsWith(s, "CONSTRAINT") then
      assert |s| >= 10;
      var named := TrimLeft(s[10..]);
      var rest := named[|NonSpaceRun(named)|..];
      if |named| < |s| - 10 && named != "" && rest != "" then UniqueList(TrimLeft(rest)) else None
    else UniqueList(s)
  }

  /** The text between the first character of `s` and the next `close`, when there is any. */
  function Enclosed(s: string, close: char): Option<string>
    requires s != ""
  {
    var n := IndexOf(s[1..], close);
    if 0 < n < |s| - 1 then Some(s[1..][..n]) else None
  }

  /** The lower-cased name a column definition starts with; None for a table constraint. */
  function ColumnName(definition: string): Option<string> {
    if IsTableConstraint(definition) then None
    else
      var s := TrimLeft(definition);
      if s == "" then Some("")
      else
        var enclosed := if s[0] == '"' || s[0] == '`' then Enclosed(s, s[0])
                        else if s[0] == '[' then Enclosed(s, ']')
                        else None;
        match enclosed
        case Some(name) => Some(ToLower(name))
        case None => Some(ToLower(NonSpaceRun(s)))
  }

  /// ## Editing the list of definitions

  function Not(p: string -> bool): string -> bool {
    d => !p(d)
  }

  function IsUniqueOn(columns: seq<string>): string -> bool {
    d => UniqueColumns(d) == Some(columns)
  }

  function IsNamed(name: string): string -> bool {
    d => IsColumn(d) && ColumnName(d) == Some(name)
  }

  function ColumnsOf(definitions: seq<string>): seq<string> {
    Filter(IsColumn, definitions)
  }

  function ConstraintsOf(definitions: seq<string>): seq<string> {
    Filter(IsTableConstraint, definitions)
  }

  function NamesOf(columns: seq<string>): (names: seq<Option<string>>)
    ensures |names| == |columns|
  {
    seq(|columns|, i requires 0 <= i < |columns| => ColumnName(columns[i]))
  }

  /** The constraints other than UNIQUE on `target`. */
  function OthersOf(definitions: seq<string>, target: seq<string>): seq<string> {
    Filter(Not(IsUniqueOn(target)), ConstraintsOf(definitions))
  }

  function UniquesOf(definitions: seq<string>, target: seq<string>): seq<string> {
    Filter(IsUniqueOn(target), ConstraintsOf(definitions))
  }

  /** The definitions `_sqlite_rebuild` prints. */
  function RebuiltDefinitions(definitions: seq<string>, newColumn: string, oldUnique: string):
    Result<seq<string>, SqlError>
  {
    var target := NormalizeColumns(oldUnique);
    var columns := ColumnsOf(definitions);
    if |UniquesOf(definitions, target)| != 1 then Failure(UniqueCount(|UniquesOf(definitions, target)|))
    else if IsColumn(newColumn) && Trim(newColumn) == "" then Failure(UnparsableColumn)
    else if ColumnName(newColumn) in NamesOf(columns) then Failure(ColumnExists)
    else Success(columns + [newColumn] + OthersOf(definitions, target))
  }

  function FirstConstraint(definitions: seq<string>): (i: nat)
    ensures i <= |definitions|
  {
    if definitions == [] || IsTableConstraint(definitions[0]) then 0 else 1 + FirstConstraint(definitions[1..])
  }

  function InsertUnique(kept: seq<string>, columns: string): seq<string> {
    var i := FirstConstraint(kept);
    kept[..i] + [UniqueDefinition(columns)] + kept[i..]
  }

  function UniqueDefinition(columns: string): string {
    "UNIQUE (" + columns + ")"
  }

  /** The definitions `_sqlite_remove_column` prints. */
  function ReducedDefinitions(definitions: seq<string>, column: string, restoreUnique: string):
    Result<seq<string>, SqlError>
  {
    var named := IsNamed(ToLower(column));
    var kept := Filter(Not(named), definitions);
    if |Filter(named, definitions)| != 1 then Failure(ColumnCount(|Filter(named, definitions)|))
    else if restoreUnique == "" then Success(kept)
    else if UniquesOf(kept, NormalizeColumns(restoreUnique)) != [] then Failure(UniqueExists)
    else Success(InsertUnique(kept, restoreUnique))
  }

  /// ## Reducing what was rebuilt

  lemma StartsElsewhere(s: string, word: string, i: nat)
    requires i < |word| && i < |s| && Upper(s[i]) != word[i]
    ensures !StartsWith(s, word)
  {
    assert ToUpper(s)[i] == Upper(s[i]);
  }

  lemma UniqueStarts(columns: string)
    ensures StartsWith(UniqueDefinition(columns), "UNIQUE") && !StartsWith(UniqueDefinition(columns), "CONSTRAINT")
  {
    var d := UniqueDefinition(columns);
    assert d == "UNIQUE" + " (" + columns + ")";
    assert ToUpper(d)[..6] == "UNIQUE";
    StartsElsewhere(d, "CONSTRAINT", 0);
  }

  /** A restored UNIQUE is recognised as UNIQUE on the very columns it was written for. */
  lemma UniqueDefinitionRead(columns: string)
    ensures Trimmed(UniqueDefinition(columns))
    ensures IsTableConstraint(UniqueDefinition(columns))
    ensures UniqueColumns(UniqueDefinition(columns)) == Some(NormalizeColumns(columns))
  {
    hide NormalizeColumns, NonSpaceRun, IsSpace, StartsWith, UniqueList, UniqueDefinition, Trim;
    var d := UniqueDefinition(columns);
    UniqueDefinitionTrimmed(columns);
    TrimOfTrimmed(d);
    TrimLeftOfTrimmed(d);
    UniqueStarts(columns);
    UniqueListRead(columns);
  }

  lemma UniqueDefinitionTrimmed(columns: string)
    ensures Trimmed(UniqueDefinition(columns))
  {
    var d := UniqueDefinition(columns);
    assert d[0] == 'U' && d[|d| - 1] == ')';
  }

  lemma TrimLeftOfTrimmed(s: string)
    requires Trimmed(s)
    ensures TrimLeft(s) == s
  {
  }

  lemma ParenthesisIsNoSpace()
    ensures !IsSpace('(')
  {
  }

  lemma UniqueListRead(columns: string)
    ensures UniqueList(UniqueDefinition(columns)) == Some(NormalizeColumns(columns))
  {
    hide NormalizeColumns, NonSpaceRun, StartsWith, IsSpace;
    var d, list := UniqueDefinition(columns), "(" + columns + ")";
    UniqueStarts(columns);
    assert d[6..] == " " + list;
    assert !IsSpace('(') by {
      ParenthesisIsNoSpace();
    }
    TrimLeftSpace(list);
    assert list[1..|list| - 1] == columns;
  }

  lemma {:induction false} FirstConstraintOf(columns: seq<string>, constraints: seq<string>)
    requires forall d :: d in columns ==> IsColumn(d)
    requires forall d :: d in constraints ==> IsTableConstraint(d)
    ensures FirstConstraint(columns + constraints) == |columns|
  {
    hide IsTableConstraint;
    var all := columns + constraints;
    if columns != [] {
      assert columns[0] in columns && all[0] == columns[0] && all[1..] == columns[1..] + constraints;
      FirstConstraintOf(columns[1..], constraints);
    } else if constraints != [] {
      assert constraints[0] in constraints && all[0] == constraints[0];
    }
  }

  /** The parts of a list that holds its columns first. */
  lemma PartsOf(columns: seq<string>, constraints: seq<string>)
    requires forall d :: d in columns ==> IsColumn(d)
    requires forall d :: d in constraints ==> IsTableConstraint(d)
    ensures ColumnsOf(columns + constraints) == columns
    ensures ConstraintsOf(columns + constraints) == constraints
  {
    hide IsTableConstraint;
    FilterConcat(IsColumn, columns, constraints);
    FilterAll(IsColumn, columns);
    FilterNone(IsColumn, constraints);
    FilterConcat(IsTableConstraint, columns, constraints);
    FilterNone(IsTableConstraint, columns);
    FilterAll(IsTableConstraint, constraints);
    assert columns + [] == columns && [] + constraints == constraints;
  }

  /** The list the downgrade leaves when it follows the upgrade: the columns, the restored UNIQUE, the other constraints. */
  function RestoredDefinitions(definitions: seq<string>, unique: string): seq<string> {
    ColumnsOf(definitions) + ([UniqueDefinition(unique)] + OthersOf(definitions, NormalizeColumns(unique)))
  }

  /** What the restored list keeps of the original one. */
  lemma RestoredKeeps(definitions: seq<string>, unique: string)
    ensures var restored := RestoredDefinitions(definitions, unique);
            var target := NormalizeColumns(unique);
            && ColumnsOf(restored) == ColumnsOf(definitions)
            && OthersOf(restored, target) == OthersOf(definitions, target)
            && UniquesOf(restored, target) == [UniqueDefinition(unique)]
  {
    hide IsTableConstraint, NormalizeColumns, UniqueColumns, UniqueDefinition;
    var target := NormalizeColumns(unique);
    var others := OthersOf(definitions, target);
    UniqueDefinitionRead(unique);
    PartsOf(ColumnsOf(definitions), [UniqueDefinition(unique)] + others);
    FilterConcat(Not(IsUniqueOn(target)), [UniqueDefinition(unique)], others);
    FilterNone(Not(IsUniqueOn(target)), [UniqueDefinition(unique)]);
    FilterAll(Not(IsUniqueOn(target)), others);
    assert [] + others == others;
    FilterConcat(IsUniqueOn(target), [UniqueDefinition(unique)], others);
    FilterAll(IsUniqueOn(target), [UniqueDefinition(unique)]);
    FilterNone(IsUniqueOn(target), others);
    assert [UniqueDefinition(unique)] + [] == [UniqueDefinition(unique)];
  }

  lemma NotNamedAmong(columns: seq<string>, name: string)
    requires Some(name) !in NamesOf(columns)
    ensures forall d :: d in columns ==> !IsNamed(name)(d)
  {
    hide ColumnName, IsTableConstraint;
    forall d | d in columns
      ensures !IsNamed(name)(d)
    {
      var i :| 0 <= i < |columns| && columns[i] == d;
      assert NamesOf(columns)[i] == ColumnName(d);
    }
  }

  /**
   Upgrade then downgrade never trips a list check of the downgrade: it restores the
   columns in order, one UNIQUE on the same columns and the other constraints in
   relative order. Upgrading again gives the definitions of the first upgrade.
   */
  lemma ReducedAfterRebuilt(definitions: seq<string>, newColumn: string, column: string, unique: string)
    requires RebuiltDefinitions(definitions, newColumn, unique).Success?
    requires IsColumn(newColumn) && ColumnName(newColumn) == Some(ToLower(column)) && unique != ""
    ensures var rebuilt := RebuiltDefinitions(definitions, newColumn, unique).value;
            && ReducedDefinitions(rebuilt, column, unique) == Success(RestoredDefinitions(definitions, unique))
            && RebuiltDefinitions(RestoredDefinitions(definitions, unique), newColumn, unique) == Success(rebuilt)
  {
    hide IsTableConstraint, NormalizeColumns, UniqueColumns, UniqueDefinition, ColumnName, Trim, Filter, ToLower;
    var columns, others := ColumnsOf(definitions), OthersOf(definitions, NormalizeColumns(unique));
    var rebuilt := columns + [newColumn] + others;
    var named := IsNamed(ToLower(column));
    NotNamedAmong(columns, ToLower(column));
    KeptOfRebuilt(columns, newColumn, others, named);
    RestoredKeeps(definitions, unique);
    PartsOf(columns, others);
    FilterNone(IsUniqueOn(NormalizeColumns(unique)), others);
    FirstConstraintOf(columns, others);
    var kept := columns + others;
    assert kept[..|columns|] == columns && kept[|columns|..] == others;
    assert columns + [UniqueDefinition(unique)] + others == RestoredDefinitions(definitions, unique);
  }

  lemma KeptOfRebuilt(columns: seq<string>, newColumn: string, others: seq<string>, named: string -> bool)
    requires named(newColumn)
    requires forall d :: d in columns || d in others ==> !named(d)
    ensures Filter(named, columns + [newColumn] + others) == [newColumn]
    ensures Filter(Not(named), columns + [newColumn] + others) == columns + others
  {
    FilterConcat(named, columns + [newColumn], others);
    FilterConcat(named, columns, [newColumn]);
    FilterNone(named, columns);
    FilterNone(named, others);
    FilterAll(named, [newColumn]);
    FilterConcat(Not(named), columns + [newColumn], others);
    FilterConcat(Not(named), columns, [newColumn]);
    FilterAll(Not(named), columns);
    FilterAll(Not(named), others);
    FilterNone(Not(named), [newColumn]);
    assert columns + [] == columns;
  }

  /**
   The classifier looks at a prefix only: a column whose text starts with CHECK
   in any case, such as `check_date DATE`, is taken for a constraint and moves
   behind the new column.
   */
  lemma MisreadColumn(d: string, newColumn: string, unique: string)
    requires Trimmed(d) && StartsWith(d, "CHECK")
    requires Trimmed(newColumn) && 2 <= |newColumn| && newColumn[0] == 'c' && newColumn[1] == 'y'
    ensures RebuiltDefinitions([d, UniqueDefinition(unique)], newColumn, unique) == Success([newColumn, d])
  {
    hide IsTableConstraint, UniqueColumns, NormalizeColumns, Trim, ColumnName, UniqueDefinition, Filter, StartsWith;
    var u := UniqueDefinition(unique);
    var target := NormalizeColumns(unique);
    ReadsAsCheck(d);
    CycleColumnRead(newColumn);
    UniqueDefinitionRead(unique);
    assert [d, u] == [d] + [u];
    var none: seq<string> := [];
    PartsOf(none, [d] + [u]);
    assert none + ([d] + [u]) == [d] + [u];
    FilterConcat(IsUniqueOn(target), [d], [u]);
    FilterNone(IsUniqueOn(target), [d]);
    FilterAll(IsUniqueOn(target), [u]);
    FilterConcat(Not(IsUniqueOn(target)), [d], [u]);
    FilterAll(Not(IsUniqueOn(target)), [d]);
    FilterNone(Not(IsUniqueOn(target)), [u]);
    assert none + [u] == [u] && [d] + none == [d];
    assert none + [newColumn] + [d] == [newColumn, d];
  }

  lemma CheckStarts(d: string)
    requires StartsWith(d, "CHECK")
    ensures !StartsWith(d, "CONSTRAINT") && !StartsWith(d, "UNIQUE")
  {
    assert ToUpper(d)[0] == 'C' && ToUpper(d)[1] == 'H';
  }

  lemma ReadsAsCheck(d: string)
    requires Trimmed(d) && StartsWith(d, "CHECK")
    ensures IsTableConstraint(d) && UniqueColumns(d) == None
  {
    hide NormalizeColumns, NonSpaceRun, IsSpace, StartsWith, Trim;
    TrimOfTrimmed(d);
    TrimLeftOfTrimmed(d);
    CheckStarts(d);
  }

  /** A definition that starts with "cy" is a column. */
  lemma CycleColumnRead(d: string)
    requires Trimmed(d) && 2 <= |d| && d[0] == 'c' && d[1] == 'y'
    ensures IsColumn(d) && Trim(d) == d
  {
    hide IsSpace, StartsWith, Trim;
    TrimOfTrimmed(d);
    TrimLeftOfTrimmed(d);
    StartsElsewhere(d, "PRIMARY KEY", 0);
    StartsElsewhere(d, "FOREIGN KEY", 0);
    StartsElsewhere(d, "UNIQUE", 0);
    StartsElsewhere(d, "CONSTRAINT ", 1);
    StartsElsewhere(d, "CHECK", 1);
  }
}
