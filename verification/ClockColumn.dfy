/** A table that loses values when it is rebuilt: one of its columns is called CURRENT_DATE. */
module ClockColumn {
  import opened Common
  import opened Strings
  import opened SqlGrammar
  import opened SqlStatement
  import opened CycleMigration
  import opened SqlTokens
  import opened SqlText
  import opened TableRows
  import opened CycleTables

  predicate IsLetters(s: string) {
    s != "" && forall i :: 0 <= i < |s| ==> 'A' <= s[i] <= 'Z'
  }

  predicate IsLowerName(s: string) {
    2 <= |s| && forall i :: 0 <= i < |s| ==> 'a' <= s[i] <= 'z' || s[i] == '_'
  }

  /** Names that start like no keyword of a table constraint and no reserved word. */
  predicate StartsApart(name: string) {
    IsLowerName(name) && (name[0] == 'm' || (name[0] == 'c' && name[1] == 'u'))
  }

  function ColumnText(name: string, kind: string): string {
    name + " " + kind
  }

  lemma LowerStays(name: string)
    requires IsLowerName(name)
    ensures ToLower(name) == name
    ensures forall i :: 0 <= i < |name| ==> IsWordChar(name[i]) && !IsSpace(name[i])
  {
  }

  lemma TextShape(name: string, kind: string)
    requires StartsApart(name) && IsLetters(kind)
    ensures var d := ColumnText(name, kind);
            && Trimmed(d) && d[0] == name[0] && d[1] == name[1] && NonSpaceRun(d) == name && !HasParameter(d)
            && forall i :: 0 <= i < |d| ==> IsPlain(d[i]) && d[i] != ','
  {
    hide NonSpaceRun, HasParameter, IsWordChar;
    LowerStays(name);
    LettersNoSpace();
    var d := ColumnText(name, kind);
    assert d == name + (" " + kind);
    RunOfWord(name, " " + kind);
    assert d[|d| - 1] == kind[|kind| - 1];
    assert ':' !in d;
    ColonNeeded(d);
  }

  lemma TextIsColumn(name: string, kind: string)
    requires StartsApart(name) && IsLetters(kind)
    ensures var d := ColumnText(name, kind);
            && IsColumn(d) && ColumnName(d) == Some(name) && TokenName(d) == name
            && !IsConstraintWord(ToUpper(name))
  {
    hide IsSpace, NonSpaceRun, StartsWith, IsWordChar, HasParameter, ToLower;
    var d := ColumnText(name, kind);
    TextShape(name, kind);
    LowerStays(name);
    TrimLeftOfTrimmed(d);
    StartsElsewhere(d, "PRIMARY KEY", 0);
    StartsElsewhere(d, "FOREIGN KEY", 0);
    StartsElsewhere(d, "UNIQUE", 0);
    StartsElsewhere(d, "CONSTRAINT ", if d[0] == 'm' then 0 else 1);
    StartsElsewhere(d, "CHECK", if d[0] == 'm' then 0 else 1);
    RunIsWord(d);
    assert ToUpper(name)[0] == 'M' || (ToUpper(name)[0] == 'C' && ToUpper(name)[1] == 'U');
  }

  lemma TextWord(name: string, kind: string)
    requires StartsApart(name) && IsLetters(kind)
    ensures IsColumnText(ColumnText(name, kind)) && !IsMissed(ColumnText(name, kind))
  {
    hide IsSpace, NonSpaceRun, StartsWith, IsWordChar, HasParameter, ToLower, ToUpper, IsTableConstraint, IsConstraintWord;
    var d := ColumnText(name, kind);
    TextShape(name, kind);
    TextIsColumn(name, kind);
    LowerStays(name);
    TrimLeftOfTrimmed(d);
    RunIsWord(d);
    ClassifierAgrees(d);
  }

  lemma TextIsDefinition(name: string, kind: string)
    requires StartsApart(name) && IsLetters(kind)
    ensures IsDefinition(ColumnText(name, kind))
  {
    hide HasParameter, IsSpace, NonSpaceRun;
    TextShape(name, kind);
    var t := PlainTree(ColumnText(name, kind));
  }

  lemma {:induction false} PlainTree(text: string) returns (t: Tree)
    requires forall i :: 0 <= i < |text| ==> IsPlain(text[i]) && text[i] != ','
    ensures WellFormed(t) && CommaFree(t) && Show(t) == text
  {
    if text == "" {
      t := End;
    } else {
      var more := PlainTree(text[1..]);
      t := Plain(text[0], more);
      assert text == [text[0]] + text[1..];
    }
  }

  lemma NotReserved(name: string)
    requires StartsApart(name)
    ensures IsBare(name)
  {
    hide IsWordChar;
    LowerStays(name);
    var w := ToUpper(name);
    assert w[0] == 'M' || (w[0] == 'C' && w[1] == 'U');
  }

  /// ## The table

  const MEMBER := "member_id"
  const MEMBER_TEXT := ColumnText(MEMBER, "INTEGER")
  const DATE_TEXT := ColumnText(CURRENT_DATE, "DATE")

  function Dated(): seq<string> {
    [MEMBER_TEXT, DATE_TEXT, UniqueDefinition(QUOTAS_UNIQUE)]
  }

  function DatedSql(): string {
    Print("CREATE TABLE " + QUOTAS + " ", Join(Dated(), ", "), "")
  }

  /** One member's quota, dated long ago. */
  function DatedTable(): Table {
    Table(DatedSql(), [map[MEMBER := TableRows.Text("1"), CURRENT_DATE := TableRows.Text("2020-01-01")]])
  }

  lemma Names()
    ensures StartsApart(MEMBER) && StartsApart(CURRENT_DATE) && IsLetters("INTEGER") && IsLetters("DATE")
    ensures MEMBER != CURRENT_DATE && MEMBER != COLUMN && CURRENT_DATE != COLUMN
  {
    assert MEMBER[0] == 'm' && CURRENT_DATE[1] == 'u' && COLUMN[1] == 'y';
  }

  lemma ColumnsAreGood()
    ensures Trimmed(MEMBER_TEXT) && IsDefinition(MEMBER_TEXT) && Trimmed(DATE_TEXT) && IsDefinition(DATE_TEXT)
  {
    hide IsDefinition, Trimmed, StartsApart, IsLetters, ColumnText, HasParameter, IsPlain, NonSpaceRun, IsSpace;
    Names();
    TextShape(MEMBER, "INTEGER");
    TextShape(CURRENT_DATE, "DATE");
    TextIsDefinition(MEMBER, "INTEGER");
    TextIsDefinition(CURRENT_DATE, "DATE");
  }

  lemma UniqueIsGood()
    ensures Trimmed(UniqueDefinition(QUOTAS_UNIQUE)) && IsDefinition(UniqueDefinition(QUOTAS_UNIQUE))
  {
    hide *;
    UniqueDefinitionRead(QUOTAS_UNIQUE);
    var t := PlainIsBalancedText();
    UniqueIsDefinition(QUOTAS_UNIQUE);
  }

  lemma DatedIsGood()
    ensures GoodDefinitions(Dated())
  {
    hide IsDefinition, Trimmed, UniqueDefinition, ColumnText;
    ColumnsAreGood();
    UniqueIsGood();
  }

  lemma DatedSplits()
    ensures DefinitionsOf(DatedTable()) == Dated()
    ensures Split(DatedTable().sql).Success? && Holds(DatedTable().sql, QUOTAS, Dated()) && SuffixOf(DatedTable().sql) == ""
  {
    hide Dated, GoodDefinitions, Holds, Split, Join, IsSpace, Print, SuffixOf;
    DatedIsGood();
    QuotasShape();
    PlainStatement(QUOTAS, " ", Dated(), "");
    SuffixOfPrinted("CREATE TABLE " + QUOTAS + " ", Dated(), "");
    HoldsSplits(DatedSql(), QUOTAS, Dated());
  }

  lemma PlainIsBalancedText() returns (t: Tree)
    ensures Balanced(QUOTAS_UNIQUE)
  {
    t := PlainIsBalanced(QUOTAS_UNIQUE);
  }

  lemma QuotasShape()
    ensures QUOTAS != "" && QUOTAS[|QUOTAS| - 1] == 's' && !IsSpace('s') && !IsQuote('s') && IsSpace(' ')
    ensures '(' !in QUOTAS && '(' !in "CREATE TABLE " + QUOTAS + " "
  {
    assert '(' !in "CREATE TABLE ";
  }

  lemma HoldsSplits(sql: string, name: string, definitions: seq<string>)
    requires Holds(sql, name, definitions)
    ensures Split(sql).Success? && Split(sql).value.definitions == definitions
  {
  }

  /** How the three definitions are read. */
  lemma DatedRead()
    ensures IsColumn(MEMBER_TEXT) && IsColumnText(MEMBER_TEXT) && TokenName(MEMBER_TEXT) == MEMBER
    ensures IsColumn(DATE_TEXT) && IsColumnText(DATE_TEXT) && TokenName(DATE_TEXT) == CURRENT_DATE
    ensures ColumnName(MEMBER_TEXT) == Some(MEMBER) && ColumnName(DATE_TEXT) == Some(CURRENT_DATE)
    ensures !IsMissed(MEMBER_TEXT) && !IsMissed(DATE_TEXT) && !HasParameter(MEMBER_TEXT) && !HasParameter(DATE_TEXT)
    ensures var u := UniqueDefinition(QUOTAS_UNIQUE);
            && IsTableConstraint(u) && IsConstraintText(u) && !IsMissed(u) && !HasParameter(u)
            && IsUniqueOn(NormalizeColumns(QUOTAS_UNIQUE))(u)
  {
    hide StartsApart, IsLetters, ColumnText, HasParameter, UniqueDefinition, IsTableConstraint, IsConstraintText, TokenName,
         ColumnName, NormalizeColumns, IsMissed, IsMisread, UniqueColumns, IsPlain, NonSpaceRun, ToUpper, Trimmed;
    Names();
    TextShape(MEMBER, "INTEGER");
    TextShape(CURRENT_DATE, "DATE");
    TextIsColumn(MEMBER, "INTEGER");
    TextIsColumn(CURRENT_DATE, "DATE");
    TextWord(MEMBER, "INTEGER");
    TextWord(CURRENT_DATE, "DATE");
    UniqueDefinitionRead(QUOTAS_UNIQUE);
    RestoredIsConstraint(QUOTAS_UNIQUE);
    ClassifierAgrees(UniqueDefinition(QUOTAS_UNIQUE));
    NoColonsWritten();
  }

  lemma DatedColumns()
    ensures Creatable(Dated()) && ColumnSet(Dated()) == {MEMBER, CURRENT_DATE} && AllBare(ColumnSet(Dated()))
    ensures NoneMissed(Dated()) && forall d :: d in Dated() ==> !IsNamed(COLUMN)(d) && !HasParameter(d)
  {
    hide StartsApart, ColumnText, HasParameter, UniqueDefinition, IsTableConstraint, IsConstraintText, TokenName, IsLetters,
         ColumnName, NormalizeColumns, IsMissed, IsBare, IsUniqueOn;
    Names();
    DatedRead();
    NotReserved(MEMBER);
    NotReserved(CURRENT_DATE);
    assert MEMBER_TEXT in Dated() && DATE_TEXT in Dated();
  }

  lemma DatedUniques()
    ensures |UniquesOf(Dated(), NormalizeColumns(QUOTAS_UNIQUE))| == 1
  {
    hide ColumnText, UniqueDefinition, IsTableConstraint, NormalizeColumns, IsUniqueOn, HasParameter, IsMissed, TokenName,
         IsConstraintText, ColumnName, Filter;
    var u, target := UniqueDefinition(QUOTAS_UNIQUE), NormalizeColumns(QUOTAS_UNIQUE);
    DatedRead();
    assert Dated() == [MEMBER_TEXT, DATE_TEXT] + [u];
    PartsOf([MEMBER_TEXT, DATE_TEXT], [u]);
    FilterAll(IsUniqueOn(target), [u]);
  }

  /**
   The upgrade takes the table, and the old date is gone: the copy writes the
   current date over it.
   */
  lemma ClockOverwrites(now: Clock)
    ensures var db := map[QUOTAS := DatedTable()];
            && Stored(db[QUOTAS]) && ObeysUnique(db[QUOTAS], QUOTAS_UNIQUE)
            && RebuildAllowed(db, QUOTAS, NEW_COLUMN, COLUMN, QUOTAS_UNIQUE)
            && var up := Rebuilt(db, QUOTAS, NEW_COLUMN, QUOTAS_UNIQUE, now);
               && up.error.None? && QUOTAS in up.db
               && up.db[QUOTAS].rows
                  == [map[MEMBER := TableRows.Text("1"), CURRENT_DATE := TableRows.Text(now.date), COLUMN := Null]]
  {
    hide Split, Holds, Creatable, ColumnSet, AllBare, NoneMissed, UniquesOf, NormalizeColumns, IsNamed, HasParameter, SuffixOf,
         Rebuilt, Rebuildable, Dated, GoodDefinitions, RebuiltDefinitions, ReadRow, IsDropped, ToLower, DefinitionsOf;
    var db := map[QUOTAS := DatedTable()];
    DatedSplits();
    DatedColumns();
    DatedUniques();
    BothRebuildable();
    LowerCycle();
    NotTaken(db);
    ColonNeeded("");
    Names();
    StoredIsSo(db[QUOTAS]);
    RebuildAccepts(db, QUOTAS, NEW_COLUMN, COLUMN, QUOTAS_UNIQUE, now);
    UpgradedTable(db, QUOTAS, NEW_COLUMN, COLUMN, QUOTAS_UNIQUE, now);
    OldDateRead(now);
  }

  lemma StoredIsSo(t: Table)
    requires Creatable(DefinitionsOf(t)) && forall i :: 0 <= i < |t.rows| ==> t.rows[i].Keys == ColumnSet(DefinitionsOf(t))
    ensures Stored(t)
  {
  }

  lemma OldDateRead(now: Clock)
    ensures ReadRow(DatedTable().rows[0], now) == map[MEMBER := TableRows.Text("1"), CURRENT_DATE := TableRows.Text(now.date)]
  {
    Names();
    assert CURRENT_TIME[1] == CURRENT_TIMESTAMP[1] == 'u';
  }

  lemma NotTaken(db: Tables)
    requires db.Keys == {QUOTAS}
    ensures !Taken(db, QUOTAS + UP_SUFFIX)
  {
    hide ToLower;
    assert |ToLower(QUOTAS)| < |ToLower(QUOTAS + UP_SUFFIX)|;
  }
}
