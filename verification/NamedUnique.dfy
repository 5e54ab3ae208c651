/**
 Which texts are read as a UNIQUE of a table: the two forms of the source's
 pattern, in any case and with any white space, and no other.
 */
module NamedUnique {
  import opened Common
  import opened Strings
  import opened SqlGrammar
  import opened SqlStatement
  import opened CycleMigration
  import opened DefinitionRules
  import opened SqlTokens
  import opened SqlText
  import opened TableRows
  import opened CycleTables

  /** `UNIQUE`, white space if any, and the columns in parentheses. */
  ghost predicate IsUniqueForm(s: string, columns: string) {
    exists unique, space :: ToUpper(unique) == "UNIQUE" && IsBlankText(space) && s == unique + space + ("(" + columns + ")")
  }

  /** `CONSTRAINT`, a name and a UNIQUE form, with white space between them. */
  ghost predicate IsNamedForm(s: string, columns: string) {
    exists word, first, name, second, rest :: IsNamedAs(s, columns, word, first, name, second, rest)
  }

  ghost predicate IsNamedAs(s: string, columns: string, word: string, first: string, name: string, second: string, rest: string) {
    && ToUpper(word) == "CONSTRAINT" && first != "" && IsBlankText(first) && IsOneWord(name) && second != "" && IsBlankText(second)
    && IsUniqueForm(rest, columns) && s == word + (first + (name + (second + rest)))
  }

  lemma LettersStart(word: string, rest: string, keyword: string)
    requires ToUpper(word) == keyword && AllCapitals(keyword) && keyword != ""
    ensures StartsWith(word + rest, keyword) && |word| == |keyword|
    ensures !IsSpace(word[0])
  {
    assert ToUpper(word + rest)[..|word|] == ToUpper(word);
    assert IsCapital(Upper(word[0])) by {
      assert keyword[0] == Upper(word[0]);
    }
  }

  lemma UniqueFormRead(s: string, columns: string)
    requires IsUniqueForm(s, columns)
    ensures s != "" && !IsSpace(s[0]) && s[|s| - 1] == ')' && s[0] in {'u', 'U'}
    ensures UniqueList(s) == Some(NormalizeColumns(columns))
  {
    hide NormalizeColumns, StartsWith, IsSpace;
    var unique, space :| ToUpper(unique) == "UNIQUE" && IsBlankText(space) && s == unique + space + ("(" + columns + ")");
    var list := "(" + columns + ")";
    KeywordsAreCapitals();
    LettersStart(unique, space + list, "UNIQUE");
    assert s == unique + (space + list);
    assert s[6..] == space + list;
    assert !IsSpace('(') by {
      ParenthesisIsNoSpace();
    }
    TrimLeftBlank(space, list);
    assert list[1..|list| - 1] == columns;
    assert Upper(s[0]) == "UNIQUE"[0];
  }

  /** An unnamed UNIQUE is read as its columns. */
  lemma UniqueRead(s: string, columns: string)
    requires IsUniqueForm(s, columns)
    ensures UniqueColumns(s) == Some(NormalizeColumns(columns))
  {
    hide NormalizeColumns, IsSpace, UniqueList, Trim;
    UniqueFormRead(s, columns);
    FormIsTrimmed(s);
    TrimOfTrimmed(s);
    StartsElsewhere(s, "CONSTRAINT", 0);
  }

  lemma FormIsTrimmed(s: string)
    requires s != "" && !IsSpace(s[0]) && s[|s| - 1] == ')'
    ensures Trimmed(s)
  {
  }

  lemma NamedIsTrimmed(s: string, columns: string, word: string, first: string, name: string, second: string, rest: string)
    requires IsNamedAs(s, columns, word, first, name, second, rest)
    ensures Trimmed(s) && StartsWith(s, "CONSTRAINT") && s[10..] == first + (name + (second + rest))
  {
    hide NormalizeColumns, IsSpace, UniqueList, StartsWith, IsUniqueForm;
    KeywordsAreCapitals();
    UniqueFormRead(rest, columns);
    LettersStart(word, first + (name + (second + rest)), "CONSTRAINT");
    assert s == (word + (first + (name + second))) + rest;
    FormIsTrimmed(s);
  }

  /** A named UNIQUE is read as its columns, whatever the name, the case of the words and the white space. */
  lemma NamedUniqueRead(s: string, columns: string)
    requires IsNamedForm(s, columns)
    ensures UniqueColumns(s) == Some(NormalizeColumns(columns)) && Trimmed(s)
  {
    hide NormalizeColumns, IsSpace, UniqueList, Trim, NonSpaceRun, StartsWith, IsUniqueForm;
    var word, first, name, second, rest :| IsNamedAs(s, columns, word, first, name, second, rest);
    NamedIsTrimmed(s, columns, word, first, name, second, rest);
    UniqueFormRead(rest, columns);
    TrimOfTrimmed(s);
    var named := name + (second + rest);
    assert !IsSpace(named[0]);
    TrimLeftBlank(first, named);
    assert (second + rest)[0] == second[0];
    RunOfWord(name, second + rest);
    assert named[|name|..] == second + rest;
    TrimLeftBlank(second, rest);
  }

  /** What is read as a UNIQUE list is of the unnamed form. */
  lemma UniqueFormOnly(s: string) returns (columns: string)
    requires UniqueList(s).Some?
    ensures IsUniqueForm(s, columns) && UniqueList(s) == Some(NormalizeColumns(columns))
  {
    hide NormalizeColumns, IsSpace, TrimLeft;
    var list := TrimLeft(s[6..]);
    columns := list[1..|list| - 1];
    var space := BlankBefore(s[6..]);
    assert list == "(" + columns + ")";
    assert s == s[..6] + space + ("(" + columns + ")");
    assert ToUpper(s[..6]) == ToUpper(s)[..6];
  }

  lemma PartsMakeForm(s: string, columns: string, first: string, name: string, second: string, rest: string)
    requires StartsWith(s, "CONSTRAINT") && |s| >= 10 && s[10..] == first + (name + (second + rest))
    requires first != "" && IsBlankText(first) && IsOneWord(name) && second != "" && IsBlankText(second)
    requires IsUniqueForm(rest, columns)
    ensures IsNamedForm(s, columns)
  {
    hide IsUniqueForm, IsSpace;
    assert ToUpper(s[..10]) == ToUpper(s)[..10];
    assert IsNamedAs(s, columns, s[..10], first, name, second, rest);
  }

  /** What is read as a UNIQUE at all is of one of the two forms. */
  lemma OnlyTwoForms(s: string) returns (columns: string)
    requires Trimmed(s) && UniqueColumns(s).Some?
    ensures IsUniqueForm(s, columns) || IsNamedForm(s, columns)
    ensures UniqueColumns(s) == Some(NormalizeColumns(columns))
  {
    hide NormalizeColumns, IsSpace, TrimLeft, NonSpaceRun, UniqueList, Trim, IsUniqueForm, IsNamedForm, StartsWith, IsBlankText,
         IsOneWord;
    TrimOfTrimmed(s);
    if StartsWith(s, "CONSTRAINT") {
      columns := NamedOnly(s);
    } else {
      columns := UniqueFormOnly(s);
    }
  }

  /** The text after the keyword, the text after the name, and what they have to be. */
  lemma NamedUnfolded(s: string) returns (named: string, after: string)
    requires Trimmed(s) && StartsWith(s, "CONSTRAINT") && UniqueColumns(s).Some?
    ensures |s| >= 10 && named == TrimLeft(s[10..]) && |named| < |s| - 10 && named != ""
    ensures after != "" && named == NonSpaceRun(named) + after && UniqueColumns(s) == UniqueList(TrimLeft(after))
  {
    hide NormalizeColumns, IsSpace, TrimLeft, NonSpaceRun, UniqueList, Trim;
    TrimOfTrimmed(s);
    named := TrimLeft(s[10..]);
    after := named[|NonSpaceRun(named)|..];
  }

  lemma NamedOnly(s: string) returns (columns: string)
    requires Trimmed(s) && StartsWith(s, "CONSTRAINT") && UniqueColumns(s).Some?
    ensures IsNamedForm(s, columns) && UniqueColumns(s) == Some(NormalizeColumns(columns))
  {
    hide *;
    var named, after := NamedUnfolded(s);
    var name := NonSpaceRun(named);
    var rest := TrimLeft(after);
    columns := UniqueFormOnly(rest);
    var first := BlankBefore(s[10..]);
    var second := BlankBefore(after);
    TrimTwice(s[10..]);
    NameOfRun(named);
    AfterRun(named, after, rest, second);
    PartsMakeForm(s, columns, first, name, second, rest);
  }

  lemma {:induction false} TrimTwice(s: string)
    ensures TrimLeft(TrimLeft(s)) == TrimLeft(s)
  {
    hide IsSpace;
    if s != "" && IsSpace(s[0]) {
      TrimTwice(s[1..]);
    }
  }

  lemma NameOfRun(named: string)
    requires named != "" && named == TrimLeft(named)
    ensures IsOneWord(NonSpaceRun(named))
  {
  }

  /** White space follows a run of other characters. */
  lemma AfterRun(named: string, after: string, rest: string, second: string)
    requires named == NonSpaceRun(named) + after && after != "" && rest == TrimLeft(after) && after == second + rest
    ensures second != ""
  {
    RunStops(named);
    assert named[|NonSpaceRun(named)|] == after[0];
  }

  lemma {:induction false} RunStops(s: string)
    ensures |NonSpaceRun(s)| < |s| ==> IsSpace(s[|NonSpaceRun(s)|])
  {
    hide IsSpace;
    if s != "" && !IsSpace(s[0]) {
      RunStops(s[1..]);
    }
  }

  /** Exactly the two forms are read, each as its columns. */
  lemma UniqueColumnsIff(s: string, target: seq<string>)
    requires Trimmed(s)
    ensures UniqueColumns(s) == Some(target) <==>
            exists columns :: (IsUniqueForm(s, columns) || IsNamedForm(s, columns)) && NormalizeColumns(columns) == target
  {
    hide NormalizeColumns, IsSpace, IsUniqueForm, IsNamedForm, UniqueColumns, Trimmed;
    if UniqueColumns(s) == Some(target) {
      var columns := OnlyTwoForms(s);
    }
    if columns :| (IsUniqueForm(s, columns) || IsNamedForm(s, columns)) && NormalizeColumns(columns) == target {
      if IsUniqueForm(s, columns) {
        UniqueRead(s, columns);
      } else {
        NamedUniqueRead(s, columns);
      }
    }
  }

  /// ## A table the upgrade takes

  /** A column definition that is read alike by the migration and by SQLite, under a name that needs no quotes. */
  ghost predicate IsPlainColumn(d: string) {
    && Trimmed(d) && IsDefinition(d) && IsColumn(d) && IsColumnText(d) && !HasParameter(d)
    && ColumnName(d) == Some(TokenName(d)) && IsBare(TokenName(d))
  }

  /** Columns of different names, at least one. */
  ghost predicate ArePlainColumns(columns: seq<string>) {
    && columns != [] && (forall d :: d in columns ==> IsPlainColumn(d))
    && forall i, j :: 0 <= i < j < |columns| ==> TokenName(columns[i]) != TokenName(columns[j])
  }

  function NamedText(name: string, unique: string): string {
    "CONSTRAINT " + (name + (" " + ("UNIQUE (" + unique + ")")))
  }

  lemma NamedTextForm(name: string, unique: string)
    requires IsOneWord(name)
    ensures IsNamedForm(NamedText(name, unique), unique)
  {
    hide IsSpace, IsOneWord;
    var rest := "UNIQUE (" + unique + ")";
    assert ToUpper("UNIQUE") == "UNIQUE" && ToUpper("CONSTRAINT") == "CONSTRAINT";
    LettersNoSpace();
    assert rest == "UNIQUE" + " " + ("(" + unique + ")");
    assert IsUniqueForm(rest, unique);
    assert NamedText(name, unique) == "CONSTRAINT" + (" " + (name + (" " + rest)));
    assert IsNamedAs(NamedText(name, unique), unique, "CONSTRAINT", " ", name, " ", rest);
  }

  /** A name without white space, quotes, brackets, parentheses and commas. */
  predicate IsPlainWord(s: string) {
    IsOneWord(s) && forall i :: 0 <= i < |s| ==> IsPlain(s[i]) && s[i] != ','
  }

  lemma NamedTextGood(name: string, unique: string)
    requires IsPlainWord(name) && Balanced(unique)
    ensures Trimmed(NamedText(name, unique)) && IsDefinition(NamedText(name, unique))
  {
    hide IsSpace, IsOneWord, IsUniqueForm, UniqueColumns, NormalizeColumns, Balanced;
    NamedTextForm(name, unique);
    NamedUniqueRead(NamedText(name, unique), unique);
    var text := "CONSTRAINT " + name + " UNIQUE ";
    assert forall i :: 0 <= i < |"CONSTRAINT "| ==> IsPlain("CONSTRAINT "[i]) && "CONSTRAINT "[i] != ',';
    assert forall i :: 0 <= i < |" UNIQUE "| ==> IsPlain(" UNIQUE "[i]) && " UNIQUE "[i] != ',';
    assert forall c :: c in text ==> IsPlain(c) && c != ',';
    BalancedAfter(text, unique);
    assert NamedText(name, unique) == text + "(" + unique + ")";
  }

  lemma BalancedAfter(text: string, unique: string)
    requires Balanced(unique) && forall c :: c in text ==> IsPlain(c) && c != ','
    ensures IsDefinition(text + "(" + unique + ")")
  {
    var inner :| WellFormed(inner) && Show(inner) == unique;
    var t := PlainThenGroup(text, inner);
  }

  lemma NamedTextRead(name: string, unique: string)
    requires IsPlainWord(name) && Balanced(unique)
    ensures var u := NamedText(name, unique);
            && IsTableConstraint(u) && IsConstraintText(u) && !IsMissed(u) && IsDropped(u, unique)
            && IsUniqueOn(NormalizeColumns(unique))(u)
  {
    hide IsSpace, IsOneWord, IsUniqueForm, UniqueColumns, NormalizeColumns, Balanced, IsMissed, IsConstraintText, Trimmed, Trim;
    var u := NamedText(name, unique);
    NamedTextForm(name, unique);
    NamedUniqueRead(u, unique);
    TrimLeftOfTrimmed(u);
    assert ToUpper("CONSTRAINT ") == "CONSTRAINT ";
    assert ToUpper(u)[..11] == ToUpper(u[..11]) == "CONSTRAINT ";
    UniqueIsConstraint(u);
    ClassifierAgrees(u);
  }

  function PlainTableSql(name: string, columns: seq<string>, constraint: string, unique: string): string {
    Print("CREATE TABLE " + name + " ", Join(columns + [NamedText(constraint, unique)], ", "), "")
  }

  lemma PlainTableHolds(name: string, columns: seq<string>, constraint: string, unique: string)
    requires ArePlainColumns(columns) && IsPlainWord(constraint) && Balanced(unique) && '(' !in name
    requires name != "" && var c := name[|name| - 1]; !IsSpace(c) && !IsQuote(c) && c != ']'
    ensures var sql, definitions := PlainTableSql(name, columns, constraint, unique), columns + [NamedText(constraint, unique)];
            && GoodDefinitions(definitions) && Holds(sql, name, definitions) && SuffixOf(sql) == ""
  {
    hide IsSpace, IsDefinition, Balanced, Trimmed, Holds, SuffixOf, IsColumn, IsColumnText, IsBare, HasParameter, Print, Join,
         NamedText, IsPlainWord, TokenName, ColumnName;
    var definitions := columns + [NamedText(constraint, unique)];
    NamedTextGood(constraint, unique);
    LettersNoSpace();
    assert '(' !in "CREATE TABLE ";
    assert ' ' != '(' && '(' !in "CREATE TABLE " + name + " ";
    PlainStatement(name, " ", definitions, "");
    SuffixOfPrinted("CREATE TABLE " + name + " ", definitions, "");
  }

  lemma PlainParts(columns: seq<string>, u: string, unique: string, low: string)
    requires ArePlainColumns(columns) && forall d :: d in columns ==> TokenName(d) != low
    requires IsTableConstraint(u) && IsConstraintText(u) && !IsMissed(u) && IsUniqueOn(NormalizeColumns(unique))(u)
    ensures var definitions := columns + [u];
            && |UniquesOf(definitions, NormalizeColumns(unique))| == 1 && NoneMissed(definitions)
            && (forall d :: d in definitions ==> !IsNamed(low)(d)) && low !in ColumnSet(definitions)
            && AllBare(ColumnSet(definitions)) && forall d :: d in definitions && d != u ==> !HasParameter(d)
  {
    hide IsTableConstraint, IsConstraintText, IsMissed, IsMisread, TokenName, ColumnName, IsBare, HasParameter, IsDefinition, Trimmed,
         NormalizeColumns, UniqueColumns, Filter;
    var target := NormalizeColumns(unique);
    forall d | d in columns
      ensures !IsMissed(d)
    {
      ClassifierAgrees(d);
    }
    PartsOf(columns, [u]);
    FilterAll(IsUniqueOn(target), [u]);
  }

  /**
   The upgrade takes every table whose statement is a plain list of columns and a
   named UNIQUE on the old key, such as the one the contributions table has.
   */
  lemma PlainTableUpgrades(db: Tables, name: string, newColumn: string, column: string, unique: string,
                           columns: seq<string>, constraint: string, now: Clock)
    requires name in db && Stored(db[name]) && Rebuildable(name, newColumn, column, unique)
    requires name != "" && var c := name[|name| - 1]; !IsSpace(c) && !IsQuote(c) && c != ']'
    requires ArePlainColumns(columns) && IsPlainWord(constraint) && forall d :: d in columns ==> TokenName(d) != ToLower(column)
    requires db[name].sql == PlainTableSql(name, columns, constraint, unique) && !Taken(db, name + UP_SUFFIX)
    ensures Rebuilt(db, name, newColumn, unique, now).error.None?
  {
    hide *;
    var u := NamedText(constraint, unique);
    RebuildableShape(name, newColumn, column, unique);
    NamedTextRead(constraint, unique);
    PlainTableHolds(name, columns, constraint, unique);
    HoldsMeans(db[name], name, columns + [u]);
    PlainParts(columns, u, unique, ToLower(column));
    ColonNeeded("");
    AllowedWhen(db, name, newColumn, column, unique, u);
    RebuildAccepts(db, name, newColumn, column, unique, now);
  }

  lemma RebuildableShape(name: string, newColumn: string, column: string, unique: string)
    requires Rebuildable(name, newColumn, column, unique)
    ensures '(' !in name && Balanced(unique)
  {
  }

  lemma HoldsMeans(t: Table, name: string, definitions: seq<string>)
    requires Holds(t.sql, name, definitions)
    ensures Split(t.sql).Success? && DefinitionsOf(t) == definitions
  {
  }

  lemma AllowedWhen(db: Tables, name: string, newColumn: string, column: string, unique: string, u: string)
    requires name in db && Split(db[name].sql).Success? && Holds(db[name].sql, name, DefinitionsOf(db[name]))
    requires var definitions := DefinitionsOf(db[name]);
             && |UniquesOf(definitions, NormalizeColumns(unique))| == 1 && NoneMissed(definitions)
             && (forall d :: d in definitions ==> !IsNamed(ToLower(column))(d)) && ToLower(column) !in ColumnSet(definitions)
             && AllBare(ColumnSet(definitions)) && forall d :: d in definitions && d != u ==> !HasParameter(d)
    requires IsDropped(u, unique) && SuffixOf(db[name].sql) == "" && !HasParameter("") && !Taken(db, name + UP_SUFFIX)
    ensures RebuildAllowed(db, name, newColumn, column, unique)
  {
    hide Split, Holds, UniquesOf, NoneMissed, IsNamed, ColumnSet, AllBare, HasParameter, SuffixOf, Taken, IsDropped, DefinitionsOf;
  }
}
