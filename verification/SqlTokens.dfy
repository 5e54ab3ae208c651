/**
 How SQLite itself reads a definition, by its first token, and exactly when the
 migration's classifier, which looks at a prefix only, agrees with it.
 */
module SqlTokens {
  import opened Common
  import opened Strings
  import opened SqlStatement
  import opened CycleMigration

  /// ## SQLite's reading

  predicate IsLetterOrDigit(c: char) {
    'a' <= c <= 'z' || 'A' <= c <= 'Z' || '0' <= c <= '9'
  }

  /** The characters of an unquoted identifier or keyword. */
  predicate IsWordChar(c: char) {
    !IsSpace(c) && (IsLetterOrDigit(c) || c == '_' || c == '$' || c as int >= 0x80)
  }

  function Word(s: string): (w: string)
    ensures w <= s
    ensures forall i :: 0 <= i < |w| ==> IsWordChar(s[i])
    ensures |w| < |s| ==> !IsWordChar(s[|w|])
  {
    if s == "" || !IsWordChar(s[0]) then ""
    else
      assert s == [s[0]] + s[1..];
      [s[0]] + Word(s[1..])
  }

  function FirstWord(d: string): string {
    ToUpper(Word(TrimLeft(d)))
  }

  predicate Is(w: string, keyword: string) {
    w == keyword
  }

  predicate IsConstraintWord(w: string) {
    Is(w, "CONSTRAINT") || Is(w, "PRIMARY") || Is(w, "FOREIGN") || Is(w, "UNIQUE") || Is(w, "CHECK")
  }

  /** The definition starts with a keyword that only a table constraint starts with. */
  predicate IsConstraintText(d: string) {
    IsConstraintWord(FirstWord(d))
  }

  predicate IsColumnText(d: string) {
    !IsConstraintText(d)
  }

  /** The text up to the closing quote, where a doubled quote stands for one. */
  function Dequoted(s: string, q: char): string {
    if s == "" then ""
    else if s[0] != q then [s[0]] + Dequoted(s[1..], q)
    else if 2 <= |s| && s[1] == q then [q] + Dequoted(s[2..], q)
    else ""
  }

  /** The name a column definition starts with, lower-cased, as `PRAGMA table_info` reports it. */
  function TokenName(d: string): string {
    var s := TrimLeft(d);
    if s == "" then ""
    else if s[0] == '"' || s[0] == '`' || s[0] == '\'' then ToLower(Dequoted(s[1..], s[0]))
    else if s[0] == '[' then ToLower(s[1..][..IndexOf(s[1..], ']')])
    else ToLower(Word(s))
  }

  function ColumnTexts(definitions: seq<string>): seq<string> {
    Filter(IsColumnText, definitions)
  }

  /** The column names of a table with these definitions. */
  function ColumnSet(definitions: seq<string>): set<string> {
    set d | d in definitions && IsColumnText(d) :: TokenName(d)
  }

  /** `a` may stand before `b`: columns come first, and no two have one name. */
  predicate MayPrecede(a: string, b: string) {
    && (IsConstraintText(a) ==> IsConstraintText(b))
    && (IsColumnText(a) && IsColumnText(b) ==> TokenName(a) != TokenName(b))
  }

  predicate InOrder(definitions: seq<string>) {
    forall i, j :: 0 <= i < j < |definitions| ==> MayPrecede(definitions[i], definitions[j])
  }

  /** CREATE TABLE takes the list: columns of different names, at least one, before the table constraints. */
  predicate Creatable(definitions: seq<string>) {
    InOrder(definitions) && exists d :: d in definitions && IsColumnText(d)
  }

  /** The keywords of SQLite that cannot stand for a column without quotes. */
  predicate IsReserved(word: string) {
    word in {"ADD", "ALL", "ALTER", "AND", "AS", "AUTOINCREMENT", "BETWEEN", "CASE", "CAST", "CHECK", "COLLATE", "COMMIT",
             "CONSTRAINT", "CREATE", "DEFAULT", "DEFERRABLE", "DELETE", "DISTINCT", "DROP", "ELSE", "ESCAPE", "EXCEPT",
             "EXISTS", "FOREIGN", "FROM", "GROUP", "HAVING", "IN", "INDEX", "INSERT", "INTERSECT", "INTO", "IS",
             "ISNULL", "JOIN", "LIMIT", "NOT", "NOTHING", "NOTNULL", "NULL", "ON", "OR", "ORDER", "PRIMARY",
             "RAISE", "REFERENCES", "RETURNING", "SELECT", "SET", "TABLE", "THEN", "TO", "TRANSACTION", "UNION", "UNIQUE",
             "UPDATE", "USING", "VALUES", "WHEN", "WHERE"}
  }

  /** The name can be written in a statement without quotes. */
  predicate IsBare(name: string) {
    && name != "" && !('0' <= name[0] <= '9') && name[0] != '$' && !IsReserved(ToUpper(name))
    && forall i :: 0 <= i < |name| ==> IsWordChar(name[i])
  }

  predicate AllBare(names: set<string>) {
    forall n :: n in names ==> IsBare(n)
  }

  /// ## When the classifier agrees

  /** The word begins with the keyword and is longer. */
  predicate GoesBeyond(w: string, keyword: string) {
    keyword < w
  }

  /** A column whose name merely begins with UNIQUE or CHECK, such as `check_date DATE`. */
  predicate IsMisread(d: string) {
    GoesBeyond(FirstWord(d), "UNIQUE") || GoesBeyond(FirstWord(d), "CHECK")
  }

  /** A constraint the prefixes miss: a keyword followed by something other than the one blank they ask for. */
  predicate IsMissed(d: string) {
    var s := TrimLeft(d);
    var rest := s[|Word(s)|..];
    || (Is(FirstWord(d), "CONSTRAINT") && !StartsWith(rest, " "))
    || (Is(FirstWord(d), "PRIMARY") && !StartsWith(rest, " KEY"))
    || (Is(FirstWord(d), "FOREIGN") && !StartsWith(rest, " KEY"))
  }

  predicate IsCapital(c: char) {
    'A' <= c <= 'Z'
  }

  predicate AllCapitals(p: string) {
    forall i :: 0 <= i < |p| ==> IsCapital(p[i])
  }

  lemma CapitalsAreWordChars(c: char)
    requires IsCapital(Upper(c))
    ensures IsWordChar(c)
  {
  }

  /** Letters at the start of the text are at the start of its first word. */
  lemma LettersAreWord(s: string, p: string)
    requires AllCapitals(p)
    ensures StartsWith(s, p) <==> p <= ToUpper(Word(s))
  {
    hide IsWordChar;
    var w := Word(s);
    assert ToUpper(w) == ToUpper(s)[..|w|];
    if StartsWith(s, p) {
      if |w| < |p| {
        assert ToUpper(s)[|w|] == p[|w|] == Upper(s[|w|]);
        CapitalsAreWordChars(s[|w|]);
        assert false;
      }
      assert p == ToUpper(s)[..|p|];
    }
  }

  lemma UpperConcat(a: string, b: string)
    ensures ToUpper(a + b) == ToUpper(a) + ToUpper(b)
  {
  }

  /** A keyword and a blank at the start of the text: the keyword is the first word, and the blank follows it. */
  lemma KeywordAndBlank(s: string, p: string, tail: string)
    requires AllCapitals(p) && p != "" && tail != "" && tail[0] == ' '
    ensures StartsWith(s, p + tail) <==> ToUpper(Word(s)) == p && StartsWith(s[|Word(s)|..], tail)
  {
    hide IsWordChar, ToUpper, IsCapital;
    var w := Word(s);
    var rest := s[|w|..];
    assert s == w + rest;
    UpperConcat(w, rest);
    if StartsWith(s, p + tail) {
      KeywordIsWord(s, p, tail);
      assert ToUpper(s)[|p|..][..|tail|] == tail && ToUpper(s)[|p|..] == ToUpper(rest);
    }
  }

  lemma KeywordIsWord(s: string, p: string, tail: string)
    requires AllCapitals(p) && tail != "" && tail[0] == ' ' && StartsWith(s, p + tail)
    ensures ToUpper(Word(s)) == p
  {
    hide IsWordChar;
    assert p == ToUpper(s)[..|p|] && ToUpper(s)[|p|] == ' ' == Upper(s[|p|]);
    LettersAreWord(s, p);
    assert s[|p|] == ' ';
    BlankEndsWord(s, |p|);
  }

  lemma BlankEndsWord(s: string, i: nat)
    requires i < |s| && s[i] == ' '
    ensures |Word(s)| <= i
  {
  }

  lemma KeywordsAreCapitals()
    ensures AllCapitals("CONSTRAINT") && AllCapitals("PRIMARY") && AllCapitals("FOREIGN")
    ensures AllCapitals("UNIQUE") && AllCapitals("CHECK")
    ensures "CONSTRAINT" + " " == "CONSTRAINT " && "PRIMARY" + " KEY" == "PRIMARY KEY" && "FOREIGN" + " KEY" == "FOREIGN KEY"
  {
  }

  lemma PrefixCases(w: string, p: string)
    ensures p <= w <==> Is(w, p) || GoesBeyond(w, p)
  {
  }

  /** What the five prefixes test, in terms of the first word and what follows it. */
  lemma ClassifierByWord(d: string)
    ensures var s := TrimLeft(d);
            var rest := s[|Word(s)|..];
            var w := FirstWord(d);
            IsTableConstraint(d) <==>
            || (Is(w, "CONSTRAINT") && StartsWith(rest, " ")) || (Is(w, "PRIMARY") && StartsWith(rest, " KEY"))
            || (Is(w, "FOREIGN") && StartsWith(rest, " KEY"))
            || Is(w, "UNIQUE") || GoesBeyond(w, "UNIQUE") || Is(w, "CHECK") || GoesBeyond(w, "CHECK")
  {
    hide IsWordChar, StartsWith, AllCapitals;
    var s := TrimLeft(d);
    PrefixCases(FirstWord(d), "UNIQUE");
    PrefixCases(FirstWord(d), "CHECK");
    KeywordsAreCapitals();
    KeywordAndBlank(s, "CONSTRAINT", " ");
    KeywordAndBlank(s, "PRIMARY", " KEY");
    KeywordAndBlank(s, "FOREIGN", " KEY");
    LettersAreWord(s, "UNIQUE");
    LettersAreWord(s, "CHECK");
  }

  lemma OneKeyword(w: string, p: string, q: string, i: nat)
    requires i < |p| && i < |q| && p[i] != q[i]
    ensures !((Is(w, p) || GoesBeyond(w, p)) && (Is(w, q) || GoesBeyond(w, q)))
    ensures !(Is(w, p) && GoesBeyond(w, p))
  {
  }

  /** No word fits two of the keywords. */
  lemma KeywordsDiffer(w: string)
    ensures Is(w, "UNIQUE") || GoesBeyond(w, "UNIQUE") ==>
              !Is(w, "CONSTRAINT") && !Is(w, "PRIMARY") && !Is(w, "FOREIGN") && !Is(w, "CHECK") && !GoesBeyond(w, "CHECK")
    ensures Is(w, "CHECK") || GoesBeyond(w, "CHECK") ==> !Is(w, "CONSTRAINT") && !Is(w, "PRIMARY") && !Is(w, "FOREIGN")
    ensures Is(w, "CONSTRAINT") ==> !Is(w, "PRIMARY") && !Is(w, "FOREIGN")
    ensures Is(w, "PRIMARY") ==> !Is(w, "FOREIGN")
    ensures !(Is(w, "UNIQUE") && GoesBeyond(w, "UNIQUE")) && !(Is(w, "CHECK") && GoesBeyond(w, "CHECK"))
  {
    hide Is, GoesBeyond;
    OneKeyword(w, "UNIQUE", "CONSTRAINT", 0);
    OneKeyword(w, "UNIQUE", "PRIMARY", 0);
    OneKeyword(w, "UNIQUE", "FOREIGN", 0);
    OneKeyword(w, "UNIQUE", "CHECK", 0);
    OneKeyword(w, "CHECK", "CONSTRAINT", 1);
    OneKeyword(w, "CHECK", "PRIMARY", 0);
    OneKeyword(w, "CHECK", "FOREIGN", 0);
    OneKeyword(w, "CONSTRAINT", "PRIMARY", 0);
    OneKeyword(w, "CONSTRAINT", "FOREIGN", 0);
    OneKeyword(w, "PRIMARY", "FOREIGN", 0);
  }

  /** The classifier agrees with SQLite exactly on definitions that are neither misread nor missed. */
  lemma ClassifierAgrees(d: string)
    ensures (IsTableConstraint(d) <==> IsConstraintText(d)) <==> !IsMisread(d) && !IsMissed(d)
    ensures IsTableConstraint(d) && IsColumnText(d) <==> IsMisread(d)
    ensures IsColumn(d) && IsConstraintText(d) <==> IsMissed(d)
  {
    hide IsTableConstraint, StartsWith, IsWordChar, FirstWord, Is, GoesBeyond;
    ClassifierByWord(d);
    KeywordsDiffer(FirstWord(d));
  }

  /// ## Edited lists of definitions

  /** A UNIQUE the migration recognises is a constraint for SQLite too. */
  lemma UniqueIsConstraint(d: string)
    requires Trimmed(d) && UniqueColumns(d).Some?
    ensures IsConstraintText(d)
  {
    hide NormalizeColumns, Trim, IsWordChar, StartsWith, UniqueList;
    TrimOfTrimmed(d);
    TrimLeftOfTrimmed(d);
    if StartsWith(d, "CONSTRAINT") {
      NameFollows(d);
    } else {
      ListFollows(d);
    }
  }

  /** A keyword that ends where a character outside words stands is the first word. */
  lemma WordEndsAt(s: string, p: string)
    requires AllCapitals(p) && StartsWith(s, p) && |p| < |s| && !IsWordChar(s[|p|])
    ensures ToUpper(Word(s)) == p
  {
    hide IsWordChar;
    LettersAreWord(s, p);
    assert |Word(s)| <= |p|;
  }

  lemma NameFollows(d: string)
    requires StartsWith(d, "CONSTRAINT") && |TrimLeft(d[10..])| < |d| - 10
    ensures ToUpper(Word(d)) == "CONSTRAINT"
  {
    KeywordsAreCapitals();
    assert IsSpace(d[10..][0]);
    WordEndsAt(d, "CONSTRAINT");
  }

  lemma ListFollows(d: string)
    requires UniqueList(d).Some?
    ensures ToUpper(Word(d)) == "UNIQUE"
  {
    hide NormalizeColumns;
    KeywordsAreCapitals();
    var rest := d[6..];
    assert rest[0] == '(' || IsSpace(rest[0]);
    WordEndsAt(d, "UNIQUE");
  }

  lemma RestoredIsConstraint(columns: string)
    ensures IsConstraintText(UniqueDefinition(columns))
  {
    hide UniqueColumns, IsConstraintText, NormalizeColumns;
    UniqueDefinitionRead(columns);
    UniqueIsConstraint(UniqueDefinition(columns));
  }

  predicate AllTrimmed(definitions: seq<string>) {
    forall d :: d in definitions ==> Trimmed(d)
  }

  lemma InOrderConcat(a: seq<string>, b: seq<string>)
    ensures InOrder(a + b) <==>
            InOrder(a) && InOrder(b) && forall x, y :: x in a && y in b ==> MayPrecede(x, y)
  {
    hide MayPrecede;
    var all := a + b;
    if InOrder(all) {
      assert forall i :: 0 <= i < |a| ==> all[i] == a[i];
      assert forall j :: 0 <= j < |b| ==> all[|a| + j] == b[j];
      forall x, y | x in a && y in b
        ensures MayPrecede(x, y)
      {
        var i, j :| 0 <= i < |a| && a[i] == x && 0 <= j < |b| && b[j] == y;
        assert MayPrecede(all[i], all[|a| + j]);
      }
      forall i, j | 0 <= i < j < |b|
        ensures MayPrecede(b[i], b[j])
      {
        assert MayPrecede(all[|a| + i], all[|a| + j]);
      }
    }
  }

  lemma {:induction false} InOrderFilter(p: string -> bool, s: seq<string>)
    requires InOrder(s)
    ensures InOrder(Filter(p, s))
  {
    hide MayPrecede;
    if s != [] {
      assert s == [s[0]] + s[1..];
      InOrderConcat([s[0]], s[1..]);
      InOrderFilter(p, s[1..]);
      InOrderConcat([s[0]], Filter(p, s[1..]));
    }
  }

  /** Two definitions of an ordered list that the classifier takes for a column and a constraint may stand in that order. */
  lemma ColumnBeforeConstraint(definitions: seq<string>, x: string, y: string)
    requires InOrder(definitions) && x in definitions && y in definitions && IsColumn(x) && IsTableConstraint(y)
    requires IsColumnText(x)
    ensures MayPrecede(x, y)
  {
    hide IsTableConstraint, IsConstraintText, TokenName;
    var i, j :| 0 <= i < |definitions| && definitions[i] == x && 0 <= j < |definitions| && definitions[j] == y;
    assert i != j;
    assert if i < j then MayPrecede(x, y) else MayPrecede(y, x);
  }

  ghost predicate NoneMissed(definitions: seq<string>) {
    forall d :: d in definitions ==> !IsMissed(d)
  }

  ghost predicate NoneMisread(definitions: seq<string>) {
    forall d :: d in definitions ==> !IsMisread(d)
  }

  /** Dropping a recognised UNIQUE drops no column. */
  lemma PartsKeepColumns(definitions: seq<string>, target: seq<string>, d: string)
    requires AllTrimmed(definitions) && d in definitions && IsColumnText(d)
    ensures d in ColumnsOf(definitions) || d in OthersOf(definitions, target)
  {
    hide IsTableConstraint, IsConstraintText, UniqueColumns, Trimmed;
    if UniqueColumns(d).Some? {
      UniqueIsConstraint(d);
    }
  }

  /**
   CREATE TABLE takes the rebuilt list exactly when the classifier missed no
   constraint of the old table and no column has the new name.
   */
  lemma RebuiltCreatable(definitions: seq<string>, newColumn: string, unique: string)
    requires Creatable(definitions) && AllTrimmed(definitions) && IsColumnText(newColumn)
    requires RebuiltDefinitions(definitions, newColumn, unique).Success?
    ensures Creatable(RebuiltDefinitions(definitions, newColumn, unique).value)
            <==> NoneMissed(definitions) && TokenName(newColumn) !in ColumnSet(definitions)
  {
    hide IsTableConstraint, IsConstraintText, UniqueColumns, NormalizeColumns, TokenName, Trimmed, ColumnName, IsMissed, IsMisread;
    var target := NormalizeColumns(unique);
    var columns, others := ColumnsOf(definitions), OthersOf(definitions, target);
    var rebuilt := columns + [newColumn] + others;
    assert newColumn in rebuilt;
    InOrderFilter(IsColumn, definitions);
    InOrderFilter(IsTableConstraint, definitions);
    InOrderFilter(Not(IsUniqueOn(target)), ConstraintsOf(definitions));
    InOrderConcat(columns + [newColumn], others);
    InOrderConcat(columns, [newColumn]);
    if Creatable(rebuilt) {
      forall d | d in definitions
        ensures !IsMissed(d)
      {
        ClassifierAgrees(d);
        assert d in columns ==> MayPrecede(d, newColumn);
      }
      forall d | d in definitions && IsColumnText(d)
        ensures TokenName(d) != TokenName(newColumn)
      {
        PartsKeepColumns(definitions, target, d);
        assert MayPrecede(d, newColumn) || MayPrecede(newColumn, d);
      }
    }
    if NoneMissed(definitions) && TokenName(newColumn) !in ColumnSet(definitions) {
      forall d | d in columns
        ensures IsColumnText(d) && MayPrecede(d, newColumn)
      {
        ClassifierAgrees(d);
        assert TokenName(d) in ColumnSet(definitions);
      }
      forall x, y | x in columns + [newColumn] && y in others
        ensures MayPrecede(x, y)
      {
        if x in columns {
          ColumnBeforeConstraint(definitions, x, y);
        } else if IsColumnText(y) {
          assert TokenName(y) in ColumnSet(definitions);
        }
      }
    }
  }

  /** After an upgrade, CREATE TABLE takes the restored list exactly when no column was misread as a constraint. */
  lemma RestoredCreatable(definitions: seq<string>, unique: string)
    requires Creatable(definitions) && AllTrimmed(definitions) && NoneMissed(definitions)
    ensures Creatable(RestoredDefinitions(definitions, unique)) <==> NoneMisread(definitions)
  {
    hide IsTableConstraint, IsConstraintText, UniqueColumns, NormalizeColumns, TokenName, Trimmed, IsMissed, IsMisread, UniqueDefinition;
    var target := NormalizeColumns(unique);
    var columns, others, u := ColumnsOf(definitions), OthersOf(definitions, target), UniqueDefinition(unique);
    RestoredIsConstraint(unique);
    InOrderFilter(IsColumn, definitions);
    InOrderFilter(IsTableConstraint, definitions);
    InOrderFilter(Not(IsUniqueOn(target)), ConstraintsOf(definitions));
    InOrderConcat(columns, [u] + others);
    InOrderConcat([u], others);
    if Creatable(RestoredDefinitions(definitions, unique)) {
      forall d | d in definitions
        ensures !IsMisread(d)
      {
        ClassifierAgrees(d);
        PartsKeepColumnsIf(definitions, target, d);
        assert d in others ==> MayPrecede(u, d);
      }
    }
    if NoneMisread(definitions) {
      forall d | d in definitions
        ensures IsTableConstraint(d) <==> IsConstraintText(d)
      {
        ClassifierAgrees(d);
      }
      forall x, y | x in columns && y in [u] + others
        ensures MayPrecede(x, y)
      {
      }
      var d :| d in definitions && IsColumnText(d);
      assert d in columns && d in RestoredDefinitions(definitions, unique);
    }
  }

  lemma PartsKeepColumnsIf(definitions: seq<string>, target: seq<string>, d: string)
    requires AllTrimmed(definitions) && d in definitions
    ensures IsColumnText(d) && IsTableConstraint(d) ==> d in OthersOf(definitions, target)
  {
    hide IsTableConstraint, IsConstraintText, UniqueColumns, Trimmed;
    if IsColumnText(d) {
      PartsKeepColumns(definitions, target, d);
    }
  }

  /** The rebuilt table has the old columns and the new one. */
  lemma ColumnSetRebuilt(definitions: seq<string>, newColumn: string, unique: string)
    requires AllTrimmed(definitions) && IsColumnText(newColumn)
    requires RebuiltDefinitions(definitions, newColumn, unique).Success?
    ensures ColumnSet(RebuiltDefinitions(definitions, newColumn, unique).value) == ColumnSet(definitions) + {TokenName(newColumn)}
  {
    hide IsTableConstraint, IsConstraintText, UniqueColumns, NormalizeColumns, TokenName, Trimmed, ColumnName;
    var rebuilt := RebuiltDefinitions(definitions, newColumn, unique).value;
    forall d | d in definitions && IsColumnText(d)
      ensures d in rebuilt
    {
      PartsKeepColumns(definitions, NormalizeColumns(unique), d);
    }
    assert newColumn in rebuilt;
  }

  /** The restored table has the old columns. */
  lemma ColumnSetRestored(definitions: seq<string>, unique: string)
    requires AllTrimmed(definitions)
    ensures ColumnSet(RestoredDefinitions(definitions, unique)) == ColumnSet(definitions)
  {
    hide IsTableConstraint, IsConstraintText, UniqueColumns, NormalizeColumns, TokenName, Trimmed, UniqueDefinition;
    var restored := RestoredDefinitions(definitions, unique);
    RestoredIsConstraint(unique);
    forall d | d in definitions && IsColumnText(d)
      ensures d in restored
    {
      PartsKeepColumns(definitions, NormalizeColumns(unique), d);
    }
  }

  /** The restored list has no missed constraint when the original has neither kind of slip. */
  lemma RestoredNoneMissed(definitions: seq<string>, unique: string)
    requires NoneMissed(definitions)
    ensures NoneMissed(RestoredDefinitions(definitions, unique))
  {
    hide IsTableConstraint, IsConstraintText, UniqueColumns, NormalizeColumns, IsMissed, IsMisread, UniqueDefinition;
    UniqueDefinitionRead(unique);
    ClassifierAgrees(UniqueDefinition(unique));
  }

  /// ## Names

  lemma {:induction false} DequotedToFirst(t: string, q: char)
    requires IndexOf(t, q) < |t|
    ensures var n := IndexOf(t, q);
            if n + 1 < |t| && t[n + 1] == q then q in Dequoted(t, q) else Dequoted(t, q) == t[..n]
  {
    var n := IndexOf(t, q);
    if t[0] != q {
      DequotedToFirst(t[1..], q);
      assert t[..n] == [t[0]] + t[1..][..n - 1];
    }
  }

  lemma {:induction false} RunIsWord(s: string)
    requires forall i :: 0 <= i < |NonSpaceRun(s)| ==> IsWordChar(NonSpaceRun(s)[i])
    ensures Word(s) == NonSpaceRun(s)
  {
    if s != "" && !IsSpace(s[0]) {
      assert NonSpaceRun(s)[0] == s[0] && NonSpaceRun(s)[1..] == NonSpaceRun(s[1..]);
      RunIsWord(s[1..]);
    }
  }

  /** A name of letters, digits and underscores that is no keyword of a table constraint. */
  predicate IsPlainName(name: string) {
    && name != "" && (forall i :: 0 <= i < |name| ==> IsWordChar(name[i]))
    && !IsConstraintWord(ToUpper(name))
  }

  lemma LowerWordChar(c: char)
    ensures IsWordChar(Lower(c)) <==> IsWordChar(c)
    ensures Upper(Lower(c)) == Upper(c)
  {
  }

  lemma QuotesAreNoWordChars()
    ensures !IsWordChar('"') && !IsWordChar('`') && !IsWordChar('\'') && !IsWordChar('[')
  {
  }

  /** A column the classifier reads under a plain name has that name, or one that cannot be copied. */
  lemma NamedToken(d: string, name: string)
    requires Trimmed(d) && IsColumn(d) && ColumnName(d) == Some(name) && IsPlainName(name)
    ensures IsColumnText(d) && (TokenName(d) == name || !IsBare(TokenName(d)))
  {
    hide IsWordChar, IsTableConstraint, IsReserved, IsSpace;
    TrimLeftOfTrimmed(d);
    QuotesAreNoWordChars();
    var run := NonSpaceRun(d);
    if d[0] == '"' || d[0] == '`' || d[0] == '[' || d[0] == '\'' {
      assert Word(d) == "" && ToUpper("") == "";
      QuotedToken(d, name);
    } else {
      assert name == ToLower(run);
      forall i | 0 <= i < |run|
        ensures IsWordChar(run[i])
      {
        LowerWordChar(run[i]);
        assert name[i] == Lower(run[i]);
      }
      RunIsWord(d);
      UpperOfLower(run);
    }
  }

  lemma UpperOfLower(s: string)
    ensures ToUpper(ToLower(s)) == ToUpper(s)
  {
    forall i | 0 <= i < |s|
      ensures ToUpper(ToLower(s))[i] == ToUpper(s)[i]
    {
      LowerWordChar(s[i]);
    }
  }

  lemma QuotedToken(d: string, name: string)
    requires Trimmed(d) && IsColumn(d) && ColumnName(d) == Some(name) && IsPlainName(name)
    requires d[0] == '"' || d[0] == '`' || d[0] == '[' || d[0] == '\''
    ensures TokenName(d) == name || !IsBare(TokenName(d))
  {
    hide IsWordChar, IsTableConstraint, IsReserved, IsSpace;
    TrimLeftOfTrimmed(d);
    QuotesAreNoWordChars();
    NoRunName(d, name);
    var q := if d[0] == '[' then ']' else d[0];
    assert Enclosed(d, q).Some?;
    var t := d[1..];
    if d[0] != '[' {
      DequotedToFirst(t, q);
      if q in Dequoted(t, q) {
        var i :| 0 <= i < |Dequoted(t, q)| && Dequoted(t, q)[i] == q;
        assert TokenName(d)[i] == q;
      }
    }
  }

  /** A text that starts with a quote has no plain name as its first run. */
  lemma NoRunName(d: string, name: string)
    requires Trimmed(d) && IsPlainName(name) && !IsWordChar(d[0]) && Lower(d[0]) == d[0]
    ensures ToLower(NonSpaceRun(d)) != name
  {
    hide IsWordChar, IsSpace;
    assert ToLower(NonSpaceRun(d))[0] == d[0];
  }

  lemma NotNamedInsert(kept: seq<string>, unique: string)
    ensures ColumnSet(InsertUnique(kept, unique)) == ColumnSet(kept)
  {
    hide IsTableConstraint, IsConstraintText, TokenName, UniqueDefinition, UniqueColumns;
    RestoredIsConstraint(unique);
    var i := FirstConstraint(kept);
    assert kept == kept[..i] + kept[i..];
  }

  /** Of the columns, a downgrade keeps those with another name. */
  lemma KeptColumns(definitions: seq<string>, low: string, d: string)
    requires InOrder(definitions) && AllTrimmed(definitions) && IsPlainName(low)
    requires |Filter(IsNamed(low), definitions)| == 1 && AllBare(ColumnSet(definitions) - {low})
    requires d in definitions && IsColumnText(d)
    ensures d in Filter(Not(IsNamed(low)), definitions) <==> TokenName(d) != low
    ensures low in ColumnSet(definitions)
  {
    hide IsTableConstraint, IsConstraintText, TokenName, ColumnName, Trimmed, IsBare, IsPlainName;
    var d0 := Filter(IsNamed(low), definitions)[0];
    assert d0 in Filter(IsNamed(low), definitions) && d0 in definitions;
    NamedColumn(definitions, low, d0);
    if IsNamed(low)(d) {
      NamedColumn(definitions, low, d);
    } else {
      SameNameApart(definitions, d, d0);
    }
  }

  lemma NamedColumn(definitions: seq<string>, low: string, d: string)
    requires AllTrimmed(definitions) && IsPlainName(low) && AllBare(ColumnSet(definitions) - {low})
    requires d in definitions && IsNamed(low)(d)
    ensures IsColumnText(d) && TokenName(d) == low && low in ColumnSet(definitions)
  {
    hide IsTableConstraint, IsConstraintText, TokenName, ColumnName, Trimmed, IsBare, IsPlainName;
    NamedToken(d, low);
    assert TokenName(d) in ColumnSet(definitions);
  }

  lemma SameNameApart(definitions: seq<string>, d: string, e: string)
    requires InOrder(definitions) && d in definitions && e in definitions && d != e && IsColumnText(d) && IsColumnText(e)
    ensures TokenName(d) != TokenName(e)
  {
    hide IsConstraintText, TokenName;
    var i, j :| 0 <= i < |definitions| && definitions[i] == d && 0 <= j < |definitions| && definitions[j] == e;
    assert if i < j then MayPrecede(d, e) else MayPrecede(e, d);
  }

  /** Dropping the one column read under `column` drops exactly that column, when the others can be copied. */
  lemma ColumnSetReduced(definitions: seq<string>, column: string, unique: string)
    requires Creatable(definitions) && AllTrimmed(definitions) && IsPlainName(ToLower(column)) && unique != ""
    requires ReducedDefinitions(definitions, column, unique).Success?
    requires AllBare(ColumnSet(definitions) - {ToLower(column)})
    ensures ToLower(column) in ColumnSet(definitions)
    ensures ColumnSet(ReducedDefinitions(definitions, column, unique).value) == ColumnSet(definitions) - {ToLower(column)}
  {
    hide IsTableConstraint, IsConstraintText, UniqueColumns, NormalizeColumns, UniqueDefinition, InsertUnique, TokenName,
         ColumnName, Trimmed, ToLower, IsBare, IsPlainName, InOrder, AllBare;
    var low := ToLower(column);
    var kept := Filter(Not(IsNamed(low)), definitions);
    NotNamedInsert(kept, unique);
    forall d | d in definitions && IsColumnText(d)
      ensures d in kept <==> TokenName(d) != low
      ensures low in ColumnSet(definitions)
    {
      KeptColumns(definitions, low, d);
    }
  }

  lemma {:induction false} BeforeFirstConstraint(definitions: seq<string>)
    ensures var i := FirstConstraint(definitions);
            && (forall k :: 0 <= k < i ==> IsColumn(definitions[k]))
            && (i < |definitions| ==> IsTableConstraint(definitions[i]))
  {
    hide IsTableConstraint;
    if definitions != [] && IsColumn(definitions[0]) {
      var rest := definitions[1..];
      BeforeFirstConstraint(rest);
      forall k | 0 <= k < FirstConstraint(definitions)
        ensures IsColumn(definitions[k])
      {
        assert k > 0 ==> definitions[k] == rest[k - 1];
      }
    }
  }

  /** A UNIQUE written before the first constraint of an ordered list keeps the order exactly when nothing is misread. */
  lemma InsertKeepsOrder(kept: seq<string>, unique: string)
    requires InOrder(kept)
    ensures InOrder(InsertUnique(kept, unique)) <==> NoneMisread(kept)
  {
    hide IsTableConstraint, IsConstraintText, TokenName, UniqueDefinition, IsMisread, IsMissed, InOrder;
    var i, u := FirstConstraint(kept), UniqueDefinition(unique);
    var front, back := kept[..i], kept[i..];
    assert kept == front + back;
    RestoredIsConstraint(unique);
    BeforeFirstConstraint(kept);
    InOrderConcat(front, back);
    InOrderConcat(front + [u], back);
    InOrderConcat(front, [u]);
    SingleInOrder(u);
    if InOrder(InsertUnique(kept, unique)) {
      forall d | d in kept
        ensures !IsMisread(d)
      {
        ClassifierAgrees(d);
        assert d in back ==> MayPrecede(u, d);
      }
    }
    if NoneMisread(kept) {
      forall y | y in back
        ensures IsConstraintText(y)
      {
        FirstOfBack(back, y);
        ClassifierAgrees(back[0]);
      }
    }
  }

  lemma SingleInOrder(d: string)
    ensures InOrder([d])
  {
  }

  lemma FirstOfBack(back: seq<string>, y: string)
    requires InOrder(back) && y in back
    ensures IsConstraintText(back[0]) ==> IsConstraintText(y)
  {
    hide IsConstraintText, TokenName;
    var k :| 0 <= k < |back| && back[k] == y;
    assert k > 0 ==> MayPrecede(back[0], back[k]);
  }

  /**
   CREATE TABLE takes the list without the dropped column exactly when no column
   was misread as a constraint and another column is left.
   */
  lemma ReducedCreatable(definitions: seq<string>, column: string, unique: string)
    requires Creatable(definitions) && AllTrimmed(definitions) && IsPlainName(ToLower(column)) && unique != ""
    requires ReducedDefinitions(definitions, column, unique).Success?
    requires AllBare(ColumnSet(definitions) - {ToLower(column)})
    ensures Creatable(ReducedDefinitions(definitions, column, unique).value)
            <==> NoneMisread(definitions) && ColumnSet(definitions) != {ToLower(column)}
  {
    hide IsTableConstraint, IsConstraintText, UniqueColumns, NormalizeColumns, UniqueDefinition, InsertUnique, TokenName,
         ColumnName, Trimmed, ToLower, IsBare, IsPlainName, InOrder, AllBare, IsMisread, IsMissed;
    var low := ToLower(column);
    var kept := Filter(Not(IsNamed(low)), definitions);
    var reduced := ReducedDefinitions(definitions, column, unique).value;
    InOrderFilter(Not(IsNamed(low)), definitions);
    InsertKeepsOrder(kept, unique);
    ColumnSetReduced(definitions, column, unique);
    forall d | d in definitions && IsMisread(d)
      ensures d in kept
    {
      ClassifierAgrees(d);
    }
    HasColumn(reduced);
    assert ColumnSet(definitions) != {low} <==> ColumnSet(reduced) != {} by {
      OneLess(ColumnSet(definitions), low);
    }
  }

  lemma OneLess(columns: set<string>, low: string)
    requires low in columns
    ensures columns != {low} <==> columns - {low} != {}
  {
    if columns - {low} == {} {
      assert columns == {low};
    }
  }

  lemma HasColumn(definitions: seq<string>)
    ensures ColumnSet(definitions) != {} <==> exists d :: d in definitions && IsColumnText(d)
  {
    hide IsConstraintText, TokenName;
    if d :| d in definitions && IsColumnText(d) {
      assert TokenName(d) in ColumnSet(definitions);
    }
    if n :| n in ColumnSet(definitions) {
      var d :| d in definitions && IsColumnText(d) && TokenName(d) == n;
    }
  }

  /// ## A misread column

  /** The upgrade takes a table with a misread column, and the list its downgrade prints is no table. */
  lemma MisreadStopsDowngrade(d: string, newColumn: string, column: string, unique: string)
    requires Trimmed(d) && GoesBeyond(FirstWord(d), "CHECK") && unique != ""
    requires Trimmed(newColumn) && 2 <= |newColumn| && newColumn[0] == 'c' && newColumn[1] == 'y'
    requires ColumnName(newColumn) == Some(ToLower(column))
    ensures RebuiltDefinitions([d, UniqueDefinition(unique)], newColumn, unique) == Success([newColumn, d])
    ensures ReducedDefinitions([newColumn, d], column, unique) == Success([UniqueDefinition(unique), d])
    ensures !Creatable([UniqueDefinition(unique), d])
  {
    hide *;
    MisreadStartsWithCheck(d);
    CycleColumnRead(newColumn);
    MisreadColumn(d, newColumn, unique);
    ReducedAfterRebuilt([d, UniqueDefinition(unique)], newColumn, column, unique);
    ReadsAsCheck(d);
    RestoredOfMisread(d, unique);
    RestoredIsConstraint(unique);
    ColumnAfterConstraint(UniqueDefinition(unique), d);
  }

  lemma MisreadStartsWithCheck(d: string)
    requires Trimmed(d) && GoesBeyond(FirstWord(d), "CHECK")
    ensures StartsWith(d, "CHECK") && IsColumnText(d)
  {
    hide IsWordChar, StartsWith, AllCapitals, IsTableConstraint, IsMissed;
    TrimLeftOfTrimmed(d);
    KeywordsAreCapitals();
    LettersAreWord(d, "CHECK");
    ClassifierAgrees(d);
  }

  lemma ColumnAfterConstraint(a: string, b: string)
    requires IsConstraintText(a) && IsColumnText(b)
    ensures !Creatable([a, b])
  {
    hide IsConstraintText, TokenName;
    assert !MayPrecede([a, b][0], [a, b][1]);
  }

  lemma RestoredOfMisread(d: string, unique: string)
    requires IsTableConstraint(d) && UniqueColumns(d) == None
    ensures RestoredDefinitions([d, UniqueDefinition(unique)], unique) == [UniqueDefinition(unique), d]
  {
    hide IsTableConstraint, UniqueColumns, NormalizeColumns, UniqueDefinition;
    var u, target := UniqueDefinition(unique), NormalizeColumns(unique);
    UniqueDefinitionRead(unique);
    FilterNone(IsColumn, [d, u]);
    FilterAll(IsTableConstraint, [d, u]);
    FilterConcat(Not(IsUniqueOn(target)), [d], [u]);
    FilterAll(Not(IsUniqueOn(target)), [d]);
    FilterNone(Not(IsUniqueOn(target)), [u]);
    assert [d] + [u] == [d, u] && [d] + [] == [d];
  }
}
