/**
 The splitter of revision 0096: a CREATE TABLE statement taken apart into its
 definitions, and put together again around an edited list of them.
 */
module SqlStatement {
  import opened Common
  import opened Strings
  import opened SqlGrammar

  datatype SqlError =
    | InvalidStatement
    | UnbalancedStatement
    | EmptyDefinition
    | NameNotRewritable
    | UnparsableColumn
    | UniqueCount(found: nat)
    | ColumnExists
    | ColumnCount(found: nat)
    | UniqueExists
    | TableMissing
    | ReplacementExists
    | UnboundParameter
    | InvalidTable
    | NamesUnquoted
    | UniqueViolated
    | NoSuchColumn
    | CycleRowsExist

  /** The open and close parenthesis of the body, and the trimmed definitions between them. */
  datatype Statement = Statement(open: nat, close: nat, definitions: seq<string>)

  function TrimAll(ps: seq<string>): (r: seq<string>)
    ensures |r| == |ps|
  {
    seq(|ps|, i requires 0 <= i < |ps| => Trim(ps[i]))
  }

  function Split(sql: string): Result<Statement, SqlError> {
    var open, after := IndexOf(sql, '('), AfterLast(sql, ')');
    if open == |sql| || after <= open + 1 then Failure(InvalidStatement)
    else
      match Cut(sql[open + 1..after - 1])
      case None => Failure(UnbalancedStatement)
      case Some(ps) =>
        if "" in TrimAll(ps) then Failure(EmptyDefinition)
        else Success(Statement(open, after - 1, TrimAll(ps)))
  }

  /// ## The scanning loop

  function ModeOf(quote: Option<char>, bracketQuote: bool): Mode {
    if bracketQuote then InBracket
    else match quote
         case None => Text
         case Some(q) => InQuote(q)
  }

  function Prepend(front: seq<string>, more: Option<seq<string>>): Option<seq<string>> {
    match more
    case None => None
    case Some(ps) => Some(front + ps)
  }

  lemma PrependNone(more: Option<seq<string>>)
    ensures Prepend([], more) == more
  {
    assert more.Some? ==> [] + more.value == more.value;
  }

  lemma TrimAllNone()
    ensures TrimAll([]) == []
  {
  }

  lemma TrimAllSnoc(ps: seq<string>, p: string)
    ensures TrimAll(ps + [p]) == TrimAll(ps) + [Trim(p)]
  {
    hide Trim;
    forall i | 0 <= i <= |ps|
      ensures TrimAll(ps + [p])[i] == (TrimAll(ps) + [Trim(p)])[i]
    {
      assert (ps + [p])[i] == if i < |ps| then ps[i] else p;
    }
  }

  lemma CutAtComma(pieces: seq<string>, current: string, s: string)
    requires s != "" && s[0] == ','
    ensures Prepend(pieces, Scan(0, Text, current, s)) == Prepend(pieces + [current], Scan(0, Text, "", s[1..]))
  {
    var more := Scan(0, Text, "", s[1..]);
    assert more.Some? ==> pieces + ([current] + more.value) == pieces + [current] + more.value;
  }

  method SplitDefinitions(sql: string) returns (r: Result<Statement, SqlError>)
    ensures r == Split(sql)
  {
    hide Trim, IndexOf, AfterLast, TrimAll;
    var open, after := IndexOf(sql, '('), AfterLast(sql, ')');
    if open == |sql| || after <= open + 1 {
      return Failure(InvalidStatement);
    }
    var body := sql[open + 1..after - 1];
    var definitions: seq<string> := [];
    ghost var pieces: seq<string> := [];
    var start, depth := 0, 0;
    var quote: Option<char> := None;
    var bracketQuote := false;
    PrependNone(Cut(body));
    TrimAllNone();
    assert body[0..0] == "" && body[0..] == body;
    for index := 0 to |body|
      invariant 0 <= start <= index
      invariant 0 <= depth
      invariant bracketQuote ==> quote == None
      invariant definitions == TrimAll(pieces)
      invariant Cut(body)
             == Prepend(pieces, Scan(depth, ModeOf(quote, bracketQuote), body[start..index], body[index..]))
    {
      var c := body[index];
      assert body[index..][0] == c && body[index..][1..] == body[index + 1..];
      assert body[start..index] + [c] == body[start..index + 1];
      if bracketQuote {
        if c == ']' {
          bracketQuote := false;
        }
      } else if quote.Some? {
        if c == quote.value {
          quote := None;
        }
      } else if IsQuote(c) {
        quote := Some(c);
      } else if c == '[' {
        bracketQuote := true;
      } else if c == '(' {
        depth := depth + 1;
      } else if c == ')' {
        depth := depth - 1;
        if depth < 0 {
          return Failure(UnbalancedStatement);
        }
      } else if c == ',' && depth == 0 {
        TrimAllSnoc(pieces, body[start..index]);
        CutAtComma(pieces, body[start..index], body[index..]);
        definitions := definitions + [Trim(body[start..index])];
        pieces := pieces + [body[start..index]];
        start := index + 1;
        assert body[start..index + 1] == "";
      }
    }
    assert body[|body|..] == "" && body[start..|body|] == body[start..];
    TrimAllSnoc(pieces, body[start..]);
    definitions := definitions + [Trim(body[start..])];
    pieces := pieces + [body[start..]];
    if depth != 0 || quote.Some? || bracketQuote {
      return Failure(UnbalancedStatement);
    }
    assert Cut(body) == Some(pieces);
    if "" in definitions {
      return Failure(EmptyDefinition);
    }
    return Success(Statement(open, after - 1, definitions));
  }

  /// ## Splitting and building

  /** The text of a statement with the given parts. */
  function Print(prefix: string, body: string, suffix: string): (sql: string)
    ensures |sql| == |prefix| + |body| + |suffix| + 2
    ensures sql[..|prefix|] == prefix && sql[|prefix|..] == "(" + body + ")" + suffix
    ensures sql[|prefix| + 1..|prefix| + 1 + |body|] == body && sql[|prefix| + 2 + |body|..] == suffix
  {
    prefix + "(" + body + ")" + suffix
  }

  ghost predicate GoodDefinitions(defs: seq<string>) {
    |defs| >= 1 && forall d :: d in defs ==> Trimmed(d) && IsDefinition(d)
  }

  /** `body` is a list of definitions joined by commas, none of them blank. */
  ghost predicate IsDefinitionList(body: string) {
    exists ps :: |ps| >= 1 && AllDefinitions(ps) && Join(ps, ",") == body && NoneBlank(ps)
  }

  ghost predicate NoneBlank(ps: seq<string>) {
    forall i :: 0 <= i < |ps| ==> Trim(ps[i]) != ""
  }

  lemma CutAccepts(body: string)
    ensures IsDefinitionList(body) <==> Cut(body).Some? && "" !in TrimAll(Cut(body).value)
  {
    if Cut(body).Some? {
      var ps := Cut(body).value;
      CutIffGrammar(body, ps);
      assert forall i :: 0 <= i < |ps| ==> TrimAll(ps)[i] == Trim(ps[i]);
      assert "" !in TrimAll(ps) <==> NoneBlank(ps);
    }
    if IsDefinitionList(body) {
      var qs :| |qs| >= 1 && AllDefinitions(qs) && Join(qs, ",") == body && NoneBlank(qs);
      CutIffGrammar(body, qs);
    }
  }

  /** The splitter accepts exactly the statements whose outermost parentheses hold a list of non-blank definitions. */
  lemma SplitAccepts(sql: string)
    ensures Split(sql).Success? <==>
            && IndexOf(sql, '(') + 1 < AfterLast(sql, ')')
            && IsDefinitionList(sql[IndexOf(sql, '(') + 1..AfterLast(sql, ')') - 1])
  {
    hide IndexOf, AfterLast, Cut, IsDefinitionList, TrimAll;
    if IndexOf(sql, '(') + 1 < AfterLast(sql, ')') {
      CutAccepts(sql[IndexOf(sql, '(') + 1..AfterLast(sql, ')') - 1]);
    }
  }

  /** Every definition the splitter returns is trimmed, non-empty, balanced and free of top-level commas. */
  lemma SplitGivesDefinitions(sql: string)
    requires Split(sql).Success?
    ensures var st := Split(sql).value;
            && st.open < st.close < |sql| && sql[st.open] == '(' && sql[st.close] == ')'
            && '(' !in sql[..st.open] && ')' !in sql[st.close + 1..]
            && GoodDefinitions(st.definitions)
            && (forall i :: 0 <= i < |st.definitions| ==>
                  st.definitions[i] == Trim(Cut(sql[st.open + 1..st.close]).value[i]))
  {
    var st := Split(sql).value;
    var ps := Cut(sql[st.open + 1..st.close]).value;
    CutIffGrammar(sql[st.open + 1..st.close], ps);
    forall d | d in st.definitions
      ensures Trimmed(d) && IsDefinition(d)
    {
      var i :| 0 <= i < |ps| && d == TrimAll(ps)[i];
      assert ps[i] in ps;
      TrimDefinition(ps[i]);
      var l := TrimLeft(ps[i]);
      assert d != "" && d == TrimRight(l) && d[0] == l[0];
    }
  }

  /** The pieces of a list printed with ", " between its items. */
  function Spaced(defs: seq<string>): (r: seq<string>)
    ensures |r| == |defs|
  {
    seq(|defs|, i requires 0 <= i < |defs| => if i == 0 then defs[0] else " " + defs[i])
  }

  lemma {:induction false} JoinSpaced(defs: seq<string>)
    requires |defs| >= 1
    ensures Join(defs, ", ") == Join(Spaced(defs), ",")
    decreases |defs|
  {
    if |defs| > 1 {
      var rest := defs[1..];
      JoinSpaced(rest);
      var tail := Spaced(defs)[1..];
      assert tail == [" " + rest[0]] + Spaced(rest)[1..];
      JoinFront(" ", Spaced(rest));
      assert tail == [" " + Spaced(rest)[0]] + Spaced(rest)[1..];
      assert ", " == "," + " ";
      assert defs[0] + ", " + Join(rest, ", ") == defs[0] + "," + (" " + Join(rest, ", "));
    }
  }

  lemma JoinFront(front: string, ps: seq<string>)
    requires |ps| >= 1
    ensures Join([front + ps[0]] + ps[1..], ",") == front + Join(ps, ",")
  {
    var r := Prefix(front, ps);
  }

  lemma CutOfPrinted(defs: seq<string>)
    requires GoodDefinitions(defs)
    ensures Cut(Join(defs, ", ")).Some? && TrimAll(Cut(Join(defs, ", ")).value) == defs
  {
    hide IsDefinition, Trim, IsSpace;
    var ps := Spaced(defs);
    JoinSpaced(defs);
    forall p | p in ps
      ensures IsDefinition(p)
    {
      var i :| 0 <= i < |ps| && p == ps[i];
      assert defs[i] in defs;
      SpaceBeforeDefinition(defs[i]);
    }
    CutIffGrammar(Join(defs, ", "), ps);
    forall i | 0 <= i < |ps|
      ensures Trim(ps[i]) == defs[i]
    {
      assert defs[i] in defs;
      TrimOfTrimmed(defs[i]);
    }
  }

  lemma PrintedParentheses(prefix: string, body: string, suffix: string)
    requires '(' !in prefix && ')' !in suffix
    ensures IndexOf(Print(prefix, body, suffix), '(') == |prefix|
    ensures AfterLast(Print(prefix, body, suffix), ')') == |prefix| + 2 + |body|
  {
    assert Print(prefix, body, suffix) == prefix + ['('] + (body + ")" + suffix);
    IndexOfUnique(prefix, '(', body + ")" + suffix);
    assert Print(prefix, body, suffix) == (prefix + "(" + body) + [')'] + suffix;
    AfterLastUnique(prefix + "(" + body, ')', suffix);
  }

  /**
   Splitting a printed statement gives back the definitions it was printed from,
   whatever stands before the first "(" and after the last ")".
   */
  lemma SplitOfPrinted(prefix: string, defs: seq<string>, suffix: string)
    requires GoodDefinitions(defs)
    requires '(' !in prefix && ')' !in suffix
    ensures var body := Join(defs, ", ");
            Split(Print(prefix, body, suffix)) == Success(Statement(|prefix|, |prefix| + 1 + |body|, defs))
  {
    hide IsDefinition, IsSpace, Join, Cut, TrimAll, IndexOf, AfterLast;
    var sql := Print(prefix, Join(defs, ", "), suffix);
    PrintedParentheses(prefix, Join(defs, ", "), suffix);
    CutOfPrinted(defs);
    assert "" !in defs;
  }

  /// ## Rewriting the table name

  function NonSpaceRun(s: string): (r: string)
    ensures r <= s
    ensures forall c :: c in r ==> !IsSpace(c)
  {
    if s == "" || IsSpace(s[0]) then ""
    else
      assert s == [s[0]] + s[1..];
      [s[0]] + NonSpaceRun(s[1..])
  }

  function Words(s: string): seq<string>
    decreases |s|
  {
    var t := TrimLeft(s);
    if t == "" then []
    else
      var run := NonSpaceRun(t);
      assert run != "" by { assert t[0] in t; }
      [run] + Words(t[|run|..])
  }

  /** `CREATE TABLE` or `CREATE TABLE IF NOT EXISTS`, followed by white space. */
  predicate IsHeader(s: string) {
    && s != "" && IsSpace(s[|s| - 1])
    && (Words(ToUpper(s)) == ["CREATE", "TABLE"]
        || Words(ToUpper(s)) == ["CREATE", "TABLE", "IF", "NOT", "EXISTS"])
  }

  predicate EndsWithName(core: string, name: string) {
    && |name| <= |core|
    && ToLower(core[|core| - |name|..]) == ToLower(name)
    && IsHeader(core[..|core| - |name|])
  }

  /** What stands before and after the table name in the text before the first "(". */
  function MatchName(prefix: string, table: string): Option<(string, string)> {
    var core := TrimRight(prefix);
    var spaces := prefix[|core|..];
    var quoted := |table| + 2;
    if EndsWithName(core, "\"" + table + "\"") then Some((core[..|core| - quoted], spaces))
    else if EndsWithName(core, "`" + table + "`") then Some((core[..|core| - quoted], spaces))
    else if EndsWithName(core, "[" + table + "]") then Some((core[..|core| - quoted], spaces))
    else if EndsWithName(core, table) then Some((core[..|core| - |table|], spaces))
    else None
  }

  function BuildTableSql(original: string, table: string, replacement: string, definitions: seq<string>):
    Result<string, SqlError>
  {
    var st :- Split(original);
    match MatchName(original[..st.open], table)
    case None => Failure(NameNotRewritable)
    case Some((before, after)) =>
      Success(Print(before + replacement + after, Join(definitions, ", "), original[st.close + 1..]))
  }

  /** The statement SQLite keeps after ALTER TABLE `from` RENAME TO `to`: the name is replaced, in double quotes. */
  function Renamed(sql: string, from: string, to: string): Result<string, SqlError> {
    var st :- Split(sql);
    match MatchName(sql[..st.open], from)
    case None => Failure(NameNotRewritable)
    case Some((before, after)) =>
      Success(before + "\"" + to + "\"" + after + sql[st.open..])
  }

  lemma MatchNameParts(prefix: string, table: string)
    requires MatchName(prefix, table).Some?
    ensures var (before, after) := MatchName(prefix, table).value;
            && IsHeader(before)
            && (forall c :: c in after ==> IsSpace(c))
            && before <= prefix && (forall c :: c in after ==> c in prefix)
  {
    hide IsHeader, IsSpace, ToLower;
    var core := TrimRight(prefix);
    var (before, after) := MatchName(prefix, table).value;
    forall c | c in after
      ensures IsSpace(c) && c in prefix
    {
      var k :| 0 <= k < |after| && after[k] == c;
      assert prefix[|core| + k] == c;
    }
  }

  /** A plain name between header and white space is found again. */
  lemma MatchNameOf(before: string, name: string, after: string)
    requires IsHeader(before)
    requires name != "" && var c := name[|name| - 1]; !IsSpace(c) && !IsQuote(c) && c != ']'
    requires forall c :: c in after ==> IsSpace(c)
    ensures MatchName(before + name + after, name) == Some((before, after))
  {
    hide IsHeader, IsSpace, ToLower;
    var core := before + name;
    TrimRightAppend(core, after);
    assert core + after == before + name + after;
    var last := name[|name| - 1];
    assert core[|core| - 1] == last;
    NotQuotedName(core, "\"" + name + "\"", '"');
    NotQuotedName(core, "`" + name + "`", '`');
    NotQuotedName(core, "[" + name + "]", ']');
    assert core[|core| - |name|..] == name && core[..|core| - |name|] == before;
    assert (before + name + after)[|core|..] == after;
  }

  lemma NotQuotedName(core: string, name: string, q: char)
    requires core != "" && name != "" && name[|name| - 1] == q && (q == '"' || q == '`' || q == ']')
    requires core[|core| - 1] != q
    ensures !EndsWithName(core, name)
  {
    if |name| <= |core| {
      var tail := core[|core| - |name|..];
      assert ToLower(tail)[|name| - 1] == Lower(core[|core| - 1]);
      assert ToLower(name)[|name| - 1] == q;
    }
  }

  lemma MatchNameQuoted(before: string, table: string, after: string)
    requires IsHeader(before)
    requires forall c :: c in after ==> IsSpace(c)
    ensures MatchName(before + "\"" + table + "\"" + after, table) == Some((before, after))
  {
    hide IsHeader, ToLower;
    var name := "\"" + table + "\"";
    var core := before + name;
    TrimRightAppend(core, after);
    assert before + "\"" + table + "\"" + after == core + after;
    assert core[|core| - |name|..] == name && core[..|core| - |name|] == before;
    assert (core + after)[|core|..] == after;
  }

  /** `sql` is a statement for `table` that splits into `definitions`. */
  predicate Holds(sql: string, table: string, definitions: seq<string>) {
    && Split(sql).Success?
    && Split(sql).value.definitions == definitions
    && Split(sql).value.open <= |sql|
    && MatchName(sql[..Split(sql).value.open], table).Some?
  }

  lemma {:induction false} WordsFirst(word: string, rest: string)
    requires word != "" && forall i :: 0 <= i < |word| ==> !IsSpace(word[i])
    ensures Words(word + " " + rest) == [word] + Words(" " + rest)
  {
    var s := word + " " + rest;
    RunOfWord(word, " " + rest);
    assert s == word + (" " + rest);
    assert !IsSpace(s[0]) && TrimLeft(s) == s;
    assert s[|word|..] == " " + rest;
  }

  lemma {:induction false} RunOfWord(word: string, rest: string)
    requires forall i :: 0 <= i < |word| ==> !IsSpace(word[i])
    requires rest != "" && IsSpace(rest[0])
    ensures NonSpaceRun(word + rest) == word
  {
    if word == "" {
      assert word + rest == rest;
    } else {
      assert (word + rest)[1..] == word[1..] + rest;
      RunOfWord(word[1..], rest);
    }
  }

  lemma WordsAfterSpace(s: string)
    ensures Words(" " + s) == Words(s)
  {
    assert (" " + s)[1..] == s;
  }

  lemma PlainWords()
    ensures Words("CREATE TABLE ") == ["CREATE", "TABLE"]
  {
    hide Words, IsSpace;
    assert "CREATE TABLE " == "CREATE" + " " + "TABLE ";
    assert "TABLE " == "TABLE" + " " + "";
    LettersNoSpace();
    WordsFirst("CREATE", "TABLE ");
    WordsAfterSpace("TABLE ");
    WordsFirst("TABLE", "");
    WordsAfterSpace("");
    NoWords();
  }

  lemma LettersNoSpace()
    ensures forall c :: 'A' <= c <= 'Z' ==> !IsSpace(c)
    ensures IsSpace(' ')
  {
  }

  lemma NoWords()
    ensures Words("") == []
  {
  }

  lemma PlainHeader()
    ensures IsHeader("CREATE TABLE ")
  {
    hide Words, IsSpace;
    PlainWords();
    LettersNoSpace();
    assert ToUpper("CREATE TABLE ") == "CREATE TABLE ";
  }

  /** The statements the rebuild is meant for are accepted: a plain header, the name, white space and the definitions. */
  lemma PlainStatement(name: string, after: string, definitions: seq<string>, suffix: string)
    requires GoodDefinitions(definitions) && '(' !in name && ')' !in suffix
    requires name != "" && var c := name[|name| - 1]; !IsSpace(c) && !IsQuote(c) && c != ']'
    requires forall c :: c in after ==> IsSpace(c)
    ensures Holds(Print("CREATE TABLE " + name + after, Join(definitions, ", "), suffix), name, definitions)
  {
    hide IsHeader, IsDefinition, Join, Split, MatchName;
    var prefix := "CREATE TABLE " + name + after;
    PlainHeader();
    assert !IsSpace('(') && '(' !in "CREATE TABLE " && '(' !in prefix;
    SplitOfPrinted(prefix, definitions, suffix);
    MatchNameOf("CREATE TABLE ", name, after);
  }

  /**
   Building a statement around new definitions and renaming the replacement back
   leaves a statement that splits into exactly those definitions and whose name
   is found again.
   */
  lemma RebuiltSplits(original: string, table: string, replacement: string, definitions: seq<string>)
    requires GoodDefinitions(definitions)
    requires BuildTableSql(original, table, replacement, definitions).Success?
    requires replacement != "" && var c := replacement[|replacement| - 1]; !IsSpace(c) && !IsQuote(c) && c != ']'
    requires '(' !in replacement && '(' !in table
    ensures var built := BuildTableSql(original, table, replacement, definitions).value;
            && Holds(built, replacement, definitions)
            && Renamed(built, replacement, table).Success?
            && Holds(Renamed(built, replacement, table).value, table, definitions)
  {
    hide IsHeader, IsSpace, ToLower, IsDefinition, Join, Split, MatchName;
    SplitGivesDefinitions(original);
    var st := Split(original).value;
    var body, suffix := Join(definitions, ", "), original[st.close + 1..];
    MatchNameParts(original[..st.open], table);
    var (before, after) := MatchName(original[..st.open], table).value;
    var prefix := before + replacement + after;
    SplitOfPrinted(prefix, definitions, suffix);
    MatchNameOf(before, replacement, after);
    var named := before + "\"" + table + "\"" + after;
    SplitOfPrinted(named, definitions, suffix);
    MatchNameQuoted(before, table, after);
    assert Print(named, body, suffix) == named + Print(prefix, body, suffix)[|prefix|..];
    assert '(' !in prefix && '(' !in named;
  }
}
