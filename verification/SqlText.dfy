/**
 How a statement's text is read before SQLite sees it: `:word` stands for a bind
 parameter, and a statement executed without values for its parameters fails.
 */
module SqlText {
  import opened Common
  import opened Strings
  import opened SqlGrammar
  import opened SqlStatement
  import opened CycleMigration
  import opened SqlTokens

  /** A colon after one of these is no parameter. */
  predicate Glues(c: char) {
    IsWordChar(c) || c == ':' || c == '\\'
  }

  /** A colon and a word, with nothing glued to either end. */
  predicate IsParameterAt(s: string, i: nat)
    requires i < |s|
  {
    && s[i] == ':' && (i == 0 || !Glues(s[i - 1]))
    && var word := Word(s[i + 1..]);
    && word != "" && (i + 1 + |word| == |s| || s[i + 1 + |word|] != ':')
  }

  predicate HasParameter(s: string) {
    exists i :: 0 <= i < |s| && IsParameterAt(s, i)
  }

  /** No word and no parameter goes across the place where `a` and `b` meet. */
  predicate Apart(a: string, b: string) {
    || (a != "" && !Glues(a[|a| - 1]))
    || (b != "" && !IsWordChar(b[0]) && b[0] != ':')
  }

  /** A word that ends before the end of `a`, or before a character outside words, is not lengthened by `b`. */
  lemma {:induction false} WordOfConcat(a: string, b: string)
    requires b == "" || !IsWordChar(b[0]) || (a != "" && !IsWordChar(a[|a| - 1]))
    ensures Word(a + b) == Word(a)
  {
    hide IsWordChar;
    if a == "" {
      assert a + b == b;
    } else {
      assert (a + b)[0] == a[0] && (a + b)[1..] == a[1..] + b;
      if IsWordChar(a[0]) {
        WordOfConcat(a[1..], b);
      }
    }
  }

  lemma ParameterInFirst(a: string, b: string, i: nat)
    requires i < |a| && Apart(a, b)
    ensures IsParameterAt(a + b, i) <==> IsParameterAt(a, i)
  {
    hide IsWordChar, Word;
    var rest := a[i + 1..];
    assert (a + b)[i + 1..] == rest + b;
    if rest != "" {
      assert rest[|rest| - 1] == a[|a| - 1];
    }
    if a[i] == ':' && (b == "" || !IsWordChar(b[0]) || (rest != "" && !IsWordChar(rest[|rest| - 1]))) {
      WordOfConcat(rest, b);
      WordLength(rest);
    }
  }

  lemma WordLength(s: string)
    ensures |Word(s)| <= |s|
    ensures s != "" && !IsWordChar(s[|s| - 1]) ==> |Word(s)| < |s|
  {
    assert |Word(s)| == |s| > 0 ==> IsWordChar(s[|s| - 1]);
  }

  lemma ParameterInSecond(a: string, b: string, i: nat)
    requires i < |b| && Apart(a, b)
    ensures IsParameterAt(a + b, |a| + i) <==> IsParameterAt(b, i)
  {
    hide IsWordChar, Word;
    assert (a + b)[|a| + i + 1..] == b[i + 1..];
  }

  lemma ParameterConcat(a: string, b: string)
    requires Apart(a, b)
    ensures HasParameter(a + b) <==> HasParameter(a) || HasParameter(b)
  {
    hide IsParameterAt, Apart;
    if HasParameter(a + b) {
      var i :| 0 <= i < |a + b| && IsParameterAt(a + b, i);
      if i < |a| {
        ParameterInFirst(a, b, i);
      } else {
        ParameterInSecond(a, b, i - |a|);
      }
    }
    if HasParameter(a) {
      var i :| 0 <= i < |a| && IsParameterAt(a, i);
      ParameterInFirst(a, b, i);
    }
    if HasParameter(b) {
      var i :| 0 <= i < |b| && IsParameterAt(b, i);
      ParameterInSecond(a, b, i);
      assert IsParameterAt(a + b, |a| + i);
    }
  }

  lemma ColonNeeded(s: string)
    requires ':' !in s
    ensures !HasParameter(s)
  {
  }

  predicate AnyParameter(definitions: seq<string>) {
    exists d :: d in definitions && HasParameter(d)
  }

  /** A printed list has a parameter exactly when one of its definitions has. */
  lemma {:induction false} ParameterInList(definitions: seq<string>)
    requires |definitions| >= 1
    ensures HasParameter(Join(definitions, ", ")) <==> AnyParameter(definitions)
    decreases |definitions|
  {
    hide HasParameter, IsWordChar;
    var first, rest := definitions[0], definitions[1..];
    assert definitions == [first] + rest;
    if rest != [] {
      var more := Join(rest, ", ");
      ParameterInList(rest);
      Punctuation();
      assert Join(definitions, ", ") == first + (", " + more);
      ParameterConcat(", ", more);
      ParameterConcat(first, ", " + more);
      assert !HasParameter(", ");
    } else {
      assert Join(definitions, ", ") == first;
    }
  }

  lemma Punctuation()
    ensures !Glues(',') && !Glues(' ') && !Glues('(') && !Glues(')')
    ensures !HasParameter(", ") && !HasParameter("(") && !HasParameter(")")
  {
    ColonNeeded(", ");
    ColonNeeded("(");
    ColonNeeded(")");
  }

  lemma ParameterInPrint(prefix: string, body: string, suffix: string)
    ensures HasParameter(Print(prefix, body, suffix)) <==> HasParameter(prefix) || HasParameter(body) || HasParameter(suffix)
  {
    hide HasParameter, IsWordChar;
    Punctuation();
    assert Print(prefix, body, suffix) == prefix + ("(" + (body + (")" + suffix)));
    ParameterConcat(")", suffix);
    ParameterConcat(body, ")" + suffix);
    ParameterConcat("(", body + (")" + suffix));
    ParameterConcat(prefix, "(" + (body + (")" + suffix)));
  }

  /// ## The statement of a rebuild

  /** Every character of a text is white space or belongs to one of its words. */
  lemma {:induction false} CharInWords(s: string, c: char) returns (w: string)
    requires c in s && !IsSpace(c)
    ensures w in Words(s) && c in w
    decreases |s|
  {
    hide IsSpace, NonSpaceRun, TrimLeft;
    var t := TrimLeft(s);
    TrimLeftKeeps(s, c);
    var run := NonSpaceRun(t);
    assert t == run + t[|run|..];
    assert Words(s) == [run] + Words(t[|run|..]);
    if c in run {
      w := run;
    } else {
      w := CharInWords(t[|run|..], c);
    }
  }

  lemma {:induction false} TrimLeftKeeps(s: string, c: char)
    requires c in s && !IsSpace(c)
    ensures c in TrimLeft(s)
    decreases |s|
  {
    hide IsSpace;
    if IsSpace(s[0]) {
      assert s == [s[0]] + s[1..];
      TrimLeftKeeps(s[1..], c);
    }
  }

  lemma HeaderHasNoColon(before: string)
    requires IsHeader(before)
    ensures ':' !in before
  {
    hide Words, IsSpace;
    assert ':' !in "CREATE" && ':' !in "TABLE" && ':' !in "IF" && ':' !in "NOT" && ':' !in "EXISTS";
    ColonIsNoSpace();
    if ':' in before {
      var i :| 0 <= i < |before| && before[i] == ':';
      assert ToUpper(before)[i] == ':';
      var w := CharInWords(ToUpper(before), ':');
    }
  }

  lemma ColonIsNoSpace()
    ensures !IsSpace(':')
  {
  }

  /** What follows the last parenthesis of a statement. */
  function SuffixOf(sql: string): string {
    match Split(sql)
    case Success(st) => if st.close < |sql| then sql[st.close + 1..] else ""
    case Failure(_) => ""
  }

  /** The statement of a rebuild has a parameter exactly when a definition it prints or the old suffix has one. */
  lemma BuiltParameter(original: string, table: string, replacement: string, definitions: seq<string>)
    requires BuildTableSql(original, table, replacement, definitions).Success?
    requires definitions != [] && ':' !in replacement
    ensures HasParameter(BuildTableSql(original, table, replacement, definitions).value)
            <==> AnyParameter(definitions) || HasParameter(SuffixOf(original))
  {
    hide HasParameter, Split, MatchName, IsHeader, IsSpace, Join;
    SplitGivesDefinitions(original);
    var st := Split(original).value;
    MatchNameParts(original[..st.open], table);
    var (before, after) := MatchName(original[..st.open], table).value;
    HeaderHasNoColon(before);
    ColonIsNoSpace();
    var prefix := before + replacement + after;
    ColonNeeded(prefix);
    ParameterInList(definitions);
    ParameterInPrint(prefix, Join(definitions, ", "), original[st.close + 1..]);
  }

  lemma SuffixOfPrinted(prefix: string, definitions: seq<string>, suffix: string)
    requires GoodDefinitions(definitions) && '(' !in prefix && ')' !in suffix
    ensures SuffixOf(Print(prefix, Join(definitions, ", "), suffix)) == suffix
  {
    hide IsDefinition, Join, Split;
    SplitOfPrinted(prefix, definitions, suffix);
    var body := Join(definitions, ", ");
    var sql := Print(prefix, body, suffix);
    assert sql[|prefix| + 2 + |body|..] == suffix;
  }

  /** The rebuilt statement keeps the old suffix. */
  lemma SuffixKept(original: string, table: string, replacement: string, definitions: seq<string>)
    requires GoodDefinitions(definitions)
    requires BuildTableSql(original, table, replacement, definitions).Success?
    requires replacement != "" && var c := replacement[|replacement| - 1]; !IsSpace(c) && !IsQuote(c) && c != ']'
    requires '(' !in replacement && '(' !in table
    ensures var built := BuildTableSql(original, table, replacement, definitions).value;
            Renamed(built, replacement, table).Success? ==>
              SuffixOf(Renamed(built, replacement, table).value) == SuffixOf(original)
  {
    hide IsHeader, IsSpace, ToLower, IsDefinition, Join, Split, MatchName, SuffixOf, GoodDefinitions;
    SplitGivesDefinitions(original);
    var st := Split(original).value;
    var body, suffix := Join(definitions, ", "), original[st.close + 1..];
    assert SuffixOf(original) == suffix by {
      SuffixUnfolded(original);
    }
    MatchNameParts(original[..st.open], table);
    var (before, after) := MatchName(original[..st.open], table).value;
    var prefix := before + replacement + after;
    var built := Print(prefix, body, suffix);
    SplitOfPrinted(prefix, definitions, suffix);
    MatchNameOf(before, replacement, after);
    var named := before + "\"" + table + "\"" + after;
    assert '(' !in prefix && '(' !in named;
    SuffixOfPrinted(named, definitions, suffix);
    assert Renamed(built, replacement, table).value == named + built[|prefix|..];
    assert Print(named, body, suffix) == named + built[|prefix|..];
  }

  lemma SuffixUnfolded(sql: string)
    requires Split(sql).Success? && Split(sql).value.close < |sql|
    ensures SuffixOf(sql) == sql[Split(sql).value.close + 1..]
  {
    hide Split;
  }
}
