/** Where a CREATE TABLE statement names its table. */
module HeaderRules {
  import opened Common
  import opened Strings
  import opened SqlStatement
  import opened CycleMigration
  import opened DefinitionRules

  /// ## The words before the name

  /** The words in order, with white space between them and perhaps around them. */
  ghost predicate IsSpaced(s: string, words: seq<string>)
    decreases |words|
  {
    if words == [] then IsBlankText(s)
    else exists blank, rest ::
      && IsBlankText(blank) && IsOneWord(words[0]) && s == blank + words[0] + rest
      && (rest == "" || IsSpace(rest[0])) && IsSpaced(rest, words[1..])
  }

  lemma WordsStep(blank: string, word: string, rest: string)
    requires IsBlankText(blank) && IsOneWord(word) && (rest == "" || IsSpace(rest[0]))
    ensures Words(blank + word + rest) == [word] + Words(rest)
  {
    hide IsSpace, TrimLeft, NonSpaceRun;
    var s, t := blank + word + rest, word + rest;
    assert s == blank + t && t[0] == word[0];
    TrimLeftBlank(blank, t);
    assert IsFirstWord(t, word);
    RunIff(t, word);
    assert t[|word|..] == rest;
  }

  lemma {:induction false} WordsOfSpaced(s: string, words: seq<string>)
    requires IsSpaced(s, words)
    ensures Words(s) == words
    decreases |words|
  {
    hide IsSpace, TrimLeft, Words;
    if words == [] {
      NoWords(s);
    } else {
      var blank, rest :| && IsBlankText(blank) && IsOneWord(words[0]) && s == blank + words[0] + rest
                         && (rest == "" || IsSpace(rest[0])) && IsSpaced(rest, words[1..]);
      WordsStep(blank, words[0], rest);
      WordsOfSpaced(rest, words[1..]);
    }
  }

  lemma NoWords(s: string)
    requires IsBlankText(s)
    ensures Words(s) == []
  {
    TrimLeftBlank(s, "");
    assert s + "" == s;
  }

  lemma SpacedStep(blank: string, word: string, rest: string, words: seq<string>)
    requires IsBlankText(blank) && IsOneWord(word) && (rest == "" || IsSpace(rest[0])) && IsSpaced(rest, words)
    ensures IsSpaced(blank + word + rest, [word] + words)
  {
    hide IsBlankText, IsOneWord, IsSpace;
    assert ([word] + words)[1..] == words;
  }

  lemma {:induction false} SpacedOfWords(s: string)
    ensures IsSpaced(s, Words(s))
    decreases |s|
  {
    hide IsSpace, TrimLeft, NonSpaceRun, IsSpaced;
    var blank := BlankBefore(s);
    var t := TrimLeft(s);
    if t == "" {
      assert s == blank;
      NoWords(s);
      NoneSpaced(s);
    } else {
      var run := NonSpaceRun(t);
      RunIff(t, run);
      RunNotEmpty(t);
      var rest := t[|run|..];
      SpacedOfWords(rest);
      assert s == blank + run + rest;
      SpacedStep(blank, run, rest, Words(rest));
    }
  }

  lemma NoneSpaced(s: string)
    requires IsBlankText(s)
    ensures IsSpaced(s, [])
  {
  }

  lemma RunNotEmpty(t: string)
    requires t != "" && !IsSpace(t[0])
    ensures NonSpaceRun(t) != ""
  {
  }

  /** A header is CREATE TABLE, or CREATE TABLE IF NOT EXISTS, in any case, with any white space, and with some at its end. */
  lemma HeaderIff(s: string)
    ensures IsHeader(s) <==>
            && s != "" && IsSpace(s[|s| - 1])
            && (|| IsSpaced(ToUpper(s), ["CREATE", "TABLE"])
                || IsSpaced(ToUpper(s), ["CREATE", "TABLE", "IF", "NOT", "EXISTS"]))
  {
    hide IsSpace, Words, IsSpaced;
    SpacedOfWords(ToUpper(s));
    forall words | IsSpaced(ToUpper(s), words)
      ensures Words(ToUpper(s)) == words
    {
      WordsOfSpaced(ToUpper(s), words);
    }
  }

  /// ## The name

  /** The table's name in any case, plain, quoted or bracketed. */
  predicate IsNameOf(text: string, table: string) {
    || ToLower(text) == ToLower("\"" + table + "\"") || ToLower(text) == ToLower("`" + table + "`")
    || ToLower(text) == ToLower("[" + table + "]") || ToLower(text) == ToLower(table)
  }

  /** What is found is the header, the name in one of its forms, and white space. */
  lemma MatchedParts(prefix: string, table: string) returns (text: string)
    requires MatchName(prefix, table).Some?
    ensures var (before, after) := MatchName(prefix, table).value;
            IsHeader(before) && IsNameOf(text, table) && IsBlankText(after) && prefix == before + text + after
  {
    hide IsHeader, ToLower, IsSpace, TrimRight;
    var core := TrimRight(prefix);
    var (before, after) := MatchName(prefix, table).value;
    text := core[|before|..];
    assert core == before + text && prefix == core + after;
  }

  /** Texts that are equal but for case end alike: in the same mark, or both in a character that is no mark. */
  lemma EndAlike(text: string, form: string)
    requires ToLower(text) == ToLower(form) && form != ""
    ensures |text| == |form| && Lower(text[|text| - 1]) == Lower(form[|form| - 1])
    ensures text[|text| - 1] == '"' <==> form[|form| - 1] == '"'
    ensures text[|text| - 1] == '`' <==> form[|form| - 1] == '`'
    ensures text[|text| - 1] == ']' <==> form[|form| - 1] == ']'
    ensures IsSpace(text[|text| - 1]) <==> IsSpace(form[|form| - 1])
  {
    assert ToLower(text)[|text| - 1] == ToLower(form)[|form| - 1];
  }

  lemma MarkedEnd(core: string, form: string)
    requires form != "" && form[|form| - 1] in {'"', '`', ']'} && EndsWithName(core, form)
    ensures core != "" && core[|core| - 1] == form[|form| - 1]
  {
    hide ToLower, IsHeader, IsSpace;
    EndAlike(core[|core| - |form|..], form);
  }

  /** Every such statement is found, whichever form its name has. */
  lemma FormMatched(before: string, text: string, after: string, table: string)
    requires IsHeader(before) && IsNameOf(text, table) && IsBlankText(after)
    requires table != "" && !IsSpace(table[|table| - 1]) && table[|table| - 1] !in {'"', '`', ']'}
    ensures MatchName(before + text + after, table) == Some((before, after))
  {
    hide IsHeader, ToLower, IsSpace, TrimRight, Lower, EndsWithName;
    var core := before + text;
    var quoted, ticked, bracketed := "\"" + table + "\"", "`" + table + "`", "[" + table + "]";
    FormEnds(text, table);
    TrimRightAppend(core, after);
    var prefix := core + after;
    assert before + text + after == prefix && prefix[|core|..] == after && core[..|before|] == before;
    assert core[|core| - 1] == text[|text| - 1];
    if EndsWithName(core, quoted) {
      MarkedEnd(core, quoted);
    }
    if EndsWithName(core, ticked) {
      MarkedEnd(core, ticked);
    }
    if EndsWithName(core, bracketed) {
      MarkedEnd(core, bracketed);
    }
    OwnForm(before, text, if ToLower(text) == ToLower(quoted) then quoted else if ToLower(text) == ToLower(ticked) then ticked
                          else if ToLower(text) == ToLower(bracketed) then bracketed else table);
  }

  /** The last character tells the form. */
  lemma FormEnds(text: string, table: string)
    requires IsNameOf(text, table) && table != "" && !IsSpace(table[|table| - 1]) && table[|table| - 1] !in {'"', '`', ']'}
    ensures text != "" && !IsSpace(text[|text| - 1])
    ensures ToLower(text) == ToLower("\"" + table + "\"") <==> text[|text| - 1] == '"'
    ensures ToLower(text) == ToLower("`" + table + "`") <==> text[|text| - 1] == '`'
    ensures ToLower(text) == ToLower("[" + table + "]") <==> text[|text| - 1] == ']'
  {
    hide ToLower, IsSpace, Lower;
    MarksAreNoSpace();
    var quoted, ticked, bracketed := "\"" + table + "\"", "`" + table + "`", "[" + table + "]";
    if ToLower(text) == ToLower(quoted) {
      EndAlike(text, quoted);
    } else if ToLower(text) == ToLower(ticked) {
      EndAlike(text, ticked);
    } else if ToLower(text) == ToLower(bracketed) {
      EndAlike(text, bracketed);
    } else {
      EndAlike(text, table);
    }
    var last := text[|text| - 1];
    if last != '"' {
      LastDiffers(text, quoted);
    }
    if last != '`' {
      LastDiffers(text, ticked);
    }
    if last != ']' {
      LastDiffers(text, bracketed);
    }
  }

  /** A text is no form that ends in another mark. */
  lemma LastDiffers(text: string, form: string)
    requires text != "" && form != "" && form[|form| - 1] in {'"', '`', ']'} && text[|text| - 1] != form[|form| - 1]
    ensures ToLower(text) != ToLower(form)
  {
    hide ToLower;
    if ToLower(text) == ToLower(form) {
      EndAlike(text, form);
    }
  }

  lemma MarksAreNoSpace()
    ensures !IsSpace('"') && !IsSpace('`') && !IsSpace(']')
  {
  }

  lemma OwnForm(before: string, text: string, form: string)
    requires IsHeader(before) && ToLower(text) == ToLower(form)
    ensures EndsWithName(before + text, form) && (before + text)[..|before + text| - |form|] == before
  {
    hide IsHeader;
    var core := before + text;
    assert |text| == |ToLower(text)| == |form|;
    assert core[|core| - |form|..] == text && core[..|core| - |form|] == before;
  }
}
