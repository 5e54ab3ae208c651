/** What SQLite's reading of a definition gives for each way to write its first token. */
module TokenRules {
  import opened Common
  import opened Strings
  import opened SqlTokens

  predicate IsNameChar(c: char) {
    || 'a' <= c <= 'z' || 'A' <= c <= 'Z' || '0' <= c <= '9' || c == '_' || c == '$'
    || (c as int >= 0x80 && !IsSpace(c))
  }

  lemma WordCharIff(c: char)
    ensures IsWordChar(c) <==> IsNameChar(c)
  {
  }

  /** The names that can be written without quotes: no digit or `$` in front, no other character, no keyword in any case. */
  lemma BareIff(name: string)
    ensures IsBare(name) <==>
            && name != "" && name[0] != '$' && !('0' <= name[0] <= '9')
            && (forall i :: 0 <= i < |name| ==> IsNameChar(name[i])) && !IsReserved(ToUpper(name))
  {
    hide ToUpper, IsWordChar, IsNameChar, IsReserved;
    forall c: char
      ensures IsWordChar(c) <==> IsNameChar(c)
    {
      WordCharIff(c);
    }
  }

  /** Names that only quotes make columns, so that no copy goes through. */
  lemma KeywordsNotBare(name: string)
    requires name in {"cast", "raise", "order", "group", "index", "check", "table", "values", "default", "references"}
    ensures !IsBare(name)
  {
    assert ToUpper("cast") == "CAST" && ToUpper("raise") == "RAISE" && ToUpper("order") == "ORDER";
    assert ToUpper("group") == "GROUP" && ToUpper("index") == "INDEX" && ToUpper("check") == "CHECK";
    assert ToUpper("table") == "TABLE" && ToUpper("values") == "VALUES" && ToUpper("default") == "DEFAULT";
    assert ToUpper("references") == "REFERENCES";
  }

  /** `s` starts with the word, which is not part of a longer one. */
  predicate IsFirstToken(s: string, word: string) {
    && word <= s && (forall i :: 0 <= i < |word| ==> IsNameChar(word[i]))
    && (|word| == |s| || !IsNameChar(s[|word|]))
  }

  lemma {:induction false} WordIff(s: string, word: string)
    ensures Word(s) == word <==> IsFirstToken(s, word)
  {
    hide IsWordChar, IsNameChar;
    forall c: char
      ensures IsWordChar(c) <==> IsNameChar(c)
    {
      WordCharIff(c);
    }
    if s == "" {
      assert Word(s) == "";
    } else if word == "" {
      assert Word(s) == "" <==> !IsWordChar(s[0]);
    } else if IsWordChar(s[0]) {
      WordIff(s[1..], word[1..]);
      assert word == [word[0]] + word[1..];
      assert Word(s) == [s[0]] + Word(s[1..]);
      assert word <= s <==> word[0] == s[0] && word[1..] <= s[1..];
    }
  }

  /** A definition is a table constraint when its first word is one of five keywords. */
  lemma ConstraintTextIff(d: string)
    ensures IsConstraintText(d) <==>
            exists word :: IsFirstToken(TrimLeft(d), word)
                        && ToUpper(word) in {"CONSTRAINT", "PRIMARY", "FOREIGN", "UNIQUE", "CHECK"}
  {
    hide Word, TrimLeft, ToUpper, IsFirstToken;
    WordIff(TrimLeft(d), Word(TrimLeft(d)));
    forall word | IsFirstToken(TrimLeft(d), word)
      ensures word == Word(TrimLeft(d))
    {
      WordIff(TrimLeft(d), word);
    }
  }

  /// ## Quoted names

  /** The text with each quote doubled. */
  function Doubled(text: string, q: char): string {
    if text == "" then "" else (if text[0] == q then [q, q] else [text[0]]) + Doubled(text[1..], q)
  }

  lemma {:induction false} DequotedDoubled(text: string, q: char, rest: string)
    requires rest == "" || rest[0] != q
    ensures Dequoted(Doubled(text, q) + [q] + rest, q) == text
  {
    var s := Doubled(text, q) + [q] + rest;
    if text == "" {
      assert s == [q] + rest;
    } else {
      DequotedDoubled(text[1..], q, rest);
      var tail := Doubled(text[1..], q) + [q] + rest;
      if text[0] == q {
        assert s == [q, q] + tail && s[2..] == tail;
      } else {
        assert s == [text[0]] + tail && s[1..] == tail;
      }
      assert text == [text[0]] + text[1..];
    }
  }

  /** A quoted name is read back with each doubled quote as one, in lower case. */
  lemma QuotedName(text: string, q: char, rest: string)
    requires q in {'"', '`', '\''} && (rest == "" || rest[0] != q)
    ensures TokenName([q] + (Doubled(text, q) + [q] + rest)) == ToLower(text)
  {
    hide ToLower, Dequoted, Doubled, IsSpace;
    QuotesAreNoSpace();
    var tail := Doubled(text, q) + [q] + rest;
    assert ([q] + tail)[1..] == tail;
    DequotedDoubled(text, q, rest);
  }

  lemma QuotesAreNoSpace()
    ensures !IsSpace('"') && !IsSpace('`') && !IsSpace('\'') && !IsSpace('[')
  {
  }

  /** A bracketed name ends at the first closing bracket. */
  lemma BracketedName(text: string, rest: string)
    requires ']' !in text
    ensures TokenName(['['] + (text + [']'] + rest)) == ToLower(text)
  {
    hide ToLower, IsSpace, IndexOf;
    QuotesAreNoSpace();
    var tail := text + [']'] + rest;
    assert (['['] + tail)[1..] == tail;
    IndexOfUnique(text, ']', rest);
    assert tail[..|text|] == text;
  }

  /** A name without quotes is its first word. */
  lemma PlainName(d: string, word: string)
    requires IsFirstToken(TrimLeft(d), word) && word != ""
    ensures TokenName(d) == ToLower(word)
  {
    hide ToLower, Word, TrimLeft;
    WordIff(TrimLeft(d), word);
    assert TrimLeft(d)[0] == word[0] && IsNameChar(word[0]);
  }
}
