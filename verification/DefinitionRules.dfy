/** How a definition of a CREATE TABLE is read by its first word and its name, in terms of its text. */
module DefinitionRules {
  import opened Common
  import opened Strings
  import opened SqlGrammar
  import opened SqlStatement
  import opened CycleMigration

  /// ## Characters

  /** Upper and lower case change exactly the letters of the other case, and undo each other. */
  lemma CaseFolding(c: char)
    ensures Upper(c) != c <==> 'a' <= c <= 'z'
    ensures Lower(c) != c <==> 'A' <= c <= 'Z'
    ensures 'a' <= c <= 'z' ==> 'A' <= Upper(c) <= 'Z' && Lower(Upper(c)) == c
    ensures 'A' <= c <= 'Z' ==> 'a' <= Lower(c) <= 'z' && Upper(Lower(c)) == c
  {
  }

  /** White space: the controls and blanks of `str.isspace`. */
  lemma SpaceIff(c: char)
    ensures IsSpace(c) <==>
            || c in {'\t', '\n', '\r', ' '}
            || c as int in {0x0b, 0x0c, 0x1c, 0x1d, 0x1e, 0x1f, 0x85, 0xa0, 0x1680, 0x2028, 0x2029, 0x202f, 0x205f, 0x3000}
            || c as int in {0x2000, 0x2001, 0x2002, 0x2003, 0x2004, 0x2005, 0x2006, 0x2007, 0x2008, 0x2009, 0x200a}
  {
  }

  /// ## Constraints

  /** A table constraint starts, after white space and in any case, with one of five texts. */
  lemma ConstraintIff(definition: string)
    ensures IsTableConstraint(definition) <==>
            var s := ToUpper(TrimLeft(definition));
            "CONSTRAINT " <= s || "PRIMARY KEY" <= s || "FOREIGN KEY" <= s || "UNIQUE" <= s || "CHECK" <= s
  {
    hide TrimLeft, ToUpper;
  }

  /// ## Trimming

  predicate IsBlankText(s: string) {
    forall i :: 0 <= i < |s| ==> IsSpace(s[i])
  }

  predicate IsOneWord(s: string) {
    s != "" && forall i :: 0 <= i < |s| ==> !IsSpace(s[i])
  }

  /** `t` is `s` without the white space on both sides. */
  ghost predicate IsTrimOf(t: string, s: string) {
    && (t != "" ==> !IsSpace(t[0]) && !IsSpace(t[|t| - 1]))
    && exists a, b :: IsBlankText(a) && IsBlankText(b) && s == a + t + b
  }

  lemma {:induction false} TrimLeftBlank(blank: string, s: string)
    requires IsBlankText(blank) && (s == "" || !IsSpace(s[0]))
    ensures TrimLeft(blank + s) == s
  {
    hide IsSpace;
    if blank == "" {
      assert blank + s == s;
    } else {
      assert (blank + s)[0] == blank[0] && (blank + s)[1..] == blank[1..] + s;
      TrimLeftBlank(blank[1..], s);
    }
  }

  lemma {:induction false} TrimLeftIsRest(s: string)
    ensures |TrimLeft(s)| <= |s| && s[|s| - |TrimLeft(s)|..] == TrimLeft(s)
    ensures forall i :: 0 <= i < |s| - |TrimLeft(s)| ==> IsSpace(s[i])
  {
    hide IsSpace;
    if s != "" && IsSpace(s[0]) {
      TrimLeftIsRest(s[1..]);
      assert forall i :: 0 < i < |s| ==> s[i] == s[1..][i - 1];
    }
  }

  lemma BlankBefore(s: string) returns (blank: string)
    ensures IsBlankText(blank) && s == blank + TrimLeft(s)
  {
    hide IsSpace, TrimLeft;
    TrimLeftIsRest(s);
    blank := s[..|s| - |TrimLeft(s)|];
  }

  lemma TrimParts(s: string)
    ensures IsTrimOf(Trim(s), s)
  {
    hide IsSpace, TrimLeft, TrimRight;
    var left := TrimLeft(s);
    var t := TrimRight(left);
    var a := BlankBefore(s);
    assert IsBlankText(left[|t|..]);
    assert left == t + left[|t|..];
    assert a + left == a + t + left[|t|..];
  }

  lemma TrimUnique(a: string, t: string, b: string)
    requires IsBlankText(a) && IsBlankText(b) && (t != "" ==> !IsSpace(t[0]) && !IsSpace(t[|t| - 1]))
    ensures Trim(a + t + b) == t
  {
    hide IsSpace, TrimLeft, TrimRight;
    if t == "" {
      assert a + t + b == (a + b) + "";
      TrimLeftBlank(a + b, "");
      assert TrimRight("") <= "";
    } else {
      assert a + t + b == a + (t + b);
      TrimLeftBlank(a, t + b);
      TrimRightAppend(t, b);
    }
  }

  lemma TrimIff(t: string, s: string)
    ensures Trim(s) == t <==> IsTrimOf(t, s)
  {
    hide IsSpace, Trim;
    TrimParts(s);
    if IsTrimOf(t, s) {
      var a, b :| IsBlankText(a) && IsBlankText(b) && s == a + t + b;
      TrimUnique(a, t, b);
    }
  }

  /// ## Names in a list of columns

  predicate AreNameQuotes(s: string) {
    forall i :: 0 <= i < |s| ==> s[i] in {'"', '`', '[', ']'}
  }

  predicate EndsPlain(t: string) {
    t != "" ==> t[0] !in {'"', '`', '[', ']'} && t[|t| - 1] !in {'"', '`', '[', ']'}
  }

  /** `t` is `s` without the name quotes on both sides. */
  ghost predicate IsUnquoted(t: string, s: string) {
    EndsPlain(t) && exists a, b :: AreNameQuotes(a) && AreNameQuotes(b) && s == a + t + b
  }

  lemma {:induction false} StripParts(s: string) returns (a: string, b: string)
    ensures AreNameQuotes(a) && AreNameQuotes(b) && s == a + StripNameQuotes(s) + b && EndsPlain(StripNameQuotes(s))
    decreases |s|
  {
    a, b := "", "";
    if s != "" && IsNameQuote(s[0]) {
      a, b := StripParts(s[1..]);
      assert s == [s[0]] + (a + StripNameQuotes(s) + b) == ([s[0]] + a) + StripNameQuotes(s) + b;
      a := [s[0]] + a;
    } else if s != "" && IsNameQuote(s[|s| - 1]) {
      a, b := StripParts(s[..|s| - 1]);
      assert s == (a + StripNameQuotes(s) + b) + [s[|s| - 1]] == a + StripNameQuotes(s) + (b + [s[|s| - 1]]);
      b := b + [s[|s| - 1]];
    }
  }

  lemma {:induction false} StripUnique(a: string, t: string, b: string)
    requires AreNameQuotes(a) && AreNameQuotes(b) && EndsPlain(t)
    ensures StripNameQuotes(a + t + b) == t
    decreases |a| + |b|
  {
    var s := a + t + b;
    if a != "" {
      assert s[0] == a[0] && s[1..] == a[1..] + t + b;
      StripUnique(a[1..], t, b);
    } else if b != "" {
      if t == "" {
        assert s == b && s[1..] == a + t + b[1..];
        StripUnique(a, t, b[1..]);
      } else {
        assert s[0] == t[0] && s[|s| - 1] == b[|b| - 1] && s[..|s| - 1] == a + t + b[..|b| - 1];
        StripUnique(a, t, b[..|b| - 1]);
      }
    } else {
      assert s == t;
    }
  }

  lemma StripIff(t: string, s: string)
    ensures StripNameQuotes(s) == t <==> IsUnquoted(t, s)
  {
    var a, b := StripParts(s);
    if IsUnquoted(t, s) {
      var c, d :| AreNameQuotes(c) && AreNameQuotes(d) && s == c + t + d;
      StripUnique(c, t, d);
    }
  }

  /** A column list is its texts between commas, each without white space, then without quotes, then in lower case. */
  lemma ColumnListIs(parts: seq<string>, trimmed: seq<string>, names: seq<string>)
    requires parts != [] && |parts| == |trimmed| == |names|
    requires forall i :: 0 <= i < |parts| ==> ',' !in parts[i]
    requires forall i :: 0 <= i < |parts| ==> IsTrimOf(trimmed[i], parts[i]) && IsUnquoted(names[i], trimmed[i])
    ensures NormalizeColumns(Join(parts, ",")) == seq(|names|, i requires 0 <= i < |names| => ToLower(names[i]))
  {
    hide IsTrimOf, IsUnquoted, Trim, StripNameQuotes, SplitOn, ToLower;
    SplitOnJoin(parts, ',');
    forall i | 0 <= i < |parts|
      ensures StripNameQuotes(Trim(parts[i])) == names[i]
    {
      TrimIff(trimmed[i], parts[i]);
      StripIff(names[i], trimmed[i]);
    }
  }

  /// ## The name of a column

  /** `s` starts with `text` between quotes. */
  predicate Encloses(s: string, text: string) {
    && text != ""
    && (|| ('"' !in text && ['"'] + text + ['"'] <= s)
        || ('`' !in text && ['`'] + text + ['`'] <= s)
        || (']' !in text && ['['] + text + [']'] <= s))
  }

  /** `s` starts with `text`, which ends at white space or with `s`. */
  predicate IsFirstWord(s: string, text: string) {
    && text <= s && (forall i :: 0 <= i < |text| ==> !IsSpace(text[i]))
    && (|text| == |s| || IsSpace(s[|text|]))
  }

  lemma EnclosedIff(s: string, close: char, text: string)
    requires s != ""
    ensures Enclosed(s, close) == Some(text) <==> text != "" && close !in text && [s[0]] + text + [close] <= s
  {
    hide IndexOf;
    var tail, n := s[1..], |text| + 2;
    assert s == [s[0]] + tail;
    if text != "" && close !in text && [s[0]] + text + [close] <= s {
      assert s == [s[0]] + text + [close] + s[n..];
      assert tail == text + [close] + s[n..];
      IndexOfUnique(text, close, s[n..]);
      assert tail[..|text|] == text && |tail| > |text|;
    }
    if Enclosed(s, close) == Some(text) {
      assert tail[..|text|] == text && tail[|text|] == close;
      assert s[..n] == [s[0]] + text + [close];
    }
  }

  lemma {:induction false} RunIff(s: string, text: string)
    ensures NonSpaceRun(s) == text <==> IsFirstWord(s, text)
  {
    hide IsSpace;
    if s == "" {
      assert NonSpaceRun(s) == "";
    } else if text == "" {
      assert NonSpaceRun(s) == "" <==> IsSpace(s[0]);
    } else if !IsSpace(s[0]) {
      RunIff(s[1..], text[1..]);
      assert text == [text[0]] + text[1..];
      assert NonSpaceRun(s) == [s[0]] + NonSpaceRun(s[1..]);
      assert text <= s <==> text[0] == s[0] && text[1..] <= s[1..];
    }
  }

  function Quoted(s: string): Option<string>
    requires s != ""
  {
    if s[0] == '"' || s[0] == '`' then Enclosed(s, s[0])
    else if s[0] == '[' then Enclosed(s, ']')
    else None
  }

  lemma QuotedIff(s: string, text: string)
    requires s != ""
    ensures Quoted(s) == Some(text) <==> Encloses(s, text)
  {
    hide Enclosed;
    EnclosedIff(s, s[0], text);
    EnclosedIff(s, ']', text);
    assert forall c: char :: [c] + text + [c] <= s ==> s[0] == c;
    assert ['['] + text + [']'] <= s ==> s[0] == '[';
  }

  lemma ColumnNameOf(definition: string)
    ensures var s := TrimLeft(definition);
            ColumnName(definition) ==
              if IsTableConstraint(definition) then None
              else if s == "" then Some("")
              else if Quoted(s).Some? then Some(ToLower(Quoted(s).value)) else Some(ToLower(NonSpaceRun(s)))
  {
    hide TrimLeft, IsTableConstraint, Enclosed, ToLower, NonSpaceRun;
  }

  /** The name of a column is what is enclosed in quotes at its start, or else its first word, in lower case. */
  lemma ColumnNameIff(definition: string, text: string)
    ensures ColumnName(definition).None? <==> IsTableConstraint(definition)
    ensures !IsTableConstraint(definition) && Encloses(TrimLeft(definition), text) ==>
              ColumnName(definition) == Some(ToLower(text))
    ensures !IsTableConstraint(definition) && (forall t :: !Encloses(TrimLeft(definition), t)) ==>
              (IsFirstWord(TrimLeft(definition), text) ==> ColumnName(definition) == Some(ToLower(text)))
  {
    hide TrimLeft, IsTableConstraint, Enclosed, ToLower, NonSpaceRun, IsFirstWord, Quoted, ColumnName;
    var s := TrimLeft(definition);
    ColumnNameOf(definition);
    if !IsTableConstraint(definition) {
      RunIff(s, text);
      if s != "" {
        QuotedIff(s, text);
        QuotedSome(s);
      } else {
        assert text <= s <==> text == "";
      }
    }
  }

  lemma QuotedSome(s: string)
    requires s != ""
    ensures Quoted(s).Some? ==> Encloses(s, Quoted(s).value)
  {
    hide Encloses, Quoted;
    if Quoted(s).Some? {
      QuotedIff(s, Quoted(s).value);
    }
  }

  /// ## Editing the list

  /** `p` holds of the definition at `i` and of no other. */
  ghost predicate IsOnlyAt(p: string -> bool, ds: seq<string>, i: nat) {
    i < |ds| && p(ds[i]) && forall k :: 0 <= k < |ds| && k != i ==> !p(ds[k])
  }

  function Without(ds: seq<string>, i: nat): seq<string>
    requires i < |ds|
  {
    ds[..i] + ds[i + 1..]
  }

  lemma FilterOne(p: string -> bool, d: string)
    ensures Filter(p, [d]) == if p(d) then [d] else []
  {
    assert [d][1..] == [];
  }

  lemma FilterThree(p: string -> bool, a: seq<string>, d: string, b: seq<string>)
    ensures Filter(p, a + [d] + b) == Filter(p, a) + (if p(d) then [d] else []) + Filter(p, b)
  {
    hide Filter;
    FilterConcat(p, a + [d], b);
    FilterConcat(p, a, [d]);
    FilterOne(p, d);
  }

  lemma OneFiltered(p: string -> bool, ds: seq<string>, i: nat)
    requires IsOnlyAt(p, ds, i)
    ensures Filter(p, ds) == [ds[i]] && Filter(Not(p), ds) == Without(ds, i)
  {
    hide Filter;
    var a, d, b := ds[..i], ds[i], ds[i + 1..];
    assert ds == a + [d] + b;
    FilterThree(p, a, d, b);
    FilterThree(Not(p), a, d, b);
    FilterNone(p, a);
    FilterNone(p, b);
    FilterAll(Not(p), a);
    FilterAll(Not(p), b);
    assert [] + [d] + [] == [d] && a + [] + b == a + b;
  }

  lemma OnlyPlace(p: string -> bool, ds: seq<string>) returns (i: nat)
    requires |Filter(p, ds)| == 1
    ensures IsOnlyAt(p, ds, i)
  {
    hide Filter;
    var d := Filter(p, ds)[0];
    assert d in Filter(p, ds);
    i :| i < |ds| && ds[i] == d;
    assert ds == ds[..i] + [d] + ds[i + 1..];
    FilterThree(p, ds[..i], d, ds[i + 1..]);
    assert |Filter(p, ds[..i])| == 0 && |Filter(p, ds[i + 1..])| == 0;
    forall k | 0 <= k < |ds| && k != i
      ensures !p(ds[k])
    {
      NoneLeft(p, if k < i then ds[..i] else ds[i + 1..], ds[k]);
    }
  }

  lemma NoneLeft(p: string -> bool, ds: seq<string>, d: string)
    requires Filter(p, ds) == [] && d in ds
    ensures !p(d)
  {
    assert d in Filter(p, ds) <==> d in ds && p(d);
  }

  function Both(p: string -> bool, q: string -> bool): string -> bool {
    d => p(d) && q(d)
  }

  lemma {:induction false} FilterTwice(p: string -> bool, q: string -> bool, ds: seq<string>)
    ensures Filter(q, Filter(p, ds)) == Filter(Both(p, q), ds)
  {
    if ds != [] {
      FilterTwice(p, q, ds[1..]);
      var rest := Filter(p, ds[1..]);
      FilterConcat(q, [ds[0]], rest);
      FilterOne(q, ds[0]);
    }
  }

  /** Of the definitions that satisfy `p`, all but the one that satisfies `q`. */
  lemma AllButOne(p: string -> bool, q: string -> bool, ds: seq<string>, i: nat)
    requires IsOnlyAt(Both(p, q), ds, i)
    ensures Filter(q, Filter(p, ds)) == [ds[i]] && Filter(Not(q), Filter(p, ds)) == Filter(p, Without(ds, i))
  {
    hide Filter;
    FilterTwice(p, q, ds);
    OneFiltered(Both(p, q), ds, i);
    assert ds == ds[..i] + [ds[i]] + ds[i + 1..];
    FilterThree(p, ds[..i], ds[i], ds[i + 1..]);
    FilterConcat(p, ds[..i], ds[i + 1..]);
    var a, b := Filter(p, ds[..i]), Filter(p, ds[i + 1..]);
    FilterThree(Not(q), a, ds[i], b);
    assert a + [] + b == a + b;
    forall d | d in a || d in b
      ensures Not(q)(d)
    {
      assert d in ds[..i] || d in ds[i + 1..];
    }
    FilterAll(Not(q), a);
    FilterAll(Not(q), b);
  }

  /** A constraint read as UNIQUE on these columns. */
  function IsUniqueConstraint(columns: string): string -> bool {
    Both(IsTableConstraint, IsUniqueOn(NormalizeColumns(columns)))
  }

  /**
   The list a rebuild prints: exactly one UNIQUE constraint on the old columns goes,
   and the new column, whose name is no column's, stands between the columns and the
   constraints, all in their order.
   */
  lemma RebuiltIff(ds: seq<string>, newColumn: string, oldUnique: string, r: seq<string>)
    ensures RebuiltDefinitions(ds, newColumn, oldUnique) == Success(r) <==>
            && (IsTableConstraint(newColumn) || Trim(newColumn) != "")
            && (forall k :: 0 <= k < |ds| && !IsTableConstraint(ds[k]) ==> ColumnName(ds[k]) != ColumnName(newColumn))
            && exists i: nat :: IsOnlyAt(IsUniqueConstraint(oldUnique), ds, i)
                 && r == Filter(IsColumn, ds) + [newColumn] + Filter(IsTableConstraint, Without(ds, i))
  {
    hide Filter, IsTableConstraint, UniqueColumns, NormalizeColumns, ColumnName, Trim;
    var unique := IsUniqueOn(NormalizeColumns(oldUnique));
    NameTaken(ds, newColumn);
    FilterTwice(IsTableConstraint, unique, ds);
    if |UniquesOf(ds, NormalizeColumns(oldUnique))| == 1 {
      var i := OnlyPlace(IsUniqueConstraint(oldUnique), ds);
      AllButOne(IsTableConstraint, unique, ds, i);
    }
    if i: nat :| && IsOnlyAt(IsUniqueConstraint(oldUnique), ds, i)
                 && r == Filter(IsColumn, ds) + [newColumn] + Filter(IsTableConstraint, Without(ds, i)) {
      AllButOne(IsTableConstraint, unique, ds, i);
    }
  }

  lemma NameTaken(ds: seq<string>, newColumn: string)
    ensures ColumnName(newColumn) in NamesOf(ColumnsOf(ds)) <==>
            exists k :: 0 <= k < |ds| && !IsTableConstraint(ds[k]) && ColumnName(ds[k]) == ColumnName(newColumn)
  {
    hide Filter, ColumnName, IsTableConstraint;
    var columns := ColumnsOf(ds);
    if ColumnName(newColumn) in NamesOf(columns) {
      var i :| 0 <= i < |columns| && ColumnName(columns[i]) == ColumnName(newColumn);
      assert columns[i] in ds && IsColumn(columns[i]);
    }
    if k :| 0 <= k < |ds| && !IsTableConstraint(ds[k]) && ColumnName(ds[k]) == ColumnName(newColumn) {
      assert ds[k] in columns;
      var i :| 0 <= i < |columns| && columns[i] == ds[k];
      assert NamesOf(columns)[i] == ColumnName(ds[k]);
    }
  }

  /** Where the restored UNIQUE goes: before the first constraint, after all columns that precede it. */
  ghost predicate IsInsertedAt(kept: seq<string>, k: nat, d: string, r: seq<string>) {
    && k <= |kept| && r == kept[..k] + [d] + kept[k..]
    && (forall i :: 0 <= i < k ==> !IsTableConstraint(kept[i])) && (k < |kept| ==> IsTableConstraint(kept[k]))
  }

  lemma {:induction false} FirstConstraintIs(kept: seq<string>)
    ensures var n := FirstConstraint(kept);
            (forall i :: 0 <= i < n ==> !IsTableConstraint(kept[i])) && (n < |kept| ==> IsTableConstraint(kept[n]))
  {
    hide IsTableConstraint;
    if kept != [] && !IsTableConstraint(kept[0]) {
      FirstConstraintIs(kept[1..]);
    }
  }

  /**
   The list a removal prints: exactly one column of the name goes, and a UNIQUE
   constraint that is to be restored and is not there yet comes in.
   */
  lemma ReducedIff(ds: seq<string>, column: string, restoreUnique: string, r: seq<string>)
    ensures ReducedDefinitions(ds, column, restoreUnique) == Success(r) <==>
            exists i: nat :: IsOnlyAt(IsNamed(ToLower(column)), ds, i)
              && if restoreUnique == "" then r == Without(ds, i)
                 else && (forall d :: d in Without(ds, i) ==> !IsUniqueConstraint(restoreUnique)(d))
                      && exists k: nat :: IsInsertedAt(Without(ds, i), k, "UNIQUE (" + restoreUnique + ")", r)
  {
    hide Filter, IsTableConstraint, UniqueColumns, NormalizeColumns, ColumnName, ToLower;
    var named := IsNamed(ToLower(column));
    if |Filter(named, ds)| == 1 {
      var i := OnlyPlace(named, ds);
      OneFiltered(named, ds, i);
      RestoredIff(Without(ds, i), restoreUnique, r);
    }
    forall i: nat | IsOnlyAt(named, ds, i)
      ensures Filter(named, ds) == [ds[i]] && Filter(Not(named), ds) == Without(ds, i)
    {
      OneFiltered(named, ds, i);
    }
  }

  lemma RestoredIff(kept: seq<string>, unique: string, r: seq<string>)
    ensures UniquesOf(kept, NormalizeColumns(unique)) == [] <==> forall d :: d in kept ==> !IsUniqueConstraint(unique)(d)
    ensures InsertUnique(kept, unique) == r <==> exists k: nat :: IsInsertedAt(kept, k, "UNIQUE (" + unique + ")", r)
  {
    hide Filter, IsTableConstraint, UniqueColumns, NormalizeColumns;
    FilterTwice(IsTableConstraint, IsUniqueOn(NormalizeColumns(unique)), kept);
    var found := Filter(IsUniqueConstraint(unique), kept);
    if found != [] {
      assert found[0] in found;
    }
    FirstConstraintIs(kept);
    assert InsertUnique(kept, unique) == r ==> IsInsertedAt(kept, FirstConstraint(kept), "UNIQUE (" + unique + ")", r);
    forall k: nat | IsInsertedAt(kept, k, "UNIQUE (" + unique + ")", r)
      ensures k == FirstConstraint(kept)
    {
      var n := FirstConstraint(kept);
      assert n < |kept| ==> IsTableConstraint(kept[n]);
    }
  }
}
