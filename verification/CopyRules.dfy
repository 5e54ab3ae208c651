/** The checks a rebuild runs into, in terms of texts and rows: bind parameters, taken names and unique keys. */
module CopyRules {
  import opened Common
  import opened Strings
  import opened SqlStatement
  import opened SqlTokens
  import opened TokenRules
  import opened SqlText
  import opened TableRows
  import opened CycleTables

  /// ## Bind parameters

  /** A colon before a whole word, not after a word, a colon or a backslash and not before another colon. */
  ghost predicate IsParameter(a: string, word: string, b: string) {
    && word != "" && (forall i :: 0 <= i < |word| ==> IsNameChar(word[i]))
    && (a != "" ==> !IsNameChar(a[|a| - 1]) && a[|a| - 1] != ':' && a[|a| - 1] != '\\')
    && (b != "" ==> !IsNameChar(b[0]) && b[0] != ':')
  }

  lemma ParameterAtIff(s: string, i: nat, word: string)
    requires i < |s|
    ensures IsParameterAt(s, i) && Word(s[i + 1..]) == word <==>
            s[i] == ':' && word <= s[i + 1..] && IsParameter(s[..i], word, s[i + 1 + |word|..])
  {
    hide IsNameChar, IsWordChar, Word;
    WordIff(s[i + 1..], word);
    if i > 0 {
      WordCharIff(s[i - 1]);
    }
    forall c: char
      ensures IsWordChar(c) <==> IsNameChar(c)
    {
      WordCharIff(c);
    }
    assert word <= s[i + 1..] && |word| < |s[i + 1..]| ==> s[i + 1..][|word|] == s[i + 1 + |word|..][0];
  }

  lemma ParameterIff(s: string)
    ensures HasParameter(s) <==> exists a, word, b :: IsParameter(a, word, b) && s == a + ":" + word + b
  {
    hide IsParameter, IsParameterAt, Word;
    if HasParameter(s) {
      var i :| 0 <= i < |s| && IsParameterAt(s, i);
      var word := Word(s[i + 1..]);
      ParameterAtIff(s, i, word);
      assert s[i + 1..] == word + s[i + 1 + |word|..];
      assert s == s[..i] + ":" + word + s[i + 1 + |word|..];
    }
    if a, word, b :| IsParameter(a, word, b) && s == a + ":" + word + b {
      assert s[|a|] == ':' && s[..|a|] == a && s[|a| + 1..] == word + b && s[|a| + 1 + |word|..] == b;
      ParameterAtIff(s, |a|, word);
    }
  }

  /// ## Names

  /** A table's name is taken by one that has the same letters in whatever case. */
  lemma TakenIff(db: Tables, name: string)
    ensures Taken(db, name) <==>
            exists n :: n in db && |n| == |name| && forall i :: 0 <= i < |n| ==> Lower(n[i]) == Lower(name[i])
  {
    hide Lower;
    forall n
      ensures ToLower(n) == ToLower(name) <==> |n| == |name| && forall i :: 0 <= i < |n| ==> Lower(n[i]) == Lower(name[i])
    {
      assert ToLower(n) == ToLower(name) ==>
          forall i :: 0 <= i < |n| ==> ToLower(n)[i] == Lower(n[i]) && ToLower(name)[i] == Lower(name[i]);
    }
  }

  /// ## Keys

  /** The texts of a key's columns; none when one of them is NULL or missing, or when there is no key. */
  function KeyOf(row: Row, columns: seq<string>): Option<seq<string>> {
    if columns == [] then None
    else if columns[0] !in row || row[columns[0]] == Null then None
    else if |columns| == 1 then Some([row[columns[0]].text])
    else
      match KeyOf(row, columns[1..])
      case Some(rest) => Some([row[columns[0]].text] + rest)
      case None => None
  }

  lemma SameKeyParts(a: Row, b: Row, columns: seq<string>)
    requires 1 < |columns|
    ensures SameKey(a, b, columns) <==> SameKey(a, b, columns[..1]) && SameKey(a, b, columns[1..])
  {
    assert forall i :: 0 < i < |columns| ==> columns[i] == columns[1..][i - 1];
    if SameKey(a, b, columns) {
      forall i | 0 <= i < |columns| - 1
        ensures var c := columns[1..][i]; c in a && c in b && a[c] != Null && a[c] == b[c]
      {
        assert columns[1..][i] == columns[i + 1];
      }
    }
  }

  lemma {:induction false} SameKeyIff(a: Row, b: Row, columns: seq<string>)
    ensures SameKey(a, b, columns) <==> KeyOf(a, columns).Some? && KeyOf(a, columns) == KeyOf(b, columns)
  {
    if |columns| == 1 {
      assert SameKey(a, b, columns) <==>
          var c := columns[0]; c in a && c in b && a[c] != Null && a[c] == b[c];
    } else if 1 < |columns| {
      SameKeyParts(a, b, columns);
      SameKeyIff(a, b, columns[..1]);
      SameKeyIff(a, b, columns[1..]);
      KeyParts(a, columns);
      KeyParts(b, columns);
      PairsApart(KeyOf(a, columns[..1]), KeyOf(a, columns[1..]), KeyOf(b, columns[..1]), KeyOf(b, columns[1..]));
    }
  }

  lemma PairsApart(p: Option<seq<string>>, q: Option<seq<string>>, r: Option<seq<string>>, s: Option<seq<string>>)
    requires p.Some? ==> |p.value| == 1
    requires r.Some? ==> |r.value| == 1
    ensures p.Some? && q.Some? && r.Some? && s.Some? ==> (p.value + q.value == r.value + s.value <==> p == r && q == s)
  {
    if p.Some? && q.Some? && r.Some? && s.Some? && p.value + q.value == r.value + s.value {
      assert p.value == (p.value + q.value)[..1] && q.value == (p.value + q.value)[1..];
      assert r.value == (r.value + s.value)[..1] && s.value == (r.value + s.value)[1..];
    }
  }

  lemma KeyParts(row: Row, columns: seq<string>)
    requires 1 < |columns|
    ensures var first, rest := KeyOf(row, columns[..1]), KeyOf(row, columns[1..]);
            && (first.Some? ==> |first.value| == 1)
            && KeyOf(row, columns) == if first.Some? && rest.Some? then Some(first.value + rest.value) else None
  {
  }

  /** A UNIQUE holds exactly when no two rows have the same key without NULL. */
  lemma DistinctIff(rows: seq<Row>, columns: seq<string>)
    ensures DistinctOn(rows, columns) <==>
            forall i, j :: 0 <= i < j < |rows| ==>
              KeyOf(rows[i], columns).None? || KeyOf(rows[i], columns) != KeyOf(rows[j], columns)
  {
    hide SameKey, KeyOf;
    forall i, j | 0 <= i < j < |rows|
      ensures SameKey(rows[i], rows[j], columns) <==>
              KeyOf(rows[i], columns).Some? && KeyOf(rows[i], columns) == KeyOf(rows[j], columns)
    {
      SameKeyIff(rows[i], rows[j], columns);
    }
  }

  /// ## Reading a row

  /** An unquoted column is read from the row, and the three names of the clock from the clock. */
  lemma ReadColumn(row: Row, now: Clock, c: string)
    ensures c in ReadRow(row, now) <==> c in row
    ensures c in row ==>
              ReadRow(row, now)[c] == if c == "current_date" then Text(now.date)
                                      else if c == "current_time" then Text(now.time)
                                      else if c == "current_timestamp" then Text(now.timestamp)
                                      else row[c]
    ensures IsClockName(c) <==> c in {"current_date", "current_time", "current_timestamp"}
  {
  }

  /// ## What a failure leaves

  /** The downgrade stops before its first statement when a row belongs to a cycle. */
  lemma GuardStops(db: Tables, now: Clock, next: Clock, name: string, i: nat)
    requires "quotas" in db && "contributions" in db && name in {"quotas", "contributions"}
    requires forall n :: n in {"quotas", "contributions"} ==>
               Split(db[n].sql).Failure? || "cycle_id" in ColumnSet(DefinitionsOf(db[n]))
    requires i < |db[name].rows| && "cycle_id" in db[name].rows[i] && db[name].rows[i]["cycle_id"] != Null
    ensures Downgraded(db, now, next) == Outcome(db, Some(CycleRowsExist))
  {
    hide Reduced, CycleRows, DefinitionsOf, ColumnSet, Split;
    NoCycleRows(db[name]);
  }

  /** It also stops there when a table has no cycle column. */
  lemma NoColumnStops(db: Tables, now: Clock, next: Clock, name: string)
    requires "quotas" in db && "contributions" in db && name in {"quotas", "contributions"}
    requires Split(db[name].sql).Success? && "cycle_id" !in ColumnSet(DefinitionsOf(db[name]))
    ensures Downgraded(db, now, next) == Outcome(db, Some(NoSuchColumn))
  {
    hide Reduced, CycleRows, DefinitionsOf, ColumnSet, Split;
  }

  /**
   A rebuild stopped at its copy leaves the empty replacement next to the table; one
   stopped at the CREATE TABLE or before leaves everything as it was.
   */
  lemma StoppedLeaves(db: Tables, name: string, replacement: string, definitions: seq<string>, copied: set<string>,
                      unique: seq<string>, now: Clock)
    requires name in db
    ensures var out := Replaced(db, name, replacement, definitions, copied, unique, now);
            var built := BuildTableSql(db[name].sql, name, replacement, definitions);
            && (built.Failure? ==> out == Outcome(db, Some(built.error)))
            && (built.Success? && HasParameter(built.value) ==> out == Outcome(db, Some(UnboundParameter)))
            && (built.Success? && !HasParameter(built.value) && Taken(db, replacement) ==>
                  out == Outcome(db, Some(ReplacementExists)))
            && (built.Success? && !HasParameter(built.value) && !Taken(db, replacement) && !Creatable(definitions) ==>
                  out == Outcome(db, Some(InvalidTable)))
            && (built.Success? && !HasParameter(built.value) && !Taken(db, replacement) && Creatable(definitions) ==>
                  && var left := db[replacement := Table(built.value, [])];
                  && (!AllBare(copied) ==> out == Outcome(left, Some(NamesUnquoted)))
                  && (AllBare(copied) && !DistinctOn(CopyRows(db[name].rows, copied, ColumnSet(definitions), now), unique) ==>
                        out == Outcome(left, Some(UniqueViolated))))
  {
    hide Split, BuildTableSql, Renamed, ColumnSet, Creatable, IsBare, HasParameter, DistinctOn, CopyRows, Taken;
  }
}
