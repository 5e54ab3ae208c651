/**
 The body of an SQLite CREATE TABLE statement: a recursive grammar for its
 definitions, the depth-counting scanner that cuts it at the top-level commas,
 and the proof that the scanner cuts exactly what the grammar derives.
 */
module SqlGrammar {
  import opened Common
  import opened Strings

  /// ## The grammar

  /** A text whose quotes, brackets and parentheses are closed in order. */
  datatype Tree =
    | End
    | Plain(c: char, rest: Tree)
    | Quoted(quote: char, text: string, rest: Tree)
    | Bracketed(text: string, rest: Tree)
    | Group(inner: Tree, rest: Tree)

  predicate IsQuote(c: char) {
    c == '\'' || c == '"' || c == '`'
  }

  predicate IsPlain(c: char) {
    !IsQuote(c) && c != '[' && c != '(' && c != ')'
  }

  predicate WellFormed(t: Tree) {
    match t
    case End => true
    case Plain(c, rest) => IsPlain(c) && WellFormed(rest)
    case Quoted(q, text, rest) => IsQuote(q) && q !in text && WellFormed(rest)
    case Bracketed(text, rest) => ']' !in text && WellFormed(rest)
    case Group(inner, rest) => WellFormed(inner) && WellFormed(rest)
  }

  /** No comma outside quotes, brackets and parentheses. */
  predicate CommaFree(t: Tree) {
    match t
    case End => true
    case Plain(c, rest) => c != ',' && CommaFree(rest)
    case Quoted(_, _, rest) => CommaFree(rest)
    case Bracketed(_, rest) => CommaFree(rest)
    case Group(_, rest) => CommaFree(rest)
  }

  function Show(t: Tree): string {
    match t
    case End => ""
    case Plain(c, rest) => [c] + Show(rest)
    case Quoted(q, text, rest) => [q] + text + [q] + Show(rest)
    case Bracketed(text, rest) => "[" + text + "]" + Show(rest)
    case Group(inner, rest) => "(" + Show(inner) + ")" + Show(rest)
  }

  /** `s` is a balanced text. */
  ghost predicate Balanced(s: string) {
    exists t :: WellFormed(t) && Show(t) == s
  }

  /** `s` is a balanced text without a top-level comma. */
  ghost predicate IsDefinition(s: string) {
    exists t :: WellFormed(t) && CommaFree(t) && Show(t) == s
  }

  ghost predicate AllDefinitions(ps: seq<string>) {
    forall p :: p in ps ==> IsDefinition(p)
  }

  /// ## The scanner

  datatype Mode = Text | InQuote(quote: char) | InBracket

  /**
   What the scanner still does on `s`, when it stands at `depth` in `mode` with
   `current` read since the last top-level comma: the pieces it will cut, or
   None when it will report an unbalanced statement.
   */
  function Scan(depth: nat, mode: Mode, current: string, s: string): Option<seq<string>>
    decreases |s|
  {
    if s == "" then
      if depth == 0 && mode.Text? then Some([current]) else None
    else
      var c, rest, grown := s[0], s[1..], current + [s[0]];
      match mode
      case InBracket => Scan(depth, if c == ']' then Text else InBracket, grown, rest)
      case InQuote(q) => Scan(depth, if c == q then Text else mode, grown, rest)
      case Text =>
        if IsQuote(c) then Scan(depth, InQuote(c), grown, rest)
        else if c == '[' then Scan(depth, InBracket, grown, rest)
        else if c == '(' then Scan(depth + 1, Text, grown, rest)
        else if c == ')' then
          if depth == 0 then None else Scan(depth - 1, Text, grown, rest)
        else if c == ',' && depth == 0 then
          match Scan(0, Text, "", rest)
          case None => None
          case Some(more) => Some([current] + more)
        else Scan(depth, Text, grown, rest)
  }

  /** The pieces between the top-level commas of `body`, untrimmed. */
  function Cut(body: string): Option<seq<string>> {
    Scan(0, Text, "", body)
  }

  /// ## Scanning what the grammar derives

  lemma {:induction false} ScanQuote(depth: nat, q: char, current: string, text: string, s: string)
    requires q !in text
    ensures Scan(depth, InQuote(q), current, text + [q] + s) == Scan(depth, Text, current + text + [q], s)
    decreases |text|
  {
    var all := text + [q] + s;
    if text == "" {
      assert all[0] == q && all[1..] == s;
      assert current + text + [q] == current + [q];
    } else {
      assert all[0] == text[0] && all[1..] == text[1..] + [q] + s;
      ScanQuote(depth, q, current + [text[0]], text[1..], s);
      assert current + [text[0]] + text[1..] + [q] == current + text + [q];
    }
  }

  lemma {:induction false} ScanBracket(depth: nat, current: string, text: string, s: string)
    requires ']' !in text
    ensures Scan(depth, InBracket, current, text + "]" + s) == Scan(depth, Text, current + text + "]", s)
    decreases |text|
  {
    var all := text + "]" + s;
    if text == "" {
      assert all[0] == ']' && all[1..] == s;
      assert current + text + "]" == current + "]";
    } else {
      assert all[0] == text[0] && all[1..] == text[1..] + "]" + s;
      ScanBracket(depth, current + [text[0]], text[1..], s);
      assert current + [text[0]] + text[1..] + "]" == current + text + "]";
    }
  }

  /** At `depth` the scanner reads `front` without cutting, closing or leaving the depth. */
  ghost predicate Reads(depth: nat, front: string) {
    forall current, s :: Scan(depth, Text, current, front + s) == Scan(depth, Text, current + front, s)
  }

  lemma ReadsConcat(depth: nat, a: string, b: string)
    requires Reads(depth, a) && Reads(depth, b)
    ensures Reads(depth, a + b)
  {
    forall current, s
      ensures Scan(depth, Text, current, a + b + s) == Scan(depth, Text, current + (a + b), s)
    {
      assert a + b + s == a + (b + s) && current + (a + b) == current + a + b;
    }
  }

  lemma ReadsPlain(depth: nat, c: char)
    requires IsPlain(c) && (depth > 0 || c != ',')
    ensures Reads(depth, [c])
  {
    forall current, s
      ensures Scan(depth, Text, current, [c] + s) == Scan(depth, Text, current + [c], s)
    {
      assert ([c] + s)[1..] == s;
    }
  }

  lemma ReadsQuoted(depth: nat, q: char, text: string)
    requires IsQuote(q) && q !in text
    ensures Reads(depth, [q] + text + [q])
  {
    var front := [q] + text + [q];
    forall current, s
      ensures Scan(depth, Text, current, front + s) == Scan(depth, Text, current + front, s)
    {
      assert (front + s)[1..] == text + [q] + s;
      ScanQuote(depth, q, current + [q], text, s);
      assert current + [q] + text + [q] == current + front;
    }
  }

  lemma ReadsBracketed(depth: nat, text: string)
    requires ']' !in text
    ensures Reads(depth, "[" + text + "]")
  {
    var front := "[" + text + "]";
    forall current, s
      ensures Scan(depth, Text, current, front + s) == Scan(depth, Text, current + front, s)
    {
      assert (front + s)[1..] == text + "]" + s;
      ScanBracket(depth, current + "[", text, s);
      assert current + "[" + text + "]" == current + front;
    }
  }

  lemma ReadsGroup(depth: nat, inner: string)
    requires Reads(depth + 1, inner)
    ensures Reads(depth, "(" + inner + ")")
  {
    var front := "(" + inner + ")";
    forall current, s
      ensures Scan(depth, Text, current, front + s) == Scan(depth, Text, current + front, s)
    {
      var after := ")" + s;
      assert (front + s)[1..] == inner + after && after[1..] == s;
      assert Scan(depth + 1, Text, current + "(", inner + after) == Scan(depth + 1, Text, current + "(" + inner, after);
      assert current + "(" + inner + ")" == current + front;
    }
  }

  /** The scanner reads a whole balanced text without leaving its depth. */
  lemma {:induction false} ScanTree(depth: nat, t: Tree)
    requires WellFormed(t)
    requires depth > 0 || CommaFree(t)
    ensures Reads(depth, Show(t))
    decreases t
  {
    match t
    case End =>
      forall current, s
        ensures Scan(depth, Text, current, "" + s) == Scan(depth, Text, current + "", s)
      {
        assert "" + s == s && current + "" == current;
      }
    case Plain(c, rest) =>
      ReadsPlain(depth, c);
      ScanTree(depth, rest);
      ReadsConcat(depth, [c], Show(rest));
    case Quoted(q, text, rest) =>
      ReadsQuoted(depth, q, text);
      ScanTree(depth, rest);
      ReadsConcat(depth, [q] + text + [q], Show(rest));
    case Bracketed(text, rest) =>
      ReadsBracketed(depth, text);
      ScanTree(depth, rest);
      ReadsConcat(depth, "[" + text + "]", Show(rest));
    case Group(inner, rest) =>
      ScanTree(depth + 1, inner);
      ReadsGroup(depth, Show(inner));
      ScanTree(depth, rest);
      ReadsConcat(depth, "(" + Show(inner) + ")", Show(rest));
  }

  /** A definition is read whole, up to the end of the body or the next comma. */
  lemma CutDefinition(p: string, tail: string)
    requires IsDefinition(p)
    ensures Cut(p) == Some([p])
    ensures Cut(p + "," + tail) == if Cut(tail).None? then None else Some([p] + Cut(tail).value)
  {
    var t :| WellFormed(t) && CommaFree(t) && Show(t) == p;
    ScanTree(0, t);
    assert Scan(0, Text, "", p + "") == Scan(0, Text, "" + p, "");
    assert p + "" == p && "" + p == p;
    var more := "," + tail;
    assert Scan(0, Text, "", p + more) == Scan(0, Text, "" + p, more);
    assert p + "," + tail == p + more && more[1..] == tail;
  }

  /** Definitions joined by commas are cut back into themselves. */
  lemma {:induction false} CutOfJoin(ps: seq<string>)
    requires |ps| >= 1 && AllDefinitions(ps)
    ensures Cut(Join(ps, ",")) == Some(ps)
  {
    hide IsDefinition, Cut;
    assert |ps| == 1 ==> ps == [ps[0]];
    assert |ps| > 1 ==> ps == [ps[0]] + ps[1..];
    assert ps[0] in ps;
    CutDefinition(ps[0], Join(ps[1..], ","));
    if |ps| > 1 {
      CutOfJoin(ps[1..]);
    }
  }

  /// ## Deriving what the scanner accepts

  /** One balanced text for each open depth, innermost first. */
  function ShowLevels(levels: seq<Tree>): string
    requires |levels| >= 1
  {
    Show(levels[0]) + ShowOuter(levels[1..])
  }

  function ShowOuter(levels: seq<Tree>): string {
    if levels == [] then "" else ")" + Show(levels[0]) + ShowOuter(levels[1..])
  }

  /** The end of a quotation that the scanner does close. */
  lemma {:induction false} QuoteCloses(depth: nat, q: char, current: string, s: string) returns (text: string)
    requires Scan(depth, InQuote(q), current, s).Some?
    ensures q !in text && |text| < |s| && s == text + [q] + s[|text| + 1..]
    decreases |s|
  {
    if s[0] == q {
      text := "";
      assert s == text + [q] + s[1..];
    } else {
      var more := QuoteCloses(depth, q, current + [s[0]], s[1..]);
      text := [s[0]] + more;
      assert s == [s[0]] + s[1..];
    }
  }

  lemma {:induction false} BracketCloses(depth: nat, current: string, s: string) returns (text: string)
    requires Scan(depth, InBracket, current, s).Some?
    ensures ']' !in text && |text| < |s| && s == text + "]" + s[|text| + 1..]
    decreases |s|
  {
    if s[0] == ']' {
      text := "";
      assert s == text + "]" + s[1..];
    } else {
      var more := BracketCloses(depth, current + [s[0]], s[1..]);
      text := [s[0]] + more;
      assert s == [s[0]] + s[1..];
    }
  }

  /** Whatever the scanner accepts from `depth` is one balanced text per open level. */
  lemma {:induction false} Derive(depth: nat, current: string, s: string) returns (levels: seq<Tree>)
    requires Scan(depth, Text, current, s).Some?
    ensures |levels| == depth + 1
    ensures forall t :: t in levels ==> WellFormed(t)
    ensures ShowLevels(levels) == s
    decreases |s|, 1
  {
    hide ShowLevels;
    if s == "" {
      levels := [End];
      EmptyLevels();
    } else if IsQuote(s[0]) {
      levels := DeriveQuoted(depth, current, s);
    } else if s[0] == '[' {
      levels := DeriveBracketed(depth, current, s);
    } else if s[0] == '(' {
      var more := Derive(depth + 1, current + [s[0]], s[1..]);
      levels := [Group(more[0], more[1])] + more[2..];
      GroupLevels(more, s[1..]);
      assert s == [s[0]] + s[1..];
    } else if s[0] == ')' {
      var more := Derive(depth - 1, current + [s[0]], s[1..]);
      levels := [End] + more;
      ClosingLevels(more);
      assert s == [s[0]] + s[1..];
    } else {
      var next := if s[0] == ',' && depth == 0 then "" else current + [s[0]];
      var more := Derive(depth, next, s[1..]);
      levels := [Plain(s[0], more[0])] + more[1..];
      FrontLevels([s[0]], more, levels[0]);
      assert s == [s[0]] + s[1..];
    }
  }

  lemma {:induction false} DeriveQuoted(depth: nat, current: string, s: string) returns (levels: seq<Tree>)
    requires s != "" && IsQuote(s[0])
    requires Scan(depth, Text, current, s).Some?
    ensures |levels| == depth + 1
    ensures forall t :: t in levels ==> WellFormed(t)
    ensures ShowLevels(levels) == s
    decreases |s|, 0
  {
    var q, grown := s[0], current + [s[0]];
    var text := QuoteCloses(depth, q, grown, s[1..]);
    var after := s[1..][|text| + 1..];
    ScanQuote(depth, q, grown, text, after);
    var more := Derive(depth, grown + text + [q], after);
    levels := [Quoted(q, text, more[0])] + more[1..];
    FrontLevels([q] + text + [q], more, levels[0]);
    assert s == [q] + s[1..];
  }

  lemma {:induction false} DeriveBracketed(depth: nat, current: string, s: string) returns (levels: seq<Tree>)
    requires s != "" && s[0] == '['
    requires Scan(depth, Text, current, s).Some?
    ensures |levels| == depth + 1
    ensures forall t :: t in levels ==> WellFormed(t)
    ensures ShowLevels(levels) == s
    decreases |s|, 0
  {
    var grown := current + "[";
    var text := BracketCloses(depth, grown, s[1..]);
    var after := s[1..][|text| + 1..];
    ScanBracket(depth, grown, text, after);
    var more := Derive(depth, grown + text + "]", after);
    levels := [Bracketed(text, more[0])] + more[1..];
    FrontLevels("[" + text + "]", more, levels[0]);
    assert s == "[" + s[1..];
  }

  /** A longer innermost level makes the whole text longer at its front. */
  lemma FrontLevels(front: string, more: seq<Tree>, node: Tree)
    requires |more| >= 1 && Show(node) == front + Show(more[0])
    ensures ShowLevels([node] + more[1..]) == front + ShowLevels(more)
  {
    hide Show;
    assert ([node] + more[1..])[1..] == more[1..];
    assert front + Show(more[0]) + ShowOuter(more[1..]) == front + (Show(more[0]) + ShowOuter(more[1..]));
  }

  lemma EmptyLevels()
    ensures ShowLevels([End]) == ""
  {
  }

  lemma ClosingLevels(more: seq<Tree>)
    requires |more| >= 1
    ensures ShowLevels([End] + more) == ")" + ShowLevels(more)
  {
    assert ([End] + more)[1..] == more;
    assert ShowOuter(more) == ")" + Show(more[0]) + ShowOuter(more[1..]) == ")" + ShowLevels(more);
  }

  /** Closing the innermost of two levels puts it in front of the next one. */
  lemma GroupLevels(more: seq<Tree>, s: string)
    requires |more| >= 2 && ShowLevels(more) == s
    ensures ShowLevels([Group(more[0], more[1])] + more[2..]) == "(" + s
  {
    var levels := [Group(more[0], more[1])] + more[2..];
    assert levels[0] == Group(more[0], more[1]) && levels[1..] == more[2..];
    assert more[1..][0] == more[1] && more[1..][1..] == more[2..];
    Associate(Show(more[0]), Show(more[1]), ShowOuter(more[2..]));
  }

  lemma Associate(inner: string, next: string, tail: string)
    ensures "(" + (inner + (")" + next + tail)) == "(" + inner + ")" + next + tail
  {
  }

  /** A balanced text is its comma-free parts joined by its top-level commas. */
  lemma {:induction false} Parts(t: Tree) returns (ps: seq<string>)
    requires WellFormed(t)
    ensures |ps| >= 1 && AllDefinitions(ps)
    ensures Join(ps, ",") == Show(t)
    decreases t
  {
    match t
    case End =>
      ps := [""];
      assert Show(End) == "" && WellFormed(End) && CommaFree(End);
      assert IsDefinition("");
    case Plain(c, rest) =>
      var more := Parts(rest);
      if c == ',' {
        ps := [""] + more;
        assert Show(End) == "" && WellFormed(End) && CommaFree(End);
        assert IsDefinition("") && ps[1..] == more;
        assert Join(ps, ",") == "" + "," + Join(more, ",");
      } else {
        ps := Prefix([c], more);
        assert IsDefinition(more[0]);
        var u :| WellFormed(u) && CommaFree(u) && Show(u) == more[0];
        assert Show(Plain(c, u)) == ps[0] && IsDefinition(ps[0]);
      }
    case Quoted(q, text, rest) =>
      var more := Parts(rest);
      ps := Prefix([q] + text + [q], more);
      assert IsDefinition(more[0]);
      var u :| WellFormed(u) && CommaFree(u) && Show(u) == more[0];
      assert Show(Quoted(q, text, u)) == ps[0] && IsDefinition(ps[0]);
    case Bracketed(text, rest) =>
      var more := Parts(rest);
      ps := Prefix("[" + text + "]", more);
      assert IsDefinition(more[0]);
      var u :| WellFormed(u) && CommaFree(u) && Show(u) == more[0];
      assert Show(Bracketed(text, u)) == ps[0] && IsDefinition(ps[0]);
    case Group(inner, rest) =>
      var more := Parts(rest);
      ps := Prefix("(" + Show(inner) + ")", more);
      assert IsDefinition(more[0]);
      var u :| WellFormed(u) && CommaFree(u) && Show(u) == more[0];
      assert Show(Group(inner, u)) == ps[0] && IsDefinition(ps[0]);
  }

  /** Putting `front` before the first part. */
  function Prefix(front: string, ps: seq<string>): (r: seq<string>)
    requires |ps| >= 1
    ensures |r| == |ps| && r[0] == front + ps[0] && r[1..] == ps[1..]
    ensures Join(r, ",") == front + Join(ps, ",")
  {
    [front + ps[0]] + ps[1..]
  }

  /** What the scanner cuts is derived by the grammar. */
  lemma CutParts(body: string) returns (t: Tree, ps: seq<string>)
    requires Cut(body).Some?
    ensures WellFormed(t) && Show(t) == body
    ensures |ps| >= 1 && AllDefinitions(ps) && Join(ps, ",") == body
    ensures Cut(body) == Some(ps)
  {
    var levels := Derive(0, "", body);
    t := levels[0];
    assert levels[1..] == [];
    assert Show(t) + "" == Show(t);
    ps := Parts(t);
    CutOfJoin(ps);
  }

  /**
   The scanner refines the grammar: it cuts `body` into `ps` exactly when `ps`
   is a non-empty list of balanced texts without top-level commas whose join by
   commas is `body`. In particular the cut is unique.
   */
  lemma CutIffGrammar(body: string, ps: seq<string>)
    ensures Cut(body) == Some(ps) <==> |ps| >= 1 && AllDefinitions(ps) && Join(ps, ",") == body
  {
    if Cut(body) == Some(ps) {
      var _, parts := CutParts(body);
    }
    if |ps| >= 1 && AllDefinitions(ps) && Join(ps, ",") == body {
      CutOfJoin(ps);
    }
  }

  /** The scanner accepts exactly the balanced bodies. */
  lemma CutIffBalanced(body: string)
    ensures Cut(body).Some? <==> Balanced(body)
  {
    if Cut(body).Some? {
      var t, _ := CutParts(body);
    }
    if Balanced(body) {
      var t :| WellFormed(t) && Show(t) == body;
      var ps := Parts(t);
      CutOfJoin(ps);
    }
  }

  /// ## Trimming a definition

  lemma {:induction false} TrimLeftDefinition(s: string)
    requires IsDefinition(s)
    ensures IsDefinition(TrimLeft(s))
    decreases |s|
  {
    if s != "" && IsSpace(s[0]) {
      var t :| WellFormed(t) && CommaFree(t) && Show(t) == s;
      assert t.Plain? && Show(t.rest) == s[1..];
      TrimLeftDefinition(s[1..]);
    }
  }

  /** The last character of a definition can be dropped when it is white space. */
  lemma {:induction false} DropSpace(t: Tree) returns (u: Tree)
    requires WellFormed(t) && CommaFree(t)
    requires Show(t) != "" && IsSpace(Show(t)[|Show(t)| - 1])
    ensures WellFormed(u) && CommaFree(u) && Show(u) == Show(t)[..|Show(t)| - 1]
    decreases t
  {
    ShowRest(t, t.rest);
    if Show(t.rest) == "" {
      LastIsPlain(t);
      u := End;
    } else {
      var v := DropSpace(t.rest);
      u := t.(rest := v);
      ShowRest(t, v);
    }
  }

  /** The last character of a text is white space only when it stands outside quotes, brackets and parentheses. */
  lemma LastIsPlain(t: Tree)
    requires WellFormed(t) && !t.End? && Show(t.rest) == ""
    ensures Show(t) != ""
    ensures t.Plain? || !IsSpace(Show(t)[|Show(t)| - 1])
    ensures t.Plain? ==> Show(t) == [t.c]
  {
    var last := Show(t)[|Show(t)| - 1];
    match t
    case Plain(_, _) =>
    case Quoted(q, text, _) => assert last == q;
    case Bracketed(text, _) => assert last == ']';
    case Group(inner, _) => assert last == ')';
  }

  lemma ShowRest(t: Tree, v: Tree)
    requires !t.End?
    ensures |Show(t.rest)| <= |Show(t)|
    ensures Show(t) == Show(t)[..|Show(t)| - |Show(t.rest)|] + Show(t.rest)
    ensures Show(t.(rest := v)) == Show(t)[..|Show(t)| - |Show(t.rest)|] + Show(v)
  {
    var front := Show(t)[..|Show(t)| - |Show(t.rest)|];
    assert Show(t) == front + Show(t.rest);
  }

  lemma {:induction false} TrimRightDefinition(s: string)
    requires IsDefinition(s)
    ensures IsDefinition(TrimRight(s))
    decreases |s|
  {
    if s != "" && IsSpace(s[|s| - 1]) {
      var t :| WellFormed(t) && CommaFree(t) && Show(t) == s;
      var u := DropSpace(t);
      assert IsDefinition(s[..|s| - 1]);
      TrimRightDefinition(s[..|s| - 1]);
    }
  }

  lemma TrimDefinition(s: string)
    requires IsDefinition(s)
    ensures IsDefinition(Trim(s))
  {
    TrimLeftDefinition(s);
    TrimRightDefinition(TrimLeft(s));
  }

  lemma SpaceBeforeDefinition(s: string)
    requires IsDefinition(s)
    ensures IsDefinition(" " + s)
  {
    var t :| WellFormed(t) && CommaFree(t) && Show(t) == s;
    assert Show(Plain(' ', t)) == " " + s;
  }
}
