/** Failure-compatible results and the string helpers several components share. */
module Common {

  newtype Byte = b: int | 0 <= b < 256

  type Bytes = seq<Byte>

  datatype Option<+T> = None | Some(value: T)

  datatype Result<+T, +E> = Success(value: T) | Failure(error: E) {
    predicate IsFailure() {
      Failure?
    }

    function PropagateFailure<U>(): Result<U, E>
      requires Failure?
    {
      Failure(error)
    }

    function Extract(): T
      requires Success?
    {
      value
    }
  }

  /** The elements of `s` that satisfy `p`, in order. */
  function Filter<T(!new)>(p: T -> bool, s: seq<T>): (r: seq<T>)
    ensures forall x :: x in r <==> x in s && p(x)
    ensures |r| <= |s|
  {
    if s == [] then []
    else if p(s[0]) then [s[0]] + Filter(p, s[1..])
    else Filter(p, s[1..])
  }

  lemma {:induction false} FilterConcat<T(!new)>(p: T -> bool, a: seq<T>, b: seq<T>)
    ensures Filter(p, a + b) == Filter(p, a) + Filter(p, b)
  {
    if a == [] {
      assert a + b == b;
    } else {
      assert (a + b)[1..] == a[1..] + b;
      FilterConcat(p, a[1..], b);
    }
  }

  lemma FilterEmpty<T(!new)>(p: T -> bool)
    ensures Filter(p, []) == []
  {
  }

  /** One more element: what a loop that classifies in order does at each turn. */
  lemma FilterNext<T(!new)>(p: T -> bool, s: seq<T>, i: nat)
    requires i < |s|
    ensures Filter(p, s[..i + 1]) == if p(s[i]) then Filter(p, s[..i]) + [s[i]] else Filter(p, s[..i])
  {
    assert s[..i + 1] == s[..i] + [s[i]];
    FilterConcat(p, s[..i], [s[i]]);
    assert [s[i]][1..] == [];
  }

  lemma {:induction false} FilterAll<T(!new)>(p: T -> bool, s: seq<T>)
    requires forall x :: x in s ==> p(x)
    ensures Filter(p, s) == s
  {
    if s != [] {
      FilterAll(p, s[1..]);
    }
  }

  lemma {:induction false} FilterNone<T(!new)>(p: T -> bool, s: seq<T>)
    requires forall x :: x in s ==> !p(x)
    ensures Filter(p, s) == []
  {
    if s != [] {
      FilterNone(p, s[1..]);
    }
  }
}

/** Python's `str` operations on ASCII letters and Unicode white space. */
module Strings {

  /** The characters `str.strip` removes and `\s` matches. */
  predicate IsSpace(c: char) {
    var n := c as int;
    || 0x09 <= n <= 0x0d || 0x1c <= n <= 0x20 || n == 0x85 || n == 0xa0 || n == 0x1680
    || 0x2000 <= n <= 0x200a || n == 0x2028 || n == 0x2029 || n == 0x202f || n == 0x205f || n == 0x3000
  }

  function TrimLeft(s: string): (r: string)
    ensures r == [] || !IsSpace(r[0])
    ensures |r| <= |s| && r == s[|s| - |r|..]
  {
    if s != [] && IsSpace(s[0]) then TrimLeft(s[1..]) else s
  }

  function TrimRight(s: string): (r: string)
    ensures r == [] || !IsSpace(r[|r| - 1])
    ensures r <= s
    ensures forall k :: |r| <= k < |s| ==> IsSpace(s[k])
  {
    if s != [] && IsSpace(s[|s| - 1]) then TrimRight(s[..|s| - 1]) else s
  }

  function Trim(s: string): string {
    TrimRight(TrimLeft(s))
  }

  predicate Trimmed(s: string) {
    s != [] && !IsSpace(s[0]) && !IsSpace(s[|s| - 1])
  }

  function Upper(c: char): char {
    if 'a' <= c <= 'z' then (c as int - 32) as char else c
  }

  function Lower(c: char): char {
    if 'A' <= c <= 'Z' then (c as int + 32) as char else c
  }

  function ToUpper(s: string): (r: string)
    ensures |r| == |s|
  {
    seq(|s|, i requires 0 <= i < |s| => Upper(s[i]))
  }

  function ToLower(s: string): (r: string)
    ensures |r| == |s|
  {
    seq(|s|, i requires 0 <= i < |s| => Lower(s[i]))
  }

  /** `sep.join(parts)` */
  function Join(parts: seq<string>, sep: string): string {
    if |parts| == 0 then ""
    else if |parts| == 1 then parts[0]
    else parts[0] + sep + Join(parts[1..], sep)
  }

  /** The length of the part of `s` before the first `c`, or `|s|` when there is none. */
  function IndexOf(s: string, c: char): (i: nat)
    ensures i <= |s|
    ensures i < |s| ==> s[i] == c
    ensures c !in s[..i]
  {
    if s == [] || s[0] == c then 0
    else
      assert s[..1 + IndexOf(s[1..], c)] == [s[0]] + s[1..][..IndexOf(s[1..], c)];
      1 + IndexOf(s[1..], c)
  }

  /** The index just after the last `c` in `s`, or 0 when there is none. */
  function AfterLast(s: string, c: char): (i: nat)
    ensures i <= |s|
    ensures 0 < i ==> s[i - 1] == c
    ensures c !in s[i..]
  {
    if s == [] || s[|s| - 1] == c then |s|
    else
      assert s[AfterLast(s[..|s| - 1], c)..] == s[..|s| - 1][AfterLast(s[..|s| - 1], c)..] + [s[|s| - 1]];
      AfterLast(s[..|s| - 1], c)
  }

  /** Splitting at every `c`: the parts joined by `c` are the string. */
  function SplitOn(s: string, c: char): (parts: seq<string>)
    ensures |parts| >= 1
    decreases |s|
  {
    var i := IndexOf(s, c);
    if i == |s| then [s] else [s[..i]] + SplitOn(s[i + 1..], c)
  }

  lemma IndexOfUnique(a: string, c: char, b: string)
    requires c !in a
    ensures IndexOf(a + [c] + b, c) == |a|
  {
    var s := a + [c] + b;
    assert s[|a|] == c;
    assert forall k :: 0 <= k < |a| ==> s[k] == a[k];
  }

  lemma {:induction false} AfterLastUnique(a: string, c: char, b: string)
    requires c !in b
    ensures AfterLast(a + [c] + b, c) == |a| + 1
  {
    var s := a + [c] + b;
    if b != [] {
      var shorter := b[..|b| - 1];
      assert s[|s| - 1] == b[|b| - 1] && s[..|s| - 1] == a + [c] + shorter;
      AfterLastUnique(a, c, shorter);
    }
  }

  /** A part without `c` is split off whole, up to the end of the string or the next `c`. */
  lemma SplitOnPart(part: string, c: char, tail: string)
    requires c !in part
    ensures SplitOn(part, c) == [part]
    ensures SplitOn(part + [c] + tail, c) == [part] + SplitOn(tail, c)
  {
    var s := part + [c] + tail;
    IndexOfUnique(part, c, tail);
    assert s[..|part|] == part && s[|part| + 1..] == tail;
  }

  lemma {:induction false} SplitOnJoin(parts: seq<string>, c: char)
    requires |parts| >= 1
    requires forall p :: p in parts ==> c !in p
    ensures SplitOn(Join(parts, [c]), c) == parts
  {
    hide SplitOn;
    assert parts[0] in parts;
    SplitOnPart(parts[0], c, Join(parts[1..], [c]));
    if |parts| == 1 {
      assert parts == [parts[0]];
    } else {
      assert parts == [parts[0]] + parts[1..];
      SplitOnJoin(parts[1..], c);
    }
  }

  lemma {:induction false} TrimLeftSpace(s: string)
    requires s != [] && !IsSpace(s[0])
    ensures TrimLeft(" " + s) == s && TrimLeft(s) == s
  {
    assert (" " + s)[1..] == s;
  }

  lemma TrimOfTrimmed(s: string)
    requires Trimmed(s)
    ensures Trim(s) == s && Trim(" " + s) == s
  {
    TrimLeftSpace(s);
  }

  /** Trailing white space is exactly what `TrimRight` drops. */
  lemma {:induction false} TrimRightAppend(a: string, spaces: string)
    requires a != [] && !IsSpace(a[|a| - 1])
    requires forall c :: c in spaces ==> IsSpace(c)
    ensures TrimRight(a + spaces) == a
  {
    var s := a + spaces;
    if spaces == [] {
      assert s == a;
    } else {
      var last := spaces[|spaces| - 1];
      assert s[|s| - 1] == last;
      assert s[..|s| - 1] == a + spaces[..|spaces| - 1];
      TrimRightAppend(a, spaces[..|spaces| - 1]);
    }
  }
}
