/** Sorting members by name, and why the sorted list of a set of files is unique. */
module MemberOrder {
  import opened Common
  import opened Packages

  /** Python's order on strings: by code point, a proper prefix first. */
  predicate Less(a: string, b: string) {
    b != "" && (a == "" || a[0] < b[0] || (a[0] == b[0] && Less(a[1..], b[1..])))
  }

  lemma {:induction false} LessIrreflexive(a: string)
    ensures !Less(a, a)
  {
    if a != "" {
      LessIrreflexive(a[1..]);
    }
  }

  lemma {:induction false} LessTotal(a: string, b: string)
    ensures a == b || Less(a, b) || Less(b, a)
    ensures !(Less(a, b) && (a == b || Less(b, a)))
    decreases |a|
  {
    LessIrreflexive(a);
    if a != "" && b != "" && a[0] == b[0] {
      LessTotal(a[1..], b[1..]);
      assert a == [a[0]] + a[1..] && b == [b[0]] + b[1..];
    }
  }

  lemma {:induction false} LessTransitive(a: string, b: string, c: string)
    requires Less(a, b) && Less(b, c)
    ensures Less(a, c)
    decreases |a|
  {
    if a != "" && a[0] == b[0] == c[0] {
      LessTransitive(a[1..], b[1..], c[1..]);
    }
  }

  predicate StrictlySorted(ms: seq<Member>) {
    forall i, j :: 0 <= i < j < |ms| ==> Less(ms[i].name, ms[j].name)
  }

  function Insert(m: Member, ms: seq<Member>): (r: seq<Member>)
    ensures |r| == |ms| + 1
    ensures forall x :: x in r <==> x == m || x in ms
  {
    if ms == [] then [m]
    else if Less(ms[0].name, m.name) || ms[0].name == m.name then [ms[0]] + Insert(m, ms[1..])
    else [m] + ms
  }

  /** `sorted(files, key=name)`; equal names keep their order. */
  function Sort(ms: seq<Member>): (r: seq<Member>)
    ensures |r| == |ms|
    ensures forall x :: x in r <==> x in ms
  {
    if ms == [] then []
    else
      assert forall x :: x in ms <==> x in ms[..|ms| - 1] || x == ms[|ms| - 1];
      Insert(ms[|ms| - 1], Sort(ms[..|ms| - 1]))
  }

  lemma {:induction false} InsertSorted(m: Member, ms: seq<Member>)
    requires StrictlySorted(ms) && m.name !in NameSet(ms)
    ensures StrictlySorted(Insert(m, ms))
  {
    if ms != [] {
      assert ms[0].name in NameSet(ms);
      LessTotal(ms[0].name, m.name);
      var r := Insert(m, ms);
      if Less(ms[0].name, m.name) {
        assert forall i :: 0 <= i < |ms[1..]| ==> ms[1..][i].name in NameSet(ms) by {
          assert forall i :: 0 <= i < |ms[1..]| ==> ms[1..][i] == ms[i + 1];
        }
        InsertSorted(m, ms[1..]);
        forall j | 0 < j < |r|
          ensures Less(r[0].name, r[j].name)
        {
          assert r[j] == Insert(m, ms[1..])[j - 1];
          assert r[j] in Insert(m, ms[1..]);
        }
      } else {
        forall j | 0 < j < |ms|
          ensures Less(m.name, ms[j].name)
        {
          LessTransitive(m.name, ms[0].name, ms[j].name);
        }
      }
    }
  }

  lemma {:induction false} SortSorts(ms: seq<Member>)
    requires Distinct(ms)
    ensures StrictlySorted(Sort(ms))
  {
    if ms != [] {
      var shorter, last := ms[..|ms| - 1], ms[|ms| - 1];
      SortSorts(shorter);
      forall i | 0 <= i < |Sort(shorter)|
        ensures Sort(shorter)[i].name != last.name
      {
        assert Sort(shorter)[i] in shorter;
      }
      InsertSorted(last, Sort(shorter));
    }
  }

  lemma ConsDistinct(m: Member, ms: seq<Member>)
    ensures Distinct([m] + ms) <==> Distinct(ms) && forall x :: x in ms ==> x.name != m.name
  {
    var all := [m] + ms;
    if Distinct(all) {
      forall i, j | 0 <= i < j < |ms|
        ensures ms[i].name != ms[j].name
      {
        assert all[i + 1].name != all[j + 1].name;
      }
      forall x | x in ms
        ensures x.name != m.name
      {
        var i :| 0 <= i < |ms| && ms[i] == x;
        assert all[0].name != all[i + 1].name;
      }
    }
  }

  lemma {:induction false} InsertDistinct(m: Member, ms: seq<Member>)
    requires Distinct(Insert(m, ms))
    ensures Distinct(ms) && forall x :: x in ms ==> x.name != m.name
  {
    hide Less, Distinct;
    if ms == [] {
      assert Insert(m, ms) == [m] + ms;
      ConsDistinct(m, ms);
    } else if Less(ms[0].name, m.name) || ms[0].name == m.name {
      assert Insert(m, ms) == [ms[0]] + Insert(m, ms[1..]) && ms == [ms[0]] + ms[1..];
      ConsDistinct(ms[0], Insert(m, ms[1..]));
      InsertDistinct(m, ms[1..]);
      ConsDistinct(ms[0], ms[1..]);
    } else {
      assert Insert(m, ms) == [m] + ms;
      ConsDistinct(m, ms);
    }
  }

  /** Sorting does not remove repeated names. */
  lemma {:induction false} SortDistinct(ms: seq<Member>)
    requires Distinct(Sort(ms))
    ensures Distinct(ms)
  {
    hide Less, Insert;
    if ms != [] {
      var shorter, last := ms[..|ms| - 1], ms[|ms| - 1];
      InsertDistinct(last, Sort(shorter));
      SortDistinct(shorter);
      forall i | 0 <= i < |shorter|
        ensures ms[i].name != last.name
      {
        assert shorter[i] in Sort(shorter);
      }
      assert forall i :: 0 <= i < |shorter| ==> shorter[i] == ms[i];
    }
  }

  lemma SortedDistinct(ms: seq<Member>)
    requires StrictlySorted(ms)
    ensures Distinct(ms)
  {
    forall i, j | 0 <= i < j < |ms|
      ensures ms[i].name != ms[j].name
    {
      LessTotal(ms[i].name, ms[j].name);
    }
  }

  /** Two lists of the same members, each without a repeated name, stand for the same files. */
  lemma SameFiles(a: seq<Member>, b: seq<Member>)
    requires Distinct(a) && Distinct(b) && forall m :: m in a <==> m in b
    ensures FilesOf(a) == FilesOf(b)
  {
    forall i | 0 <= i < |a|
      ensures a[i].name in FilesOf(b) && FilesOf(b)[a[i].name] == FilesOf(a)[a[i].name]
    {
      assert a[i] in b;
      var j :| 0 <= j < |b| && b[j] == a[i];
      FilesOfAt(a, i);
      FilesOfAt(b, j);
    }
    forall j | 0 <= j < |b|
      ensures b[j].name in FilesOf(a)
    {
      assert b[j] in a;
      var i :| 0 <= i < |a| && a[i] == b[j];
      FilesOfAt(a, i);
    }
  }

  lemma NameSetTail(ms: seq<Member>)
    requires Distinct(ms) && ms != []
    ensures Distinct(ms[1..]) && NameSet(ms[1..]) == NameSet(ms) - {ms[0].name}
  {
    var tail := ms[1..];
    assert forall i :: 0 <= i < |tail| ==> tail[i] == ms[i + 1];
    forall n | n in NameSet(ms) && n != ms[0].name
      ensures n in NameSet(tail)
    {
      var i :| 0 <= i < |ms| && ms[i].name == n;
      assert tail[i - 1].name == n;
    }
  }

  lemma FilesOfTail(ms: seq<Member>)
    requires Distinct(ms) && ms != []
    ensures FilesOf(ms[1..]) == FilesOf(ms) - {ms[0].name}
  {
    hide FilesOf, Distinct;
    var tail := ms[1..];
    NameSetTail(ms);
    forall n | n in NameSet(tail)
      ensures FilesOf(tail)[n] == FilesOf(ms)[n]
    {
      var i :| 0 <= i < |tail| && tail[i].name == n;
      FilesOfAt(tail, i);
      FilesOfAt(ms, i + 1);
    }
  }

  lemma NoNames(ms: seq<Member>)
    ensures NameSet(ms) == {} ==> ms == []
  {
    if ms != [] {
      assert ms[0].name in NameSet(ms);
    }
  }

  /** The members of a set of files in name order are determined by the files. */
  lemma {:induction false} SortedUnique(a: seq<Member>, b: seq<Member>)
    requires StrictlySorted(a) && StrictlySorted(b)
    requires forall m :: m in a || m in b ==> m.kind.Regular?
    requires FilesOf(a) == FilesOf(b)
    ensures a == b
    decreases |a|
  {
    hide FilesOf, Distinct, Less;
    SortedDistinct(a);
    SortedDistinct(b);
    assert NameSet(a) == NameSet(b);
    if a == [] {
      NoNames(b);
    } else {
      FirstIsLeast(a, b);
      FilesOfAt(a, 0);
      FilesOfAt(b, 0);
      assert a[0] in a && b[0] in b;
      FilesOfTail(a);
      FilesOfTail(b);
      SortedUnique(a[1..], b[1..]);
      assert a == [a[0]] + a[1..] && b == [b[0]] + b[1..];
    }
  }

  lemma FirstIsLeast(a: seq<Member>, b: seq<Member>)
    requires StrictlySorted(a) && StrictlySorted(b) && a != []
    requires NameSet(a) == NameSet(b)
    ensures b != [] && a[0].name == b[0].name
  {
    assert a[0].name in NameSet(b);
    var k :| 0 <= k < |b| && b[k].name == a[0].name;
    assert b[0].name in NameSet(a);
    var i :| 0 <= i < |a| && a[i].name == b[0].name;
    LessTotal(a[0].name, b[0].name);
  }
}
