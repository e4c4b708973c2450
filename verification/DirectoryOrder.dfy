/**
 * Directory entries, the order in which they are listed, and sorting by that order.
 */
module DirectoryOrder {
  import opened Utf16

  datatype Kind = File | Directory | SymbolicLink

  /** An entry as the file system delivers it; only directories have entries of their own, in delivery order. */
  datatype Dirent = Dirent(name: string, kind: Kind, children: seq<Dirent>)

  const OMITTED_DIRECTORIES: set<string> :=
    {".git", "node_modules", "dist", "build", "target", ".cache", ".venv", "coverage"}

  predicate Omitted(e: Dirent) {
    e.kind.Directory? && e.name in OMITTED_DIRECTORIES
  }

  function Visible(entries: seq<Dirent>): (r: seq<Dirent>)
    ensures forall e :: e in r <==> e in entries && !Omitted(e)
  {
    if entries == [] then [] else (if Omitted(entries[0]) then [] else [entries[0]]) + Visible(entries[1..])
  }

  predicate Less(a: Dirent, b: Dirent) {
    Before(a.name, b.name)
  }

  predicate AtLeast(a: Dirent, b: Dirent) {
    !Less(a, b)
  }

  lemma AtLeastTransitive(a: Dirent, b: Dirent, c: Dirent)
    requires AtLeast(a, b) && AtLeast(b, c)
    ensures AtLeast(a, c)
  {
    BeforeTotal(a.name, b.name);
    BeforeTotal(b.name, c.name);
    BeforeTotal(a.name, c.name);
    if Less(a, c) {
      if Before(b.name, a.name) {
        BeforeTransitive(b.name, a.name, c.name);
      }
    }
  }

  lemma LessAtLeast(a: Dirent, b: Dirent)
    requires Less(a, b)
    ensures AtLeast(b, a)
  {
    BeforeTotal(a.name, b.name);
  }

  ghost predicate DistinctEntries(entries: seq<Dirent>) {
    forall i, j :: 0 <= i < j < |entries| ==> entries[i].name != entries[j].name
  }

  /** In increasing order, no name twice. */
  ghost predicate Ordered(s: seq<Dirent>) {
    forall i, j :: 0 <= i < j < |s| ==> Less(s[i], s[j])
  }

  // ----- Sorting -----

  function Insert(e: Dirent, s: seq<Dirent>): (r: seq<Dirent>)
    ensures multiset(r) == multiset(s) + multiset{e}
  {
    if s == [] || Less(e, s[0]) then [e] + s
    else
      assert s == [s[0]] + s[1..];
      [s[0]] + Insert(e, s[1..])
  }

  function Sorted(entries: seq<Dirent>): (r: seq<Dirent>)
    ensures multiset(r) == multiset(entries)
    ensures |r| == |entries|
    ensures forall e :: e in r <==> e in entries
  {
    if entries == [] then []
    else
      assert entries == [entries[0]] + entries[1..];
      var r := Insert(entries[0], Sorted(entries[1..]));
      MultisetMembers(r, entries);
      r
  }

  lemma MultisetMembers(a: seq<Dirent>, b: seq<Dirent>)
    requires multiset(a) == multiset(b)
    ensures |a| == |b| && forall e :: e in a <==> e in b
  {
    assert |multiset(a)| == |a| && |multiset(b)| == |b|;
    forall e ensures e in a <==> e in b {
      assert e in a <==> e in multiset(a);
      assert e in b <==> e in multiset(b);
    }
  }

  lemma {:induction false} InsertOrdered(e: Dirent, s: seq<Dirent>)
    requires Ordered(s) && forall x :: x in s ==> x.name != e.name
    ensures Ordered(Insert(e, s))
  {
    if s == [] {
    } else if Less(e, s[0]) {
      forall j | 0 <= j < |s| ensures Less(e, s[j]) {
        if j > 0 {
          BeforeTransitive(e.name, s[0].name, s[j].name);
        }
      }
    } else {
      var rest := Insert(e, s[1..]);
      InsertOrdered(e, s[1..]);
      assert s == [s[0]] + s[1..];
      forall j | 0 <= j < |rest| ensures Less(s[0], rest[j]) {
        assert rest[j] in multiset(rest);
        if rest[j] == e {
          assert s[0] in s;
          BeforeTotal(e.name, s[0].name);
        } else {
          assert rest[j] in s[1..];
        }
      }
    }
  }

  lemma {:induction false} SortedIsOrdered(entries: seq<Dirent>)
    requires DistinctEntries(entries)
    ensures Ordered(Sorted(entries))
  {
    if entries != [] {
      SortedIsOrdered(entries[1..]);
      forall x | x in Sorted(entries[1..]) ensures x.name != entries[0].name {
        var j :| 0 <= j < |entries[1..]| && entries[1..][j] == x;
        assert entries[j + 1] == x;
      }
      InsertOrdered(entries[0], Sorted(entries[1..]));
    }
  }

  /** Order and contents determine the sequence. */
  lemma {:induction false} OrderedUnique(a: seq<Dirent>, b: seq<Dirent>)
    requires Ordered(a) && Ordered(b) && multiset(a) == multiset(b)
    ensures a == b
  {
    MultisetMembers(a, b);
    if a != [] {
      FirstIsLeast(a, b[0]);
      FirstIsLeast(b, a[0]);
      BeforeTotal(a[0].name, b[0].name);
      TailMultiset(a);
      TailMultiset(b);
      OrderedUnique(a[1..], b[1..]);
      assert a == [a[0]] + a[1..] && b == [b[0]] + b[1..];
    }
  }

  lemma TailMultiset(s: seq<Dirent>)
    requires s != []
    ensures multiset(s[1..]) == multiset(s) - multiset{s[0]}
  {
    assert s == [s[0]] + s[1..];
  }

  lemma FirstIsLeast(s: seq<Dirent>, e: Dirent)
    requires Ordered(s) && e in s
    ensures s[0] == e || Less(s[0], e)
  {
  }

  lemma {:induction false} VisibleDistinct(entries: seq<Dirent>)
    requires DistinctEntries(entries)
    ensures DistinctEntries(Visible(entries))
  {
    if entries != [] {
      VisibleDistinct(entries[1..]);
      forall x | x in Visible(entries[1..]) ensures x.name != entries[0].name {
        var j :| 0 <= j < |entries[1..]| && entries[1..][j] == x;
        assert entries[j + 1] == x;
      }
    }
  }
}
