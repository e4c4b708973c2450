/**
 * The bounded depth-first listing: under an entry budget and a byte budget it lists exactly the longest front of the
 * full listing, which sorts every directory and flattens the tree.
 */
module DirectoryListing {
  import opened Sequences
  import opened Utf8
  import opened Utf16
  import opened DirectoryOrder
  import opened DirectoryHeap

  // ----- The full listing -----

  function Listed(prefix: string, e: Dirent): string {
    prefix + e.name + if e.kind.Directory? then "/" else ""
  }

  /** Everything below a directory, to the given depth: each directory sorted, its own entries right after it. */
  function Flat(prefix: string, entries: seq<Dirent>, remaining: nat): seq<string>
    decreases remaining, |entries|
  {
    if entries == [] then []
    else [Listed(prefix, entries[0])] + Below(prefix, entries[0], remaining) + Flat(prefix, entries[1..], remaining)
  }

  function Below(prefix: string, e: Dirent, remaining: nat): seq<string>
    decreases remaining, 0
  {
    if e.kind.Directory? && remaining > 0 then Flat(prefix + e.name + "/", Sorted(Visible(e.children)), remaining - 1)
    else []
  }

  function FullListing(root: Dirent, depth: nat): seq<string> {
    Flat("", Sorted(Visible(root.children)), depth)
  }

  // ----- Budgets -----

  /** Size of the entries joined by newlines. */
  function JoinedBytes(entries: seq<string>): nat {
    if entries == [] then 0
    else if |entries| == 1 then ByteLength(entries[0])
    else ByteLength(entries[0]) + 1 + JoinedBytes(entries[1..])
  }

  lemma {:induction false} JoinedBytesSnoc(entries: seq<string>, e: string)
    ensures JoinedBytes(entries + [e]) == JoinedBytes(entries) + (if entries == [] then 0 else 1) + ByteLength(e)
  {
    if entries == [] {
      assert entries + [e] == [e];
    } else {
      assert (entries + [e])[1..] == entries[1..] + [e];
      JoinedBytesSnoc(entries[1..], e);
    }
  }

  lemma {:induction false} JoinedBytesGrow(a: seq<string>, b: seq<string>)
    ensures JoinedBytes(a) <= JoinedBytes(a + b)
    decreases |b|
  {
    if b == [] {
      assert a + b == a;
    } else {
      JoinedBytesSnoc(a, b[0]);
      assert a + b == (a + [b[0]]) + b[1..];
      JoinedBytesGrow(a + [b[0]], b[1..]);
    }
  }

  predicate Fits(entries: seq<string>, maxEntries: nat, maxBytes: nat) {
    |entries| <= maxEntries && JoinedBytes(entries) <= maxBytes
  }

  /** kept is a front of all that fits, and one entry more would not. */
  ghost predicate Stops(kept: seq<string>, all: seq<string>, maxEntries: nat, maxBytes: nat) {
    && Fits(kept, maxEntries, maxBytes)
    && |kept| <= |all| && kept == all[..|kept|]
    && (|kept| < |all| ==> !Fits(all[..|kept| + 1], maxEntries, maxBytes))
  }

  /** Such a front is the longest one that fits. */
  lemma StopsIsLongest(kept: seq<string>, all: seq<string>, maxEntries: nat, maxBytes: nat)
    requires Stops(kept, all, maxEntries, maxBytes)
    ensures forall k :: 0 <= k <= |all| ==> (Fits(all[..k], maxEntries, maxBytes) <==> k <= |kept|)
  {
    forall k | 0 <= k <= |all| ensures Fits(all[..k], maxEntries, maxBytes) <==> k <= |kept| {
      if k <= |kept| {
        assert all[..k] + all[k..|kept|] == kept;
        JoinedBytesGrow(all[..k], all[k..|kept|]);
      } else {
        assert all[..|kept| + 1] + all[|kept| + 1..k] == all[..k];
        JoinedBytesGrow(all[..|kept| + 1], all[|kept| + 1..k]);
      }
    }
  }

  /** Listing more behind a point already cut off changes nothing. */
  lemma StopsEarly(kept: seq<string>, all: seq<string>, more: seq<string>, maxEntries: nat, maxBytes: nat)
    requires Stops(kept, all, maxEntries, maxBytes) && kept != all
    ensures Stops(kept, all + more, maxEntries, maxBytes) && kept != all + more
  {
    assert all[..|all|] == all;
    assert (all + more)[..|kept|] == all[..|kept|];
    assert (all + more)[..|kept| + 1] == all[..|kept| + 1];
  }

  lemma StopsBefore(kept: seq<string>, next: string, more: seq<string>, maxEntries: nat, maxBytes: nat)
    requires Fits(kept, maxEntries, maxBytes)
    requires |kept| >= maxEntries || JoinedBytes(kept + [next]) > maxBytes
    ensures Stops(kept, kept + ([next] + more), maxEntries, maxBytes) && kept != kept + ([next] + more)
  {
    var all := kept + ([next] + more);
    assert all[..|kept|] == kept && all[..|kept| + 1] == kept + [next];
    assert |all| > |kept|;
  }

  // ----- The traversal -----

  /** How a traversal ended: with everything listed, or with more left and the budget that ran out. */
  datatype Outcome = Complete | EntryLimit | ByteLimit

  class ListTraversalState {
    var entries: seq<string>
    var bytes: nat
    const maxEntries: nat
    const maxBytes: nat

    ghost predicate Valid()
      reads this
    {
      bytes == JoinedBytes(entries) && Fits(entries, maxEntries, maxBytes)
    }

    constructor (maxEntries: nat, maxBytes: nat)
      ensures Valid() && entries == [] && this.maxEntries == maxEntries && this.maxBytes == maxBytes
    {
      entries, bytes := [], 0;
      this.maxEntries, this.maxBytes := maxEntries, maxBytes;
    }

    /** Everything of `all` was listed, or as much as fits and the outcome names the budget that ran out. */
    ghost predicate Reached(all: seq<string>, outcome: Outcome)
      reads this
    {
      && Stops(entries, all, maxEntries, maxBytes)
      && (outcome.Complete? <==> entries == all)
      && (outcome.EntryLimit? ==> |entries| == maxEntries)
      && (outcome.ByteLimit? ==> |entries| < maxEntries)
    }

    /** Lists one entry if both budgets allow. */
    method List(listed: string, ghost more: seq<string>) returns (outcome: Outcome)
      requires Valid()
      modifies this
      ensures Valid()
      ensures outcome.Complete? ==> entries == old(entries) + [listed]
      ensures !outcome.Complete? ==> Reached(old(entries) + ([listed] + more), outcome)
    {
      JoinedBytesSnoc(entries, listed);
      if |entries| >= maxEntries {
        StopsBefore(entries, listed, more, maxEntries, maxBytes);
        return EntryLimit;
      }
      var separatorBytes := if |entries| == 0 then 0 else 1;
      if bytes + separatorBytes + ByteLength(listed) > maxBytes {
        StopsBefore(entries, listed, more, maxEntries, maxBytes);
        return ByteLimit;
      }
      entries := entries + [listed];
      bytes := bytes + separatorBytes + ByteLength(listed);
      return Complete;
    }
  }

  /** No directory delivers a name twice. */
  ghost predicate WellNamed(d: Dirent) {
    DistinctEntries(d.children) && forall e :: e in d.children ==> WellNamed(e)
  }

  lemma {:induction false} FlatConcat(prefix: string, a: seq<Dirent>, b: seq<Dirent>, remaining: nat)
    ensures Flat(prefix, a + b, remaining) == Flat(prefix, a, remaining) + Flat(prefix, b, remaining)
    decreases |a|
  {
    if a == [] {
      assert a + b == b;
    } else {
      var head := [Listed(prefix, a[0])] + Below(prefix, a[0], remaining);
      assert (a + b)[1..] == a[1..] + b && (a + b)[0] == a[0];
      FlatConcat(prefix, a[1..], b, remaining);
      Regroup(Flat(prefix, a + b, remaining), head, Flat(prefix, a[1..], remaining), Flat(prefix, b, remaining));
    }
  }

  lemma {:induction false} FlatLength(prefix: string, entries: seq<Dirent>, remaining: nat)
    ensures |Flat(prefix, entries, remaining)| >= |entries|
    decreases |entries|
  {
    if entries != [] {
      FlatLength(prefix, entries[1..], remaining);
    }
  }

  lemma FlatStep(prefix: string, entries: seq<Dirent>, i: nat, remaining: nat)
    requires i < |entries|
    ensures Flat(prefix, entries[i..], remaining) ==
              ([Listed(prefix, entries[i])] + Below(prefix, entries[i], remaining))
                + Flat(prefix, entries[i + 1..], remaining)
  {
    assert entries[i..][0] == entries[i] && entries[i..][1..] == entries[i + 1..];
  }

  method Walk(prefix: string, current: Dirent, remaining: int, state: ListTraversalState) returns (outcome: Outcome)
    requires WellNamed(current) && state.Valid()
    modifies state
    ensures state.Valid()
    ensures remaining < 0 ==> outcome.Complete? && state.entries == old(state.entries)
    ensures remaining >= 0 ==>
              state.Reached(old(state.entries) + Flat(prefix, Sorted(Visible(current.children)), remaining), outcome)
    decreases remaining, 2
  {
    if remaining < 0 {
      return Complete;
    }
    var limit := if state.maxEntries - |state.entries| > 1 then state.maxEntries - |state.entries| else 1;
    var entries, hasMore := ReadSortedDirectory(current.children, limit);
    ghost var start, sorted := state.entries, Sorted(Visible(current.children));
    assert hasMore <==> |entries| < |sorted|;
    assert entries == sorted[..|entries|];
    outcome := WalkEntries(prefix, entries, remaining, state);
    assert Stops(state.entries, start + Flat(prefix, entries, remaining), state.maxEntries, state.maxBytes);
    if outcome.Complete? && hasMore {
      outcome := EntryLimit;
    }
    Unread(prefix, sorted, |entries|, remaining, start, state.entries, state.maxEntries, state.maxBytes);
  }

  /** A directory whose first n entries are all listed, or as far as the budgets go, against the whole directory. */
  lemma Unread(prefix: string, sorted: seq<Dirent>, n: nat, remaining: nat, start: seq<string>, kept: seq<string>,
               maxEntries: nat, maxBytes: nat)
    requires n <= |sorted| && Stops(kept, start + Flat(prefix, sorted[..n], remaining), maxEntries, maxBytes)
    requires n < |sorted| ==> |start| + n >= maxEntries
    ensures Stops(kept, start + Flat(prefix, sorted, remaining), maxEntries, maxBytes)
    ensures kept == start + Flat(prefix, sorted, remaining) <==>
        kept == start + Flat(prefix, sorted[..n], remaining)
        && n == |sorted|
    ensures kept == start + Flat(prefix, sorted[..n], remaining) && n < |sorted| ==> |kept| == maxEntries
  {
    var seen, unread := start + Flat(prefix, sorted[..n], remaining), Flat(prefix, sorted[n..], remaining);
    ReadAndUnread(prefix, sorted, n, remaining, start);
    if kept != seen {
      StopsEarly(kept, seen, unread, maxEntries, maxBytes);
    } else if n < |sorted| {
      UnreadIsNotEmpty(prefix, sorted, n, remaining);
      StopsBefore(kept, unread[0], unread[1..], maxEntries, maxBytes);
    }
  }

  lemma ReadAndUnread(prefix: string, sorted: seq<Dirent>, n: nat, remaining: nat, start: seq<string>)
    requires n <= |sorted|
    ensures start + Flat(prefix, sorted, remaining) == (start + Flat(prefix, sorted[..n], remaining))
        + Flat(prefix, sorted[n..], remaining)
    ensures n == |sorted| ==> start + Flat(prefix, sorted, remaining) == start + Flat(prefix, sorted[..n], remaining)
    ensures |start + Flat(prefix, sorted[..n], remaining)| >= |start| + n
  {
    assert sorted == sorted[..n] + sorted[n..];
    FlatConcat(prefix, sorted[..n], sorted[n..], remaining);
    Regroup(start + Flat(prefix, sorted, remaining), start, Flat(prefix, sorted[..n], remaining),
            Flat(prefix, sorted[n..], remaining));
    FlatLength(prefix, sorted[..n], remaining);
    if n == |sorted| {
      assert sorted[..n] == sorted;
    }
  }

  lemma UnreadIsNotEmpty(prefix: string, sorted: seq<Dirent>, n: nat, remaining: nat)
    requires n < |sorted|
    ensures var unread := Flat(prefix, sorted[n..], remaining); unread != [] && unread == [unread[0]] + unread[1..]
  {
    FlatLength(prefix, sorted[n..], remaining);
  }

  /** The loop of one directory. */
  method WalkEntries(prefix: string, entries: seq<Dirent>, remaining: nat, state: ListTraversalState)
      returns (outcome: Outcome)
    requires (forall e :: e in entries ==> WellNamed(e)) && state.Valid()
    modifies state
    ensures state.Valid() && state.Reached(old(state.entries) + Flat(prefix, entries, remaining), outcome)
    decreases remaining, 1
  {
    ghost var all := state.entries + Flat(prefix, entries, remaining);
    for i := 0 to |entries|
      invariant state.Valid() && all == state.entries + Flat(prefix, entries[i..], remaining)
    {
      ghost var before := state.entries;
      FlatStep(prefix, entries, i, remaining);
      Regroup(all, before, [Listed(prefix, entries[i])] + Below(prefix, entries[i], remaining),
              Flat(prefix, entries[i + 1..], remaining));
      outcome := Visit(prefix, entries[i], remaining, state);
      if !outcome.Complete? {
        StopsEarly(state.entries, before + ([Listed(prefix, entries[i])] + Below(prefix, entries[i], remaining)),
                   Flat(prefix, entries[i + 1..], remaining), state.maxEntries, state.maxBytes);
        return;
      }
    }
    assert entries[|entries|..] == [] && all == state.entries;
    outcome := Complete;
    assert all[..|all|] == all;
  }

  /** One entry, then what is below it. */
  method Visit(prefix: string, e: Dirent, remaining: nat, state: ListTraversalState) returns (outcome: Outcome)
    requires WellNamed(e) && state.Valid()
    modifies state
    ensures state.Valid() && state.Reached(old(state.entries) + ([Listed(prefix, e)] + Below(prefix, e, remaining)),
                                           outcome)
    decreases remaining, 0
  {
    ghost var before, below := state.entries, Below(prefix, e, remaining);
    outcome := state.List(Listed(prefix, e), below);
    if !outcome.Complete? {
      return;
    }
    assert state.entries + below == before + ([Listed(prefix, e)] + below);
    if e.kind.Directory? && remaining > 0 {
      outcome := Walk(prefix + e.name + "/", e, remaining - 1, state);
    } else {
      assert state.entries + below == state.entries;
      assert state.entries[..|state.entries|] == state.entries;
    }
  }

  /** The whole tool: a fresh state over the root. */
  method ListDirectory(root: Dirent, depth: nat, maxEntries: nat, maxBytes: nat)
      returns (entries: seq<string>, outcome: Outcome)
    requires WellNamed(root)
    ensures entries <= FullListing(root, depth)
    ensures forall k :: 0 <= k <= |FullListing(root, depth)| ==>
              (Fits(FullListing(root, depth)[..k], maxEntries, maxBytes) <==> k <= |entries|)
    ensures outcome.Complete? <==> entries == FullListing(root, depth)
    ensures !outcome.Complete? ==> (outcome.EntryLimit? <==> |entries| == maxEntries)
  {
    var state := new ListTraversalState(maxEntries, maxBytes);
    outcome := Walk("", root, depth, state);
    entries := state.entries;
    assert [] + FullListing(root, depth) == FullListing(root, depth);
    StopsIsLongest(entries, FullListing(root, depth), maxEntries, maxBytes);
  }

  // ----- Delivery order -----

  /** Two deliveries of the same directory tree: the same entries, each directory in any order. */
  ghost predicate SameTree(a: Dirent, b: Dirent)
    decreases a, 1
  {
    && a.name == b.name && a.kind == b.kind
    && (forall c :: c in a.children ==> DeliveredToo(a, c, b.children))
    && (forall d :: d in b.children ==> DeliveredBefore(a, d))
  }

  ghost predicate DeliveredToo(a: Dirent, c: Dirent, others: seq<Dirent>)
    requires c in a.children
    decreases a, 0
  {
    exists d :: d in others && SameTree(c, d)
  }

  ghost predicate DeliveredBefore(a: Dirent, d: Dirent)
    decreases a, 0
  {
    exists c :: c in a.children && SameTree(c, d)
  }

  ghost predicate Left(xs: seq<Dirent>, y: Dirent) {
    exists x :: x in xs && SameTree(x, y)
  }

  ghost predicate Right(x: Dirent, ys: seq<Dirent>) {
    exists y :: y in ys && SameTree(x, y)
  }

  ghost predicate Paired(xs: seq<Dirent>, ys: seq<Dirent>) {
    (forall x :: x in xs ==> Right(x, ys)) && (forall y :: y in ys ==> Left(xs, y))
  }

  lemma PickRight(x: Dirent, ys: seq<Dirent>) returns (y: Dirent)
    requires Right(x, ys)
    ensures y in ys && SameTree(x, y) && y.name == x.name && y.kind == x.kind
  {
    y :| y in ys && SameTree(x, y);
  }

  lemma PickLeft(xs: seq<Dirent>, y: Dirent) returns (x: Dirent)
    requires Left(xs, y)
    ensures x in xs && SameTree(x, y) && y.name == x.name && y.kind == x.kind
  {
    x :| x in xs && SameTree(x, y);
  }

  lemma ChildrenPaired(a: Dirent, b: Dirent)
    requires SameTree(a, b)
    ensures Paired(a.children, b.children)
  {
    forall x | x in a.children ensures Right(x, b.children) {
      assert DeliveredToo(a, x, b.children);
    }
    forall y | y in b.children ensures Left(a.children, y) {
      assert DeliveredBefore(a, y);
    }
  }

  lemma VisiblePaired(xs: seq<Dirent>, ys: seq<Dirent>)
    requires Paired(xs, ys)
    ensures Paired(Sorted(Visible(xs)), Sorted(Visible(ys)))
  {
    var vx, vy := Sorted(Visible(xs)), Sorted(Visible(ys));
    forall x | x in vx ensures Right(x, vy) {
      var y := PickRight(x, ys);
      assert y in vy;
    }
    forall y | y in vy ensures Left(vx, y) {
      var x := PickLeft(xs, y);
      assert x in vx;
    }
  }

  /** Ordered sequences with the same entries agree place by place. */
  lemma {:induction false} OrderedPaired(xs: seq<Dirent>, ys: seq<Dirent>)
    requires Ordered(xs) && Ordered(ys) && Paired(xs, ys)
    ensures |xs| == |ys| && forall i :: 0 <= i < |xs| ==> SameTree(xs[i], ys[i])
  {
    if xs == [] || ys == [] {
      PairedEmpty(xs, ys);
    } else {
      FirstsPaired(xs, ys);
      TailsPaired(xs, ys);
      TailOrdered(xs);
      TailOrdered(ys);
      OrderedPaired(xs[1..], ys[1..]);
      forall i | 0 <= i < |xs| ensures SameTree(xs[i], ys[i]) {
        if i > 0 {
          assert xs[i] == xs[1..][i - 1] && ys[i] == ys[1..][i - 1];
        }
      }
    }
  }

  lemma PairedEmpty(xs: seq<Dirent>, ys: seq<Dirent>)
    requires Paired(xs, ys) && (xs == [] || ys == [])
    ensures xs == [] && ys == []
  {
    if xs != [] {
      assert xs[0] in xs;
      var y := PickRight(xs[0], ys);
    }
    if ys != [] {
      assert ys[0] in ys;
      var x := PickLeft(xs, ys[0]);
    }
  }

  lemma TailOrdered(s: seq<Dirent>)
    requires s != [] && Ordered(s)
    ensures Ordered(s[1..]) && forall x :: x in s[1..] ==> x.name != s[0].name
  {
    forall x | x in s[1..] ensures x.name != s[0].name {
      var i :| 0 <= i < |s[1..]| && s[1..][i] == x;
      assert Less(s[0], s[i + 1]);
      BeforeTotal(s[0].name, s[i + 1].name);
    }
  }

  lemma FirstsPaired(xs: seq<Dirent>, ys: seq<Dirent>)
    requires Ordered(xs) && Ordered(ys) && Paired(xs, ys) && xs != [] && ys != []
    ensures SameTree(xs[0], ys[0]) && xs[0].name == ys[0].name
  {
    assert xs[0] in xs && ys[0] in ys;
    var y := PickRight(xs[0], ys);
    var x := PickLeft(xs, ys[0]);
    FirstIsLeast(ys, y);
    FirstIsLeast(xs, x);
    BeforeTotal(xs[0].name, ys[0].name);
  }

  lemma TailsPaired(xs: seq<Dirent>, ys: seq<Dirent>)
    requires Ordered(xs) && Ordered(ys) && Paired(xs, ys) && xs != [] && ys != [] && xs[0].name == ys[0].name
    ensures Paired(xs[1..], ys[1..])
  {
    TailOrdered(xs);
    TailOrdered(ys);
    assert xs == [xs[0]] + xs[1..] && ys == [ys[0]] + ys[1..];
    forall x | x in xs[1..] ensures Right(x, ys[1..]) {
      var y := PickRight(x, ys);
      assert y in ys[1..];
    }
    forall y | y in ys[1..] ensures Left(xs[1..], y) {
      var x := PickLeft(xs, y);
      assert x in xs[1..];
    }
  }

  lemma {:induction false} FlatPaired(prefix: string, xs: seq<Dirent>, ys: seq<Dirent>, remaining: nat)
    requires |xs| == |ys| && forall i :: 0 <= i < |xs| ==>
        SameTree(xs[i], ys[i]) && WellNamed(xs[i])
        && WellNamed(ys[i])
    ensures Flat(prefix, xs, remaining) == Flat(prefix, ys, remaining)
    decreases remaining, |xs|
  {
    if xs != [] {
      if xs[0].kind.Directory? && remaining > 0 {
        BelowPaired(xs[0], ys[0]);
        FlatPaired(prefix + xs[0].name + "/", Sorted(Visible(xs[0].children)), Sorted(Visible(ys[0].children)),
                   remaining - 1);
      }
      FlatPaired(prefix, xs[1..], ys[1..], remaining);
    }
  }

  lemma BelowPaired(a: Dirent, b: Dirent)
    requires SameTree(a, b) && WellNamed(a) && WellNamed(b)
    ensures var xs, ys := Sorted(Visible(a.children)), Sorted(Visible(b.children));
            |xs| == |ys| && forall i :: 0 <= i < |xs| ==> SameTree(xs[i], ys[i]) && WellNamed(xs[i]) && WellNamed(ys[i])
  {
    var xs, ys := Sorted(Visible(a.children)), Sorted(Visible(b.children));
    ChildrenPaired(a, b);
    VisiblePaired(a.children, b.children);
    VisibleDistinct(a.children);
    VisibleDistinct(b.children);
    SortedIsOrdered(Visible(a.children));
    SortedIsOrdered(Visible(b.children));
    OrderedPaired(xs, ys);
    forall i | 0 <= i < |xs| ensures WellNamed(xs[i]) && WellNamed(ys[i]) {
      assert xs[i] in xs && ys[i] in ys;
    }
  }

  /** The full listing does not depend on the order in which the file system delivers its directories. */
  lemma DeliveryOrderIsIrrelevant(a: Dirent, b: Dirent, depth: nat)
    requires SameTree(a, b) && WellNamed(a) && WellNamed(b)
    ensures FullListing(a, depth) == FullListing(b, depth)
  {
    BelowPaired(a, b);
    FlatPaired("", Sorted(Visible(a.children)), Sorted(Visible(b.children)), depth);
  }
}
