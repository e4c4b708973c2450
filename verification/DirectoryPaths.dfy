/**
 * What a full listing is, said of paths: the text of every path from the root that may be listed, once, in depth-first
 * order of names.
 */
module DirectoryPaths {
  import opened Utf8
  import opened Utf16
  import Lines
  import opened DirectoryOrder
  import opened DirectoryListing

  // ----- Paths -----

  type Trail = seq<Dirent>

  /** A child that is listed: not one of the directories that are left out. */
  ghost predicate ListedIn(e: Dirent, entries: seq<Dirent>) {
    && e in entries
    && !(e.kind.Directory?
         && e.name in {".git", "node_modules", "dist", "build", "target", ".cache", ".venv", "coverage"})
  }

  ghost predicate StepsDown(trail: Trail, i: nat)
    requires 1 <= i < |trail|
  {
    trail[i - 1].kind.Directory? && ListedIn(trail[i], trail[i - 1].children)
  }

  /** A way down from the root through directories, at most `depth` of them, each step to an entry that is listed. */
  ghost predicate IsTrail(root: Dirent, trail: Trail, depth: nat) {
    && 1 <= |trail| <= depth + 1
    && ListedIn(trail[0], root.children)
    && forall i :: 1 <= i < |trail| ==> StepsDown(trail, i)
  }

  function Names(trail: Trail): seq<string> {
    seq(|trail|, i requires 0 <= i < |trail| => trail[i].name)
  }

  /** The names joined by slashes, and one more slash behind a directory. */
  function TrailText(trail: Trail): string
    requires trail != []
  {
    Lines.Join(Names(trail), '/') + (if trail[|trail| - 1].kind.Directory? then "/" else "")
  }

  /** Depth-first order: names are compared where two trails part, and a directory comes before what is below it. */
  ghost predicate TrailBefore(a: Trail, b: Trail) {
    exists k :: 0 <= k <= |a| && k < |b| && a[..k] == b[..k] && (k == |a| || Before(a[k].name, b[k].name))
  }

  // ----- The trails of a listing -----

  function Trails(front: Trail, entries: seq<Dirent>, remaining: nat): seq<Trail>
    decreases remaining, |entries|, 1
  {
    if entries == [] then [] else TrailsOf(front, entries[0], remaining) + Trails(front, entries[1..], remaining)
  }

  function TrailsOf(front: Trail, e: Dirent, remaining: nat): seq<Trail>
    decreases remaining, 0, 0
  {
    [front + [e]]
    + if e.kind.Directory? && remaining > 0 then Trails(front + [e], Sorted(Visible(e.children)), remaining - 1) else []
  }

  /** The text before an entry: the names down to its directory, each with a slash. */
  function FrontText(front: Trail): string {
    if front == [] then "" else Lines.Join(Names(front), '/') + "/"
  }

  lemma {:induction false} JoinSnoc(names: seq<string>, name: string)
    requires names != []
    ensures Lines.Join(names + [name], '/') == Lines.Join(names, '/') + "/" + name
  {
    if |names| == 1 {
      assert names + [name] == [names[0], name];
      assert [names[0], name][1..] == [name];
    } else {
      assert (names + [name])[1..] == names[1..] + [name];
      JoinSnoc(names[1..], name);
    }
  }

  lemma TextOfLast(front: Trail, e: Dirent)
    ensures FrontText(front) + e.name == Lines.Join(Names(front + [e]), '/')
    ensures TrailText(front + [e]) == Listed(FrontText(front), e)
    ensures FrontText(front + [e]) == FrontText(front) + e.name + "/"
  {
    assert Names(front + [e]) == Names(front) + [e.name];
    if front == [] {
      assert Names(front) + [e.name] == [e.name];
    } else {
      JoinSnoc(Names(front), e.name);
    }
  }

  /** Text after text of the trails is the listing. */
  ghost predicate TextsOf(texts: seq<string>, trails: seq<Trail>) {
    |texts| == |trails| && forall i :: 0 <= i < |trails| ==> trails[i] != [] && texts[i] == TrailText(trails[i])
  }

  lemma TextsConcat(a: seq<string>, x: seq<Trail>, b: seq<string>, y: seq<Trail>)
    requires TextsOf(a, x) && TextsOf(b, y)
    ensures TextsOf(a + b, x + y)
  {
  }

  lemma {:induction false} FlatTexts(front: Trail, entries: seq<Dirent>, remaining: nat)
    ensures TextsOf(Flat(FrontText(front), entries, remaining), Trails(front, entries, remaining))
    decreases remaining, |entries|, 1
  {
    if entries != [] {
      var prefix := FrontText(front);
      EntryTexts(front, entries[0], remaining);
      FlatTexts(front, entries[1..], remaining);
      TextsConcat([Listed(prefix, entries[0])] + Below(prefix, entries[0], remaining),
                  TrailsOf(front, entries[0], remaining),
                  Flat(prefix, entries[1..], remaining), Trails(front, entries[1..], remaining));
    }
  }

  lemma {:induction false} EntryTexts(front: Trail, e: Dirent, remaining: nat)
    ensures TextsOf([Listed(FrontText(front), e)] + Below(FrontText(front), e, remaining),
                    TrailsOf(front, e, remaining))
    decreases remaining, 0, 0
  {
    TextOfLast(front, e);
    var below := if e.kind.Directory? && remaining > 0
                 then Trails(front + [e], Sorted(Visible(e.children)), remaining - 1) else [];
    if e.kind.Directory? && remaining > 0 {
      FlatTexts(front + [e], Sorted(Visible(e.children)), remaining - 1);
    }
    TextsConcat([Listed(FrontText(front), e)], [front + [e]], Below(FrontText(front), e, remaining), below);
  }

  // ----- Exactly the trails of the root -----

  /** Trails that go on from a front to one of the entries and below. */
  ghost predicate GoesOn(front: Trail, entries: seq<Dirent>, trail: Trail, remaining: nat) {
    && |front| < |trail| <= |front| + 1 + remaining && trail[..|front|] == front
    && trail[|front|] in entries
    && forall i :: |front| < i < |trail| ==> StepsDown(trail, i)
  }

  lemma OmittedMeans(e: Dirent)
    ensures Omitted(e) <==>
              && e.kind.Directory?
              && e.name in {".git", "node_modules", "dist", "build", "target", ".cache", ".venv", "coverage"}
  {
    assert OMITTED_DIRECTORIES == {".git", "node_modules", "dist", "build", "target", ".cache", ".venv", "coverage"};
  }

  lemma SortedChildren(e: Dirent, c: Dirent)
    ensures c in Sorted(Visible(e.children)) <==> ListedIn(c, e.children)
  {
    OmittedMeans(c);
    assert c in Sorted(Visible(e.children)) <==> c in e.children && !Omitted(c);
  }

  lemma {:induction false} TrailsAre(front: Trail, entries: seq<Dirent>, remaining: nat, trail: Trail)
    ensures trail in Trails(front, entries, remaining) <==> GoesOn(front, entries, trail, remaining)
    decreases remaining, |entries|, 1
  {
    if entries != [] {
      EntryTrailsAre(front, entries[0], remaining, trail);
      TrailsAre(front, entries[1..], remaining, trail);
      assert entries == [entries[0]] + entries[1..];
      assert GoesOn(front, entries, trail, remaining) <==>
          GoesOn(front, [entries[0]], trail, remaining) || GoesOn(front, entries[1..], trail, remaining);
    }
  }

  lemma {:induction false} EntryTrailsAre(front: Trail, e: Dirent, remaining: nat, trail: Trail)
    ensures trail in TrailsOf(front, e, remaining) <==> GoesOn(front, [e], trail, remaining)
    decreases remaining, 0, 0
  {
    if e.kind.Directory? && remaining > 0 {
      TrailsAre(front + [e], Sorted(Visible(e.children)), remaining - 1, trail);
      assert trail in TrailsOf(front, e, remaining) <==>
          trail == front + [e] || trail in Trails(front + [e], Sorted(Visible(e.children)), remaining - 1);
    }
    OneStep(front, e, remaining, trail);
  }

  /** A trail through an entry ends there or goes on below it. */
  lemma OneStep(front: Trail, e: Dirent, remaining: nat, trail: Trail)
    ensures GoesOn(front, [e], trail, remaining) <==>
              || trail == front + [e]
              || (e.kind.Directory? && remaining > 0
                  && GoesOn(front + [e], Sorted(Visible(e.children)), trail, remaining - 1))
  {
    if GoesOn(front, [e], trail, remaining) && trail != front + [e] {
      StepIn(front, e, remaining, trail);
    }
    if e.kind.Directory? && remaining > 0 && GoesOn(front + [e], Sorted(Visible(e.children)), trail, remaining - 1) {
      StepOut(front, e, remaining, trail);
    }
  }

  lemma StepIn(front: Trail, e: Dirent, remaining: nat, trail: Trail)
    requires GoesOn(front, [e], trail, remaining) && trail != front + [e]
    ensures e.kind.Directory? && remaining > 0
    ensures GoesOn(front + [e], Sorted(Visible(e.children)), trail, remaining - 1)
  {
    var n := |front|;
    assert trail[n] == e && trail[..n + 1] == trail[..n] + [trail[n]] == front + [e];
    assert |trail| > n + 1;
    assert StepsDown(trail, n + 1);
    SortedChildren(e, trail[n + 1]);
  }

  lemma StepOut(front: Trail, e: Dirent, remaining: nat, trail: Trail)
    requires e.kind.Directory? && remaining > 0
    requires GoesOn(front + [e], Sorted(Visible(e.children)), trail, remaining - 1)
    ensures GoesOn(front, [e], trail, remaining)
  {
    var n := |front|;
    assert trail[..n + 1] == front + [e];
    assert trail[..n] == trail[..n + 1][..n] == front && trail[n] == trail[..n + 1][n] == e;
    SortedChildren(e, trail[n + 1]);
    assert StepsDown(trail, n + 1);
  }

  // ----- In order, so each once -----

  ghost predicate InOrder(trails: seq<Trail>) {
    forall i, j :: 0 <= i < j < |trails| ==> TrailBefore(trails[i], trails[j])
  }

  lemma ConcatInOrder(a: seq<Trail>, b: seq<Trail>)
    requires InOrder(a) && InOrder(b) && forall x, y :: x in a && y in b ==> TrailBefore(x, y)
    ensures InOrder(a + b)
  {
  }

  lemma {:induction false} TrailsInOrder(front: Trail, entries: seq<Dirent>, remaining: nat)
    requires Ordered(entries) && forall e :: e in entries ==> WellNamed(e)
    ensures InOrder(Trails(front, entries, remaining))
    decreases remaining, |entries|, 1
  {
    if entries != [] {
      EntryInOrder(front, entries[0], remaining);
      TrailsInOrder(front, entries[1..], remaining);
      forall x, y | x in TrailsOf(front, entries[0], remaining) && y in Trails(front, entries[1..], remaining)
        ensures TrailBefore(x, y)
      {
        EntryTrailsAre(front, entries[0], remaining, x);
        TrailsAre(front, entries[1..], remaining, y);
        PartHere(front, entries, remaining, x, y);
      }
      ConcatInOrder(TrailsOf(front, entries[0], remaining), Trails(front, entries[1..], remaining));
    }
  }

  lemma PartHere(front: Trail, entries: seq<Dirent>, remaining: nat, x: Trail, y: Trail)
    requires entries != [] && Ordered(entries)
    requires GoesOn(front, [entries[0]], x, remaining) && GoesOn(front, entries[1..], y, remaining)
    ensures TrailBefore(x, y)
  {
    var j :| 0 <= j < |entries[1..]| && entries[1..][j] == y[|front|];
    assert Less(entries[0], entries[j + 1]);
    assert x[..|front|] == y[..|front|];
  }

  lemma {:induction false} EntryInOrder(front: Trail, e: Dirent, remaining: nat)
    requires WellNamed(e)
    ensures InOrder(TrailsOf(front, e, remaining))
    decreases remaining, 0, 0
  {
    if e.kind.Directory? && remaining > 0 {
      var children := Sorted(Visible(e.children));
      VisibleDistinct(e.children);
      SortedIsOrdered(Visible(e.children));
      TrailsInOrder(front + [e], children, remaining - 1);
      forall x, y | x in [front + [e]] && y in Trails(front + [e], children, remaining - 1) ensures TrailBefore(x, y) {
        TrailsAre(front + [e], children, remaining - 1, y);
        assert x[..|x|] == y[..|x|];
      }
      ConcatInOrder([front + [e]], Trails(front + [e], children, remaining - 1));
    }
  }

  /**
   * The full listing, entry after entry: the texts of trails that are exactly the trails of the root, in depth-first
   * order, hence each of them once.
   */
  lemma ListingIsEveryTrail(root: Dirent, depth: nat) returns (trails: seq<Trail>)
    requires WellNamed(root)
    ensures |trails| == |FullListing(root, depth)|
    ensures forall i :: 0 <= i < |trails| ==> trails[i] != [] && FullListing(root, depth)[i] == TrailText(trails[i])
    ensures forall trail :: trail in trails <==> IsTrail(root, trail, depth)
    ensures forall i, j :: 0 <= i < j < |trails| ==> TrailBefore(trails[i], trails[j]) && trails[i] != trails[j]
  {
    var entries := Sorted(Visible(root.children));
    trails := Trails([], entries, depth);
    FlatTexts([], entries, depth);
    forall trail ensures trail in trails <==> IsTrail(root, trail, depth) {
      TrailsAre([], entries, depth, trail);
      if |trail| > 0 {
        SortedChildren(root, trail[0]);
        assert trail[..0] == [];
      }
    }
    VisibleDistinct(root.children);
    SortedIsOrdered(Visible(root.children));
    TrailsInOrder([], entries, depth);
    forall i, j | 0 <= i < j < |trails| ensures TrailBefore(trails[i], trails[j]) && trails[i] != trails[j] {
      BeforeIsStrict(trails[i], trails[j]);
    }
  }

  lemma BeforeIsStrict(a: Trail, b: Trail)
    requires TrailBefore(a, b)
    ensures a != b
  {
    var k :| 0 <= k <= |a| && k < |b| && a[..k] == b[..k] && (k == |a| || Before(a[k].name, b[k].name));
    if k < |a| {
      BeforeTotal(a[k].name, b[k].name);
    }
  }

  // ----- The byte budget -----

  /** What the byte budget counts is the listing as it is sent, one entry a line. */
  lemma {:induction false} BytesOfLines(entries: seq<string>)
    ensures JoinedBytes(entries) == ByteLength(Lines.Join(entries, '\n'))
  {
    if |entries| > 1 {
      BytesOfLines(entries[1..]);
      EncodeConcat(entries[0] + ['\n'], Lines.Join(entries[1..], '\n'));
      EncodeConcat(entries[0], ['\n']);
      assert ByteLength(['\n']) == 1;
    }
  }
}
