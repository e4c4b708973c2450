/**
 * Search results: grouping the event stream of ripgrep by file, attaching context lines to matches, and cutting the
 * groups to a global number of matches.
 */
module RgSearch {
  import opened Wrappers
  import opened Sequences
  import opened Utf16

  datatype Line = Line(number: int, text: string)
  datatype RgMatch = RgMatch(at: Line, context: seq<Line>)
  datatype Group = Group(path: string, matches: seq<RgMatch>)

  /**
   * One line of the stream: blank, broken or of an unknown type, of a known type that carries no line of a file (or
   * whose path or line number is missing), or a match or context line of a file.
   */
  datatype Event =
    | Blank
    | Malformed(raw: seq<unit>)
    | Metadata
    | Match(path: string, line: Line)
    | Context(path: string, line: Line)

  // ----- One file -----

  datatype FileEvent = Hit(line: Line) | Near(line: Line)
  datatype FileGroup = FileGroup(matches: seq<RgMatch>, pendingBefore: seq<Line>)

  function Step(state: FileGroup, e: FileEvent, contextLines: nat): FileGroup {
    match e
    case Hit(line) => FileGroup(state.matches + [RgMatch(line, state.pendingBefore)], [])
    case Near(line) =>
      var last := |state.matches| - 1;
      if last >= 0 && line.number <= state.matches[last].at.number + contextLines
      then
        var held := RgMatch(state.matches[last].at, state.matches[last].context + [line]);
        state.(matches := state.matches[last := held])
      else state.(pendingBefore := state.pendingBefore + [line])
  }

  function Fold(events: seq<FileEvent>, contextLines: nat): FileGroup {
    if events == [] then FileGroup([], [])
    else Step(Fold(events[..|events| - 1], contextLines), events[|events| - 1], contextLines)
  }

  /** The lines of each kind, in order. */
  function Hits(events: seq<FileEvent>): seq<Line> {
    if events == [] then []
    else Hits(events[..|events| - 1]) + if events[|events| - 1].Hit? then [events[|events| - 1].line] else []
  }

  function Nears(events: seq<FileEvent>): seq<Line> {
    if events == [] then []
    else Nears(events[..|events| - 1]) + if events[|events| - 1].Near? then [events[|events| - 1].line] else []
  }

  function Lines(matches: seq<RgMatch>): (r: seq<Line>)
    ensures |r| == |matches| && forall i :: 0 <= i < |r| ==> r[i] == matches[i].at
  {
    seq(|matches|, i requires 0 <= i < |matches| => matches[i].at)
  }

  /** All context lines attached to matches, match by match. */
  function Attached(matches: seq<RgMatch>): seq<Line> {
    if matches == [] then [] else Attached(matches[..|matches| - 1]) + matches[|matches| - 1].context
  }

  /** Every match is kept, in order, whatever the stream. */
  lemma {:induction false} MatchesKept(events: seq<FileEvent>, contextLines: nat)
    ensures Lines(Fold(events, contextLines).matches) == Hits(events)
  {
    if events != [] {
      var front, e := events[..|events| - 1], events[|events| - 1];
      MatchesKept(front, contextLines);
      var state := Fold(front, contextLines);
      if e.Hit? {
        assert Lines(Step(state, e, contextLines).matches) == Lines(state.matches) + [e.line];
      } else {
        assert Lines(Step(state, e, contextLines).matches) == Lines(state.matches);
      }
    }
  }

  /** Line numbers grow along the stream of a file. */
  ghost predicate Increasing(events: seq<FileEvent>) {
    forall i, j :: 0 <= i < j < |events| ==> events[i].line.number < events[j].line.number
  }

  ghost predicate WithinAfter(m: Line, c: Line, contextLines: nat) {
    m.number < c.number <= m.number + contextLines
  }

  ghost predicate Within(m: Line, c: Line, contextLines: nat) {
    m.number - contextLines <= c.number <= m.number + contextLines
  }

  /** Behind its match and in its window, or before its match and out of the window of every earlier one. */
  ghost predicate Placed(matches: seq<RgMatch>, k: nat, c: Line, contextLines: nat)
    requires k < |matches|
  {
    || WithinAfter(matches[k].at, c, contextLines)
    || (c.number < matches[k].at.number && Beyond(matches[..k], c, contextLines))
  }

  ghost predicate Beyond(matches: seq<RgMatch>, c: Line, contextLines: nat) {
    forall j :: 0 <= j < |matches| ==> matches[j].at.number + contextLines < c.number
  }

  ghost predicate AllPlaced(matches: seq<RgMatch>, contextLines: nat) {
    forall k, i :: 0 <= k < |matches| && 0 <= i < |matches[k].context| ==>
        Placed(matches, k, matches[k].context[i], contextLines)
  }

  ghost predicate Ascending(matches: seq<RgMatch>) {
    forall i, j :: 0 <= i < j < |matches| ==> matches[i].at.number < matches[j].at.number
  }

  /** What holds of a file's group after a stream of growing line numbers below `next`. */
  ghost predicate Sound(state: FileGroup, next: int, contextLines: nat) {
    && Ascending(state.matches)
    && (forall k :: 0 <= k < |state.matches| ==> state.matches[k].at.number < next)
    && (forall p :: p in state.pendingBefore ==> p.number < next && Beyond(state.matches, p, contextLines))
    && AllPlaced(state.matches, contextLines)
  }

  lemma StepHit(state: FileGroup, line: Line, contextLines: nat, next: int)
    requires Sound(state, line.number, contextLines) && line.number < next
    ensures Sound(Step(state, Hit(line), contextLines), next, contextLines)
  {
    var after := Step(state, Hit(line), contextLines);
    var n := |state.matches|;
    assert after.matches[..n] == state.matches;
    forall k, i | 0 <= k < |after.matches| && 0 <= i < |after.matches[k].context|
      ensures Placed(after.matches, k, after.matches[k].context[i], contextLines)
    {
      if k < n {
        assert Placed(state.matches, k, state.matches[k].context[i], contextLines);
        assert after.matches[..k] == state.matches[..k];
      } else {
        assert state.pendingBefore[i] in state.pendingBefore;
      }
    }
  }

  lemma StepNear(state: FileGroup, line: Line, contextLines: nat, next: int)
    requires Sound(state, line.number, contextLines) && line.number < next
    ensures Sound(Step(state, Near(line), contextLines), next, contextLines)
  {
    var after := Step(state, Near(line), contextLines);
    var last := |state.matches| - 1;
    if last >= 0 && line.number <= state.matches[last].at.number + contextLines {
      forall k, i | 0 <= k < |after.matches| && 0 <= i < |after.matches[k].context|
        ensures Placed(after.matches, k, after.matches[k].context[i], contextLines)
      {
        if k < last || i < |state.matches[last].context| {
          assert Placed(state.matches, k, state.matches[k].context[i], contextLines);
          assert after.matches[..k] == state.matches[..k];
        }
      }
    } else {
      assert last >= 0 ==> Beyond(state.matches, line, contextLines);
    }
  }

  lemma {:induction false} FoldSound(events: seq<FileEvent>, contextLines: nat, next: int)
    requires Increasing(events) && forall i :: 0 <= i < |events| ==> events[i].line.number < next
    ensures Sound(Fold(events, contextLines), next, contextLines)
  {
    if events != [] {
      var front, e := events[..|events| - 1], events[|events| - 1];
      FoldSound(front, contextLines, e.line.number);
      if e.Hit? {
        StepHit(Fold(front, contextLines), e.line, contextLines, next);
      } else {
        StepNear(Fold(front, contextLines), e.line, contextLines, next);
      }
    }
  }

  lemma SomeLine(s: seq<Line>) returns (line: Line)
    requires s != []
    ensures line in s
  {
    line := s[0];
  }

  lemma StepConserves(state: FileGroup, e: FileEvent, contextLines: nat)
    requires Sound(state, e.line.number, contextLines)
    ensures var after := Step(state, e, contextLines);
            Attached(after.matches) + after.pendingBefore ==
              Attached(state.matches) + state.pendingBefore + if e.Near? then [e.line] else []
  {
    var after := Step(state, e, contextLines);
    var n := |state.matches|;
    if e.Hit? {
      assert after.matches[..n] == state.matches;
    } else if n > 0 && e.line.number <= state.matches[n - 1].at.number + contextLines {
      if state.pendingBefore != [] {
        var p := SomeLine(state.pendingBefore);
      }
      assert after.matches[..n - 1] == state.matches[..n - 1];
    }
  }

  /** No context line is lost, repeated or reordered: each is attached to exactly one match or still pending. */
  lemma {:induction false} ContextConserved(events: seq<FileEvent>, contextLines: nat)
    requires Increasing(events)
    ensures Attached(Fold(events, contextLines).matches) + Fold(events, contextLines).pendingBefore == Nears(events)
  {
    if events != [] {
      var front, e := events[..|events| - 1], events[|events| - 1];
      ContextConserved(front, contextLines);
      FoldSound(front, contextLines, e.line.number);
      StepConserves(Fold(front, contextLines), e, contextLines);
    }
  }

  ghost predicate NearSome(hits: seq<Line>, c: Line, contextLines: nat) {
    exists k :: 0 <= k < |hits| && Within(hits[k], c, contextLines)
  }

  /** Every context line is attached to a match within the window. */
  ghost predicate FullyAttached(state: FileGroup, contextLines: nat) {
    && state.pendingBefore == []
    && forall k, i :: 0 <= k < |state.matches| && 0 <= i < |state.matches[k].context| ==>
         Within(state.matches[k].at, state.matches[k].context[i], contextLines)
  }

  lemma {:induction false} AttachedIn(matches: seq<RgMatch>, c: Line)
    ensures c in Attached(matches) <==> exists k :: 0 <= k < |matches| && c in matches[k].context
  {
    if matches != [] {
      var front := matches[..|matches| - 1];
      AttachedIn(front, c);
      if c in Attached(front) {
        var k :| 0 <= k < |front| && c in front[k].context;
        assert matches[k] == front[k];
      }
      if k :| 0 <= k < |matches| && c in matches[k].context {
        assert k < |front| ==> front[k] == matches[k];
      }
    }
  }

  /**
   * Every context line ends up with a match of its file at most `contextLines` away, none left over, exactly when each
   * lies that close to some match.
   */
  lemma ContextAttachedIff(events: seq<FileEvent>, contextLines: nat)
    requires Increasing(events)
    ensures FullyAttached(Fold(events, contextLines), contextLines) <==>
              forall c :: c in Nears(events) ==> NearSome(Hits(events), c, contextLines)
  {
    var state := Fold(events, contextLines);
    var next := if events == [] then 0 else events[|events| - 1].line.number + 1;
    FoldSound(events, contextLines, next);
    ContextConserved(events, contextLines);
    MatchesKept(events, contextLines);
    if forall c :: c in Nears(events) ==> NearSome(Hits(events), c, contextLines) {
      CloseContextAttached(events, state, contextLines, next);
    }
    if FullyAttached(state, contextLines) {
      forall c | c in Nears(events) ensures NearSome(Hits(events), c, contextLines) {
        AttachedIn(state.matches, c);
        var k :| 0 <= k < |state.matches| && c in state.matches[k].context;
        assert Lines(state.matches)[k] == state.matches[k].at;
        assert Within(Hits(events)[k], c, contextLines);
      }
    }
  }

  lemma CloseContextAttached(events: seq<FileEvent>, state: FileGroup, contextLines: nat, next: int)
    requires Sound(state, next, contextLines) && Lines(state.matches) == Hits(events)
    requires Attached(state.matches) + state.pendingBefore == Nears(events)
    requires forall c :: c in Nears(events) ==> NearSome(Hits(events), c, contextLines)
    ensures FullyAttached(state, contextLines)
  {
    if state.pendingBefore != [] {
      var c := SomeLine(state.pendingBefore);
      assert c in Nears(events);
      BeyondIsNotNear(state.matches, c, contextLines);
    }
    forall k, i | 0 <= k < |state.matches| && 0 <= i < |state.matches[k].context|
      ensures Within(state.matches[k].at, state.matches[k].context[i], contextLines)
    {
      var c := state.matches[k].context[i];
      AttachedIn(state.matches, c);
      assert c in Nears(events) && Placed(state.matches, k, c, contextLines);
      PlacedNear(state.matches, k, c, contextLines);
    }
  }

  lemma BeyondIsNotNear(matches: seq<RgMatch>, c: Line, contextLines: nat)
    requires Beyond(matches, c, contextLines)
    ensures !NearSome(Lines(matches), c, contextLines)
  {
  }

  lemma PlacedNear(matches: seq<RgMatch>, k: nat, c: Line, contextLines: nat)
    requires Ascending(matches) && k < |matches| && Placed(matches, k, c, contextLines)
        && NearSome(Lines(matches), c, contextLines)
    ensures Within(matches[k].at, c, contextLines)
  {
    var j :| 0 <= j < |matches| && Within(Lines(matches)[j], c, contextLines);
    if j < k && Beyond(matches[..k], c, contextLines) {
      BeyondIsNotNear(matches[..k], c, contextLines);
      assert Lines(matches[..k])[j] == Lines(matches)[j];
    }
  }

  /** Out of every window a context line goes to the next match, however far that is. */
  lemma FarContextAttached(a: Line, b: Line, c: Line, contextLines: nat)
    requires a.number + contextLines < b.number && b.number + contextLines < c.number
    ensures Fold([Hit(a), Near(b), Hit(c)], contextLines) == FileGroup([RgMatch(a, []), RgMatch(c, [b])], [])
    ensures !Within(c, b, contextLines)
  {
    var events := [Hit(a), Near(b), Hit(c)];
    assert events[..2] == [Hit(a), Near(b)];
    LateContextLost(a, b, contextLines);
  }

  /** With no match to come it is lost. */
  lemma LateContextLost(a: Line, b: Line, contextLines: nat)
    requires a.number + contextLines < b.number
    ensures Fold([Hit(a), Near(b)], contextLines) == FileGroup([RgMatch(a, [])], [b])
  {
    assert [Hit(a), Near(b)][..1] == [Hit(a)] && [Hit(a)][..0] == [];
    assert Fold([], contextLines) == FileGroup([], []);
    assert Fold([Hit(a)], contextLines) == FileGroup([RgMatch(a, [])], []);
  }

  // ----- The whole stream -----

  /** The events of one file, in order. */
  function EventsOf(events: seq<Event>, path: string): seq<FileEvent> {
    if events == [] then []
    else EventsOf(events[..|events| - 1], path) + Contribution(events[|events| - 1], path)
  }

  predicate Carries(e: Event) {
    e.Match? || e.Context?
  }

  /** The files of the stream, in order of first appearance. */
  function Files(events: seq<Event>): seq<string> {
    if events == [] then []
    else
      var before, e := Files(events[..|events| - 1]), events[|events| - 1];
      if Carries(e) && e.path !in before then before + [e.path] else before
  }

  function MalformedLines(events: seq<Event>): seq<seq<unit>> {
    if events == [] then []
    else MalformedLines(events[..|events| - 1])
           + if events[|events| - 1].Malformed? then [events[|events| - 1].raw] else []
  }

  const MALFORMED_LINE_MAX_CHARS := 200
  const ELLIPSIS: unit := 0x2026

  function BoundedLine(raw: seq<unit>): seq<unit> {
    if |raw| > MALFORMED_LINE_MAX_CHARS then raw[..MALFORMED_LINE_MAX_CHARS] + [ELLIPSIS] else raw
  }

  lemma {:induction false} FilesDistinct(events: seq<Event>)
    ensures forall i, j :: 0 <= i < j < |Files(events)| ==> Files(events)[i] != Files(events)[j]
    ensures forall p :: p in Files(events) <==>
        exists i :: 0 <= i < |events| && Carries(events[i]) && events[i].path == p
  {
    if events != [] {
      var front, e := events[..|events| - 1], events[|events| - 1];
      FilesDistinct(front);
      assert forall i :: 0 <= i < |front| ==> front[i] == events[i];
    }
  }

  datatype RgParseResult = RgParseResult(groups: seq<Group>, malformedEventCount: nat,
    firstMalformedLine: Option<seq<unit>>)

  /** One group per file, in order of first appearance, each folded from the events of that file alone. */
  function GroupsOf(events: seq<Event>, contextLines: nat): (r: seq<Group>)
    ensures |r| == |Files(events)|
  {
    seq(|Files(events)|, i requires 0 <= i < |Files(events)| =>
      Group(Files(events)[i], Fold(EventsOf(events, Files(events)[i]), contextLines).matches))
  }

  method ParseRgJson(events: seq<Event>, contextLines: nat) returns (r: RgParseResult)
    ensures r.groups == GroupsOf(events, contextLines)
    ensures r.malformedEventCount == |MalformedLines(events)|
    ensures r.firstMalformedLine == if MalformedLines(events) == [] then None
                                    else Some(BoundedLine(MalformedLines(events)[0]))
  {
    var files: map<string, FileGroup> := map[];
    var order: seq<string> := [];
    var malformedEventCount, firstMalformedLine := 0, None;
    for i := 0 to |events|
      invariant Grouped(files, order, events[..i], contextLines)
      invariant Counted(malformedEventCount, firstMalformedLine, events[..i])
    {
      var e := events[i];
      assert events[..i + 1] == events[..i] + [e];
      GroupedStep(files, order, events[..i], e, contextLines);
      if e.Malformed? {
        malformedEventCount := malformedEventCount + 1;
        if firstMalformedLine.None? {
          firstMalformedLine := Some(BoundedLine(e.raw));
        }
      } else if Carries(e) {
        var state := if e.path in files then files[e.path] else FileGroup([], []);
        if e.path !in files {
          order := order + [e.path];
        }
        files := files[e.path := Step(state, if e.Match? then Hit(e.line) else Near(e.line), contextLines)];
      }
    }
    assert events[..|events|] == events;
    assert forall i :: 0 <= i < |order| ==> GroupedFile(files, order, events, order[i], contextLines);
    var groups := seq(|order|, i requires 0 <= i < |order| => Group(order[i], files[order[i]].matches));
    r := RgParseResult(groups, malformedEventCount, firstMalformedLine);
  }

  ghost predicate Grouped(files: map<string, FileGroup>, order: seq<string>, seen: seq<Event>, contextLines: nat) {
    order == Files(seen) && forall p :: GroupedFile(files, order, seen, p, contextLines)
  }

  ghost predicate GroupedFile(files: map<string, FileGroup>, order: seq<string>, seen: seq<Event>, p: string,
                              contextLines: nat) {
    && (p in files <==> p in order)
    && if p in files then files[p] == Fold(EventsOf(seen, p), contextLines) else EventsOf(seen, p) == []
  }

  ghost predicate Counted(count: nat, first: Option<seq<unit>>, seen: seq<Event>) {
    var lines := MalformedLines(seen);
    count == |lines| && first == if lines == [] then None else Some(BoundedLine(lines[0]))
  }

  lemma GroupedStep(files: map<string, FileGroup>, order: seq<string>, seen: seq<Event>, e: Event, contextLines: nat)
    requires Grouped(files, order, seen, contextLines)
    ensures !Carries(e) ==> Grouped(files, order, seen + [e], contextLines)
    ensures Carries(e) ==>
              var state := if e.path in files then files[e.path] else FileGroup([], []);
              var next := Step(state, if e.Match? then Hit(e.line) else Near(e.line), contextLines);
              Grouped(files[e.path := next],
                      if e.path in files then order else order + [e.path], seen + [e], contextLines)
  {
    if Carries(e) {
      assert GroupedFile(files, order, seen, e.path, contextLines);
      var event := if e.Match? then Hit(e.line) else Near(e.line);
      EventsOfSnoc(seen, e, e.path);
      FoldSnoc(EventsOf(seen, e.path), event, contextLines);
      GroupedAdd(files, order, seen, e, contextLines);
    } else {
      GroupedSkip(files, order, seen, e, contextLines);
    }
  }

  lemma GroupedSkip(files: map<string, FileGroup>, order: seq<string>, seen: seq<Event>, e: Event, contextLines: nat)
    requires Grouped(files, order, seen, contextLines) && !Carries(e)
    ensures Grouped(files, order, seen + [e], contextLines)
  {
    assert (seen + [e])[..|seen|] == seen;
    forall p ensures GroupedFile(files, order, seen + [e], p, contextLines) {
      assert GroupedFile(files, order, seen, p, contextLines);
      EventsOfSnoc(seen, e, p);
    }
  }

  lemma GroupedAdd(files: map<string, FileGroup>, order: seq<string>, seen: seq<Event>, e: Event, contextLines: nat)
    requires Grouped(files, order, seen, contextLines) && Carries(e)
    ensures Grouped(files[e.path := Fold(EventsOf(seen + [e], e.path), contextLines)],
                    if e.path in files then order else order + [e.path], seen + [e], contextLines)
  {
    assert (seen + [e])[..|seen|] == seen;
    assert GroupedFile(files, order, seen, e.path, contextLines);
    var next := if e.path in files then order else order + [e.path];
    var updated := files[e.path := Fold(EventsOf(seen + [e], e.path), contextLines)];
    forall p ensures GroupedFile(updated, next, seen + [e], p, contextLines) {
      assert GroupedFile(files, order, seen, p, contextLines);
      EventsOfSnoc(seen, e, p);
    }
  }

  function Contribution(e: Event, path: string): seq<FileEvent> {
    if !Carries(e) || e.path != path then [] else if e.Match? then [Hit(e.line)] else [Near(e.line)]
  }

  lemma EventsOfSnoc(seen: seq<Event>, e: Event, path: string)
    ensures EventsOf(seen + [e], path) == EventsOf(seen, path) + Contribution(e, path)
    ensures !Carries(e) || e.path != path ==> EventsOf(seen + [e], path) == EventsOf(seen, path)
  {
    assert (seen + [e])[..|seen|] == seen;
  }

  lemma FoldSnoc(events: seq<FileEvent>, e: FileEvent, contextLines: nat)
    ensures Fold(events + [e], contextLines) == Step(Fold(events, contextLines), e, contextLines)
  {
    assert (events + [e])[..|events|] == events;
  }

  // ----- Cutting to a number of matches -----

  /** All matches with the file they are in, group by group. */
  function Found(groups: seq<Group>): seq<(string, RgMatch)> {
    if groups == [] then [] else Tagged(groups[0].path, groups[0].matches) + Found(groups[1..])
  }

  function Tagged(path: string, matches: seq<RgMatch>): (r: seq<(string, RgMatch)>)
    ensures |r| == |matches| && forall i :: 0 <= i < |r| ==> r[i] == (path, matches[i])
  {
    seq(|matches|, i requires 0 <= i < |matches| => (path, matches[i]))
  }

  function First<T>(s: seq<T>, n: nat): seq<T> {
    if |s| <= n then s else s[..n]
  }

  lemma {:induction false} FoundConcat(a: seq<Group>, b: seq<Group>)
    ensures Found(a + b) == Found(a) + Found(b)
  {
    if a == [] {
      assert a + b == b;
    } else {
      assert (a + b)[1..] == a[1..] + b && (a + b)[0] == a[0];
      FoundConcat(a[1..], b);
      Regroup(Found(a + b), Tagged(a[0].path, a[0].matches), Found(a[1..]), Found(b));
    }
  }

  lemma FoundSnoc(a: seq<Group>, g: Group)
    ensures Found(a + [g]) == Found(a) + Tagged(g.path, g.matches)
  {
    FoundConcat(a, [g]);
    assert Found([g]) == Tagged(g.path, g.matches) + [];
  }

  /** The first maxResults matches over all groups, and how many were left out. */
  method TruncateGroups(groups: seq<Group>, maxResults: nat) returns (limited: seq<Group>, omitted: nat)
    ensures Found(limited) == First(Found(groups), maxResults)
    ensures omitted + |Found(limited)| == |Found(groups)|
    ensures |limited| <= |groups|
    ensures forall i :: 0 <= i < |limited| ==>
              && limited[i].path == groups[i].path && limited[i].matches <= groups[i].matches
              && (i + 1 < |limited| ==> limited[i] == groups[i])
    ensures forall k :: 0 <= k < |groups| ==> (k < |limited| <==> |Found(groups[..k])| < maxResults)
  {
    limited, omitted := [], 0;
    var used := 0;
    for i := 0 to |groups|
      invariant used == |Found(limited)| && Found(limited) == First(Found(groups[..i]), maxResults)
      invariant omitted + used == |Found(groups[..i])|
      invariant |limited| <= i && forall k :: 0 <= k < |limited| ==> Shortened(limited[k], groups[k])
      invariant forall k :: 0 <= k && k + 1 < |limited| ==> limited[k] == groups[k]
      invariant used < maxResults ==> |limited| == i && omitted == 0 && limited == groups[..i]
      invariant forall k :: 0 <= k < i ==> (k < |limited| <==> |Found(groups[..k])| < maxResults)
    {
      var group := groups[i];
      assert groups[..i + 1] == groups[..i] + [group];
      FoundSnoc(groups[..i], group);
      var remaining := maxResults - used;
      if remaining <= 0 {
        omitted := omitted + |group.matches|;
        continue;
      }
      if |group.matches| <= remaining {
        FoundSnoc(limited, group);
        limited := limited + [group];
        used := used + |group.matches|;
      } else {
        FoundSnoc(limited, Group(group.path, group.matches[..remaining]));
        CutTagged(Found(limited), group, remaining);
        limited := limited + [Group(group.path, group.matches[..remaining])];
        used := used + remaining;
        omitted := omitted + (|group.matches| - remaining);
      }
    }
    assert groups[..|groups|] == groups;
  }

  /** The same file with a front of its matches. */
  predicate Shortened(a: Group, b: Group) {
    a.path == b.path && a.matches <= b.matches
  }

  lemma CutTagged(before: seq<(string, RgMatch)>, group: Group, remaining: nat)
    requires remaining < |group.matches|
    ensures (before + Tagged(group.path, group.matches))[..|before| + remaining]
        == before + Tagged(group.path, group.matches[..remaining])
  {
  }

  // ----- What a group holds, in terms of the stream -----

  /** The lines a file's match events carry, and those its context events carry, in order. */
  function MatchLines(events: seq<Event>, path: string): seq<Line> {
    if events == [] then []
    else
      var e := events[|events| - 1];
      MatchLines(events[..|events| - 1], path) + if e.Match? && e.path == path then [e.line] else []
  }

  function ContextLines(events: seq<Event>, path: string): seq<Line> {
    if events == [] then []
    else
      var e := events[|events| - 1];
      ContextLines(events[..|events| - 1], path) + if e.Context? && e.path == path then [e.line] else []
  }

  lemma {:induction false} EventsCarry(events: seq<Event>, path: string)
    ensures Hits(EventsOf(events, path)) == MatchLines(events, path)
    ensures Nears(EventsOf(events, path)) == ContextLines(events, path)
  {
    if events != [] {
      var front, e := events[..|events| - 1], events[|events| - 1];
      EventsCarry(front, path);
      if Carries(e) && e.path == path {
        var all := EventsOf(events, path);
        assert all[..|all| - 1] == EventsOf(front, path);
      } else {
        assert EventsOf(events, path) == EventsOf(front, path);
      }
    }
  }

  /**
   * A group's matches are the match lines of its file, in order; when lines come in increasing order, the context they
   * hold is a front of the context lines of the file, in order, the rest being held by no match.
   */
  lemma GroupsHoldTheStream(events: seq<Event>, contextLines: nat, i: nat)
    requires i < |Files(events)|
    ensures var g := GroupsOf(events, contextLines)[i];
            && g.path == Files(events)[i]
            && Lines(g.matches) == MatchLines(events, g.path)
            && (Increasing(EventsOf(events, g.path)) ==> Attached(g.matches) <= ContextLines(events, g.path))
  {
    var path := Files(events)[i];
    EventsCarry(events, path);
    MatchesKept(EventsOf(events, path), contextLines);
    if Increasing(EventsOf(events, path)) {
      ContextConserved(EventsOf(events, path), contextLines);
    }
  }

  /** A malformed line is quoted up to 200 units, with an ellipsis behind a longer one. */
  lemma BoundedLineMeans(raw: seq<unit>)
    ensures |raw| <= 200 ==> BoundedLine(raw) == raw
    ensures |raw| > 200 ==> BoundedLine(raw) == raw[..200] + [0x2026]
  {
  }

  // ----- Searches capped per file -----

  /** Two results for one file that agree as far as `wanted` matches can tell. */
  predicate SameFront(a: Group, b: Group, wanted: nat) {
    && a.path == b.path && First(a.matches, wanted) == First(b.matches, wanted)
    && (|a.matches| > wanted <==> |b.matches| > wanted)
  }

  lemma FirstConcat<T>(a: seq<T>, b: seq<T>, n: nat)
    ensures First(a + b, n) == if |a| <= n then a + First(b, n - |a|) else First(a, n)
  {
  }

  lemma FrontShrinks(a: Group, b: Group, wanted: nat, fewer: nat)
    requires SameFront(a, b, wanted) && fewer <= wanted
    ensures SameFront(a, b, fewer)
  {
    assert First(First(a.matches, wanted), fewer) == First(a.matches, fewer);
    assert First(First(b.matches, wanted), fewer) == First(b.matches, fewer);
  }

  /** Files that agree as far as `wanted` matches give the same first `wanted` matches altogether. */
  lemma {:induction false} FrontsSuffice(a: seq<Group>, b: seq<Group>, wanted: nat)
    requires |a| == |b| && forall i :: 0 <= i < |a| ==> SameFront(a[i], b[i], wanted)
    ensures First(Found(a), wanted) == First(Found(b), wanted)
    ensures |Found(a)| > wanted <==> |Found(b)| > wanted
    decreases |a|
  {
    if a != [] {
      var x, y := Tagged(a[0].path, a[0].matches), Tagged(b[0].path, b[0].matches);
      FirstConcat(x, Found(a[1..]), wanted);
      FirstConcat(y, Found(b[1..]), wanted);
      if |x| <= wanted {
        forall i | 0 <= i < |a[1..]| ensures SameFront(a[1..][i], b[1..][i], wanted - |x|) {
          FrontShrinks(a[i + 1], b[i + 1], wanted, wanted - |x|);
        }
        FrontsSuffice(a[1..], b[1..], wanted - |x|);
      } else {
        FirstTagged(a[0].path, a[0].matches, wanted);
        FirstTagged(b[0].path, b[0].matches, wanted);
      }
    }
  }

  lemma FirstTagged(path: string, matches: seq<RgMatch>, n: nat)
    ensures First(Tagged(path, matches), n) == Tagged(path, First(matches, n))
  {
  }

  /** Two event streams of a file that agree up to match number `wanted + 1`, whatever follows, or altogether. */
  ghost predicate FarEnough(capped: seq<FileEvent>, events: seq<FileEvent>, wanted: nat) {
    capped == events || exists shared :: shared <= capped && shared <= events && |Hits(shared)| > wanted
  }

  /** Nothing after match number `wanted + 1` changes the first `wanted` matches or their context. */
  lemma {:induction false} LaterEventsDoNotMatter(shared: seq<FileEvent>, events: seq<FileEvent>, contextLines: nat,
                                                  wanted: nat)
    requires shared <= events && |Hits(shared)| > wanted
    ensures var a, b := Fold(shared, contextLines).matches, Fold(events, contextLines).matches;
            First(a, wanted) == First(b, wanted) && |a| > wanted && |b| > wanted
    decreases |events|
  {
    MatchesKept(shared, contextLines);
    if shared != events {
      var front := events[..|events| - 1];
      assert shared <= front;
      LaterEventsDoNotMatter(shared, front, contextLines, wanted);
      StepLeavesFront(Fold(front, contextLines), events[|events| - 1], contextLines, wanted);
    }
  }

  lemma EarlyMatchesStay(capped: seq<FileEvent>, events: seq<FileEvent>, contextLines: nat, wanted: nat)
    requires FarEnough(capped, events, wanted)
    ensures var a, b := Fold(capped, contextLines).matches, Fold(events, contextLines).matches;
            First(a, wanted) == First(b, wanted) && (|a| > wanted <==> |b| > wanted)
  {
    if capped != events {
      var shared :| shared <= capped && shared <= events && |Hits(shared)| > wanted;
      LaterEventsDoNotMatter(shared, capped, contextLines, wanted);
      LaterEventsDoNotMatter(shared, events, contextLines, wanted);
    }
  }

  lemma StepLeavesFront(state: FileGroup, e: FileEvent, contextLines: nat, wanted: nat)
    requires |state.matches| > wanted
    ensures var after := Step(state, e, contextLines).matches;
            |after| > wanted && First(after, wanted) == First(state.matches, wanted)
  {
  }

  /**
   * The same search stopped in each file no earlier than at one match more than wanted. What a capped search reports
   * behind that match, such as context lines, may differ from what the whole search finds there.
   */
  ghost predicate CappedPerFile(capped: seq<Event>, events: seq<Event>, wanted: nat) {
    && Files(capped) == Files(events)
    && forall p :: p in Files(events) ==> FarEnough(EventsOf(capped, p), EventsOf(events, p), wanted)
  }

  /**
   * One match more per file than wanted is enough: parsing the capped stream and cutting it gives the first matches of
   * the whole search, with the same context, and more than wanted were observed exactly when the whole search has more.
   */
  lemma CappedSearchIsExact(capped: seq<Event>, events: seq<Event>, contextLines: nat, maxResults: nat)
    requires CappedPerFile(capped, events, maxResults)
    ensures First(Found(GroupsOf(capped, contextLines)), maxResults)
        == First(Found(GroupsOf(events, contextLines)), maxResults)
    ensures |Found(GroupsOf(capped, contextLines))| > maxResults <==>
        |Found(GroupsOf(events, contextLines))| > maxResults
  {
    var a, b := GroupsOf(capped, contextLines), GroupsOf(events, contextLines);
    forall i | 0 <= i < |a| ensures SameFront(a[i], b[i], maxResults) {
      var p := Files(events)[i];
      assert p in Files(events);
      EarlyMatchesStay(EventsOf(capped, p), EventsOf(events, p), contextLines, maxResults);
    }
    FrontsSuffice(a, b, maxResults);
  }
}
