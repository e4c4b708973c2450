/**
 * Runs whose output goes to files: what the files hold, and exactly when the result reports that output was cut.
 */
module ChildFiles {
  import opened Wrappers
  import opened Utf8
  import opened ChildOutput
  import opened ChildProcess

  // ----- A run with output to files -----

  /** A run with output to files that ends; `t` is where it is later. */
  ghost predicate FileRun(max: nat, before: seq<Event>, end: Event, after: seq<Event>, t: State) {
    && Ends(end) && Running(before) && Possible(Initial(ToFiles, max), Whole(before, end, after))
    && t == After(Initial(ToFiles, max), Whole(before, end, after))
  }

  /** Such a run whose caller got a result. */
  ghost predicate ResolvedRun(max: nat, before: seq<Event>, end: Event, after: seq<Event>, t: State) {
    FileRun(max, before, end, after, t) && t.control.promise.Some? && t.control.promise.value.Resolved?
  }

  /** From the end of the run on. */
  lemma FileRunEnds(max: nat, before: seq<Event>, end: Event, after: seq<Event>, t: State)
    requires FileRun(max, before, end, after, t)
    ensures Possible(Initial(ToFiles, max), before)
    ensures Inv(t) && t.kind.ToFiles? && t.buffer.max == max && t.pending.handed == Delivered(before)
    ensures var s := After(Initial(ToFiles, max), before);
            && s.buffer.arrived <= t.buffer.arrived && (s.control.captureFailed ==> t.control.captureFailed)
            && t.control.outcome.Some? && (t.control.outcome.value.outputLimit <==> |s.buffer.arrived| > max)
  {
    EndSplit(ToFiles, max, before, end, after);
    var s := After(Initial(ToFiles, max), before);
    StepKeeps(s, end);
    EndedNow(s, end);
    StepKind(s, end);
    assert Step(s, end).pending == s.pending && Step(s, end).buffer == s.buffer;
    assert Step(s, end).control.captureFailed == s.control.captureFailed;
    FromTheEnd(Step(s, end), after);
    FailedStays(Step(s, end), after);
  }

  lemma FromTheEnd(ended: State, after: seq<Event>)
    requires Inv(ended) && ended.kind.ToFiles? && ended.control.outcome.Some? && Possible(ended, after)
    ensures var t := After(ended, after);
            && Inv(t) && t.kind == ended.kind && t.buffer.max == ended.buffer.max
            && ended.buffer.arrived <= t.buffer.arrived && t.pending.handed == ended.pending.handed
            && t.control.outcome == ended.control.outcome
  {
    RunKeeps(ended, after);
    RunKind(ended, after);
    NothingHandedAfter(ended, after);
  }

  lemma {:induction false} NothingHandedAfter(s: State, events: seq<Event>)
    requires Inv(s) && s.kind.ToFiles? && s.control.outcome.Some? && Possible(s, events)
    ensures After(s, events).pending.handed == s.pending.handed
    decreases |events|
  {
    if events != [] {
      StepKeeps(s, events[0]);
      SettledStays(s, events[0]);
      StepKind(s, events[0]);
      StepHandsNothing(s, events[0]);
      NothingHandedAfter(Step(s, events[0]), events[1..]);
    }
  }

  lemma StepHandsNothing(s: State, e: Event)
    requires Enabled(s, e) && s.kind.ToFiles? && s.control.outcome.Some?
    ensures Step(s, e).pending.handed == s.pending.handed
  {
    if Begins(s, e) {
      StepAdvances(s, e);
    }
  }

  lemma StepFails(s: State, e: Event)
    requires Enabled(s, e)
    ensures s.control.captureFailed ==> Step(s, e).control.captureFailed
  {
    if IsControl(e) {
      SteerLeaves(s.control, e);
    } else if Begins(s, e) {
      StepAdvances(s, e);
    }
  }

  lemma {:induction false} FailedStays(s: State, events: seq<Event>)
    requires Possible(s, events)
    ensures s.control.captureFailed ==> After(s, events).control.captureFailed
    decreases |events|
  {
    if events != [] {
      StepFails(s, events[0]);
      FailedStays(Step(s, events[0]), events[1..]);
    }
  }

  // ----- What the files hold -----

  /**
   * When the caller gets a result, each file holds its stream's share of the first `max` bytes written, and the bytes
   * written are all output delivered before the end, each stream in order.
   */
  lemma FilesHoldTheFirstBytes(max: nat, before: seq<Event>, end: Event, after: seq<Event>, t: State)
    requires ResolvedRun(max, before, end, after, t)
    ensures t.buffer.stdout == Project(First(t.buffer.arrived, max), Stdout)
    ensures t.buffer.stderr == Project(First(t.buffer.arrived, max), Stderr)
    ensures Project(t.buffer.arrived, Stdout) == Project(Delivered(before), Stdout)
    ensures Project(t.buffer.arrived, Stderr) == Project(Delivered(before), Stderr)
    ensures |t.buffer.arrived| == |Delivered(before)|
    ensures t.pending.limitSignals == if |Delivered(before)| > max then 1 else 0
  {
    FileRunEnds(max, before, end, after, t);
    CaughtUp(t, Delivered(before));
  }

  /** When both writers are done, what was written is all that was handed over. */
  lemma CaughtUp(s: State, handed: seq<Output>)
    requires Inv(s) && s.kind.ToFiles? && BothDone(s.pending) && s.pending.handed == handed
    ensures s.buffer.stdout == Project(First(s.buffer.arrived, s.buffer.max), Stdout)
    ensures s.buffer.stderr == Project(First(s.buffer.arrived, s.buffer.max), Stderr)
    ensures Project(s.buffer.arrived, Stdout) == Project(handed, Stdout)
        && Project(s.buffer.arrived, Stderr) == Project(handed, Stderr)
    ensures |s.buffer.arrived| == |handed|
    ensures s.pending.limitSignals == if |handed| > s.buffer.max then 1 else 0
  {
    NothingWaits(s.buffer, s.pending, Stdout);
    NothingWaits(s.buffer, s.pending, Stderr);
    ProjectionsCount(s.buffer.arrived);
    ProjectionsCount(handed);
  }

  lemma NothingWaits(b: Buffer, p: Pending, target: Target)
    requires Conserved(b, p, target) && WriterOf(p, target).life.Done? && WriterOf(p, target).queue == []
    ensures Project(b.arrived, target) == Project(p.handed, target)
  {
    assert Joined(WriterOf(p, target).queue) == [];
  }

  lemma {:induction false} ProjectionsCount(outputs: seq<Output>)
    ensures |outputs| == |Project(outputs, Stdout)| + |Project(outputs, Stderr)|
  {
    if outputs != [] {
      ProjectionsCount(outputs[..|outputs| - 1]);
    }
  }

  // ----- The order of events -----

  /** The chunks a run delivers to one stream. */
  function Chunks(events: seq<Event>, target: Target): seq<seq<byte>> {
    if events == [] then []
    else
      var e := events[|events| - 1];
      Chunks(events[..|events| - 1], target) + if e.Data? && e.target == target then [e.chunk] else []
  }

  /** How many chunks the file of one stream has reported written. */
  function Writes(events: seq<Event>, target: Target): nat {
    if events == [] then 0
    else Writes(events[..|events| - 1], target) + if events[|events| - 1] == WriteDone(target) then 1 else 0
  }

  /** The chunks a writer has begun: the first one at once, and one more for each that is written. */
  function Begun(events: seq<Event>, target: Target): seq<seq<byte>> {
    First(Chunks(events, target), Writes(events, target) + 1)
  }

  /** All bytes both writers have begun. */
  function BegunBytes(events: seq<Event>): nat {
    |Joined(Begun(events, Stdout))| + |Joined(Begun(events, Stderr))|
  }

  /** Within the limit a writer is where the order of events says. */
  ghost predicate InLine(s: State, events: seq<Event>, target: Target) {
    var w, chunks, written := WriterOf(s.pending, target), Chunks(events, target), Writes(events, target);
    && written <= |chunks| && (w.writing <==> written < |chunks|)
    && Project(s.buffer.arrived, target) == Joined(Begun(events, target))
    && chunks == Begun(events, target) + w.queue
  }

  ghost predicate OnTime(s: State, events: seq<Event>) {
    if |s.buffer.arrived| <= s.buffer.max then InLine(s, events, Stdout) && InLine(s, events, Stderr)
    else BegunBytes(events) > s.buffer.max
  }

  lemma {:induction false} JoinedConcat(a: seq<seq<byte>>, b: seq<seq<byte>>)
    ensures Joined(a + b) == Joined(a) + Joined(b)
    decreases |b|
  {
    if b == [] {
      assert a + b == a;
    } else {
      assert a + b == (a + [b[0]]) + b[1..];
      JoinedConcat(a + [b[0]], b[1..]);
      JoinedSnoc(a, b[0]);
      Regrouped(Joined(a), b[0], Joined(b[1..]));
    }
  }

  lemma PrefixIsShorter(a: seq<seq<byte>>, b: seq<seq<byte>>)
    requires a <= b
    ensures |Joined(a)| <= |Joined(b)|
  {
    assert a + b[|a|..] == b;
    JoinedConcat(a, b[|a|..]);
  }

  /** One event more never makes less begun. */
  lemma BegunGrows(events: seq<Event>, e: Event, target: Target)
    ensures Begun(events, target) <= Begun(events + [e], target)
  {
    assert (events + [e])[..|events|] == events;
  }

  lemma BegunBytesGrow(events: seq<Event>, e: Event)
    ensures BegunBytes(events) <= BegunBytes(events + [e])
  {
    BegunGrows(events, e, Stdout);
    BegunGrows(events, e, Stderr);
    PrefixIsShorter(Begun(events, Stdout), Begun(events + [e], Stdout));
    PrefixIsShorter(Begun(events, Stderr), Begun(events + [e], Stderr));
  }

  /** What arrived is what was begun. */
  lemma ArrivedIsBegun(s: State, events: seq<Event>)
    requires Project(s.buffer.arrived, Stdout) == Joined(Begun(events, Stdout))
    requires Project(s.buffer.arrived, Stderr) == Joined(Begun(events, Stderr))
    ensures |s.buffer.arrived| == BegunBytes(events)
  {
    ProjectionsCount(s.buffer.arrived);
  }

  lemma Snoc(events: seq<Event>, e: Event, target: Target)
    ensures Chunks(events + [e], target)
            == Chunks(events, target) + if e.Data? && e.target == target then [e.chunk] else []
    ensures Writes(events + [e], target) == Writes(events, target) + if e == WriteDone(target) then 1 else 0
  {
    assert (events + [e])[..|events|] == events;
  }

  /** Events that concern another stream leave a writer where it is. */
  lemma OtherInLine(s: State, events: seq<Event>, e: Event, t: State, target: Target)
    requires InLine(s, events, target) && !(e.Data? && e.target == target) && e != WriteDone(target)
    requires WriterOf(t.pending, target) == WriterOf(s.pending, target)
    requires Project(t.buffer.arrived, target) == Project(s.buffer.arrived, target)
    ensures InLine(t, events + [e], target)
  {
    Snoc(events, e, target);
    assert Chunks(events, target) + [] == Chunks(events, target);
  }

  /** The writer that the event concerns, before it begins anything. */
  lemma QueuedInLine(s: State, events: seq<Event>, e: Event)
    requires Enabled(s, e) && Begins(s, e) && InLine(s, events, e.target)
    requires Busy(WriterOf(s.pending, e.target), s.control.outcome.Some?)
    ensures var q, begun := Queued(s, e), Begun(events + [e], e.target); var w := WriterOf(q.pending, e.target);
            && Chunks(events + [e], e.target) == Begun(events, e.target) + w.queue
            && q.buffer == s.buffer
            && (w.writing || w.queue == [] ==> InLine(q, events + [e], e.target))
            && (!w.writing && w.queue != [] ==>
                 && begun == Begun(events, e.target) + [w.queue[0]]
                 && Writes(events + [e], e.target) < |Chunks(events + [e], e.target)|)
  {
    Snoc(events, e, e.target);
    var w := WriterOf(s.pending, e.target);
    var chunks, begun := Chunks(events, e.target), Begun(events, e.target);
    assert |begun| == if Writes(events, e.target) < |chunks| then Writes(events, e.target) + 1 else |chunks|;
    if e.Data? {
      assert chunks + [e.chunk] == begun + (w.queue + [e.chunk]);
    } else if w.queue != [] {
      assert begun + w.queue == (begun + [w.queue[0]]) + w.queue[1..];
    }
  }

  function Other(target: Target): Target {
    if target.Stdout? then Stderr else Stdout
  }

  /** What beginning a chunk does to the bytes that arrived and to the writer. */
  lemma WrittenArrives(q: State, target: Target)
    requires Captured(q.buffer) && Conserved(q.buffer, q.pending, target) && WriterOf(q.pending, target).queue != []
    ensures var w, next := WriterOf(q.pending, target), WriteNext(q, target);
            && Project(next.buffer.arrived, target) == Project(q.buffer.arrived, target) + w.queue[0]
            && Project(next.buffer.arrived, Other(target)) == Project(q.buffer.arrived, Other(target))
            && WriterOf(next.pending, target).queue == w.queue[1..]
            && WriterOf(next.pending, Other(target)) == WriterOf(q.pending, Other(target))
            && next.buffer.max == q.buffer.max
            && (|next.buffer.arrived| <= q.buffer.max ==> WriterOf(next.pending, target).writing)
  {
    var chunk := WriterOf(q.pending, target).queue[0];
    ProjectConcat(q.buffer.arrived, Tagged(target, chunk), target);
    ProjectConcat(q.buffer.arrived, Tagged(target, chunk), Other(target));
    ProjectTagged(target, chunk, target);
    ProjectTagged(target, chunk, Other(target));
    assert Project(q.buffer.arrived, Other(target)) + [] == Project(q.buffer.arrived, Other(target));
  }

  lemma NextInLine(q: State, next: State, before: seq<seq<byte>>, events: seq<Event>, target: Target)
    requires WriterOf(q.pending, target).queue != []
    requires var queue := WriterOf(q.pending, target).queue;
             && Chunks(events, target) == before + queue && Begun(events, target) == before + [queue[0]]
             && Project(next.buffer.arrived, target) == Joined(before) + queue[0]
             && WriterOf(next.pending, target).queue == queue[1..]
    requires Writes(events, target) < |Chunks(events, target)|
    ensures Project(next.buffer.arrived, target) == Joined(Begun(events, target))
    ensures WriterOf(next.pending, target).writing ==> InLine(next, events, target)
  {
    var queue := WriterOf(q.pending, target).queue;
    JoinedSnoc(before, queue[0]);
    assert before + queue == (before + [queue[0]]) + queue[1..];
  }

  /** A writer that begins a chunk: what arrived is still what was begun. */
  lemma BeginsNext(s: State, events: seq<Event>, e: Event)
    requires Inv(s) && Enabled(s, e) && Begins(s, e)
    requires InLine(s, events, Stdout) && InLine(s, events, Stderr)
    requires !WriterOf(Queued(s, e).pending, e.target).writing && WriterOf(Queued(s, e).pending, e.target).queue != []
    ensures var next := WriteNext(Queued(s, e), e.target);
            && |next.buffer.arrived| == BegunBytes(events + [e])
            && (|next.buffer.arrived| <= s.buffer.max ==> OnTime(next, events + [e]))
            && (|next.buffer.arrived| <= s.buffer.max ==> WriterOf(next.pending, e.target).writing)
  {
    var q, next := Queued(s, e), WriteNext(Queued(s, e), e.target);
    QueuedInLine(s, events, e);
    QueuedConserves(s, e);
    WrittenArrives(q, e.target);
    NextInLine(q, next, Begun(events, e.target), events + [e], e.target);
    OtherInLine(s, events, e, next, Other(e.target));
    ArrivedIsBegun(next, events + [e]);
  }

  lemma QueuedConserves(s: State, e: Event)
    requires Inv(s) && Enabled(s, e) && Begins(s, e)
    ensures Conserved(Queued(s, e).buffer, Queued(s, e).pending, e.target)
    ensures WriterOf(Queued(s, e).pending, Other(e.target)) == WriterOf(s.pending, Other(e.target))
  {
    if e.Data? {
      EnqueueConserves(s.buffer, s.pending, e.target, e.chunk, e.target);
    }
  }

  /** A writer stays on time when it takes a chunk or becomes free. */
  lemma BeginsOnTime(s: State, events: seq<Event>, e: Event)
    requires Inv(s) && Enabled(s, e) && Begins(s, e)
    requires |s.buffer.arrived| <= s.buffer.max && OnTime(s, events)
    ensures OnTime(Step(s, e), events + [e])
  {
    var q := Queued(s, e);
    StepAdvances(s, e);
    if WriterOf(q.pending, e.target).writing || WriterOf(q.pending, e.target).queue == [] {
      WaitsOnTime(s, events, e);
    } else {
      BeginsNext(s, events, e);
      AdvancesForward(WriteNext(q, e.target), e.target);
      AdvancedOnTime(WriteNext(q, e.target), Step(s, e), events + [e], e.target);
    }
  }

  /** Nothing is begun: the writer is busy, or free with nothing waiting. */
  lemma WaitsOnTime(s: State, events: seq<Event>, e: Event)
    requires Inv(s) && Enabled(s, e) && Begins(s, e)
    requires |s.buffer.arrived| <= s.buffer.max && OnTime(s, events)
    requires var w := WriterOf(Queued(s, e).pending, e.target); w.writing || w.queue == []
    ensures OnTime(Queued(s, e), events + [e])
  {
    QueuedInLine(s, events, e);
    QueuedConserves(s, e);
    OtherInLine(s, events, e, Queued(s, e), Other(e.target));
  }

  lemma AdvancedOnTime(next: State, t: State, events: seq<Event>, target: Target)
    requires t == Advance(next, target) && Forward(next, t) && |next.buffer.arrived| == BegunBytes(events)
    requires |next.buffer.arrived| <= next.buffer.max ==> OnTime(next, events) && WriterOf(next.pending, target).writing
    ensures OnTime(t, events)
  {
  }

  lemma StepOnTime(s: State, events: seq<Event>, e: Event)
    requires Inv(s) && s.kind.ToFiles? && s.control.outcome.None? && Enabled(s, e) && !Ends(e)
    requires OnTime(s, events) && !Step(s, e).control.captureFailed
    ensures OnTime(Step(s, e), events + [e])
  {
    if |s.buffer.arrived| > s.buffer.max {
      BegunBytesGrow(events, e);
      StepKind(s, e);
    } else if e.Data? || e.WriteDone? {
      StepFails(s, e);
      BeginsOnTime(s, events, e);
    } else {
      OtherInLine(s, events, e, Step(s, e), Stdout);
      OtherInLine(s, events, e, Step(s, e), Stderr);
    }
  }

  /** A run to files before its end. */
  lemma StillRunning(max: nat, events: seq<Event>)
    requires Possible(Initial(ToFiles, max), events) && Running(events)
    ensures var s := After(Initial(ToFiles, max), events);
            Inv(s) && s.kind.ToFiles? && s.control.outcome.None? && s.buffer.max == max
  {
    InitialHolds(ToFiles, max);
    RunKeeps(Initial(ToFiles, max), events);
    RunKind(Initial(ToFiles, max), events);
    RunRunning(Initial(ToFiles, max), events);
  }

  lemma LastStep(s: State, front: seq<Event>, e: Event)
    requires Possible(s, front + [e])
    ensures Possible(s, front) && Enabled(After(s, front), e) && After(s, front + [e]) == Step(After(s, front), e)
  {
    AfterSplit(s, front, [e]);
    assert After(After(s, front), [e]) == Step(After(s, front), e);
  }

  lemma {:induction false} RunOnTime(max: nat, events: seq<Event>)
    requires Possible(Initial(ToFiles, max), events) && Running(events)
    requires !After(Initial(ToFiles, max), events).control.captureFailed
    ensures OnTime(After(Initial(ToFiles, max), events), events)
    decreases |events|
  {
    if events != [] {
      var front, e := events[..|events| - 1], events[|events| - 1];
      assert events == front + [e];
      LastStep(Initial(ToFiles, max), front, e);
      var s := After(Initial(ToFiles, max), front);
      StepFails(s, e);
      RunOnTime(max, front);
      StillRunning(max, front);
      StepOnTime(s, front, e);
    }
  }

  // ----- When the result reports the limit -----

  /**
   * Exactly when the result reports the limit: the chunks the writers had begun by the end of the run, each its first
   * one and one more for every chunk written, exceed it. Chunks that waited then are not counted, though they are cut.
   */
  lemma FilesReportTheLimitIff(max: nat, before: seq<Event>, end: Event, after: seq<Event>, t: State)
    requires ResolvedRun(max, before, end, after, t)
    ensures t.control.outcome.Some? && (t.control.outcome.value.outputLimit <==> BegunBytes(before) > max)
  {
    FileRunEnds(max, before, end, after, t);
    RunOnTime(max, before);
    var s := After(Initial(ToFiles, max), before);
    RunKind(Initial(ToFiles, max), before);
    if |s.buffer.arrived| <= max {
      ArrivedIsBegun(s, before);
    }
  }

  lemma {:induction false} DeliveredConcat(a: seq<Event>, b: seq<Event>)
    ensures Delivered(a + b) == Delivered(a) + Delivered(b)
    decreases |a|
  {
    if a == [] {
      assert a + b == b;
    } else {
      assert (a + b)[1..] == a[1..] + b;
      DeliveredConcat(a[1..], b);
    }
  }

  lemma {:induction false} DeliveredInChunks(events: seq<Event>, target: Target)
    ensures Project(Delivered(events), target) == Joined(Chunks(events, target))
    decreases |events|
  {
    if events != [] {
      var front, e := events[..|events| - 1], events[|events| - 1];
      assert events == front + [e] && [e][1..] == [];
      DeliveredConcat(front, [e]);
      DeliveredInChunks(front, target);
      var last := if e.Data? then Tagged(e.target, e.chunk) else [];
      assert Delivered([e]) == last + Delivered([]) == last;
      ProjectConcat(Delivered(front), last, target);
      if e.Data? {
        ProjectTagged(e.target, e.chunk, target);
        JoinedSnoc(Chunks(front, target), e.chunk);
      }
      Snoc(front, e, target);
      assert Chunks(front, target) + [] == Chunks(front, target);
      assert Project(Delivered(front), target) + [] == Project(Delivered(front), target);
    }
  }

  lemma DeliveredBytes(events: seq<Event>)
    ensures |Delivered(events)| == |Joined(Chunks(events, Stdout))| + |Joined(Chunks(events, Stderr))|
  {
    ProjectionsCount(Delivered(events));
    DeliveredInChunks(events, Stdout);
    DeliveredInChunks(events, Stderr);
  }

  lemma {:induction false} ChunksNotEmpty(s: State, events: seq<Event>, target: Target)
    requires Possible(s, events)
    ensures NoneEmpty(Chunks(events, target))
    decreases |events|
  {
    if events != [] {
      var front, e := events[..|events| - 1], events[|events| - 1];
      assert events == front + [e];
      AfterSplit(s, front, [e]);
      ChunksNotEmpty(s, front, target);
    }
  }

  /** A stream that delivered anything has its first chunk begun. */
  lemma FirstIsBegun(s: State, events: seq<Event>, target: Target)
    requires Possible(s, events)
    ensures |Joined(Begun(events, target))| <= |Joined(Chunks(events, target))|
    ensures |Joined(Chunks(events, target))| > 0 ==> |Joined(Begun(events, target))| > 0
  {
    ChunksNotEmpty(s, events, target);
    PrefixIsShorter(Begun(events, target), Chunks(events, target));
    var begun := Begun(events, target);
    if begun != [] {
      assert begun[0] == Chunks(events, target)[0];
      assert Joined(begun) == begun[0] + Joined(begun[1..]);
    }
  }

  /** At limit 0 it matters only whether anything was begun, and the first chunk always is. */
  lemma SomeBegun(s: State, events: seq<Event>)
    requires Possible(s, events)
    ensures BegunBytes(events) > 0 <==> |Delivered(events)| > 0
  {
    DeliveredBytes(events);
    FirstIsBegun(s, events, Stdout);
    FirstIsBegun(s, events, Stderr);
  }

  lemma AllBegun(events: seq<Event>)
    requires |Chunks(events, Stdout)| <= 1 && |Chunks(events, Stderr)| <= 1
    ensures BegunBytes(events) == |Delivered(events)|
  {
    DeliveredBytes(events);
    assert Begun(events, Stdout) == Chunks(events, Stdout) && Begun(events, Stderr) == Chunks(events, Stderr);
  }

  /** With limit 0, or one chunk per stream, nothing is cut without a report. */
  lemma NothingUnreported(max: nat, before: seq<Event>, end: Event, after: seq<Event>, t: State)
    requires ResolvedRun(max, before, end, after, t)
    requires max == 0 || (|Chunks(before, Stdout)| <= 1 && |Chunks(before, Stderr)| <= 1)
    ensures t.control.outcome.Some? && (t.control.outcome.value.outputLimit <==> |Delivered(before)| > max)
  {
    FilesReportTheLimitIff(max, before, end, after, t);
    if max == 0 {
      EndSplit(ToFiles, max, before, end, after);
      SomeBegun(Initial(ToFiles, max), before);
    } else {
      AllBegun(before);
    }
  }

  // ----- A run whose output is cut without a report -----

  /** Two chunks that together go over the limit: the second waits for the first when the child exits. */
  function Unreported(max: nat, a: seq<byte>, b: seq<byte>): seq<Event> {
    [Data(Stdout, a), Data(Stdout, b), Closed(Some(0)), WriteDone(Stdout)]
    + (if |a| < max then [WriteDone(Stdout)] else [])
    + [Finished(Stdout), Finished(Stderr), Drained]
  }

  lemma Prepend(s: State, e: Event, rest: seq<Event>)
    requires Enabled(s, e) && Possible(Step(s, e), rest)
    ensures Possible(s, [e] + rest) && After(s, [e] + rest) == After(Step(s, e), rest)
  {
    assert ([e] + rest)[1..] == rest;
  }

  /** A free writer takes its only chunk. */
  lemma TakesOnly(s: State, target: Target)
    requires var w := WriterOf(s.pending, target); !w.writing && |w.queue| == 1
    ensures Advance(s, target) == WriteNext(s, target)
  {
    assert Advance(WriteNext(s, target), target) == WriteNext(s, target);
  }

  /** The run when the child exits: the first chunk is on its way and the second one waits. */
  function AtExit(max: nat, a: seq<byte>, b: seq<byte>): State {
    var c := Fresh();
    var result := RunResult([], [], Some(0), false, false, false, false);
    State(ToFiles, Buffer(max, a, [], |a|, Tagged(Stdout, a)),
          Pending(Writer([b], true, Open), IDLE, Tagged(Stdout, a) + Tagged(Stdout, b), 0),
          c.(outcome := Some(result), settledAfter := |a|, timer := false, listening := false))
  }

  lemma ReachesExit(max: nat, a: seq<byte>, b: seq<byte>)
    requires 0 < |a| <= max < |a| + |b|
    ensures var events := [Data(Stdout, a), Data(Stdout, b), Closed(Some(0))];
            Possible(Initial(ToFiles, max), events) && After(Initial(ToFiles, max), events) == AtExit(max, a, b)
  {
    var s0 := Initial(ToFiles, max);
    TakesOnly(Queued(s0, Data(Stdout, a)), Stdout);
    var s1 := Step(s0, Data(Stdout, a));
    assert [] + a == a && [] + Tagged(Stdout, a) == Tagged(Stdout, a);
    assert s1.pending == Pending(Writer([], true, Open), IDLE, Tagged(Stdout, a), 0);
    assert s1.buffer == Buffer(max, a, [], |a|, Tagged(Stdout, a));
    var s2 := Step(s1, Data(Stdout, b));
    assert s2.pending.out == Writer([b], true, Open);
    Prepend(s2, Closed(Some(0)), []);
    Prepend(s1, Data(Stdout, b), [Closed(Some(0))]);
    Prepend(s0, Data(Stdout, a), [Data(Stdout, b), Closed(Some(0))]);
    assert [Data(Stdout, b)] + [Closed(Some(0))] == [Data(Stdout, b), Closed(Some(0))];
    assert [Data(Stdout, a)] + [Data(Stdout, b), Closed(Some(0))]
        == [Data(Stdout, a), Data(Stdout, b), Closed(Some(0))];
    assert [Closed(Some(0))] + [] == [Closed(Some(0))];
  }

  /** From where the second chunk is begun, and cut, the files are written and closed. */
  lemma Closes(s: State, busy: bool)
    requires s.kind.ToFiles? && s.control.outcome.Some? && s.control.promise.None? && !s.control.captureFailed
    requires s.pending.out == Writer([], busy, Open) && s.pending.err == IDLE
    ensures var events := (if busy then [WriteDone(Stdout)] else []) + [Finished(Stdout), Finished(Stderr), Drained];
            && Possible(s, events) && After(s, events).buffer == s.buffer
            && After(s, events).control == s.control.(promise := Some(Resolved(s.control.outcome.value)))
  {
    var free := Freed(s, Stdout);
    var first := Step(free, Finished(Stdout));
    var second := Step(first, Finished(Stderr));
    Prepend(second, Drained, []);
    Prepend(first, Finished(Stderr), [Drained]);
    Prepend(free, Finished(Stdout), [Finished(Stderr), Drained]);
    assert [Drained] + [] == [Drained] && [Finished(Stderr)] + [Drained] == [Finished(Stderr), Drained];
    var closing := [Finished(Stdout), Finished(Stderr), Drained];
    assert [Finished(Stdout)] + [Finished(Stderr), Drained] == closing;
    if busy {
      assert Step(s, WriteDone(Stdout)) == free;
      Prepend(s, WriteDone(Stdout), closing);
    } else {
      assert free == s && [] + closing == closing;
    }
  }

  /**
   * For every limit above 0 and every two chunks that cross it only together: the caller's result does not report a
   * limit, and the file is cut at it.
   */
  lemma CutWithoutReport(max: nat, a: seq<byte>, b: seq<byte>)
    requires 0 < |a| <= max < |a| + |b|
    ensures Possible(Initial(ToFiles, max), Unreported(max, a, b))
    ensures var s := After(Initial(ToFiles, max), Unreported(max, a, b));
            && s.buffer.stdout == (a + b)[..max] && s.control.outputLimit
            && s.control.promise.Some? && s.control.promise.value.Resolved?
            && !s.control.promise.value.result.outputLimit
  {
    var exit := AtExit(max, a, b);
    TakesOnly(Freed(exit, Stdout), Stdout);
    var cut := Step(exit, WriteDone(Stdout));
    assert cut.buffer.stdout == (a + b)[..max];
    Closes(cut, |a| < max);
    var closing := (if |a| < max then [WriteDone(Stdout)] else []) + [Finished(Stdout), Finished(Stderr), Drained];
    Prepend(exit, WriteDone(Stdout), closing);
    ReachesExit(max, a, b);
    var opening := [Data(Stdout, a), Data(Stdout, b), Closed(Some(0))];
    Joins(Initial(ToFiles, max), opening, [WriteDone(Stdout)] + closing);
    assert opening + ([WriteDone(Stdout)] + closing) == Unreported(max, a, b);
  }

  lemma {:induction false} Joins(s: State, before: seq<Event>, after: seq<Event>)
    requires Possible(s, before) && Possible(After(s, before), after)
    ensures Possible(s, before + after) && After(s, before + after) == After(After(s, before), after)
    decreases |before|
  {
    if before == [] {
      assert before + after == after;
    } else {
      assert (before + after)[1..] == before[1..] + after;
      Joins(Step(s, before[0]), before[1..], after);
    }
  }
}
