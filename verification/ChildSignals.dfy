/**
 * What a result says and which signals were sent, in terms of the events before the end of the run.
 */
module ChildSignals {
  import opened Wrappers
  import opened ChildOutput
  import opened ChildProcess
  import opened ChildFiles

  // ----- Events by what they do -----

  predicate Times(e: Event) {
    e.TimeoutFires? || e.TimedOutCalled? || e.ExpireCalled?
  }

  predicate Forces(e: Event) {
    e.KillTimerFires? || e.ForceCalled? || e.ExpireCalled?
  }

  /** Events that ask for graceful termination by themselves. */
  predicate Asks(e: Event) {
    e.TimeoutFires? || e.Aborted? || e.TerminateCalled? || e.TimedOutCalled? || e.CaptureFailed?
  }

  predicate Aborts(e: Event) {
    e.Aborted?
  }

  predicate Breaks(e: Event) {
    e.CaptureFailed?
  }

  ghost predicate Any(events: seq<Event>, does: Event -> bool) {
    exists i :: 0 <= i < |events| && does(events[i])
  }

  function Number(events: seq<Event>, does: Event -> bool): nat {
    if events == [] then 0
    else Number(events[..|events| - 1], does) + if does(events[|events| - 1]) then 1 else 0
  }

  lemma AnySnoc(events: seq<Event>, e: Event, does: Event -> bool)
    ensures Any(events + [e], does) <==> Any(events, does) || does(e)
  {
    var more := events + [e];
    assert forall i :: 0 <= i < |events| ==> more[i] == events[i];
    assert more[|events|] == e;
    if Any(events, does) {
      var i :| 0 <= i < |events| && does(events[i]);
      assert does(more[i]);
    }
  }

  /** Which flags are set and which signals are sent by the events so far. */
  ghost predicate FlagsAre(c: Control, events: seq<Event>) {
    && (c.timedOut <==> Any(events, Times))
    && (c.cancelled <==> Any(events, Aborts))
    && Count(c.signals, Forced) == Number(events, Forces)
    && Count(c.signals, Graceful) + Count(c.signals, Forced) == |c.signals|
    && (c.terminationRequested <==> Any(events, Asks) || c.outputLimit || c.captureFailed)
    && (Any(events, Breaks) ==> c.captureFailed)
  }

  /** What one control state does to the flags, seen from another. */
  ghost predicate Changes(c: Control, d: Control, e: Event) {
    && (d.timedOut <==> c.timedOut || Times(e)) && (d.cancelled <==> c.cancelled || e.Aborted?)
    && Count(d.signals, Forced) == Count(c.signals, Forced) + (if Forces(e) then 1 else 0)
    && Count(d.signals, Graceful) + Count(d.signals, Forced) - |d.signals|
       == Count(c.signals, Graceful) + Count(c.signals, Forced) - |c.signals|
    && (d.terminationRequested <==>
         c.terminationRequested || Asks(e) || (d.outputLimit && !c.outputLimit)
         || (d.captureFailed && !c.captureFailed))
    && (c.outputLimit ==> d.outputLimit) && (c.captureFailed || e.CaptureFailed? ==> d.captureFailed)
  }

  lemma TerminateSignals(c: Control)
    requires c.outcome.None?
    ensures var d := Terminate(c);
            && d.terminationRequested && Count(d.signals, Forced) == Count(c.signals, Forced)
            && Count(d.signals, Graceful) - |d.signals| == Count(c.signals, Graceful) - |c.signals|
            && d.timedOut == c.timedOut && d.cancelled == c.cancelled && d.outputLimit == c.outputLimit
            && d.captureFailed == c.captureFailed
  {
    assert multiset(c.signals + [Graceful]) == multiset(c.signals) + multiset{Graceful};
  }

  lemma ForceSignals(c: Control)
    ensures Count(Force(c).signals, Forced) == Count(c.signals, Forced) + 1
    ensures Count(Force(c).signals, Graceful) == Count(c.signals, Graceful)
    ensures |Force(c).signals| == |c.signals| + 1
  {
    assert multiset(c.signals + [Forced]) == multiset(c.signals) + multiset{Forced};
  }

  lemma SteerChanges(c: Control, e: Event)
    requires c.outcome.None? && IsControl(e) && !e.Drained? && !e.CloseFailed?
    ensures Changes(c, Steer(c, e), e)
  {
    if AsksToTerminate(e) {
      SteerAsks(c, e);
      AskChanges(c, Asked(c, e), e);
    } else {
      ForceChanges(c, e);
    }
  }

  lemma AskChanges(c: Control, asked: Control, e: Event)
    requires c.outcome.None? && AsksToTerminate(e) && asked == Asked(c, e)
    ensures Changes(c, Terminate(asked), e)
  {
    AskedFlags(c, e);
    TerminateSignals(asked);
    AskedChanges(c, asked, Terminate(asked), e);
  }

  lemma AskedFlags(c: Control, e: Event)
    requires AsksToTerminate(e)
    ensures var a := Asked(c, e);
            && a.signals == c.signals && a.outcome == c.outcome && a.outputLimit == c.outputLimit
            && a.captureFailed == c.captureFailed && (a.timedOut <==> c.timedOut || Times(e))
            && (a.cancelled <==> c.cancelled || Aborts(e)) && Asks(e) && !Forces(e)
  {
  }

  lemma AskedChanges(c: Control, a: Control, d: Control, e: Event)
    requires a.signals == c.signals && a.outputLimit == c.outputLimit && a.captureFailed == c.captureFailed
    requires (a.timedOut <==> c.timedOut || Times(e)) && (a.cancelled <==> c.cancelled || Aborts(e))
    requires Asks(e) && !Forces(e) && !e.CaptureFailed?
    requires d.terminationRequested && Count(d.signals, Forced) == Count(a.signals, Forced)
    requires Count(d.signals, Graceful) - |d.signals| == Count(a.signals, Graceful) - |a.signals|
    requires d.timedOut == a.timedOut && d.cancelled == a.cancelled && d.outputLimit == a.outputLimit
    requires d.captureFailed == a.captureFailed
    ensures Changes(c, d, e)
  {
  }

  lemma ForceChanges(c: Control, e: Event)
    requires c.outcome.None? && (e.KillTimerFires? || e.ForceCalled? || e.ExpireCalled?)
    ensures Changes(c, Steer(c, e), e)
  {
    match e
    case KillTimerFires => ForceSignals(c.(killTimer := false));
    case ForceCalled => ForceSignals(c);
    case ExpireCalled => ForceSignals(c.(timedOut := true));
  }

  lemma FailChanges(c: Control, e: Event)
    requires c.outcome.None? && e.CaptureFailed?
    ensures Changes(c, Fail(c), e)
  {
    TerminateSignals(c.(captureFailed := true));
  }

  /** Beginning chunks changes nothing, or meets the limit. */
  ghost predicate LimitOnly(c: Control, d: Control) {
    d == c || (d.outputLimit && d == Limit(c))
  }

  lemma LimitChanges(c: Control, d: Control, e: Event)
    requires c.outcome.None? && LimitOnly(c, d) && (c.outputLimit ==> c.terminationRequested)
    requires e.Data? || e.WriteDone?
    ensures Changes(c, d, e)
  {
    TerminateSignals(c.(outputLimit := true));
  }

  lemma LimitTwice(c: Control, d: Control, e: Control)
    requires c.outcome.None? && LimitOnly(c, d) && LimitOnly(d, e)
    ensures LimitOnly(c, e)
  {
  }

  lemma WriteLimits(s: State, target: Target)
    requires s.control.outcome.None? && WriterOf(s.pending, target).queue != []
    ensures LimitOnly(s.control, WriteNext(s, target).control) && WriteNext(s, target).control.outcome.None?
  {
  }

  lemma {:induction false} AdvanceLimits(s: State, target: Target)
    requires s.control.outcome.None?
    ensures LimitOnly(s.control, Advance(s, target).control)
    decreases |WriterOf(s.pending, target).queue|
  {
    if !WriterOf(s.pending, target).writing && WriterOf(s.pending, target).queue != [] {
      var next := WriteNext(s, target);
      WriteLimits(s, target);
      AdvanceLimits(next, target);
      LimitTwice(s.control, next.control, Advance(s, target).control);
    }
  }

  lemma StepChanges(s: State, e: Event)
    requires s.control.outcome.None? && Enabled(s, e) && !Ends(e)
    requires s.control.outputLimit ==> s.control.terminationRequested
    ensures Changes(s.control, Step(s, e).control, e)
  {
    if IsControl(e) {
      SteerChanges(s.control, e);
    } else if Begins(s, e) {
      StepAdvances(s, e);
      AdvanceLimits(Queued(s, e), e.target);
      LimitChanges(s.control, Step(s, e).control, e);
    } else if e.CaptureFailed? {
      FailChanges(s.control, e);
    } else if e.Data? {
      LimitChanges(s.control, Step(s, e).control, e);
    }
  }

  lemma ChangesKeep(c: Control, d: Control, events: seq<Event>, e: Event)
    requires FlagsAre(c, events) && Changes(c, d, e)
    ensures FlagsAre(d, events + [e])
  {
    AnySnoc(events, e, Times);
    AnySnoc(events, e, Aborts);
    AnySnoc(events, e, Asks);
    AnySnoc(events, e, Breaks);
    assert (events + [e])[..|events|] == events;
  }

  /** Before the end of a run, flags and signals are what the events say. */
  lemma {:induction false} RunFlags(kind: Kind, max: nat, events: seq<Event>)
    requires Possible(Initial(kind, max), events) && Running(events)
    ensures FlagsAre(After(Initial(kind, max), events).control, events)
    decreases |events|
  {
    var first := Initial(kind, max);
    if events == [] {
      TerminateSignals(Fresh().(captureFailed := true));
    } else {
      var front, e := events[..|events| - 1], events[|events| - 1];
      assert events == front + [e];
      LastStep(first, front, e);
      RunFlags(kind, max, front);
      RunRunning(first, front);
      StepChanges(After(first, front), e);
      ChangesKeep(After(first, front).control, Step(After(first, front), e).control, front, e);
    }
  }

  /**
   * What the result of a run says: how it ended, whether a timeout or the end of its lifetime came before, whether it
   * was aborted before.
   */
  lemma ResultMeans(kind: Kind, max: nat, before: seq<Event>, end: Event, after: seq<Event>)
    requires Ends(end) && Running(before) && Possible(Initial(kind, max), Whole(before, end, after))
    ensures After(Initial(kind, max), Whole(before, end, after)).control.outcome.Some?
    ensures var result := After(Initial(kind, max), Whole(before, end, after)).control.outcome.value;
            && (result.failed <==> end.Errored?)
            && (end.Closed? ==> result.exitCode == end.exitCode) && (end.Errored? ==> result.exitCode.None?)
            && (result.timedOut <==> exists i :: 0 <= i < |before| && Times(before[i]))
            && (result.cancelled <==> exists i :: 0 <= i < |before| && before[i].Aborted?)
            && (!kind.InMemory? ==> result.stdout == [] && result.stderr == [])
  {
    SettlesOnce(kind, max, before, end, after);
    RunFlags(kind, max, before);
    RunKind(Initial(kind, max), before);
    AbortsMeans(before);
  }

  lemma AbortsMeans(before: seq<Event>)
    ensures Any(before, Aborts) <==> exists i :: 0 <= i < |before| && before[i].Aborted?
  {
    if i :| 0 <= i < |before| && before[i].Aborted? {
      assert Aborts(before[i]);
    }
  }

  /**
   * Which signals a run sends: one graceful request exactly when something asked for it, the limit was met or the
   * capture failed before the end; and a forced one for each time the grace period ran out or it was asked for.
   */
  lemma SignalsMean(kind: Kind, max: nat, before: seq<Event>, end: Event, after: seq<Event>)
    requires Ends(end) && Running(before) && Possible(Initial(kind, max), Whole(before, end, after))
    ensures After(Initial(kind, max), Whole(before, end, after)).control.outcome.Some?
    ensures var t := After(Initial(kind, max), Whole(before, end, after)).control;
            && Count(t.signals, Forced) == Number(before, Forces)
            && Count(t.signals, Graceful) + Count(t.signals, Forced) == |t.signals|
            && Count(t.signals, Graceful) <= 1
            && (Count(t.signals, Graceful) == 1 <==>
                 || (exists i :: 0 <= i < |before| && Asks(before[i]))
                 || kind.NoCapture? || t.outcome.value.outputLimit)
  {
    SettlesOnce(kind, max, before, end, after);
    RunFlags(kind, max, before);
    var s := After(Initial(kind, max), before);
    InitialHolds(kind, max);
    RunKeeps(Initial(kind, max), before);
    CaptureFails(kind, max, before);
  }

  /** A capture fails only when it could not be opened or a file broke. */
  lemma {:induction false} CaptureFails(kind: Kind, max: nat, events: seq<Event>)
    requires Possible(Initial(kind, max), events) && Running(events)
    ensures After(Initial(kind, max), events).control.captureFailed <==> kind.NoCapture? || Any(events, Breaks)
    ensures Any(events, Breaks) ==> Any(events, Asks)
    decreases |events|
  {
    var first := Initial(kind, max);
    if events != [] {
      var front, e := events[..|events| - 1], events[|events| - 1];
      assert events == front + [e];
      LastStep(first, front, e);
      CaptureFails(kind, max, front);
      AnySnoc(front, e, Breaks);
      AnySnoc(front, e, Asks);
      RunRunning(first, front);
      OnlyBreaks(After(first, front), e);
    }
  }

  lemma OnlyBreaks(s: State, e: Event)
    requires s.control.outcome.None? && Enabled(s, e) && !Ends(e)
    ensures Step(s, e).control.captureFailed <==> s.control.captureFailed || Breaks(e)
  {
    if IsControl(e) {
      SteerLeaves(s.control, e);
    } else if Begins(s, e) {
      StepAdvances(s, e);
    }
  }
}
