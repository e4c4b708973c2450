/**
 * The run of one child as the program holds it: separate fields that event handlers update. Every handler is proved to
 * do one step of the machine in ChildProcess, and the machine's invariant holds throughout.
 */
module ChildRunner {
  import opened Wrappers
  import opened Utf8
  import opened ChildOutput
  import opened ChildProcess

  class ChildRun {
    const kind: Kind
    const max: nat
    var stdout: seq<byte>
    var stderr: seq<byte>
    var bytes: nat
    var outWriter: Writer
    var errWriter: Writer
    var limitSignaled: bool
    var timedOut: bool
    var outputLimit: bool
    var cancelled: bool
    var captureFailed: bool
    var terminationRequested: bool
    var timer: bool
    var killTimer: bool
    var listening: bool
    var outcome: Option<RunResult>
    var promise: Option<Settlement>
    ghost var arrived: seq<Output>
    ghost var handed: seq<Output>
    ghost var limitSignals: nat
    ghost var settledAfter: nat
    ghost var signals: seq<Signal>

    function WriterFor(target: Target): (w: Writer)
      reads this
      ensures w == WriterOf(Waiting(), target)
    {
      if target.Stdout? then outWriter else errWriter
    }

    ghost function Output(): Buffer
      reads this
    {
      Buffer(max, stdout, stderr, bytes, arrived)
    }

    ghost function Waiting(): Pending
      reads this
    {
      Pending(outWriter, errWriter, handed, limitSignals)
    }

    ghost function Steering(): Control
      reads this
    {
      Control(timedOut, outputLimit, cancelled, captureFailed, terminationRequested, timer, killTimer, listening,
              signals, outcome, settledAfter, promise)
    }

    ghost function View(): State
      reads this
    {
      State(kind, Output(), Waiting(), Steering())
    }

    ghost predicate Valid()
      reads this
    {
      Inv(View()) && (limitSignaled <==> limitSignals > 0)
    }

    /** The initial state of the machine, which satisfies its invariant (InitialHolds). */
    constructor (kind: Kind, max: nat)
      ensures View() == Initial(kind, max) && !limitSignaled
    {
      this.kind, this.max := kind, max;
      stdout, stderr, bytes, outWriter, errWriter, limitSignaled := [], [], 0, IDLE, IDLE, false;
      timedOut, outputLimit, cancelled, captureFailed := false, false, false, false;
      terminationRequested, timer, killTimer, listening := false, true, false, true;
      outcome, promise := None, None;
      arrived, handed, limitSignals, settledAfter, signals := [], [], 0, 0, [];
      new;
      if kind.NoCapture? {
        captureFailed := true;
        RequestTermination();
      }
    }

    method RequestTermination()
      modifies this`terminationRequested, this`killTimer, this`signals
      ensures Steering() == Terminate(old(Steering()))
    {
      if outcome.Some? || terminationRequested {
        return;
      }
      terminationRequested := true;
      signals := signals + [Graceful];
      killTimer := true;
    }

    method MeetLimit()
      modifies this`outputLimit, this`terminationRequested, this`killTimer, this`signals
      ensures Steering() == Limit(old(Steering()))
    {
      outputLimit := true;
      RequestTermination();
    }

    /** Keeps what still fits of a chunk. */
    method KeepPart(target: Target, chunk: seq<byte>) returns (cut: bool)
      requires bytes <= max
      modifies this`stdout, this`stderr, this`bytes, this`arrived
      ensures Output() == Store(old(Output()), target, chunk)
      ensures chunk != [] ==> cut == Cuts(old(Output()), chunk)
    {
      arrived := arrived + Tagged(target, chunk);
      if bytes >= max {
        assert stdout + [] == stdout && stderr + [] == stderr;
        return true;
      }
      var part := First(chunk, max - bytes);
      bytes := bytes + |part|;
      if target.Stdout? {
        stdout := stdout + part;
      } else {
        stderr := stderr + part;
      }
      cut := |part| != |chunk|;
    }

    /** A chunk in memory. */
    method KeepChunk(target: Target, chunk: seq<byte>)
      requires chunk != [] && bytes <= max && kind.InMemory?
      modifies this
      ensures View() == Append(old(View()), target, chunk) && limitSignaled == old(limitSignaled)
    {
      ghost var next := Append(View(), target, chunk);
      handed := handed + Tagged(target, chunk);
      var cut := KeepPart(target, chunk);
      assert Output() == next.buffer && Waiting() == next.pending;
      if cut {
        MeetLimit();
      }
    }

    /**
     * A chunk arrives: what everything captured so far is stays the first `max` bytes, and only a chunk that goes over
     * them asks for termination.
     */
    method OnData(target: Target, chunk: seq<byte>)
      requires Valid() && Enabled(View(), Data(target, chunk))
      modifies this
      ensures Valid() && View() == Step(old(View()), Data(target, chunk))
    {
      DataKeeps(View(), target, chunk);
      if kind.ToFiles? {
        HandChunk(target, chunk);
      } else {
        KeepChunk(target, chunk);
      }
    }

    method SetWriter(target: Target, w: Writer)
      modifies this`outWriter, this`errWriter
      ensures Waiting() == WithWriter(old(Waiting()), target, w)
    {
      if target.Stdout? {
        outWriter := w;
      } else {
        errWriter := w;
      }
    }

    /** An error of its file ends a writer, drops what waits for it and asks for termination. */
    method BreakWriter(target: Target)
      modifies this`outWriter, this`errWriter, this`captureFailed
      modifies this`terminationRequested, this`killTimer, this`signals
      ensures View() == Break(old(View()), target)
    {
      SetWriter(target, Writer([], false, Broken));
      captureFailed := true;
      RequestTermination();
    }

    /** A chunk for a file. */
    method HandChunk(target: Target, chunk: seq<byte>)
      requires Inv(View()) && kind.ToFiles? && chunk != [] && (limitSignaled <==> limitSignals > 0)
      modifies this
      ensures View() == Hand(old(View()), target, chunk) && (limitSignaled <==> limitSignals > 0)
    {
      var life := WriterFor(target).life;
      if outcome.Some? {
        if life.Open? {
          BreakWriter(target);
        }
      } else if life.Open? {
        EnqueuedGoes(View(), target, chunk);
        AcceptChunk(target, chunk);
      } else {
        handed := handed + Tagged(target, chunk);
      }
    }

    /** An open writer takes a chunk. */
    method AcceptChunk(target: Target, chunk: seq<byte>)
      requires Going(Queued(View(), Data(target, chunk)), target) && (limitSignaled <==> limitSignals > 0)
      modifies this
      ensures View() == Advance(Queued(old(View()), Data(target, chunk)), target)
      ensures limitSignaled <==> limitSignals > 0
    {
      EnqueueChunk(target, chunk);
      AdvanceWriter(target);
    }

    method EnqueueChunk(target: Target, chunk: seq<byte>)
      modifies this`outWriter, this`errWriter, this`handed
      ensures View() == Queued(old(View()), Data(target, chunk))
    {
      handed := handed + Tagged(target, chunk);
      var w := WriterFor(target);
      SetWriter(target, w.(queue := w.queue + [chunk]));
    }

    method FreeWriter(target: Target)
      modifies this`outWriter, this`errWriter
      ensures View() == Freed(old(View()), target)
    {
      SetWriter(target, WriterFor(target).(writing := false));
    }

    /** A chunk is written as far as the shared budget goes. */
    method BeginChunk(target: Target, chunk: seq<byte>)
      requires chunk != [] && bytes <= max && (limitSignaled <==> limitSignals > 0)
      modifies this`stdout, this`stderr, this`bytes, this`arrived, this`limitSignaled, this`limitSignals
      modifies this`outputLimit, this`terminationRequested, this`killTimer, this`signals
      ensures Output() == Store(old(Output()), target, chunk) && (limitSignaled <==> limitSignals > 0)
      ensures var signal := Cuts(old(Output()), chunk) && old(limitSignals) == 0;
              && limitSignals == (if signal then 1 else old(limitSignals))
              && Steering() == if signal then Limit(old(Steering())) else old(Steering())
    {
      var cut := KeepPart(target, chunk);
      if cut {
        SignalLimit();
      }
    }

    /** A writer takes the chunk that waits longest. */
    method WriteChunk(target: Target)
      requires WriterFor(target).queue != [] && WriterFor(target).queue[0] != [] && bytes <= max
      requires limitSignaled <==> limitSignals > 0
      modifies this
      ensures View() == WriteNext(old(View()), target) && (limitSignaled <==> limitSignals > 0)
    {
      ghost var before := View();
      var w := WriterFor(target);
      SetWriter(target, w.(queue := w.queue[1..], writing := bytes < max));
      ghost var taken := Waiting();
      assert Output() == before.buffer && Steering() == before.control && limitSignals == before.pending.limitSignals;
      BeginChunk(target, w.queue[0]);
      assert Waiting() == taken.(limitSignals := limitSignals);
      WriteNextIs(before, View(), target, w, Cuts(before.buffer, w.queue[0]) && before.pending.limitSignals == 0);
    }

    /** A free writer begins chunks until one is on its way; those with no budget left are dropped at once. */
    method AdvanceWriter(target: Target)
      requires Going(View(), target) && (limitSignaled <==> limitSignals > 0)
      modifies this
      ensures View() == Advance(old(View()), target) && (limitSignaled <==> limitSignals > 0)
    {
      while !WriterFor(target).writing && WriterFor(target).queue != []
        invariant Going(View(), target) && (limitSignaled <==> limitSignals > 0)
        invariant Advance(View(), target) == Advance(old(View()), target)
        decreases |WriterFor(target).queue|
      {
        WrittenKeeps(View(), target);
        WriteChunk(target);
      }
    }

    /** Only the first chunk beyond the budget is reported. */
    method SignalLimit()
      requires limitSignaled <==> limitSignals > 0
      modifies this`limitSignaled, this`limitSignals
      modifies this`outputLimit, this`terminationRequested, this`killTimer, this`signals
      ensures limitSignaled && limitSignals == if old(limitSignals) == 0 then 1 else old(limitSignals)
      ensures Steering() == if old(limitSignals) == 0 then Limit(old(Steering())) else old(Steering())
    {
      if limitSignaled {
        return;
      }
      limitSignaled, limitSignals := true, 1;
      MeetLimit();
    }

    /**
     * The file of a stream has taken a chunk: the writer goes on with the next one. Both files together hold the first
     * `max` bytes begun, and crossing that is signalled once.
     */
    method OnWriteDone(target: Target)
      requires Valid() && Enabled(View(), WriteDone(target))
      modifies this
      ensures Valid() && View() == Step(old(View()), WriteDone(target))
      ensures |arrived| > max ==> limitSignals == 1
    {
      WriteDoneKeeps(View(), target);
      FreeWriter(target);
      AdvanceWriter(target);
    }

    /** The file of a stream fails. */
    method OnCaptureFailed(target: Target)
      requires Valid() && Enabled(View(), CaptureFailed(target))
      modifies this
      ensures Valid() && View() == Step(old(View()), CaptureFailed(target))
    {
      BreakKeeps(View(), target);
      BreakWriter(target);
    }

    /** A writer that has caught up is done. */
    method OnFinished(target: Target)
      requires Valid() && Enabled(View(), Finished(target))
      modifies this
      ensures Valid() && View() == Step(old(View()), Finished(target))
    {
      FinishedKeeps(View(), target);
      SetWriter(target, Writer([], false, Done));
    }

    /** The timeout, an abort, or a call of the managed form asks for termination. */
    method OnAsked(e: Event)
      requires AsksToTerminate(e)
      modifies this`timedOut, this`timer, this`cancelled, this`listening
      modifies this`terminationRequested, this`killTimer, this`signals
      ensures Steering() == Steer(old(Steering()), e)
      ensures old(outcome).Some? || old(terminationRequested) ==> signals == old(signals)
    {
      SteerAsks(Steering(), e);
      match e {
        case TimeoutFires => timedOut, timer := true, false;
        case Aborted => cancelled, listening := true, false;
        case TimedOutCalled => timedOut := true;
        case _ =>
      }
      RequestTermination();
    }

    /** The grace period is over. Nothing is asked here: the timer would have been disarmed had the run ended. */
    method OnKillTimer()
      requires Orderly(Steering()) && killTimer
      modifies this`killTimer, this`signals
      ensures Steering() == Steer(old(Steering()), KillTimerFires) && outcome.None?
    {
      killTimer := false;
      signals := signals + [Forced];
    }

    method MakeResult(exitCode: Option<int>, failed: bool) returns (result: RunResult)
      ensures result == ResultOf(View(), exitCode, failed)
    {
      result := RunResult(if kind.InMemory? then stdout else [], if kind.InMemory? then stderr else [], exitCode,
                          timedOut, outputLimit, cancelled, failed);
    }

    /** Fixes the result and disarms timers and listener. */
    method End(result: RunResult)
      requires outcome.None?
      modifies this`outcome, this`settledAfter, this`timer, this`killTimer, this`listening, this`promise
      ensures outcome == Some(result) && settledAfter == |arrived| && !timer && !killTimer && !listening
      ensures promise == if kind.ToFiles? then None else Some(if captureFailed then Rejected else Resolved(result))
    {
      outcome := Some(result);
      settledAfter := |arrived|;
      timer, killTimer, listening := false, false, false;
      promise := if kind.ToFiles? then None else Some(if captureFailed then Rejected else Resolved(result));
    }

    /** The first error or exit ends the run; any later one changes nothing. */
    method OnEnd(exitCode: Option<int>, failed: bool) returns (settled: bool)
      requires Valid()
      modifies this
      ensures Valid() && View() == Finish(old(View()), exitCode, failed)
      ensures settled <==> old(outcome).None?
      ensures settled ==> outcome.Some? && (outcome.value.outputLimit <==> |arrived| > max)
    {
      FinishKeeps(View(), exitCode, failed);
      settled := Conclude(exitCode, failed);
    }

    method Conclude(exitCode: Option<int>, failed: bool) returns (settled: bool)
      modifies this`outcome, this`settledAfter, this`timer, this`killTimer, this`listening, this`promise
      ensures View() == Finish(old(View()), exitCode, failed) && (settled <==> old(outcome).None?)
    {
      settled := outcome.None?;
      if settled {
        var result := MakeResult(exitCode, failed);
        End(result);
      }
    }

    /** The files are closed: the caller gets the result, or the error of the capture. */
    method OnDrained() returns (r: Settlement)
      requires Valid() && Enabled(View(), Drained)
      modifies this
      ensures Valid() && View() == Step(old(View()), Drained) && promise == Some(r)
      ensures r == if captureFailed then Rejected else Resolved(outcome.value)
    {
      SteeredKeeps(View(), Drained);
      r := if captureFailed then Rejected else Resolved(outcome.value);
      promise := Some(r);
    }

    /**
     * Forced termination of the managed form, which asks first whether the run has ended; called directly, or because
     * its lifetime is over.
     */
    method ForceTermination(expired: bool)
      modifies this`timedOut, this`signals
      ensures Steering() == Steer(old(Steering()), if expired then ExpireCalled else ForceCalled)
      ensures old(outcome).Some? ==> signals == old(signals)
    {
      if outcome.Some? {
        return;
      }
      if expired {
        timedOut := true;
      }
      signals := signals + [Forced];
    }
  }
}
