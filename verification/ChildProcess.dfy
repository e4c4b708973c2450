/**
 * One child process as an event machine: output is captured in memory or written to two files, on one byte limit;
 * termination is requested gracefully at most once and forced after a grace period; and the run settles once, whatever
 * order events come in.
 */
module ChildProcess {
  import opened Wrappers
  import opened Sequences
  import opened Utf8
  import opened ChildOutput

  /** Where output goes; a capture that could not be opened reads none. */
  datatype Kind = InMemory | ToFiles | NoCapture

  datatype Signal = Graceful | Forced

  datatype RunResult = RunResult(
    stdout: seq<byte>,
    stderr: seq<byte>,
    exitCode: Option<int>,
    timedOut: bool,
    outputLimit: bool,
    cancelled: bool,
    failed: bool)

  /** How the caller's promise is settled. */
  datatype Settlement = Resolved(result: RunResult) | Rejected

  /** A writer takes chunks until it is done, once the run has ended, or broken by an error. */
  datatype Life = Open | Done | Broken

  /** One file writer: the chunks that wait while an earlier one is on its way to the file. */
  datatype Writer = Writer(queue: seq<seq<byte>>, writing: bool, life: Life)

  /** The two writers, everything handed to them, and how often the limit was signalled. */
  datatype Pending = Pending(out: Writer, err: Writer, handed: seq<Output>, limitSignals: nat)

  datatype Control = Control(
    timedOut: bool,
    outputLimit: bool,
    cancelled: bool,
    captureFailed: bool,
    terminationRequested: bool,
    timer: bool,
    killTimer: bool,
    listening: bool,
    signals: seq<Signal>,
    outcome: Option<RunResult>,
    settledAfter: nat,
    promise: Option<Settlement>)

  datatype State = State(kind: Kind, buffer: Buffer, pending: Pending, control: Control)

  datatype Event =
    | Data(target: Target, chunk: seq<byte>)
    | WriteDone(target: Target)
    | CaptureFailed(target: Target)
    | Finished(target: Target)
    | Drained
    | CloseFailed
    | TimeoutFires
    | KillTimerFires
    | Aborted
    | Errored
    | Closed(exitCode: Option<int>)
    // calls of the managed form
    | TerminateCalled
    | ForceCalled
    | TimedOutCalled
    | ExpireCalled

  const IDLE: Writer := Writer([], false, Open)

  function WriterOf(p: Pending, target: Target): Writer {
    if target.Stdout? then p.out else p.err
  }

  function WithWriter(p: Pending, target: Target, w: Writer): (r: Pending)
    ensures WriterOf(r, target) == w && r.handed == p.handed && r.limitSignals == p.limitSignals
    ensures forall other :: other != target ==> WriterOf(r, other) == WriterOf(p, other)
  {
    if target.Stdout? then p.(out := w) else p.(err := w)
  }

  predicate BothDone(p: Pending) {
    p.out.life.Done? && p.err.life.Done?
  }

  /**
   * Chunks are never empty; a file reports a chunk written while one is on its way; a writer that has caught up is
   * done some time after the run has ended, and the capture is closed when both are; timers fire while armed and the
   * abort listener hears while it is registered.
   */
  predicate Enabled(s: State, e: Event) {
    match e
    case Data(_, chunk) => chunk != [] && !s.kind.NoCapture?
    case WriteDone(target) => s.kind.ToFiles? && WriterOf(s.pending, target).writing
    case CaptureFailed(target) => s.kind.ToFiles? && WriterOf(s.pending, target).life.Open?
    case Finished(target) => s.kind.ToFiles? && s.control.outcome.Some? && WriterOf(s.pending, target) == IDLE
    case Drained => s.kind.ToFiles? && s.control.outcome.Some? && s.control.promise.None? && BothDone(s.pending)
    case CloseFailed => s.kind.ToFiles? && s.control.outcome.Some? && s.control.promise.None? && s.control.captureFailed
    case TimeoutFires => s.control.timer
    case KillTimerFires => s.control.killTimer
    case Aborted => s.control.listening
    case _ => true
  }

  // ----- Steps -----

  function Terminate(c: Control): Control {
    if c.outcome.Some? || c.terminationRequested then c
    else c.(terminationRequested := true, killTimer := true, signals := c.signals + [Graceful])
  }

  function Force(c: Control): Control {
    c.(signals := c.signals + [Forced])
  }

  function Limit(c: Control): Control {
    Terminate(c.(outputLimit := true))
  }

  function Fail(c: Control): Control {
    Terminate(c.(captureFailed := true))
  }

  function Settle(c: Control, result: RunResult): Settlement {
    if c.captureFailed then Rejected else Resolved(result)
  }

  function Enqueue(p: Pending, target: Target, chunk: seq<byte>): Pending {
    var w := WriterOf(p, target);
    WithWriter(p, target, w.(queue := w.queue + [chunk]))
  }

  /** In memory a chunk is kept at once. */
  function Append(s: State, target: Target, chunk: seq<byte>): State {
    s.(buffer := Store(s.buffer, target, chunk),
       pending := s.pending.(handed := s.pending.handed + Tagged(target, chunk)),
       control := if Cuts(s.buffer, chunk) then Limit(s.control) else s.control)
  }

  /** What beginning chunks leaves alone. */
  ghost predicate Forward(s: State, t: State) {
    && t.kind == s.kind && t.buffer.max == s.buffer.max && s.buffer.arrived <= t.buffer.arrived
    && t.pending.handed == s.pending.handed && Ahead(s.control, t.control)
  }

  ghost predicate Ahead(c: Control, d: Control) {
    && d.outcome == c.outcome && d.settledAfter == c.settledAfter && d.promise == c.promise
    && d.captureFailed == c.captureFailed && (c.outcome.Some? ==> d.signals == c.signals)
  }

  lemma WritesForward(s: State, target: Target)
    requires WriterOf(s.pending, target).queue != []
    ensures Forward(s, WriteNext(s, target))
  {
  }

  lemma {:induction false} AdvancesForward(s: State, target: Target)
    ensures Forward(s, Advance(s, target))
    decreases |WriterOf(s.pending, target).queue|
  {
    if !WriterOf(s.pending, target).writing && WriterOf(s.pending, target).queue != [] {
      WritesForward(s, target);
      AdvancesForward(WriteNext(s, target), target);
    }
  }

  /** An error of its file ends a writer and what waits for it. */
  function Break(s: State, target: Target): State {
    s.(pending := WithWriter(s.pending, target, Writer([], false, Broken)), control := Fail(s.control))
  }

  /**
   * For files a chunk is handed to its writer, which begins it at once when nothing is on its way. After the end an
   * open writer takes it for an error; one that is done or broken ignores it.
   */
  function Hand(s: State, target: Target, chunk: seq<byte>): State {
    if s.control.outcome.Some? then if WriterOf(s.pending, target).life.Open? then Break(s, target) else s
    else
      var p := s.pending.(handed := s.pending.handed + Tagged(target, chunk));
      if WriterOf(p, target).life.Open? then Advance(s.(pending := Enqueue(p, target, chunk)), target)
      else s.(pending := p)
  }

  /**
   * A writer begins the chunk that waits longest, as far as the budget goes; only the first chunk beyond it signals the
   * limit. A chunk with no budget left is dropped at once and leaves the writer free.
   */
  function WriteNext(s: State, target: Target): (r: State)
    requires WriterOf(s.pending, target).queue != []
    ensures WriterOf(r.pending, target).queue == WriterOf(s.pending, target).queue[1..]
  {
    var w := WriterOf(s.pending, target);
    var signal := Cuts(s.buffer, w.queue[0]) && s.pending.limitSignals == 0;
    var p := WithWriter(s.pending, target, w.(queue := w.queue[1..], writing := s.buffer.bytes < s.buffer.max));
    s.(buffer := Store(s.buffer, target, w.queue[0]),
       pending := if signal then p.(limitSignals := 1) else p,
       control := if signal then Limit(s.control) else s.control)
  }

  lemma WriteNextIs(s: State, t: State, target: Target, w: Writer, signal: bool)
    requires w == WriterOf(s.pending, target) && w.queue != []
    requires signal == (Cuts(s.buffer, w.queue[0]) && s.pending.limitSignals == 0)
    requires t.kind == s.kind && t.buffer == Store(s.buffer, target, w.queue[0])
    requires t.pending ==
               WithWriter(s.pending, target, w.(queue := w.queue[1..], writing := s.buffer.bytes < s.buffer.max))
               .(limitSignals := if signal then 1 else s.pending.limitSignals)
    requires t.control == if signal then Limit(s.control) else s.control
    ensures t == WriteNext(s, target)
  {
  }

  /** A free writer begins chunks until one is on its way or none waits. */
  function Advance(s: State, target: Target): State
    decreases |WriterOf(s.pending, target).queue|
  {
    var w := WriterOf(s.pending, target);
    if w.writing || w.queue == [] then s else Advance(WriteNext(s, target), target)
  }

  function Freed(s: State, target: Target): State {
    s.(pending := WithWriter(s.pending, target, WriterOf(s.pending, target).(writing := false)))
  }

  /** Output written to files is not in the result. */
  function ResultOf(s: State, exitCode: Option<int>, failed: bool): RunResult {
    RunResult(if s.kind.InMemory? then s.buffer.stdout else [],
              if s.kind.InMemory? then s.buffer.stderr else [], exitCode,
              s.control.timedOut, s.control.outputLimit, s.control.cancelled, failed)
  }

  /** The end of the run fixes the result; the caller gets it at once, or when the files are closed. */
  function Finish(s: State, exitCode: Option<int>, failed: bool): State {
    if s.control.outcome.Some? then s
    else
      var result := ResultOf(s, exitCode, failed);
      s.(control := s.control.(outcome := Some(result), settledAfter := |s.buffer.arrived|,
                               timer := false, killTimer := false, listening := false,
                               promise := if s.kind.ToFiles? then None else Some(Settle(s.control, result))))
  }

  function Step(s: State, e: Event): State
    requires Enabled(s, e)
  {
    match e
    case Data(target, chunk) => if s.kind.ToFiles? then Hand(s, target, chunk) else Append(s, target, chunk)
    case WriteDone(target) => Advance(Freed(s, target), target)
    case CaptureFailed(target) => Break(s, target)
    case Finished(target) => s.(pending := WithWriter(s.pending, target, Writer([], false, Done)))
    case Errored => Finish(s, None, true)
    case Closed(exitCode) => Finish(s, exitCode, false)
    case _ => s.(control := Steer(s.control, e))
  }

  predicate IsControl(e: Event) {
    !e.Data? && !e.WriteDone? && !e.CaptureFailed? && !e.Finished? && !e.Errored? && !e.Closed?
  }

  /** Events that touch no output. Forcing from the kill timer asks nothing: the timer is disarmed when the run ends. */
  function Steer(c: Control, e: Event): Control
    requires IsControl(e) && (e.Drained? ==> c.outcome.Some?)
  {
    match e
    case Drained => c.(promise := Some(Settle(c, c.outcome.value)))
    case CloseFailed => c.(promise := Some(Rejected))
    case TimeoutFires => Terminate(c.(timedOut := true, timer := false))
    case KillTimerFires => Force(c.(killTimer := false))
    case Aborted => Terminate(c.(cancelled := true, listening := false))
    case TerminateCalled => Terminate(c)
    case ForceCalled => if c.outcome.Some? then c else Force(c)
    case TimedOutCalled => Terminate(c.(timedOut := true))
    case ExpireCalled => if c.outcome.Some? then c else Force(c.(timedOut := true))
  }

  // ----- What every step keeps -----

  function Count(signals: seq<Signal>, signal: Signal): nat {
    multiset(signals)[signal]
  }

  /** One graceful request at most, the kill timer only behind it, and nothing armed after the end. */
  ghost predicate Orderly(c: Control) {
    && Count(c.signals, Graceful) == (if c.terminationRequested then 1 else 0)
    && (c.killTimer ==> c.terminationRequested)
    && (c.outcome.Some? ==> !c.timer && !c.killTimer && !c.listening)
    && (c.promise.Some? ==> c.outcome.Some?)
    && (c.promise.Some? && c.promise.value.Resolved? ==> Some(c.promise.value.result) == c.outcome)
  }

  function Joined(chunks: seq<seq<byte>>): seq<byte> {
    if chunks == [] then [] else chunks[0] + Joined(chunks[1..])
  }

  ghost predicate NoneEmpty(chunks: seq<seq<byte>>) {
    forall i :: 0 <= i < |chunks| ==> chunks[i] != []
  }

  /** Everything handed over was begun, in order, or still waits. */
  ghost predicate Conserved(b: Buffer, p: Pending, target: Target) {
    var w := WriterOf(p, target);
    && NoneEmpty(w.queue)
    && (w.life.Broken? || Project(b.arrived, target) + Joined(w.queue) == Project(p.handed, target))
  }

  ghost predicate Handed(s: State) {
    && (!s.kind.ToFiles? ==> s.pending.out == IDLE && s.pending.err == IDLE && s.pending.handed == s.buffer.arrived)
    && (s.kind.ToFiles? ==> s.pending.limitSignals == if |s.buffer.arrived| > s.buffer.max then 1 else 0)
    && Conserved(s.buffer, s.pending, Stdout) && Conserved(s.buffer, s.pending, Stderr)
  }

  /** Chunks wait only for one on its way; a writer that is done or broken has none, and is done only after the end. */
  ghost predicate Busy(w: Writer, ended: bool) {
    && (w.queue != [] ==> w.writing)
    && (!w.life.Open? ==> w.queue == [] && !w.writing)
    && (w.life.Done? ==> ended)
  }

  /**
   * The capture has failed when a writer broke; the caller gets a result only from two that are done, and an error
   * exactly when the capture has failed.
   */
  ghost predicate Closing(kind: Kind, p: Pending, c: Control) {
    && (c.promise.Some? ==> (c.promise.value.Rejected? <==> c.captureFailed))
    && (kind.ToFiles? ==>
         && (c.captureFailed <==> p.out.life.Broken? || p.err.life.Broken?)
         && (c.promise.Some? && c.promise.value.Resolved? ==> BothDone(p)))
  }

  /** The result covers what had been captured when the run ended, and says so exactly when that was over the limit. */
  ghost predicate ResultMatches(kind: Kind, b: Buffer, c: Control) {
    c.outcome.Some? ==>
      && c.settledAfter <= |b.arrived|
      && (c.outcome.value.outputLimit <==> c.settledAfter > b.max)
      && (kind.InMemory? ==>
           && c.outcome.value.stdout == Project(First(b.arrived[..c.settledAfter], b.max), Stdout)
           && c.outcome.value.stderr == Project(First(b.arrived[..c.settledAfter], b.max), Stderr))
  }

  ghost predicate Core(s: State) {
    && Captured(s.buffer)
    && (s.control.outputLimit <==> |s.buffer.arrived| > s.buffer.max)
    && Handed(s)
    && Orderly(s.control)
    && ResultMatches(s.kind, s.buffer, s.control)
    && Closing(s.kind, s.pending, s.control)
  }

  ghost predicate Inv(s: State) {
    && Core(s)
    && Busy(s.pending.out, s.control.outcome.Some?) && Busy(s.pending.err, s.control.outcome.Some?)
  }

  lemma TerminateKeeps(c: Control)
    requires Orderly(c)
    ensures Orderly(Terminate(c))
    ensures var t := Terminate(c);
            t == c.(terminationRequested := t.terminationRequested, killTimer := t.killTimer, signals := t.signals)
    ensures c.outcome.Some? ==> Terminate(c) == c
  {
  }

  lemma {:induction false} JoinedSnoc(chunks: seq<seq<byte>>, chunk: seq<byte>)
    ensures Joined(chunks + [chunk]) == Joined(chunks) + chunk
  {
    if chunks == [] {
      assert Joined([chunk]) == chunk + Joined([chunk][1..]);
    } else {
      assert (chunks + [chunk])[1..] == chunks[1..] + [chunk];
      JoinedSnoc(chunks[1..], chunk);
    }
  }

  lemma EnqueueConserves(b: Buffer, p: Pending, target: Target, chunk: seq<byte>, other: Target)
    requires Conserved(b, p, other) && chunk != []
    ensures Conserved(b, Enqueue(p.(handed := p.handed + Tagged(target, chunk)), target, chunk), other)
  {
    ProjectConcat(p.handed, Tagged(target, chunk), other);
    ProjectTagged(target, chunk, other);
    JoinedSnoc(WriterOf(p, target).queue, chunk);
    if other == target {
      Regrouped(Project(b.arrived, other), Joined(WriterOf(p, target).queue), chunk);
    } else {
      assert Project(p.handed, other) + [] == Project(p.handed, other);
    }
  }

  lemma WrittenConserves(s: State, target: Target, other: Target)
    requires Conserved(s.buffer, s.pending, other) && WriterOf(s.pending, target).queue != []
    ensures Conserved(WriteNext(s, target).buffer, WriteNext(s, target).pending, other)
  {
    var queue := WriterOf(s.pending, target).queue;
    ProjectConcat(s.buffer.arrived, Tagged(target, queue[0]), other);
    ProjectTagged(target, queue[0], other);
    if other == target {
      Regrouped(Project(s.buffer.arrived, other), queue[0], Joined(queue[1..]));
    } else {
      assert Project(s.buffer.arrived, other) + [] == Project(s.buffer.arrived, other);
    }
  }

  lemma Regrouped(a: seq<byte>, b: seq<byte>, c: seq<byte>)
    ensures a + (b + c) == (a + b) + c
  {
  }

  /** Output after the end does not touch what the result covers. */
  lemma ResultStays(kind: Kind, b: Buffer, d: Buffer, c: Control)
    requires ResultMatches(kind, b, c) && b.arrived <= d.arrived && b.max == d.max
    ensures ResultMatches(kind, d, c)
  {
    if c.outcome.Some? {
      assert d.arrived[..c.settledAfter] == b.arrived[..c.settledAfter];
    }
  }

  /** A chunk that reaches the buffer, from memory or from a writer. */
  lemma StoredKeeps(s: State, target: Target, chunk: seq<byte>, signal: bool, c: Control)
    requires Core(s) && chunk != [] && (Cuts(s.buffer, chunk) ==> signal || s.control.outputLimit)
    requires signal ==> Cuts(s.buffer, chunk)
    requires c == if signal then Limit(s.control) else s.control
    ensures var b := Store(s.buffer, target, chunk);
            && Captured(b) && (c.outputLimit <==> |b.arrived| > b.max) && Orderly(c) && ResultMatches(s.kind, b, c)
    ensures c.captureFailed == s.control.captureFailed && c.promise == s.control.promise
    ensures c.outcome == s.control.outcome
  {
    StoreCaptures(s.buffer, target, chunk);
    ResultStays(s.kind, s.buffer, Store(s.buffer, target, chunk), s.control);
    TerminateKeeps(s.control.(outputLimit := true));
  }

  lemma AppendKeeps(s: State, target: Target, chunk: seq<byte>)
    requires Inv(s) && chunk != [] && s.kind.InMemory?
    ensures Inv(Append(s, target, chunk))
  {
    StoredKeeps(s, target, chunk, Cuts(s.buffer, chunk), Append(s, target, chunk).control);
    assert Joined([]) == [];
    forall other ensures Conserved(Append(s, target, chunk).buffer, Append(s, target, chunk).pending, other) {
      assert Project(s.buffer.arrived + Tagged(target, chunk), other) + []
          == Project(s.buffer.arrived + Tagged(target, chunk), other);
    }
  }

  /** Every writer is in order, but the given one may have chunks it has not begun. */
  ghost predicate Going(s: State, target: Target) {
    && Core(s) && s.kind.ToFiles? && WriterOf(s.pending, target).life.Open?
    && forall other :: other != target ==> Busy(WriterOf(s.pending, other), s.control.outcome.Some?)
  }

  lemma WrittenKeeps(s: State, target: Target)
    requires Going(s, target) && WriterOf(s.pending, target).queue != []
    ensures Going(WriteNext(s, target), target)
    ensures WriteNext(s, target).control.outcome == s.control.outcome
    ensures WriteNext(s, target).control.promise == s.control.promise
  {
    var chunk, next := WriterOf(s.pending, target).queue[0], WriteNext(s, target);
    StoreCaptures(s.buffer, target, chunk);
    StoredKeeps(s, target, chunk, Cuts(s.buffer, chunk) && s.pending.limitSignals == 0, next.control);
    WrittenStaysHanded(s, target);
  }

  lemma WrittenStaysHanded(s: State, target: Target)
    requires Handed(s) && Captured(s.buffer) && s.kind.ToFiles? && WriterOf(s.pending, target).queue != []
    ensures Handed(WriteNext(s, target))
  {
    StoreCaptures(s.buffer, target, WriterOf(s.pending, target).queue[0]);
    WrittenConserves(s, target, Stdout);
    WrittenConserves(s, target, Stderr);
  }

  lemma {:induction false} AdvanceKeeps(s: State, target: Target)
    requires Going(s, target)
    ensures Inv(Advance(s, target))
    decreases |WriterOf(s.pending, target).queue|
  {
    if !WriterOf(s.pending, target).writing && WriterOf(s.pending, target).queue != [] {
      WrittenKeeps(s, target);
      AdvanceKeeps(WriteNext(s, target), target);
    }
  }

  lemma BreakKeeps(s: State, target: Target)
    requires Inv(s) && s.kind.ToFiles? && WriterOf(s.pending, target).life.Open?
    ensures Inv(Break(s, target))
  {
    TerminateKeeps(s.control.(captureFailed := true));
  }

  lemma EnqueuedGoes(s: State, target: Target, chunk: seq<byte>)
    requires Inv(s) && s.kind.ToFiles? && WriterOf(s.pending, target).life.Open? && chunk != []
    ensures var p := s.pending.(handed := s.pending.handed + Tagged(target, chunk));
            Going(s.(pending := Enqueue(p, target, chunk)), target)
  {
    EnqueueConserves(s.buffer, s.pending, target, chunk, Stdout);
    EnqueueConserves(s.buffer, s.pending, target, chunk, Stderr);
  }

  /** Output that a broken writer does not take. */
  lemma LostKeeps(s: State, target: Target, chunk: seq<byte>)
    requires Inv(s) && s.kind.ToFiles? && WriterOf(s.pending, target).life.Broken?
    ensures Inv(s.(pending := s.pending.(handed := s.pending.handed + Tagged(target, chunk))))
  {
    forall other | other != target ensures Project(s.pending.handed + Tagged(target, chunk), other)
                                           == Project(s.pending.handed, other) {
      ProjectConcat(s.pending.handed, Tagged(target, chunk), other);
      ProjectTagged(target, chunk, other);
      assert Project(s.pending.handed, other) + [] == Project(s.pending.handed, other);
    }
  }

  /** The state in which a chunk for a file is first begun, or a writer that was busy is free. */
  function Queued(s: State, e: Event): State
    requires e.Data? || e.WriteDone?
  {
    if e.WriteDone? then Freed(s, e.target)
    else
      var p := s.pending.(handed := s.pending.handed + Tagged(e.target, e.chunk));
      s.(pending := Enqueue(p, e.target, e.chunk))
  }

  /** Events on which a writer begins chunks. */
  predicate Begins(s: State, e: Event) {
    && s.kind.ToFiles?
    && (e.WriteDone? || (e.Data? && s.control.outcome.None? && WriterOf(s.pending, e.target).life.Open?))
  }

  lemma StepAdvances(s: State, e: Event)
    requires Enabled(s, e) && Begins(s, e)
    ensures Step(s, e) == Advance(Queued(s, e), e.target) && Forward(Queued(s, e), Step(s, e))
  {
    AdvancesForward(Queued(s, e), e.target);
  }

  lemma HandKeeps(s: State, target: Target, chunk: seq<byte>)
    requires Inv(s) && chunk != [] && s.kind.ToFiles?
    ensures Inv(Hand(s, target, chunk))
  {
    var life := WriterOf(s.pending, target).life;
    if s.control.outcome.Some? {
      if life.Open? {
        BreakKeeps(s, target);
      }
    } else if life.Open? {
      EnqueuedGoes(s, target, chunk);
      var p := s.pending.(handed := s.pending.handed + Tagged(target, chunk));
      AdvanceKeeps(s.(pending := Enqueue(p, target, chunk)), target);
    } else {
      LostKeeps(s, target, chunk);
    }
  }

  lemma WriteDoneKeeps(s: State, target: Target)
    requires Inv(s) && Enabled(s, WriteDone(target))
    ensures Inv(Advance(Freed(s, target), target))
  {
    assert Going(Freed(s, target), target);
    AdvanceKeeps(Freed(s, target), target);
  }

  lemma FinishedKeeps(s: State, target: Target)
    requires Inv(s) && Enabled(s, Finished(target))
    ensures Inv(Step(s, Finished(target)))
  {
  }

  lemma FinishKeeps(s: State, exitCode: Option<int>, failed: bool)
    requires Inv(s)
    ensures Inv(Finish(s, exitCode, failed))
    ensures s.control.outcome.None? ==>
              (Finish(s, exitCode, failed).control.outcome.value.outputLimit <==> |s.buffer.arrived| > s.buffer.max)
  {
    assert s.buffer.arrived[..|s.buffer.arrived|] == s.buffer.arrived;
  }

  /** The flags an event sets before termination is requested. */
  function Asked(c: Control, e: Event): Control {
    match e
    case TimeoutFires => c.(timedOut := true, timer := false)
    case Aborted => c.(cancelled := true, listening := false)
    case TimedOutCalled => c.(timedOut := true)
    case _ => c
  }

  predicate AsksToTerminate(e: Event) {
    e.TimeoutFires? || e.Aborted? || e.TerminateCalled? || e.TimedOutCalled?
  }

  /** What steering leaves alone. */
  ghost predicate Steered(c: Control, t: Control) {
    && Orderly(t) && t.outcome == c.outcome && t.settledAfter == c.settledAfter && t.outputLimit == c.outputLimit
    && (c.outcome.Some? ==> t.signals == c.signals)
    && (c.promise.Some? ==> t.promise == c.promise)
  }

  lemma SteerAsks(c: Control, e: Event)
    requires AsksToTerminate(e)
    ensures Steer(c, e) == Terminate(Asked(c, e))
  {
  }

  lemma AskedKeeps(c: Control, e: Event)
    requires Orderly(c) && AsksToTerminate(e)
    ensures Steered(c, Asked(c, e)) && Steer(c, e) == Terminate(Asked(c, e))
  {
  }

  lemma ForcedKeeps(c: Control, e: Event)
    requires Orderly(c) && IsControl(e) && !AsksToTerminate(e) && (e.KillTimerFires? ==> c.killTimer)
    requires e.Drained? || e.CloseFailed? ==> c.outcome.Some? && c.promise.None?
    ensures Steered(c, Steer(c, e))
  {
    assert multiset(c.signals + [Forced]) == multiset(c.signals) + multiset{Forced};
  }

  lemma SteerKeeps(s: State, e: Event)
    requires Orderly(s.control) && Enabled(s, e) && IsControl(e)
    ensures Steered(s.control, Steer(s.control, e))
  {
    if AsksToTerminate(e) {
      AskedKeeps(s.control, e);
      TerminateKeeps(Asked(s.control, e));
    } else {
      ForcedKeeps(s.control, e);
    }
  }

  lemma SteeredKeeps(s: State, e: Event)
    requires Inv(s) && Enabled(s, e) && IsControl(e)
    ensures Inv(s.(control := Steer(s.control, e))) && Step(s, e) == s.(control := Steer(s.control, e))
  {
    SteerKeeps(s, e);
    SteerLeaves(s.control, e);
  }

  lemma DataKeeps(s: State, target: Target, chunk: seq<byte>)
    requires Inv(s) && Enabled(s, Data(target, chunk))
    ensures Inv(Step(s, Data(target, chunk)))
  {
    if s.kind.ToFiles? {
      HandKeeps(s, target, chunk);
    } else {
      AppendKeeps(s, target, chunk);
    }
  }

  lemma StepKeeps(s: State, e: Event)
    requires Inv(s) && Enabled(s, e)
    ensures Inv(Step(s, e))
  {
    match e
    case Data(target, chunk) => DataKeeps(s, target, chunk);
    case WriteDone(target) => WriteDoneKeeps(s, target);
    case CaptureFailed(target) => BreakKeeps(s, target);
    case Finished(target) => FinishedKeeps(s, target);
    case Errored => FinishKeeps(s, None, true);
    case Closed(exitCode) => FinishKeeps(s, exitCode, false);
    case _ => SteeredKeeps(s, e);
  }

  /** Once the run has ended, no event changes the result or sends a signal; once the promise is settled, it stays. */
  lemma SettledStays(s: State, e: Event)
    requires Inv(s) && Enabled(s, e) && s.control.outcome.Some?
    ensures Step(s, e).control.outcome == s.control.outcome && Step(s, e).control.signals == s.control.signals
    ensures Step(s, e).control.settledAfter == s.control.settledAfter
    ensures s.control.promise.Some? ==> Step(s, e).control.promise == s.control.promise
  {
    if IsControl(e) {
      SteerKeeps(s, e);
    } else if Begins(s, e) {
      StepAdvances(s, e);
    }
  }

  // ----- Whole runs -----

  function Fresh(): Control {
    Control(false, false, false, false, false, true, false, true, [], None, 0, None)
  }

  function Initial(kind: Kind, max: nat): State {
    State(kind, Buffer(max, [], [], 0, []), Pending(IDLE, IDLE, [], 0), if kind.NoCapture? then Fail(Fresh())
          else Fresh())
  }

  lemma InitialHolds(kind: Kind, max: nat)
    ensures Inv(Initial(kind, max))
  {
  }

  ghost predicate Possible(s: State, events: seq<Event>)
    decreases |events|
  {
    events == [] || (Enabled(s, events[0]) && Possible(Step(s, events[0]), events[1..]))
  }

  function After(s: State, events: seq<Event>): State
    requires Possible(s, events)
    decreases |events|
  {
    if events == [] then s else After(Step(s, events[0]), events[1..])
  }

  lemma {:induction false} RunKeeps(s: State, events: seq<Event>)
    requires Inv(s) && Possible(s, events)
    ensures Inv(After(s, events))
    ensures var c := After(s, events).control;
            s.control.outcome.Some? ==>
              && c.outcome == s.control.outcome && c.signals == s.control.signals
                 && c.settledAfter == s.control.settledAfter
              && (s.control.promise.Some? ==> c.promise == s.control.promise)
    decreases |events|
  {
    if events != [] {
      StepKeeps(s, events[0]);
      if s.control.outcome.Some? {
        SettledStays(s, events[0]);
      }
      RunKeeps(Step(s, events[0]), events[1..]);
    }
  }

  lemma StepKind(s: State, e: Event)
    requires Enabled(s, e)
    ensures Step(s, e).kind == s.kind && Step(s, e).buffer.max == s.buffer.max
    ensures s.buffer.arrived <= Step(s, e).buffer.arrived
  {
    if Begins(s, e) {
      StepAdvances(s, e);
    }
  }

  lemma {:induction false} RunKind(s: State, events: seq<Event>)
    requires Possible(s, events)
    ensures var t := After(s, events);
            t.kind == s.kind && t.buffer.max == s.buffer.max && s.buffer.arrived <= t.buffer.arrived
    decreases |events|
  {
    if events != [] {
      StepKind(s, events[0]);
      RunKind(Step(s, events[0]), events[1..]);
    }
  }

  /** All output a run is delivered, byte by byte. */
  function Delivered(events: seq<Event>): seq<Output> {
    if events == [] then []
    else (if events[0].Data? then Tagged(events[0].target, events[0].chunk) else []) + Delivered(events[1..])
  }

  predicate Ends(e: Event) {
    e.Errored? || e.Closed?
  }

  ghost predicate Running(events: seq<Event>) {
    forall i :: 0 <= i < |events| ==> !Ends(events[i])
  }

  lemma StepHands(s: State, e: Event)
    requires Enabled(s, e) && (s.kind.ToFiles? ==> s.control.outcome.None?)
    ensures Step(s, e).pending.handed == s.pending.handed + if e.Data? then Tagged(e.target, e.chunk) else []
  {
    assert s.pending.handed + [] == s.pending.handed;
    if Begins(s, e) {
      StepAdvances(s, e);
    }
  }

  lemma SteerLeaves(c: Control, e: Event)
    requires IsControl(e) && (e.Drained? ==> c.outcome.Some?)
    ensures Steer(c, e).outcome == c.outcome
    ensures Steer(c, e).captureFailed == c.captureFailed
  {
    if AsksToTerminate(e) {
      assert Steer(c, e) == Terminate(Asked(c, e));
      TerminateLeaves(Asked(c, e));
    }
  }

  lemma TerminateLeaves(c: Control)
    ensures Terminate(c).outcome == c.outcome && Terminate(c).captureFailed == c.captureFailed
  {
  }

  lemma StepRunning(s: State, e: Event)
    requires Enabled(s, e) && !Ends(e)
    ensures Step(s, e).control.outcome == s.control.outcome
  {
    if IsControl(e) {
      SteerLeaves(s.control, e);
    } else if Begins(s, e) {
      StepAdvances(s, e);
    }
  }

  lemma {:induction false} RunRunning(s: State, events: seq<Event>)
    requires Possible(s, events) && Running(events)
    ensures After(s, events).control.outcome == s.control.outcome
    decreases |events|
  {
    if events != [] {
      StepRunning(s, events[0]);
      RunRunning(Step(s, events[0]), events[1..]);
    }
  }

  /** Until a run has ended, everything delivered is handed over; in memory also after. */
  lemma {:induction false} RunHands(s: State, events: seq<Event>)
    requires Possible(s, events) && (s.kind.ToFiles? ==> s.control.outcome.None? && Running(events))
    ensures After(s, events).pending.handed == s.pending.handed + Delivered(events)
    decreases |events|
  {
    if events != [] {
      var next := Step(s, events[0]);
      var head := if events[0].Data? then Tagged(events[0].target, events[0].chunk) else [];
      StepHands(s, events[0]);
      StepKind(s, events[0]);
      if s.kind.ToFiles? {
        StepRunning(s, events[0]);
      }
      RunHands(next, events[1..]);
      Regroup(After(s, events).pending.handed, s.pending.handed, head, Delivered(events[1..]));
    }
  }

  /**
   * In any order of events, with output in memory: both captured streams are their share of the first `max` bytes
   * delivered, and the limit is met exactly when more came.
   */
  lemma EveryRun(max: nat, events: seq<Event>)
    requires Possible(Initial(InMemory, max), events)
    ensures var s := After(Initial(InMemory, max), events);
            && s.buffer.stdout == Project(First(Delivered(events), max), Stdout)
            && s.buffer.stderr == Project(First(Delivered(events), max), Stderr)
            && (s.control.outputLimit <==> |Delivered(events)| > max)
            && Count(s.control.signals, Graceful) <= 1
  {
    var s := Initial(InMemory, max);
    InitialHolds(InMemory, max);
    RunKeeps(s, events);
    RunKind(s, events);
    RunHands(s, events);
    assert [] + Delivered(events) == Delivered(events);
    InMemoryState(After(s, events), Delivered(events), max);
  }

  lemma InMemoryState(s: State, delivered: seq<Output>, max: nat)
    requires Inv(s) && s.kind.InMemory? && s.pending.handed == delivered && s.buffer.max == max
    ensures s.buffer.arrived == delivered
    ensures s.buffer.stdout == Project(First(delivered, max), Stdout)
        && s.buffer.stderr == Project(First(delivered, max), Stderr)
    ensures (s.control.outputLimit <==> |delivered| > max) && Count(s.control.signals, Graceful) <= 1
  {
  }

  lemma {:induction false} AfterSplit(s: State, before: seq<Event>, after: seq<Event>)
    requires Possible(s, before + after)
    ensures Possible(s, before) && Possible(After(s, before), after)
    ensures After(s, before + after) == After(After(s, before), after)
    decreases |before|
  {
    if before == [] {
      assert before + after == after;
    } else {
      assert (before + after)[1..] == before[1..] + after;
      AfterSplit(Step(s, before[0]), before[1..], after);
    }
  }

  /** A run up to its end, its end, and what follows. */
  function Whole(before: seq<Event>, end: Event, after: seq<Event>): seq<Event> {
    before + ([end] + after)
  }

  lemma EndSplit(kind: Kind, max: nat, before: seq<Event>, end: Event, after: seq<Event>)
    requires Ends(end) && Running(before) && Possible(Initial(kind, max), Whole(before, end, after))
    ensures Possible(Initial(kind, max), before)
    ensures var s := After(Initial(kind, max), before);
            && Inv(s) && s.control.outcome.None? && s.kind == kind && s.buffer.max == max
            && s.pending.handed == Delivered(before)
            && Enabled(s, end) && Possible(Step(s, end), after)
            && After(Initial(kind, max), Whole(before, end, after)) == After(Step(s, end), after)
  {
    var s := Initial(kind, max);
    InitialHolds(kind, max);
    AfterSplit(s, before, [end] + after);
    RunKeeps(s, before);
    RunKind(s, before);
    RunRunning(s, before);
    RunHands(s, before);
    assert ([end] + after)[1..] == after && [] + Delivered(before) == Delivered(before);
  }

  /**
   * A run settles once: its first error or exit fixes the result, which covers what had been captured by then and
   * reports the limit exactly when that went over it; nothing later changes the result or sends a signal.
   * The caller gets that result, or an error when the capture has failed.
   */
  lemma SettlesOnce(kind: Kind, max: nat, before: seq<Event>, end: Event, after: seq<Event>)
    requires Ends(end) && Running(before) && Possible(Initial(kind, max), Whole(before, end, after))
    ensures Possible(Initial(kind, max), before)
    ensures var s, t := After(Initial(kind, max), before), After(Initial(kind, max), Whole(before, end, after));
            && t.control.outcome == Some(ResultOf(s, if end.Closed? then end.exitCode else None, end.Errored?))
            && t.control.signals == s.control.signals
            && (t.control.outcome.value.outputLimit <==> |s.buffer.arrived| > max)
            && (kind.InMemory? ==>
                 && s.buffer.arrived == Delivered(before)
                 && t.control.outcome.value.stdout == Project(First(Delivered(before), max), Stdout)
                 && t.control.outcome.value.stderr == Project(First(Delivered(before), max), Stderr)
                 && t.control.promise == Some(Resolved(t.control.outcome.value)))
            && (kind.NoCapture? ==> t.control.promise == Some(Rejected))
            && (t.control.promise.Some? ==>
                 t.control.promise.value == Settle(t.control, t.control.outcome.value))
  {
    EndSplit(kind, max, before, end, after);
    var s := After(Initial(kind, max), before);
    StepKeeps(s, end);
    if !kind.ToFiles? {
      CaptureFlag(Initial(kind, max), before);
    }
    EndedNow(s, end);
    RunKeeps(Step(s, end), after);
    if After(Step(s, end), after).control.promise.Some? {
      SettledAs(After(Step(s, end), after));
    }
    if kind.InMemory? {
      InMemoryState(s, Delivered(before), max);
    }
  }

  /** What the first error or exit fixes. */
  lemma EndedNow(s: State, end: Event)
    requires Inv(s) && s.control.outcome.None? && Ends(end)
    ensures var c := Step(s, end).control;
            && c.outcome == Some(ResultOf(s, if end.Closed? then end.exitCode else None, end.Errored?))
            && c.signals == s.control.signals
            && (c.outcome.value.outputLimit <==> |s.buffer.arrived| > s.buffer.max)
            && c.settledAfter == |s.buffer.arrived|
            && (!s.kind.ToFiles? ==> c.promise == Some(Settle(s.control, c.outcome.value)))
  {
  }

  lemma SettledAs(s: State)
    requires Inv(s) && s.control.promise.Some?
    ensures s.control.promise.value == Settle(s.control, s.control.outcome.value)
  {
  }

  lemma StepCapture(s: State, e: Event)
    requires Enabled(s, e) && !s.kind.ToFiles?
    ensures Step(s, e).control.captureFailed == s.control.captureFailed
  {
    if IsControl(e) {
      SteerLeaves(s.control, e);
    }
  }

  /** Only files can lose their capture during a run; a capture that never opened has failed from the start. */
  lemma {:induction false} CaptureFlag(s: State, events: seq<Event>)
    requires Possible(s, events) && !s.kind.ToFiles?
    ensures After(s, events).control.captureFailed == s.control.captureFailed
    decreases |events|
  {
    if events != [] {
      StepKind(s, events[0]);
      StepCapture(s, events[0]);
      CaptureFlag(Step(s, events[0]), events[1..]);
    }
  }
}
