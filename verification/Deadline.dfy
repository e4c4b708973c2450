/**
 * An operation raced against a timer: whatever it delivers goes to exactly one place, the caller or the late cleanup.
 */
module Deadline {
  import opened Wrappers

  datatype Outcome<T> = Value(value: T) | Failed | TimedOut
  datatype Operation<T> = Pending | Delivered(value: T) | Broken

  /** The race, the operation behind it, and what was handed to the late cleanup. */
  datatype State<T> = State(operation: Operation<T>, timerArmed: bool, expired: bool, outcome: Option<Outcome<T>>,
    cleaned: seq<T>)

  datatype Event<T> = Delivers(value: T) | Breaks | TimerFires | Returns

  function Start<T>(): State<T> {
    State(Pending, true, false, None, [])
  }

  /** The operation settles once; the timer fires while armed; the caller goes on once the race is decided. */
  predicate Enabled<T>(s: State<T>, e: Event<T>) {
    match e
    case Delivers(_) => s.operation.Pending?
    case Breaks => s.operation.Pending?
    case TimerFires => s.timerArmed
    case Returns => s.outcome.Some?
  }

  function Decide<T>(s: State<T>, outcome: Outcome<T>): Option<Outcome<T>> {
    if s.outcome.None? then Some(outcome) else s.outcome
  }

  function Step<T>(s: State<T>, e: Event<T>): State<T> {
    match e
    case Delivers(v) =>
      s.(operation := Delivered(v), outcome := Decide(s, Value(v)),
         cleaned := if s.expired then s.cleaned + [v] else s.cleaned)
    case Breaks => s.(operation := Broken, outcome := Decide(s, Failed))
    case TimerFires => s.(timerArmed := false, expired := true, outcome := Decide(s, TimedOut))
    case Returns => s.(timerArmed := false)
  }

  ghost predicate Inv<T>(s: State<T>) {
    && (s.operation.Pending? ==> s.cleaned == [] && s.outcome == if s.expired then Some(TimedOut) else None)
    && (s.operation.Broken? ==> s.cleaned == [] && s.outcome.Some? && !s.outcome.value.Value?)
    && (s.operation.Delivered? ==>
         || (s.outcome == Some(Value(s.operation.value)) && s.cleaned == [])
         || (s.outcome == Some(TimedOut) && s.cleaned == [s.operation.value]))
  }

  ghost predicate Possible<T>(s: State<T>, events: seq<Event<T>>)
    decreases |events|
  {
    events == [] || (Enabled(s, events[0]) && Possible(Step(s, events[0]), events[1..]))
  }

  function After<T>(s: State<T>, events: seq<Event<T>>): State<T>
    decreases |events|
  {
    if events == [] then s else After(Step(s, events[0]), events[1..])
  }

  lemma {:induction false} RunKeeps<T>(s: State<T>, events: seq<Event<T>>)
    requires Inv(s) && Possible(s, events)
    ensures Inv(After(s, events))
    decreases |events|
  {
    if events != [] {
      RunKeeps(Step(s, events[0]), events[1..]);
    }
  }

  /**
   * Whenever the timer fires, a delivered value has exactly one owner: the caller, or the late cleanup, which gets it
   * once and only after the caller was told of the timeout.
   */
  lemma ExactlyOneOwner<T>(events: seq<Event<T>>)
    requires Possible(Start<T>(), events)
    ensures var s := After(Start<T>(), events);
            && (s.operation.Delivered? ==> (s.outcome == Some(Value(s.operation.value)) <==> s.cleaned == []))
            && (s.cleaned != [] ==>
                s.operation.Delivered? && s.cleaned == [s.operation.value]
                && s.outcome == Some(TimedOut))
            && (s.outcome.Some? && s.outcome.value.Value? ==> s.operation == Delivered(s.outcome.value.value))
  {
    RunKeeps(Start<T>(), events);
  }

  /** Whatever happens first decides the race, for good; the timer stays armed until it fires or the caller goes on. */
  lemma FirstDecides<T>(events: seq<Event<T>>)
    requires Possible(Start<T>(), events)
    ensures var s := After(Start<T>(), events);
            && (s.timerArmed <==> TimerFires !in events && Returns !in events)
            && (s.outcome.None? <==> events == [])
            && (events != [] ==> !events[0].Returns?)
            && (events != [] && events[0].Delivers? ==> s.outcome == Some(Value(events[0].value)))
            && (events != [] && events[0].Breaks? ==> s.outcome == Some(Failed))
            && (events != [] && events[0].TimerFires? ==> s.outcome == Some(TimedOut))
  {
    TimerUntilFired(Start<T>(), events);
    if events != [] {
      DecisionStays(Step(Start<T>(), events[0]), events[1..]);
    }
  }

  lemma {:induction false} DecisionStays<T>(s: State<T>, events: seq<Event<T>>)
    requires s.outcome.Some?
    ensures After(s, events).outcome == s.outcome
    decreases |events|
  {
    if events != [] {
      DecisionStays(Step(s, events[0]), events[1..]);
    }
  }

  lemma {:induction false} TimerUntilFired<T>(s: State<T>, events: seq<Event<T>>)
    ensures After(s, events).timerArmed <==> s.timerArmed && TimerFires !in events && Returns !in events
    decreases |events|
  {
    if events != [] {
      TimerUntilFired(Step(s, events[0]), events[1..]);
      assert events == [events[0]] + events[1..];
    }
  }

  class WithDeadline<T> {
    var operation: Operation<T>
    var timerArmed: bool
    var expired: bool
    var outcome: Option<Outcome<T>>
    var cleaned: seq<T>

    ghost function View(): State<T>
      reads this
    {
      State(operation, timerArmed, expired, outcome, cleaned)
    }

    constructor ()
      ensures View() == Start()
    {
      operation, timerArmed, expired, outcome, cleaned := Pending, true, false, None, [];
    }

    method OnValue(value: T)
      requires Enabled(View(), Delivers(value))
      modifies this
      ensures View() == Step(old(View()), Delivers(value))
    {
      operation := Delivered(value);
      if expired {
        cleaned := cleaned + [value];
      }
      if outcome.None? {
        outcome := Some(Value(value));
      }
    }

    method OnFailure()
      requires Enabled(View(), Breaks)
      modifies this
      ensures View() == Step(old(View()), Breaks)
    {
      operation := Broken;
      if outcome.None? {
        outcome := Some(Failed);
      }
    }

    method OnTimer()
      requires Enabled(View(), TimerFires)
      modifies this
      ensures View() == Step(old(View()), TimerFires)
    {
      timerArmed, expired := false, true;
      if outcome.None? {
        outcome := Some(TimedOut);
      }
    }

    method Return() returns (r: Outcome<T>)
      requires Enabled(View(), Returns)
      modifies this
      ensures View() == Step(old(View()), Returns) && outcome == Some(r)
    {
      timerArmed := false;
      r := outcome.value;
    }
  }
}
