/**
 * The registry of upstream connections as a step system: each method is one uninterrupted segment of the program, and
 * segments of different calls interleave in any order.
 */
module UpstreamRegistry {
  import opened Wrappers

  /** Identity of a connection a connector call has delivered. */
  type Handle = nat

  datatype UpstreamState = Disabled | Registered | Starting | Ready | Unhealthy | Stopped

  /**
   * How far the start of a record has come: no start is pending, the connector call is in flight, a handle that
   * arrived after shutdown is being closed, or everything is done but the pending start has not been cleared yet.
   */
  datatype Phase = Idle | Connecting | LateClosing | Settling

  datatype Record = Record(name: string, state: UpstreamState, handle: Option<Handle>, phase: Phase, failureCount: nat)

  datatype Config = Config(name: string, enabled: bool)

  /**
   * Records and the shutdown flag, with what the outside world has seen: handles delivered, handles closed, calls in
   * flight.
   */
  datatype State = State(records: seq<Record>, closing: bool, issued: set<Handle>, closes: multiset<Handle>,
    calls: multiset<nat>)

  datatype Event =
    | Started(i: nat)
    | Resolved(i: nat, handle: Handle)
    | Rejected(i: nat)
    | LateClosed(i: nat)
    | Settled(i: nat)
    | Invalidated(i: nat)
    | Closed

  // ----- Steps -----

  /** What can happen: a call settles only while in flight, with a handle nobody has seen before. */
  predicate Enabled(s: State, e: Event) {
    match e
    case Started(i) => i < |s.records|
    case Resolved(i, h) => i < |s.records| && s.records[i].phase.Connecting? && h !in s.issued
    case Rejected(i) => i < |s.records| && s.records[i].phase.Connecting?
    case LateClosed(i) => i < |s.records| && s.records[i].phase.LateClosing?
    case Settled(i) => i < |s.records| && s.records[i].phase.Settling?
    case Invalidated(i) => i < |s.records|
    case Closed => true
  }

  function StoppedState(state: UpstreamState): UpstreamState {
    if state.Disabled? then Disabled else Stopped
  }

  function StopRecord(r: Record): Record {
    r.(handle := None, state := StoppedState(r.state))
  }

  function StopAll(records: seq<Record>): (r: seq<Record>)
    ensures |r| == |records| && forall i :: 0 <= i < |r| ==> r[i] == StopRecord(records[i])
  {
    seq(|records|, i requires 0 <= i < |records| => StopRecord(records[i]))
  }

  function OneHandle(r: Record): multiset<Handle> {
    if r.handle.Some? then multiset{r.handle.value} else multiset{}
  }

  /** The handles the records store. */
  function Handles(records: seq<Record>): multiset<Handle> {
    if records == [] then multiset{} else Handles(records[..|records| - 1]) + OneHandle(records[|records| - 1])
  }

  predicate StartsCall(s: State, i: nat)
    requires i < |s.records|
  {
    !s.closing && !s.records[i].state.Disabled? && s.records[i].handle.None? && s.records[i].phase.Idle?
  }

  function Step(s: State, e: Event): State
    requires Enabled(s, e)
  {
    match e
    case Started(i) =>
      if StartsCall(s, i)
      then s.(records := s.records[i := s.records[i].(state := Starting, phase := Connecting)],
              calls := s.calls + multiset{i})
      else s
    case Resolved(i, h) =>
      if s.closing
      then s.(records := s.records[i := s.records[i].(phase := LateClosing)],
              calls := s.calls - multiset{i}, issued := s.issued + {h}, closes := s.closes + multiset{h})
      else s.(records := s.records[i := s.records[i].(handle := Some(h), state := Ready, phase := Settling)],
              calls := s.calls - multiset{i}, issued := s.issued + {h})
    case Rejected(i) =>
      var r := s.records[i].(phase := Settling);
      s.(records := s.records[i := if s.closing then r else r.(state := Unhealthy, failureCount := r.failureCount + 1)],
         calls := s.calls - multiset{i})
    case LateClosed(i) =>
      s.(records := s.records[i := s.records[i].(state := StoppedState(s.records[i].state), phase := Settling)])
    case Settled(i) =>
      s.(records := s.records[i := s.records[i].(phase := Idle)])
    case Invalidated(i) =>
      if s.records[i].state.Disabled? then s
      else s.(records := s.records[i := s.records[i].(handle := None, state := Unhealthy,
                                                      failureCount := s.records[i].failureCount + 1)],
              closes := s.closes + OneHandle(s.records[i]))
    case Closed =>
      if s.closing then s
      else s.(records := StopAll(s.records), closing := true, closes := s.closes + Handles(s.records))
  }

  // ----- What every step keeps -----

  ghost predicate Stores(s: State, i: int, h: Handle) {
    0 <= i < |s.records| && s.records[i].handle == Some(h)
  }

  /** A handle is in exactly one record and open, or in none and closed once. */
  ghost predicate Accounted(s: State, h: Handle) {
    || (s.closes[h] == 0 && exists i :: Stores(s, i, h) && forall j :: Stores(s, j, h) ==> j == i)
    || (s.closes[h] == 1 && forall i :: !Stores(s, i, h))
  }

  ghost predicate RecordInv(s: State, i: nat)
    requires i < |s.records|
  {
    var r := s.records[i];
    && (r.state.Ready? <==> r.handle.Some?)
    && (r.handle.Some? ==> r.handle.value in s.issued && !s.closing)
    && (r.state.Disabled? ==> r.phase.Idle?)
    && (r.phase.LateClosing? ==> s.closing)
    && (r.phase.Connecting? ==> r.handle.None?)
    && s.calls[i] == if r.phase.Connecting? then 1 else 0
  }

  ghost predicate Inv(s: State) {
    && (forall i :: 0 <= i < |s.records| ==> RecordInv(s, i))
    && (forall h :: h in s.issued ==> Accounted(s, h))
    && (forall h :: h in s.closes ==> h in s.issued)
    && (forall i :: i in s.calls ==> i < |s.records|)
  }

  /** Changing one record without touching its handle leaves every handle accounted for. */
  lemma SameHandles(s: State, t: State)
    requires |s.records| == |t.records| && s.closes == t.closes
    requires forall i :: 0 <= i < |s.records| ==> s.records[i].handle == t.records[i].handle
    ensures forall h :: Accounted(s, h) ==> Accounted(t, h)
  {
    forall h | Accounted(s, h) ensures Accounted(t, h) {
      assert forall i :: Stores(s, i, h) <==> Stores(t, i, h);
    }
  }

  /** Steps that leave handles and closes alone. */
  lemma QuietKeeps(s: State, e: Event)
    requires Inv(s) && Enabled(s, e) && (e.Started? || e.Rejected? || e.LateClosed? || e.Settled?)
    ensures Inv(Step(s, e))
  {
    var t := Step(s, e);
    assert RecordInv(s, e.i);
    forall j | 0 <= j < |s.records| ensures s.records[j].handle == t.records[j].handle && RecordInv(t, j) {
      assert RecordInv(s, j);
    }
    SameHandles(s, t);
  }

  lemma ResolvedRecords(s: State, i: nat, h: Handle)
    requires Inv(s) && Enabled(s, Resolved(i, h))
    ensures var t := Step(s, Resolved(i, h)); forall j :: 0 <= j < |t.records| ==> RecordInv(t, j)
  {
    var t := Step(s, Resolved(i, h));
    assert RecordInv(s, i);
    forall j | 0 <= j < |t.records| ensures RecordInv(t, j) {
      assert RecordInv(s, j);
    }
  }

  /** Every handle delivered before is where it was. */
  lemma ResolvedOthers(s: State, i: nat, h: Handle, g: Handle)
    requires Inv(s) && Enabled(s, Resolved(i, h)) && g in s.issued
    ensures Accounted(Step(s, Resolved(i, h)), g)
  {
    var t := Step(s, Resolved(i, h));
    assert RecordInv(s, i);
    assert Accounted(s, g);
    assert forall j :: Stores(s, j, g) <==> Stores(t, j, g);
  }

  lemma ResolvedNew(s: State, i: nat, h: Handle)
    requires Inv(s) && Enabled(s, Resolved(i, h))
    ensures Accounted(Step(s, Resolved(i, h)), h)
  {
    var t := Step(s, Resolved(i, h));
    assert RecordInv(s, i);
    NotStored(s, h);
    assert h !in s.closes && s.closes[h] == 0;
    forall j ensures Stores(t, j, h) <==> j == i && !s.closing {
      assert !Stores(s, j, h);
    }
    assert t.closes[h] == if s.closing then 1 else 0;
    assert !s.closing ==> Stores(t, i, h);
  }

  lemma ResolvedKeeps(s: State, i: nat, h: Handle)
    requires Inv(s) && Enabled(s, Resolved(i, h))
    ensures Inv(Step(s, Resolved(i, h)))
  {
    ResolvedRecords(s, i, h);
    ResolvedNew(s, i, h);
    var t := Step(s, Resolved(i, h));
    forall g | g in t.issued ensures Accounted(t, g) {
      if g != h {
        ResolvedOthers(s, i, h, g);
      }
    }
  }

  lemma NotStored(s: State, h: Handle)
    requires Inv(s) && h !in s.issued
    ensures forall i :: !Stores(s, i, h)
  {
    forall i ensures !Stores(s, i, h) {
      if 0 <= i < |s.records| {
        assert RecordInv(s, i);
      }
    }
  }

  lemma InvalidatedKeeps(s: State, i: nat)
    requires Inv(s) && Enabled(s, Invalidated(i))
    ensures Inv(Step(s, Invalidated(i)))
  {
    var t := Step(s, Invalidated(i));
    assert RecordInv(s, i);
    forall j | 0 <= j < |t.records| ensures RecordInv(t, j) {
      assert RecordInv(s, j);
    }
    forall g | g in t.issued ensures Accounted(t, g) {
      assert Accounted(s, g);
      if Stores(s, i, g) {
        assert t != s ==> t.closes[g] == 1;
      }
      forall j ensures Stores(t, j, g) <==> Stores(s, j, g) && (t == s || j != i) {
      }
    }
  }

  lemma {:induction false} HandlesCount(s: State, n: nat, h: Handle)
    requires n <= |s.records| && Accounted(s, h)
    ensures Handles(s.records[..n])[h] <= 1
    ensures Handles(s.records[..n])[h] == 1 <==> exists i :: 0 <= i < n && Stores(s, i, h)
  {
    if n > 0 {
      HandlesCount(s, n - 1, h);
      assert s.records[..n][..n - 1] == s.records[..n - 1];
      if Stores(s, n - 1, h) {
        assert forall j :: Stores(s, j, h) ==> j == n - 1;
      }
    }
  }

  lemma {:induction false} HandlesIssued(s: State, n: nat, h: Handle)
    requires Inv(s) && n <= |s.records| && h in Handles(s.records[..n])
    ensures h in s.issued
  {
    assert s.records[..n][..n - 1] == s.records[..n - 1];
    if h in OneHandle(s.records[n - 1]) {
      assert RecordInv(s, n - 1);
    } else {
      HandlesIssued(s, n - 1, h);
    }
  }

  lemma ClosedKeeps(s: State)
    requires Inv(s)
    ensures Inv(Step(s, Closed))
  {
    var t, n := Step(s, Closed), |s.records|;
    assert s.records[..n] == s.records;
    forall j | 0 <= j < |t.records| ensures RecordInv(t, j) {
      assert RecordInv(s, j);
    }
    forall g | g in t.issued ensures Accounted(t, g) {
      assert Accounted(s, g);
      HandlesCount(s, n, g);
      if !s.closing {
        assert forall i :: !Stores(t, i, g);
        assert t.closes[g] == 1;
      }
    }
    forall g | g in t.closes ensures g in t.issued {
      if g in Handles(s.records) {
        HandlesIssued(s, n, g);
      }
    }
  }

  lemma StepKeeps(s: State, e: Event)
    requires Inv(s) && Enabled(s, e)
    ensures Inv(Step(s, e))
  {
    match e
    case Resolved(i, h) => ResolvedKeeps(s, i, h);
    case Invalidated(i) => InvalidatedKeeps(s, i);
    case Closed => ClosedKeeps(s);
    case _ => QuietKeeps(s, e);
  }

  // ----- Whole runs -----

  function Registration(c: Config): Record {
    Record(c.name, if c.enabled then Registered else Disabled, None, Idle, 0)
  }

  function Initial(configs: seq<Config>): State {
    State(seq(|configs|, i requires 0 <= i < |configs| => Registration(configs[i])), false, {}, multiset{}, multiset{})
  }

  ghost predicate Possible(s: State, events: seq<Event>)
    decreases |events|
  {
    events == [] || (Enabled(s, events[0]) && Possible(Step(s, events[0]), events[1..]))
  }

  function After(s: State, events: seq<Event>): State
    requires Possible(s, events)
    decreases |events|
  {
    if events == [] then s else After(Step(s, events[0]), events[1..])
  }

  lemma {:induction false} RunKeeps(s: State, events: seq<Event>)
    requires Inv(s) && Possible(s, events)
    ensures Inv(After(s, events)) && |After(s, events).records| == |s.records|
    ensures s.closing ==> After(s, events).closing
    decreases |events|
  {
    if events != [] {
      StepKeeps(s, events[0]);
      RunKeeps(Step(s, events[0]), events[1..]);
    }
  }

  /**
   * In every interleaving at most one connector call is in flight per upstream, a record is ready exactly when it
   * stores a handle, no two records share one, every handle delivered is either stored or has been closed exactly
   * once, and nothing is stored once shutdown has begun.
   */
  lemma EveryInterleaving(configs: seq<Config>, events: seq<Event>)
    requires Possible(Initial(configs), events)
    ensures var s := After(Initial(configs), events);
            && (forall i :: 0 <= i < |s.records| ==> s.calls[i] <= 1)
            && (forall i :: 0 <= i < |s.records| ==> (s.records[i].state.Ready? <==> s.records[i].handle.Some?))
            && (forall h :: h in s.issued ==>
                (s.closes[h] == 0 && exists i :: Stores(s, i, h))
                || (s.closes[h] == 1 && forall i :: !Stores(s, i, h)))
            && (forall i, j, h :: Stores(s, i, h) && Stores(s, j, h) ==> i == j)
            && (s.closing ==> forall i :: 0 <= i < |s.records| ==> s.records[i].handle.None?)
  {
    RunKeeps(Initial(configs), events);
    var s := After(Initial(configs), events);
    forall i | 0 <= i < |s.records|
      ensures s.calls[i] <= 1 && (s.records[i].state.Ready? <==> s.records[i].handle.Some?)
          && (s.closing ==> s.records[i].handle.None?) {
      assert RecordInv(s, i);
    }
    forall i, j, h | Stores(s, i, h) && Stores(s, j, h) ensures i == j {
      assert RecordInv(s, i);
      assert Accounted(s, h);
    }
    forall h | h in s.issued ensures (s.closes[h] == 0 && exists i :: Stores(s, i, h))
        || (s.closes[h] == 1 && forall i :: !Stores(s, i, h)) {
      assert Accounted(s, h);
    }
  }

  /** Nothing leaks: after shutdown has begun, every handle ever delivered has been closed exactly once. */
  lemma NothingLeaks(configs: seq<Config>, before: seq<Event>, after: seq<Event>)
    requires Possible(Initial(configs), before + [Closed] + after)
    ensures var s := After(Initial(configs), before + [Closed] + after); forall h :: h in s.issued ==> s.closes[h] == 1
  {
    var events := before + [Closed] + after;
    ClosesForGood(Initial(configs), events, |before|);
    RunKeeps(Initial(configs), events);
    var s := After(Initial(configs), events);
    forall h | h in s.issued ensures s.closes[h] == 1 {
      assert Accounted(s, h);
      NothingStored(s, h);
    }
  }

  lemma NothingStored(s: State, h: Handle)
    requires Inv(s) && s.closing
    ensures forall i :: !Stores(s, i, h)
  {
    forall i ensures !Stores(s, i, h) {
      if 0 <= i < |s.records| {
        assert RecordInv(s, i);
      }
    }
  }

  lemma {:induction false} ClosesForGood(s: State, events: seq<Event>, n: nat)
    requires Inv(s) && Possible(s, events) && n < |events| && events[n].Closed?
    ensures After(s, events).closing
    decreases |events|
  {
    StepKeeps(s, events[0]);
    if n == 0 {
      RunKeeps(Step(s, events[0]), events[1..]);
    } else {
      ClosesForGood(Step(s, events[0]), events[1..], n - 1);
    }
  }

  // ----- The registry -----

  datatype Reply =
    | UnknownUpstream
    | ShuttingDown
    | UpstreamDisabled
    | Connected(handle: Handle)
    | Joined
    | CallStarted

  function Find(records: seq<Record>, name: string): (i: int)
    ensures -1 <= i < |records|
    ensures i >= 0 ==> records[i].name == name
    ensures i < 0 ==> forall j :: 0 <= j < |records| ==> records[j].name != name
  {
    if records == [] then -1
    else if records[0].name == name then 0
    else
      var i := Find(records[1..], name);
      if i < 0 then -1 else i + 1
  }

  class UpstreamRegistry {
    var records: seq<Record>
    var closing: bool
    ghost var issued: set<Handle>
    ghost var closes: multiset<Handle>
    ghost var calls: multiset<nat>

    ghost function View(): State
      reads this
    {
      State(records, closing, issued, closes, calls)
    }

    ghost predicate Valid()
      reads this
    {
      Inv(View())
    }

    constructor (configs: seq<Config>)
      ensures Valid() && View() == Initial(configs)
    {
      records := seq(|configs|, i requires 0 <= i < |configs| => Registration(configs[i]));
      closing, issued, closes, calls := false, {}, multiset{}, multiset{};
    }

    /** Up to the connector call, which is then in flight; or the reason there is none. */
    method Start(name: string) returns (reply: Reply)
      requires Valid()
      modifies this
      ensures Valid()
      ensures reply.UnknownUpstream? <==> Find(old(records), name) < 0
      ensures reply.UnknownUpstream? ==> View() == old(View())
      ensures !reply.UnknownUpstream? ==> View() == Step(old(View()), Started(Find(old(records), name)))
      ensures reply.CallStarted? <==> Find(old(records), name) >= 0 && StartsCall(old(View()), Find(old(records), name))
      ensures reply.Connected? <==> Find(old(records), name) >= 0 && old(records)[Find(old(records), name)].handle.Some?
      ensures reply.Connected? ==> Stores(View(), Find(old(records), name), reply.handle) && closes[reply.handle] == 0
    {
      var i := Find(records, name);
      if i < 0 {
        return UnknownUpstream;
      }
      ghost var before := View();
      assert RecordInv(before, i);
      StepKeeps(before, Started(i));
      if closing {
        return ShuttingDown;
      }
      if records[i].state.Disabled? {
        return UpstreamDisabled;
      }
      if records[i].handle.Some? {
        assert Stores(before, i, records[i].handle.value) && Accounted(before, records[i].handle.value);
        return Connected(records[i].handle.value);
      }
      if !records[i].phase.Idle? {
        return Joined;
      }
      records := records[i := records[i].(state := Starting, phase := Connecting)];
      calls := calls + multiset{i};
      return CallStarted;
    }

    /** The connector delivers: the handle is stored, or closed at once when shutdown has begun. */
    method OnConnected(i: nat, handle: Handle) returns (stored: bool)
      requires Valid() && Enabled(View(), Resolved(i, handle))
      modifies this
      ensures Valid() && View() == Step(old(View()), Resolved(i, handle))
      ensures stored <==> !closing
    {
      StepKeeps(View(), Resolved(i, handle));
      calls, issued := calls - multiset{i}, issued + {handle};
      if closing {
        closes := closes + multiset{handle};
        records := records[i := records[i].(phase := LateClosing)];
        return false;
      }
      records := records[i := records[i].(handle := Some(handle), state := Ready, phase := Settling)];
      return true;
    }

    method OnConnectorFailed(i: nat)
      requires Valid() && Enabled(View(), Rejected(i))
      modifies this
      ensures Valid() && View() == Step(old(View()), Rejected(i))
    {
      StepKeeps(View(), Rejected(i));
      calls := calls - multiset{i};
      var r := records[i].(phase := Settling);
      if !closing {
        r := r.(state := Unhealthy, failureCount := r.failureCount + 1);
      }
      records := records[i := r];
    }

    /** The late handle is closed, or closing it has timed out. */
    method OnLateClosed(i: nat)
      requires Valid() && Enabled(View(), LateClosed(i))
      modifies this
      ensures Valid() && View() == Step(old(View()), LateClosed(i))
    {
      StepKeeps(View(), LateClosed(i));
      records := records[i := records[i].(state := StoppedState(records[i].state), phase := Settling)];
    }

    method OnSettled(i: nat)
      requires Valid() && Enabled(View(), Settled(i))
      modifies this
      ensures Valid() && View() == Step(old(View()), Settled(i))
    {
      StepKeeps(View(), Settled(i));
      records := records[i := records[i].(phase := Idle)];
    }

    /** A connection broke: whatever handle is stored now goes, and is closed. */
    method Invalidate(name: string) returns (closed: Option<Handle>)
      requires Valid()
      modifies this
      ensures Valid()
      ensures Find(old(records), name) < 0 ==> View() == old(View()) && closed.None?
      ensures var i := Find(old(records), name);
              i >= 0 ==> View() == Step(old(View()), Invalidated(i)) && closed == old(records)[i].handle
    {
      var i := Find(records, name);
      if i < 0 {
        return None;
      }
      assert RecordInv(View(), i);
      StepKeeps(View(), Invalidated(i));
      if records[i].state.Disabled? {
        return None;
      }
      closed := records[i].handle;
      closes := closes + OneHandle(records[i]);
      records := records[i := records[i].(handle := None, state := Unhealthy,
                                          failureCount := records[i].failureCount + 1)];
    }

    /** Shutdown, once: every record gives up its handle before anything else can run. */
    method Close()
      requires Valid()
      modifies this
      ensures Valid() && View() == Step(old(View()), Closed)
    {
      StepKeeps(View(), Closed);
      if closing {
        return;
      }
      closing := true;
      closes := closes + Handles(records);
      ghost var before := records;
      for i := 0 to |records|
        invariant |records| == |before| && closing && issued == old(issued) && calls == old(calls)
        invariant closes == old(closes) + Handles(before)
        invariant forall j :: 0 <= j < |records| ==> records[j] == if j < i then StopRecord(before[j]) else before[j]
      {
        records := records[i := StopRecord(records[i])];
      }
      assert records == StopAll(before);
    }
  }
}
