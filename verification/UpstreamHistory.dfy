/** What the registry's state says about the events that led to it. */
module UpstreamHistory {
  import opened Wrappers
  import opened UpstreamRegistry

  lemma {:induction false} AfterOneMore(s: State, events: seq<Event>, e: Event)
    requires Possible(s, events + [e])
    ensures Possible(s, events) && Enabled(After(s, events), e)
    ensures After(s, events + [e]) == Step(After(s, events), e)
    decreases |events|
  {
    if events == [] {
      assert (events + [e])[1..] == [];
    } else {
      assert (events + [e])[1..] == events[1..] + [e];
      AfterOneMore(Step(s, events[0]), events[1..], e);
    }
  }

  /** The handle was delivered to this upstream, no connection of it has broken since, and nothing was shut down. */
  ghost predicate Held(events: seq<Event>, i: nat, h: Handle) {
    && Closed !in events
    && exists k :: 0 <= k < |events| && events[k] == Resolved(i, h) && Invalidated(i) !in events[k..]
  }

  /** How often a connector of this upstream failed before shutdown, or a connection of it broke. */
  ghost function Failures(events: seq<Event>, i: nat): nat {
    if events == [] then 0
    else
      var before, last := events[..|events| - 1], events[|events| - 1];
      Failures(before, i) + if last == Invalidated(i) || (last == Rejected(i) && Closed !in before) then 1 else 0
  }

  ghost predicate Delivered(events: seq<Event>, h: Handle) {
    exists i: nat :: Resolved(i, h) in events
  }

  /** The handles held for an upstream; the record shows there is never more than one. */
  ghost function HeldBy(events: seq<Event>, i: nat): iset<Handle> {
    iset h | Held(events, i, h)
  }

  ghost predicate Tells(c: Config, held: iset<Handle>, failures: nat, r: Record) {
    && r.name == c.name
    && (r.state.Disabled? <==> !c.enabled)
    && held == (if r.handle.Some? then iset{r.handle.value} else iset{})
    && r.failureCount == if c.enabled then failures else 0
  }

  ghost predicate RecordTells(c: Config, events: seq<Event>, i: nat, r: Record) {
    Tells(c, HeldBy(events, i), Failures(events, i), r)
  }

  lemma HeldOneMore(events: seq<Event>, e: Event, i: nat, h: Handle)
    ensures Held(events + [e], i, h) <==>
            (Held(events, i, h) && e != Invalidated(i) && !e.Closed?) || (e == Resolved(i, h) && Closed !in events)
  {
    var longer := events + [e];
    if Held(longer, i, h) {
      var k :| 0 <= k < |longer| && longer[k] == Resolved(i, h) && Invalidated(i) !in longer[k..];
      assert e in longer[k..] && e in longer;
      if k < |events| {
        assert longer[k..] == events[k..] + [e];
      }
    }
    if Held(events, i, h) && e != Invalidated(i) && !e.Closed? {
      var k :| 0 <= k < |events| && events[k] == Resolved(i, h) && Invalidated(i) !in events[k..];
      assert longer[k] == Resolved(i, h) && longer[k..] == events[k..] + [e];
    }
    if e == Resolved(i, h) && Closed !in events {
      assert longer[|events|] == e && longer[|events|..] == [e];
    }
  }

  /** What one more event makes of the handles held before it. */
  ghost function HeldNext(held: iset<Handle>, e: Event, i: nat, closing: bool): iset<Handle> {
    if e == Invalidated(i) || e.Closed? then iset{}
    else if e.Resolved? && e.i == i && !closing then held + iset{e.handle}
    else held
  }

  lemma HeldByOneMore(events: seq<Event>, e: Event, i: nat)
    ensures HeldBy(events + [e], i) == HeldNext(HeldBy(events, i), e, i, Closed in events)
  {
    forall h ensures h in HeldBy(events + [e], i) <==> h in HeldNext(HeldBy(events, i), e, i, Closed in events) {
      HeldOneMore(events, e, i, h);
    }
  }

  lemma FailuresOneMore(events: seq<Event>, e: Event, i: nat)
    ensures Failures(events + [e], i) ==
            Failures(events, i) + if e == Invalidated(i) || (e == Rejected(i) && Closed !in events) then 1 else 0
  {
    assert (events + [e])[..|events|] == events;
  }

  lemma TellsNext(s: State, c: Config, e: Event, i: nat, held: iset<Handle>, failures: nat)
    requires i < |s.records| && RecordInv(s, i) && Enabled(s, e) && Tells(c, held, failures, s.records[i])
    ensures |Step(s, e).records| == |s.records|
    ensures Tells(c, HeldNext(held, e, i, s.closing),
                  failures + (if e == Invalidated(i) || (e == Rejected(i) && !s.closing) then 1 else 0),
                  Step(s, e).records[i])
  {
    if e.Closed? {
      assert s.closing ==> held == iset{};
    } else if e.i != i {
      assert Step(s, e).records[i] == s.records[i];
    } else {
      OwnNext(s, c, e, held, failures);
    }
  }

  lemma OwnNext(s: State, c: Config, e: Event, held: iset<Handle>, failures: nat)
    requires !e.Closed? && e.i < |s.records| && RecordInv(s, e.i) && Enabled(s, e)
    requires Tells(c, held, failures, s.records[e.i])
    ensures Tells(c, HeldNext(held, e, e.i, s.closing),
                  failures + (if e.Invalidated? || (e.Rejected? && !s.closing) then 1 else 0),
                  Step(s, e).records[e.i])
  {
    if e.Resolved? {
      ResolvedNext(s, c, e, held, failures);
    } else if e.Rejected? || e.Invalidated? {
      FailedNext(s, c, e, held, failures);
    }
  }

  lemma ResolvedNext(s: State, c: Config, e: Event, held: iset<Handle>, failures: nat)
    requires e.Resolved? && e.i < |s.records| && RecordInv(s, e.i) && Enabled(s, e)
    requires Tells(c, held, failures, s.records[e.i])
    ensures Tells(c, HeldNext(held, e, e.i, s.closing), failures, Step(s, e).records[e.i])
  {
    assert held + iset{e.handle} == iset{e.handle};
  }

  lemma FailedNext(s: State, c: Config, e: Event, held: iset<Handle>, failures: nat)
    requires (e.Rejected? || e.Invalidated?) && e.i < |s.records| && RecordInv(s, e.i) && Enabled(s, e)
    requires Tells(c, held, failures, s.records[e.i])
    ensures Tells(c, HeldNext(held, e, e.i, s.closing),
                  failures + (if e.Invalidated? || !s.closing then 1 else 0), Step(s, e).records[e.i])
  {
  }

  /** One step keeps what a record tells. */
  lemma RecordOneMore(s: State, c: Config, events: seq<Event>, e: Event, i: nat)
    requires Inv(s) && Enabled(s, e) && i < |s.records| && RecordTells(c, events, i, s.records[i])
    requires s.closing <==> Closed in events
    ensures |Step(s, e).records| == |s.records| && RecordTells(c, events + [e], i, Step(s, e).records[i])
  {
    FailuresOneMore(events, e, i);
    HeldByOneMore(events, e, i);
    assert RecordInv(s, i);
    TellsNext(s, c, e, i, HeldBy(events, i), Failures(events, i));
  }

  /**
   * The state after any run says exactly this about it: shutdown has begun if it was asked for, the handles issued are
   * those delivered, and each record holds the handle last delivered to it unless its connection broke or shutdown
   * came, with all failures counted.
   */
  lemma {:induction false} StateTells(configs: seq<Config>, events: seq<Event>)
    requires Possible(Initial(configs), events)
    ensures var s := After(Initial(configs), events);
            && |s.records| == |configs|
            && (s.closing <==> Closed in events)
            && (forall h :: h in s.issued <==> Delivered(events, h))
            && forall i :: 0 <= i < |configs| ==> RecordTells(configs[i], events, i, s.records[i])
    decreases |events|
  {
    if events != [] {
      var before, e := events[..|events| - 1], events[|events| - 1];
      assert before + [e] == events;
      AfterOneMore(Initial(configs), before, e);
      StateTells(configs, before);
      RunKeeps(Initial(configs), before);
      var s := After(Initial(configs), before);
      RecordsOneMore(configs, s, before, e);
      DeliveredOneMore(before, e);
      IssuedNext(s, e);
      assert Closed in events <==> Closed in before || e.Closed?;
    } else {
      NothingHeld();
    }
  }

  lemma NothingHeld()
    ensures forall i: nat :: HeldBy([], i) == iset{} && Failures([], i) == 0
  {
  }

  lemma IssuedNext(s: State, e: Event)
    requires Enabled(s, e)
    ensures Step(s, e).closing <==> s.closing || e.Closed?
    ensures forall h :: h in Step(s, e).issued <==> h in s.issued || (e.Resolved? && e.handle == h)
  {
  }

  lemma RecordsOneMore(configs: seq<Config>, s: State, events: seq<Event>, e: Event)
    requires Inv(s) && Enabled(s, e) && |s.records| == |configs| && (s.closing <==> Closed in events)
    requires forall i :: 0 <= i < |configs| ==> RecordTells(configs[i], events, i, s.records[i])
    ensures |Step(s, e).records| == |configs|
    ensures forall i :: 0 <= i < |configs| ==> RecordTells(configs[i], events + [e], i, Step(s, e).records[i])
  {
    if configs != [] {
      RecordOneMore(s, configs[0], events, e, 0);
    }
    forall i | 0 <= i < |configs| ensures RecordTells(configs[i], events + [e], i, Step(s, e).records[i]) {
      RecordOneMore(s, configs[i], events, e, i);
    }
  }

  lemma DeliveredOneMore(events: seq<Event>, e: Event)
    ensures forall h :: Delivered(events + [e], h) <==> Delivered(events, h) || (e.Resolved? && e.handle == h)
  {
    forall h ensures Delivered(events + [e], h) <==> Delivered(events, h) || (e.Resolved? && e.handle == h) {
      if Delivered(events, h) {
        var i: nat :| Resolved(i, h) in events;
        assert Resolved(i, h) in events + [e];
      }
      if e.Resolved? && e.handle == h {
        assert Resolved(e.i, h) in events + [e];
      }
    }
  }

  /** The upstream is enabled, holds nothing, and nothing of it is pending; nothing was shut down. */
  ghost predicate Startable(c: Config, events: seq<Event>, i: nat, s: State) {
    && c.enabled && Closed !in events && HeldBy(events, i) == iset{}
    && i < |s.records| && s.records[i].phase.Idle?
  }

  /** Asking for a connection makes a connector call exactly when the upstream can be started, and never a second. */
  lemma StartMakesCall(configs: seq<Config>, events: seq<Event>, i: nat)
    requires i < |configs| && Possible(Initial(configs), events)
    ensures var before := After(Initial(configs), events);
            && Enabled(before, Started(i))
            && (Startable(configs[i], events, i, before) ==> before.calls[i] == 0)
            && Step(before, Started(i)).calls ==
               if Startable(configs[i], events, i, before) then before.calls + multiset{i} else before.calls
  {
    StateTells(configs, events);
    RunKeeps(Initial(configs), events);
    assert RecordInv(After(Initial(configs), events), i);
    assert RecordTells(configs[i], events, i, After(Initial(configs), events).records[i]);
  }

  /** When a start is settled, the upstream can be started again exactly if it failed or broke before any shutdown. */
  lemma SettledAllowsRetry(configs: seq<Config>, events: seq<Event>, i: nat)
    requires i < |configs| && Possible(Initial(configs), events + [Settled(i)])
    ensures Startable(configs[i], events + [Settled(i)], i, After(Initial(configs), events + [Settled(i)])) <==>
            Closed !in events && HeldBy(events, i) == iset{}
  {
    AfterOneMore(Initial(configs), events, Settled(i));
    StateTells(configs, events);
    RunKeeps(Initial(configs), events);
    var s := After(Initial(configs), events);
    assert RecordInv(s, i) && RecordTells(configs[i], events, i, s.records[i]);
    HeldByOneMore(events, Settled(i), i);
  }
}
