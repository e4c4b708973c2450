/**
 * What reading from the store shows: the stream asked for, the limits in force, where a window begins, which entries
 * have expired, and which a search finds.
 */
module ArtifactReads {
  import opened Wrappers
  import opened ArtifactFit
  import opened ArtifactStore

  /** The text of each stream; one that is not there reads as empty. */
  lemma SourceMeans(p: Payload)
    ensures Source(p, Combined) == p.text
    ensures p.stdout.Some? ==> Source(p, OnlyStdout) == p.stdout.value
    ensures p.stderr.Some? ==> Source(p, OnlyStderr) == p.stderr.value
    ensures p.stdout.None? ==> Source(p, OnlyStdout) == ""
    ensures p.stderr.None? ==> Source(p, OnlyStderr) == ""
  {
  }

  /**
   * At most 80 lines and at least one; 80 unless asked for fewer; at most 20 lines of context, none unless asked for.
   */
  lemma LimitsMean(options: RetrieveOptions)
    ensures options.maxLines.None? ==> MaxLines(options) == 80
    ensures options.maxLines.Some? && 1 <= options.maxLines.value <= 80 ==> MaxLines(options) == options.maxLines.value
    ensures options.maxLines.Some? && options.maxLines.value < 1 ==> MaxLines(options) == 1
    ensures options.maxLines.Some? && options.maxLines.value > 80 ==> MaxLines(options) == 80
    ensures options.contextLines.None? ==> ContextLines(options) == 0
    ensures options.contextLines.Some? && 0 <= options.contextLines.value <= 20 ==>
              ContextLines(options) == options.contextLines.value
    ensures options.contextLines.Some? && options.contextLines.value < 0 ==> ContextLines(options) == 0
    ensures options.contextLines.Some? && options.contextLines.value > 20 ==> ContextLines(options) == 20
  {
  }

  /** The first line that holds the text asked for, when one is asked for. */
  lemma MatchMeans(lines: seq<string>, query: Option<string>)
    ensures var at := MatchIndex(lines, query);
            && (query.None? || query.value == "" ==> at == -1)
            && (query.Some? && query.value != "" && at >= 0 ==>
                 Holds(lines[at], query.value) && forall j :: 0 <= j < at ==> !Holds(lines[j], query.value))
            && (query.Some? && query.value != "" && at < 0 ==>
                 forall j :: 0 <= j < |lines| ==> !Holds(lines[j], query.value))
  {
    if query.Some? {
      forall line: string ensures Includes(line, query.value) <==> Holds(line, query.value) {
        HoldsMeans(line, query.value);
      }
    }
  }

  /** The line is some text, the query, and some text. */
  ghost predicate Holds(line: string, query: string) {
    exists before, after: string :: line == before + query + after
  }

  lemma HoldsMeans(line: string, query: string)
    ensures Includes(line, query) <==> Holds(line, query)
  {
    if Includes(line, query) {
      var i :| 0 <= i <= |line| && query <= line[i..];
      assert line == line[..i] + query + line[i..][|query|..];
    }
    if before, after: string :| line == before + query + after {
      assert line[|before|..] == query + after;
      assert query <= line[|before|..];
    }
  }

  /** A window without a match begins where it is asked to; with one, as much before it as asked and as fits. */
  lemma StartMeans(matchIndex: int, options: RetrieveOptions)
    ensures matchIndex < 0 ==>
              WindowStart(matchIndex, options) ==
                if options.startLine.Some? && options.startLine.value >= 0 then options.startLine.value else 0
    ensures matchIndex >= 0 ==>
              var start := WindowStart(matchIndex, options);
              && (start == 0 || start == matchIndex - ContextLines(options)
                  || start == matchIndex - (MaxLines(options) - 1))
              && start >= matchIndex - ContextLines(options) && start >= matchIndex - (MaxLines(options) - 1)
              && (start == 0 ==> matchIndex <= ContextLines(options) && matchIndex <= MaxLines(options) - 1)
  {
  }

  /** A replacement takes the place of the entry with its id; anything else comes last. */
  lemma UpsertMeans(slots: seq<Slot>, slot: Slot)
    requires DistinctIds(slots)
    ensures (forall s :: s in slots ==> s.id != slot.id) ==> Upsert(slots, slot) == slots + [slot]
    ensures forall i :: 0 <= i < |slots| && slots[i].id == slot.id ==>
              |Upsert(slots, slot)| == |slots| && Upsert(slots, slot)[i] == slot
              && forall j :: 0 <= j < |slots| && j != i ==> Upsert(slots, slot)[j] == slots[j]
  {
    if IndexOf(slots, slot.id) >= 0 {
      assert slots[IndexOf(slots, slot.id)] in slots;
    }
  }

  // ----- Expiry and search -----

  lemma {:induction false} LiveSnoc(slots: seq<Slot>, s: Slot, now: int)
    ensures Live(slots + [s], now) == Live(slots, now) + if s.expiresAt > now then [s] else []
  {
    if slots == [] {
      assert slots + [s] == [s] && [s][1..] == [];
    } else {
      assert (slots + [s])[0] == slots[0] && (slots + [s])[1..] == slots[1..] + [s];
      LiveSnoc(slots[1..], s, now);
    }
  }

  lemma LiveLast(slots: seq<Slot>, now: int)
    requires slots != []
    ensures var front, s := slots[..|slots| - 1], slots[|slots| - 1];
            && Live(slots, now) == Live(front, now) + (if s.expiresAt > now then [s] else []) && slots == front + [s]
  {
    var front, s := slots[..|slots| - 1], slots[|slots| - 1];
    assert slots == front + [s];
    LiveSnoc(front, s, now);
  }

  /** r is what is kept of the entries, from the positions it stood at, in the order it stood in. */
  ghost predicate Picks(r: seq<Slot>, slots: seq<Slot>, at: seq<nat>, keep: Slot -> bool) {
    && |at| == |r| && (forall i :: 0 <= i < |at| ==> at[i] < |slots| && r[i] == slots[at[i]])
    && (forall i, j :: 0 <= i < j < |at| ==> at[i] < at[j])
    && (forall k :: 0 <= k < |slots| ==> (k in at <==> keep(slots[k])))
  }

  lemma PicksSnoc(r: seq<Slot>, slots: seq<Slot>, at: seq<nat>, keep: Slot -> bool, s: Slot)
    requires Picks(r, slots, at, keep)
    ensures keep(s) ==> Picks(r + [s], slots + [s], at + [|slots|], keep)
    ensures !keep(s) ==> Picks(r, slots + [s], at, keep)
  {
    var more := slots + [s];
    assert forall k :: 0 <= k < |slots| ==> more[k] == slots[k];
    forall k | 0 <= k < |more| ensures k in at + [|slots|] <==> k in at || k == |slots| {
    }
    forall k | k in at ensures k < |slots| {
      var i :| 0 <= i < |at| && at[i] == k;
    }
  }

  lemma PicksNext(r: seq<Slot>, slots: seq<Slot>, at: seq<nat>, keep: Slot -> bool, s: Slot, next: seq<Slot>)
    returns (more: seq<nat>)
    requires Picks(r, slots, at, keep) && next == r + if keep(s) then [s] else []
    ensures Picks(next, slots + [s], more, keep)
  {
    PicksSnoc(r, slots, at, keep, s);
    if keep(s) {
      more := at + [|slots|];
    } else {
      more := at;
      assert next == r;
    }
  }

  ghost function Alive(now: int): Slot -> bool {
    (s: Slot) => s.expiresAt > now
  }

  ghost function Matching(matches: Payload -> bool): Slot -> bool {
    (s: Slot) => matches(s.payload)
  }

  /** The entries still alive are those not expired, in order. */
  lemma {:induction false} LiveMeans(slots: seq<Slot>, now: int) returns (at: seq<nat>)
    ensures Picks(Live(slots, now), slots, at, Alive(now))
  {
    if slots == [] {
      at := [];
    } else {
      var front, s := slots[..|slots| - 1], slots[|slots| - 1];
      at := LiveMeans(front, now);
      LiveLast(slots, now);
      at := PicksNext(Live(front, now), front, at, Alive(now), s, Live(slots, now));
    }
  }

  /** What matches is selected, in order. */
  lemma {:induction false} SelectedMeans(slots: seq<Slot>, matches: Payload -> bool) returns (at: seq<nat>)
    ensures Picks(Selected(slots, matches), slots, at, Matching(matches))
  {
    if slots == [] {
      at := [];
    } else {
      var front, s := slots[..|slots| - 1], slots[|slots| - 1];
      at := SelectedMeans(front, matches);
      assert slots == front + [s];
      at := PicksNext(Selected(front, matches), front, at, Matching(matches), s, Selected(slots, matches));
    }
  }

  lemma {:induction false} ReversedMeans(slots: seq<Slot>)
    ensures |Reversed(slots)| == |slots|
    ensures forall i :: 0 <= i < |slots| ==> Reversed(slots)[i] == slots[|slots| - 1 - i]
  {
    if slots != [] {
      ReversedMeans(slots[..|slots| - 1]);
    }
  }

  /**
   * What a search finds: entries that match, the newest first, at most as many as asked for, at least one and at most
   * 100; and a matching entry is missing only when that many newer ones were found.
   */
  lemma SearchMeans(slots: seq<Slot>, matches: Payload -> bool, maxResults: int) returns (at: seq<nat>)
    ensures var found := First(Reversed(Selected(slots, matches)), Clamp(maxResults, 1, MAX_RESULTS));
            && |at| == |found|
            && (forall i :: 0 <= i < |at| ==> at[i] < |slots| && found[i] == slots[at[i]])
    ensures forall i :: 0 <= i < |at| ==> matches(slots[at[i]].payload)
    ensures forall i, j :: 0 <= i < j < |at| ==> at[i] > at[j]
    ensures var limit := if maxResults < 1 then 1 else if maxResults > 100 then 100 else maxResults;
            && |at| <= limit
            && forall k :: 0 <= k < |slots| && matches(slots[k].payload) && k !in at ==>
                 |at| == limit && forall i :: 0 <= i < |at| ==> k < at[i]
  {
    var selected := SelectedMeans(slots, matches);
    ReversedMeans(Selected(slots, matches));
    at := NewestOf(Selected(slots, matches), slots, selected, Matching(matches), Clamp(maxResults, 1, MAX_RESULTS));
  }

  /** The last n of what is picked, from the end. */
  lemma NewestOf(r: seq<Slot>, slots: seq<Slot>, selected: seq<nat>, keep: Slot -> bool, n: nat)
    returns (at: seq<nat>)
    requires Picks(r, slots, selected, keep)
    ensures |at| == if |r| < n then |r| else n
    ensures forall i :: 0 <= i < |at| ==> at[i] < |slots| && r[|r| - 1 - i] == slots[at[i]] && keep(slots[at[i]])
    ensures forall i, j :: 0 <= i < j < |at| ==> at[i] > at[j]
    ensures forall k :: 0 <= k < |slots| && keep(slots[k]) && k !in at ==>
              |at| == n && forall i :: 0 <= i < n ==> k < at[i]
  {
    at := Last(selected, n);
    LastMeans(selected, n);
    LastPicks(r, slots, selected, keep, at);
  }

  lemma LastPicks(r: seq<Slot>, slots: seq<Slot>, selected: seq<nat>, keep: Slot -> bool, at: seq<nat>)
    requires Picks(r, slots, selected, keep) && |at| <= |selected|
    requires forall i :: 0 <= i < |at| ==> at[i] == selected[|selected| - 1 - i]
    ensures forall i :: 0 <= i < |at| ==> at[i] < |slots| && r[|r| - 1 - i] == slots[at[i]] && keep(slots[at[i]])
  {
    forall i | 0 <= i < |at| ensures keep(slots[at[i]]) {
      assert at[i] in selected;
    }
  }

  /** The last positions, at most n of them, from the end. */
  function Last(at: seq<nat>, n: nat): (r: seq<nat>)
    ensures |r| == if |at| < n then |at| else n
    ensures forall i :: 0 <= i < |r| ==> r[i] == at[|at| - 1 - i]
  {
    seq(if |at| < n then |at| else n, i requires 0 <= i < |at| => at[|at| - 1 - i])
  }

  lemma LastMeans(at: seq<nat>, n: nat)
    requires forall i, j :: 0 <= i < j < |at| ==> at[i] < at[j]
    ensures forall i, j :: 0 <= i < j < |Last(at, n)| ==> Last(at, n)[i] > Last(at, n)[j]
    ensures forall k :: k in at && k !in Last(at, n) ==>
              |Last(at, n)| == n && forall i :: 0 <= i < n ==> k < Last(at, n)[i]
  {
    forall k | k in at && k !in Last(at, n)
      ensures |Last(at, n)| == n && forall i :: 0 <= i < n ==> k < Last(at, n)[i]
    {
      var j :| 0 <= j < |at| && at[j] == k;
      if j >= |at| - n {
        LastHas(at, n, j);
      }
    }
  }

  lemma LastHas(at: seq<nat>, n: nat, j: nat)
    requires |at| - n <= j < |at|
    ensures at[j] in Last(at, n)
  {
    assert Last(at, n)[|at| - 1 - j] == at[j];
  }
}
