/**
 * The in-memory artifact store: a bounded, expiring, least-recently-used cache whose insertions are staged and all or
 * nothing.
 */
module ArtifactStore {
  import opened Wrappers
  import opened Sequences
  import opened Lines
  import opened ArtifactFit

  /** One retained artifact; the sequence of slots is the order of last use, oldest first. */
  datatype Slot = Slot(id: string, payload: Payload, expiresAt: int, serializedBytes: nat)

  // ----- The retained sequence -----

  function Total(slots: seq<Slot>): nat {
    if slots == [] then 0 else slots[0].serializedBytes + Total(slots[1..])
  }

  function IndexOf(slots: seq<Slot>, id: string): (i: int)
    ensures -1 <= i < |slots|
    ensures i >= 0 ==> slots[i].id == id && forall j :: 0 <= j < i ==> slots[j].id != id
    ensures i < 0 ==> forall j :: 0 <= j < |slots| ==> slots[j].id != id
  {
    if slots == [] then -1
    else if slots[0].id == id then 0
    else
      var i := IndexOf(slots[1..], id);
      if i < 0 then -1 else i + 1
  }

  ghost predicate DistinctIds(slots: seq<Slot>) {
    forall i, j :: 0 <= i < j < |slots| ==> slots[i].id != slots[j].id
  }

  function Without(slots: seq<Slot>, i: nat): (r: seq<Slot>)
    requires i < |slots|
    ensures |r| == |slots| - 1
  {
    slots[..i] + slots[i + 1..]
  }

  lemma WithoutIn(slots: seq<Slot>, i: nat)
    requires i < |slots|
    ensures forall s :: s in Without(slots, i) ==> s in slots
  {
  }

  function Live(slots: seq<Slot>, now: int): (r: seq<Slot>)
    ensures |r| <= |slots|
    ensures forall s :: s in r <==> s in slots && s.expiresAt > now
  {
    if slots == [] then [] else (if slots[0].expiresAt > now then [slots[0]] else []) + Live(slots[1..], now)
  }

  /** A replacement keeps the place of what it replaces. */
  function Upsert(slots: seq<Slot>, slot: Slot): (r: seq<Slot>)
    ensures slot in r
  {
    var i := IndexOf(slots, slot.id);
    if i >= 0 then
      var r := slots[i := slot];
      assert r[i] == slot;
      r
    else slots + [slot]
  }

  // ----- Eviction -----

  predicate Bounded(slots: seq<Slot>, maxEntries: nat, budget: nat) {
    |slots| <= maxEntries && Total(slots) <= budget
  }

  /** The oldest slot that is not the one to keep. */
  function OldestOther(slots: seq<Slot>, keep: string): (i: int)
    ensures -1 <= i < |slots|
    ensures i >= 0 ==> slots[i].id != keep && forall j :: 0 <= j < i ==> slots[j].id == keep
    ensures i < 0 ==> forall j :: 0 <= j < |slots| ==> slots[j].id == keep
  {
    if slots == [] then -1
    else if slots[0].id != keep then 0
    else
      var i := OldestOther(slots[1..], keep);
      if i < 0 then -1 else i + 1
  }

  /** Without its n oldest slots, those of `keep` not counted. */
  function Drop(slots: seq<Slot>, keep: string, n: nat): seq<Slot>
    decreases n
  {
    if n == 0 || OldestOther(slots, keep) < 0 then slots
    else Drop(Without(slots, OldestOther(slots, keep)), keep, n - 1)
  }

  /** How many have to go until both bounds hold. */
  function Excess(slots: seq<Slot>, keep: string, maxEntries: nat, budget: nat): nat
    decreases |slots|
  {
    if Bounded(slots, maxEntries, budget) || OldestOther(slots, keep) < 0 then 0
    else 1 + Excess(Without(slots, OldestOther(slots, keep)), keep, maxEntries, budget)
  }

  function Evicted(slots: seq<Slot>, keep: string, maxEntries: nat, budget: nat): seq<Slot> {
    Drop(slots, keep, Excess(slots, keep, maxEntries, budget))
  }

  lemma {:induction false} TotalConcat(a: seq<Slot>, b: seq<Slot>)
    ensures Total(a + b) == Total(a) + Total(b)
  {
    if a == [] {
      assert a + b == b;
    } else {
      assert (a + b)[1..] == a[1..] + b;
      TotalConcat(a[1..], b);
    }
  }

  lemma TotalWithout(slots: seq<Slot>, i: nat)
    requires i < |slots|
    ensures Total(Without(slots, i)) == Total(slots) - slots[i].serializedBytes
  {
    var front, back := slots[..i], slots[i + 1..];
    TotalConcat(front, back);
    TotalMiddle(front, slots[i], back);
    Around(slots, i);
  }

  lemma Around(slots: seq<Slot>, i: nat)
    requires i < |slots|
    ensures slots == slots[..i] + ([slots[i]] + slots[i + 1..])
  {
  }

  lemma TotalMiddle(front: seq<Slot>, slot: Slot, back: seq<Slot>)
    ensures Total(front + ([slot] + back)) == Total(front) + slot.serializedBytes + Total(back)
  {
    TotalConcat(front, [slot] + back);
    TotalConcat([slot], back);
    TotalOne(slot);
  }

  lemma TotalOne(slot: Slot)
    ensures Total([slot]) == slot.serializedBytes
  {
    assert Total([slot][1..]) == 0;
  }

  lemma SameWithout(slots: seq<Slot>, i: nat, slot: Slot)
    requires i < |slots|
    ensures Without(slots[i := slot], i) == Without(slots, i)
  {
  }

  lemma TotalUpsert(slots: seq<Slot>, slot: Slot)
    ensures Total(Upsert(slots, slot)) ==
              Total(slots) + slot.serializedBytes
                - (if IndexOf(slots, slot.id) >= 0 then slots[IndexOf(slots, slot.id)].serializedBytes else 0)
  {
    var i := IndexOf(slots, slot.id);
    if i >= 0 {
      TotalWithout(slots, i);
      TotalWithout(slots[i := slot], i);
      SameWithout(slots, i, slot);
    } else {
      TotalConcat(slots, [slot]);
      TotalOne(slot);
    }
  }

  lemma DistinctWithout(slots: seq<Slot>, i: nat)
    requires DistinctIds(slots) && i < |slots|
    ensures DistinctIds(Without(slots, i)) && forall s :: s in slots && s.id != slots[i].id ==> s in Without(slots, i)
  {
    var r := Without(slots, i);
    forall j, k | 0 <= j < k < |r| ensures r[j].id != r[k].id {
      assert r[j] == slots[if j < i then j else j + 1] && r[k] == slots[if k < i then k else k + 1];
    }
    assert slots == slots[..i] + ([slots[i]] + slots[i + 1..]);
  }

  lemma FirstTwoDiffer(slots: seq<Slot>)
    requires DistinctIds(slots) && |slots| > 1
    ensures slots[0].id != slots[1].id
  {
  }

  /** The slot itself is bounded, so evicting others always ends within the bounds. */
  lemma {:induction false} OnlyKept(slots: seq<Slot>, kept: Slot)
    requires DistinctIds(slots) && kept in slots && OldestOther(slots, kept.id) < 0
    ensures slots == [kept]
  {
    var i :| 0 <= i < |slots| && slots[i] == kept;
    if |slots| > 1 {
      FirstTwoDiffer(slots);
    }
  }

  lemma {:induction false} DropIn(slots: seq<Slot>, keep: string, n: nat)
    ensures forall s :: s in Drop(slots, keep, n) ==> s in slots
    decreases n
  {
    if n > 0 && OldestOther(slots, keep) >= 0 {
      var i := OldestOther(slots, keep);
      WithoutIn(slots, i);
      DropIn(Without(slots, i), keep, n - 1);
    }
  }

  lemma DropStep(slots: seq<Slot>, keep: string, n: nat)
    requires OldestOther(slots, keep) >= 0
    ensures Drop(slots, keep, n + 1) == Drop(Without(slots, OldestOther(slots, keep)), keep, n)
  {
  }

  /** Eviction removes the fewest oldest slots, never the incoming one, that bring both bounds about. */
  lemma {:induction false} EvictionIsShortest(slots: seq<Slot>, kept: Slot, maxEntries: nat, budget: nat)
    requires DistinctIds(slots) && kept in slots && maxEntries > 0 && kept.serializedBytes <= budget
    ensures var n := Excess(slots, kept.id, maxEntries, budget);
            && Bounded(Drop(slots, kept.id, n), maxEntries, budget)
            && (forall k :: 0 <= k < n ==> !Bounded(Drop(slots, kept.id, k), maxEntries, budget))
            && kept in Drop(slots, kept.id, n) && DistinctIds(Drop(slots, kept.id, n))
    decreases |slots|
  {
    if !Bounded(slots, maxEntries, budget) {
      var i := OldestOther(slots, kept.id);
      if i < 0 {
        OnlyKept(slots, kept);
        TotalOne(kept);
      } else {
        DistinctWithout(slots, i);
        var rest := Without(slots, i);
        EvictionIsShortest(rest, kept, maxEntries, budget);
        var n := Excess(rest, kept.id, maxEntries, budget);
        DropStep(slots, kept.id, n);
        forall k | 0 <= k < n + 1 ensures !Bounded(Drop(slots, kept.id, k), maxEntries, budget) {
          if k > 0 {
            DropStep(slots, kept.id, k - 1);
          }
        }
      }
    }
  }

  /** What eviction leaves: the newest slots, with the kept one before them if it is older. */
  function Shape(slots: seq<Slot>, p: nat, n: nat): seq<Slot>
    requires p < |slots| && n < |slots|
  {
    if n <= p then slots[n..] else [slots[p]] + slots[n + 1..]
  }

  lemma {:induction false} DropShape(slots: seq<Slot>, keep: string, p: nat, n: nat)
    requires DistinctIds(slots) && p < |slots| && slots[p].id == keep && n < |slots|
    ensures Drop(slots, keep, n) == Shape(slots, p, n)
    decreases n
  {
    if n > 0 {
      RestDrops(slots, keep, p, n);
      DropShape(Rest(slots, p), keep, if p == 0 then 0 else p - 1, n - 1);
      DropShapeStep(slots, keep, p, n);
    } else {
      NothingDropped(slots, keep, p);
    }
  }

  lemma NothingDropped(slots: seq<Slot>, keep: string, p: nat)
    requires p < |slots|
    ensures Drop(slots, keep, 0) == Shape(slots, p, 0)
  {
    assert slots[0..] == slots;
  }

  /** The slots without the oldest other than slot p. */
  function Rest(slots: seq<Slot>, p: nat): seq<Slot>
    requires p < |slots| && |slots| > 1
  {
    Without(slots, if p == 0 then 1 else 0)
  }

  lemma DropShapeStep(slots: seq<Slot>, keep: string, p: nat, n: nat)
    requires DistinctIds(slots) && p < |slots| && slots[p].id == keep && 0 < n < |slots|
    requires Drop(Rest(slots, p), keep, n - 1) == Shape(Rest(slots, p), if p == 0 then 0 else p - 1, n - 1)
    ensures Drop(slots, keep, n) == Shape(slots, p, n)
  {
    RestDrops(slots, keep, p, n);
    ShapeStep(slots, p, n);
  }

  lemma RestDrops(slots: seq<Slot>, keep: string, p: nat, n: nat)
    requires DistinctIds(slots) && p < |slots| && slots[p].id == keep && 0 < n < |slots|
    ensures DistinctIds(Rest(slots, p)) && |Rest(slots, p)| == |slots| - 1
    ensures Rest(slots, p)[if p == 0 then 0 else p - 1].id == keep
    ensures Drop(slots, keep, n) == Drop(Rest(slots, p), keep, n - 1)
  {
    OldestIs(slots, keep, p);
    DropStep(slots, keep, n - 1);
    DistinctWithout(slots, if p == 0 then 1 else 0);
  }

  lemma ShapeStep(slots: seq<Slot>, p: nat, n: nat)
    requires p < |slots| && 0 < n < |slots|
    ensures var q := if p == 0 then 0 else p - 1;
        Rest(slots, p)[q] == slots[p] && Shape(slots, p, n) == Shape(Rest(slots, p), q, n - 1)
  {
    var rest := Rest(slots, p);
    if p == 0 {
      assert rest == [slots[0]] + slots[2..];
      if n == 1 {
        assert rest[0..] == rest;
      } else {
        assert rest[n..] == slots[n + 1..];
      }
    } else {
      assert rest == slots[1..];
      if n <= p {
        assert rest[n - 1..] == slots[n..];
      } else {
        assert rest[n..] == slots[n + 1..];
      }
    }
  }

  lemma OldestIs(slots: seq<Slot>, keep: string, p: nat)
    requires DistinctIds(slots) && p < |slots| && slots[p].id == keep && |slots| > 1
    ensures OldestOther(slots, keep) == if p == 0 then 1 else 0
  {
    assert slots[0].id != slots[1].id;
    var i := OldestOther(slots, keep);
  }

  lemma {:induction false} LiveDistinct(slots: seq<Slot>, now: int)
    requires DistinctIds(slots)
    ensures DistinctIds(Live(slots, now))
  {
    if slots != [] {
      LiveDistinct(slots[1..], now);
      forall s | s in Live(slots[1..], now) ensures s.id != slots[0].id {
        var j :| 0 <= j < |slots[1..]| && slots[1..][j] == s;
        assert slots[j + 1] == s;
      }
    }
  }

  lemma UpsertDistinct(slots: seq<Slot>, slot: Slot)
    requires DistinctIds(slots)
    ensures DistinctIds(Upsert(slots, slot))
  {
  }

  lemma {:induction false} TotalLive(slots: seq<Slot>, now: int)
    ensures Total(Live(slots, now)) <= Total(slots)
  {
    if slots != [] {
      TotalLive(slots[1..], now);
      var head := if slots[0].expiresAt > now then [slots[0]] else [];
      TotalConcat(head, Live(slots[1..], now));
      TotalOne(slots[0]);
    }
  }

  // ----- Windows -----

  datatype Stream = Combined | OnlyStdout | OnlyStderr

  datatype RetrieveOptions = RetrieveOptions(
    query: Option<string>,
    startLine: Option<int>,
    maxLines: Option<int>,
    contextLines: Option<int>,
    stream: Stream)

  datatype Window = Window(
    text: string,
    totalLines: nat,
    returnedStartLine: nat,
    returnedEndLine: nat,
    omittedLines: nat,
    matchLine: Option<nat>)

  const DEFAULT_MAX_LINES := 80
  const MAX_CONTEXT_LINES := 20

  function Clamp(n: int, low: int, high: int): int {
    if n < low then low else if n > high then high else n
  }

  function Source(p: Payload, stream: Stream): string {
    match stream
    case Combined => p.text
    case OnlyStdout => if p.stdout.Some? then p.stdout.value else ""
    case OnlyStderr => if p.stderr.Some? then p.stderr.value else ""
  }

  predicate Includes(line: string, query: string) {
    exists i :: 0 <= i <= |line| && query <= line[i..]
  }

  function FirstMatch(lines: seq<string>, query: string): (i: int)
    ensures -1 <= i < |lines|
    ensures i >= 0 ==> Includes(lines[i], query) && forall j :: 0 <= j < i ==> !Includes(lines[j], query)
    ensures i < 0 ==> forall j :: 0 <= j < |lines| ==> !Includes(lines[j], query)
  {
    if lines == [] then -1
    else if Includes(lines[0], query) then 0
    else
      var i := FirstMatch(lines[1..], query);
      if i < 0 then -1 else i + 1
  }

  /** The limits a request asks for, brought into the range the store allows. */
  function MaxLines(options: RetrieveOptions): (n: nat)
    ensures 1 <= n <= DEFAULT_MAX_LINES
  {
    Clamp(if options.maxLines.Some? then options.maxLines.value else DEFAULT_MAX_LINES, 1, DEFAULT_MAX_LINES)
  }

  function ContextLines(options: RetrieveOptions): (n: nat)
    ensures 0 <= n <= MAX_CONTEXT_LINES
  {
    Clamp(if options.contextLines.Some? then options.contextLines.value else 0, 0, MAX_CONTEXT_LINES)
  }

  /** The lines from `start` on that the window holds, and the range it reports. */
  ghost predicate Shows(w: Window, lines: seq<string>, start: nat, maxLines: nat) {
    && w.totalLines == |lines|
    && (start >= |lines| ==>
        w.text == "" && w.returnedStartLine == 0 && w.returnedEndLine == 0
        && w.omittedLines == |lines|)
    && (start < |lines| ==>
         && w.returnedStartLine == start + 1 <= w.returnedEndLine <= |lines|
         && w.returnedEndLine - start <= maxLines
            && (w.returnedEndLine - start < maxLines ==> w.returnedEndLine == |lines|)
         && w.omittedLines == |lines| - (w.returnedEndLine - start)
         && w.text == Join(lines[start..w.returnedEndLine], '\n'))
  }

  /** Line searched for: none without a query, with an empty one, or when no line includes it. */
  function MatchIndex(lines: seq<string>, query: Option<string>): (i: int)
    ensures -1 <= i < |lines|
  {
    if query.Some? && query.value != "" then FirstMatch(lines, query.value) else -1
  }

  function FirstLine(options: RetrieveOptions): nat {
    if options.startLine.Some? && options.startLine.value > 0 then options.startLine.value else 0
  }

  method Show(lines: seq<string>, start: nat, maxLines: nat, matchLine: Option<nat>) returns (w: Window)
    requires maxLines > 0
    ensures Shows(w, lines, start, maxLines) && w.matchLine == matchLine
  {
    var first := if start < |lines| then start else |lines|;
    var last := if start + maxLines < |lines| then start + maxLines else |lines|;
    var selected := lines[first..last];
    var range := if selected == [] then (0, 0) else (start + 1, start + |selected|);
    w := Window(Join(selected, '\n'), |lines|, range.0, range.1, |lines| - |selected|, matchLine);
  }

  /** With a match the window begins at most the asked context before it, and early enough to hold it. */
  function WindowStart(matchIndex: int, options: RetrieveOptions): (start: nat)
    ensures matchIndex >= 0 ==>
        start <= matchIndex <= start + ContextLines(options)
        && matchIndex < start + MaxLines(options)
    ensures matchIndex < 0 ==> start == FirstLine(options)
  {
    if matchIndex < 0 then FirstLine(options)
    else
      var before := if ContextLines(options) < MaxLines(options) - 1 then ContextLines(options)
                    else MaxLines(options) - 1;
      if matchIndex - before > 0 then matchIndex - before else 0
  }

  /** The window of a text: where the request says, or around the first matching line. */
  method WindowOf(source: string, options: RetrieveOptions) returns (w: Window)
    ensures Shows(w, Split(source, '\n'), WindowStart(MatchIndex(Split(source, '\n'), options.query), options),
                  MaxLines(options))
    ensures var at := MatchIndex(Split(source, '\n'), options.query);
            if at < 0 then w.matchLine.None?
            else w.matchLine == Some(at + 1) && w.returnedStartLine <= at + 1 <= w.returnedEndLine
  {
    var lines := Split(source, '\n');
    var matchIndex := MatchIndex(lines, options.query);
    var start := WindowStart(matchIndex, options);
    w := Show(lines, start, MaxLines(options), if matchIndex < 0 then None else Some(matchIndex + 1));
    if matchIndex >= 0 {
      MatchIsShown(w, lines, start, MaxLines(options), matchIndex);
    }
  }

  /** A window that starts no later than a line and reaches past it shows that line. */
  lemma MatchIsShown(w: Window, lines: seq<string>, start: nat, maxLines: nat, at: nat)
    requires Shows(w, lines, start, maxLines) && start <= at < start + maxLines && at < |lines|
    ensures w.returnedStartLine <= at + 1 <= w.returnedEndLine
  {
  }

  // ----- The store -----

  /** The faults the storage seam can inject: when an id is made, or when the staged entries are put in place. */
  datatype Fault = NoFault | IdFault | InsertFault

  datatype StoreError = StorageFault | InvalidOptions | DoesNotFit | AccountingViolated

  class InMemoryArtifactStore {
    var entries: seq<Slot>
    var retainedBytes: nat
    const ttlMs: nat
    const maxEntries: nat
    const maxBytes: nat
    const aggregateByteBudget: nat

    function Limit(): nat {
      if maxBytes < aggregateByteBudget then maxBytes else aggregateByteBudget
    }

    ghost predicate Valid()
      reads this
    {
      && maxEntries > 0 && maxBytes >= MIN_ARTIFACT_BYTES && aggregateByteBudget >= MIN_ARTIFACT_BYTES
      && DistinctIds(entries) && Bounded(entries, maxEntries, aggregateByteBudget)
      && retainedBytes == Total(entries)
      && forall s :: s in entries ==> s.serializedBytes == PayloadBytes(s.payload) <= Limit()
    }

    constructor (ttlMs: nat, maxEntries: nat, maxBytes: nat, aggregateByteBudget: nat)
      requires maxEntries > 0 && maxBytes >= MIN_ARTIFACT_BYTES && aggregateByteBudget >= MIN_ARTIFACT_BYTES
      ensures Valid() && entries == []
      ensures this.ttlMs == ttlMs && this.maxEntries == maxEntries && this.maxBytes == maxBytes
      ensures this.aggregateByteBudget == aggregateByteBudget
    {
      entries, retainedBytes := [], 0;
      this.ttlMs, this.maxEntries, this.maxBytes, this.aggregateByteBudget := ttlMs, maxEntries, maxBytes,
        aggregateByteBudget;
    }

    /** Options out of range are refused. */
    static method Create(ttlMs: int, maxEntries: int, maxBytes: int, aggregateByteBudget: int)
      returns (r: Result<InMemoryArtifactStore, StoreError>)
      ensures r.Ok? <==>
          ttlMs >= 0 && maxEntries > 0 && maxBytes >= MIN_ARTIFACT_BYTES
          && aggregateByteBudget >= MIN_ARTIFACT_BYTES
      ensures r.Ok? ==> fresh(r.value) && r.value.Valid() && r.value.entries == []
    {
      if ttlMs < 0 || maxEntries <= 0 || maxBytes < MIN_ARTIFACT_BYTES || aggregateByteBudget < MIN_ARTIFACT_BYTES {
        return Err(InvalidOptions);
      }
      var store := new InMemoryArtifactStore(ttlMs, maxEntries, maxBytes, aggregateByteBudget);
      r := Ok(store);
    }

    /** First the number of entries is brought within its bound. */
    method EvictEntries(staged: seq<Slot>, bytes: nat, slot: Slot)
        returns (next: seq<Slot>, nextBytes: nat, ghost gone: nat)
      requires DistinctIds(staged) && slot in staged && bytes == Total(staged) && maxEntries > 0
      requires |staged| <= maxEntries || (|staged| == maxEntries + 1 && staged[|staged| - 1] == slot)
      ensures Evicting(staged, next, slot, gone, maxEntries, aggregateByteBudget) && nextBytes == Total(next)
      ensures |next| <= maxEntries
    {
      next, nextBytes, gone := staged, bytes, 0;
      while |next| > maxEntries
        invariant Evicting(staged, next, slot, gone, maxEntries, aggregateByteBudget) && nextBytes == Total(next)
        invariant |next| <= maxEntries || (|next| == maxEntries + 1 && next[|next| - 1] == slot)
        decreases |next|
      {
        LastIsNotFirst(next);
        EvictedOne(staged, next, slot, gone, maxEntries, aggregateByteBudget, 0);
        nextBytes := nextBytes - next[0].serializedBytes;
        next, gone := Without(next, 0), gone + 1;
      }
    }

    /** Then the bytes, never taking the incoming entry; there is always another one to take. */
    method EvictBytes(ghost staged: seq<Slot>, trimmed: seq<Slot>, bytes: nat, slot: Slot, ghost before: nat)
        returns (next: seq<Slot>, nextBytes: nat, refused: Option<StoreError>)
      requires Evicting(staged, trimmed, slot, before, maxEntries, aggregateByteBudget) && bytes == Total(trimmed)
      requires |trimmed| <= maxEntries && slot.serializedBytes <= aggregateByteBudget
      ensures next == Evicted(staged, slot.id, maxEntries, aggregateByteBudget) && nextBytes == Total(next)
      ensures refused.None?
    {
      next, nextBytes, refused := trimmed, bytes, None;
      ghost var gone := before;
      while refused.None? && nextBytes > aggregateByteBudget
        invariant refused.None?
        invariant Evicting(staged, next, slot, gone, maxEntries, aggregateByteBudget) && nextBytes == Total(next)
        invariant |next| <= maxEntries
        decreases |next|
      {
        next, nextBytes, refused := EvictOldest(staged, next, nextBytes, slot, gone);
        gone := gone + 1;
      }
      EvictingEnds(staged, next, slot, gone, maxEntries, aggregateByteBudget);
    }

    /** Drops the oldest entry that is not the incoming one. */
    method EvictOldest(ghost staged: seq<Slot>, current: seq<Slot>, bytes: nat, slot: Slot, ghost gone: nat)
        returns (next: seq<Slot>, nextBytes: nat, refused: Option<StoreError>)
      requires Evicting(staged, current, slot, gone, maxEntries, aggregateByteBudget) && bytes == Total(current)
      requires bytes > aggregateByteBudget >= slot.serializedBytes
      ensures Evicting(staged, next, slot, gone + 1, maxEntries, aggregateByteBudget) && nextBytes == Total(next)
      ensures |next| == |current| - 1 && refused.None?
    {
      next, nextBytes, refused := current, bytes, None;
      var oldest := OldestOther(current, slot.id);
      OverBudgetHasOther(current, slot, aggregateByteBudget);
      EvictedOne(staged, current, slot, gone, maxEntries, aggregateByteBudget, oldest);
      if oldest >= 0 {
        next, nextBytes := Without(current, oldest), bytes - current[oldest].serializedBytes;
      } else {
        refused := Some(DoesNotFit);
      }
    }

    /** A bounded artifact fits both limits. */
    function FitError(serializedBytes: nat): (e: Option<StoreError>)
      ensures e.None? <==> serializedBytes <= Limit()
    {
      if serializedBytes > maxBytes then Some(DoesNotFit)
      else if serializedBytes > aggregateByteBudget then Some(DoesNotFit)
      else None
    }

    function AccountingError(nextBytes: int): (e: Option<StoreError>)
      ensures e.None? <==> 0 <= nextBytes <= aggregateByteBudget
    {
      if nextBytes < 0 || nextBytes > aggregateByteBudget then Some(AccountingViolated) else None
    }

    /** The staged entries with the incoming one in, within both bounds. */
    method StageInsert(live: seq<Slot>, bytes: nat, incoming: Slot)
        returns (next: seq<Slot>, nextBytes: nat, refused: Option<StoreError>)
      requires DistinctIds(live) && bytes == Total(live) && |live| <= maxEntries && maxEntries > 0
      requires incoming.serializedBytes <= aggregateByteBudget
      ensures next == Evicted(Upsert(live, incoming), incoming.id, maxEntries, aggregateByteBudget)
      ensures nextBytes == Total(next) && Bounded(next, maxEntries, aggregateByteBudget)
      ensures DistinctIds(next) && incoming in next && refused.None?
    {
      ghost var staged := Upsert(live, incoming);
      UpsertDistinct(live, incoming);
      UpsertAtEnd(live, incoming);
      TotalUpsert(live, incoming);
      EvictionIsShortest(staged, incoming, maxEntries, aggregateByteBudget);
      var previous := IndexOf(live, incoming.id);
      nextBytes := bytes;
      if previous >= 0 {
        nextBytes := BytesWithout(live, bytes, previous);
      }
      ghost var gone;
      next, nextBytes, gone := EvictEntries(Upsert(live, incoming), nextBytes + incoming.serializedBytes, incoming);
      next, nextBytes, refused := EvictBytes(staged, next, nextBytes, incoming, gone);
    }

    /** The slot an insertion makes: the artifact itself when it fits, else a bounded form of it. */
    ghost predicate Incoming(slot: Slot, artifact: Payload, id: string, now: int) {
      && slot.id == id && slot.expiresAt == now + ttlMs
      && slot.serializedBytes == PayloadBytes(slot.payload) <= Limit()
      && BoundForm(slot.payload, artifact, Limit())
    }

    method MakeSlot(artifact: Payload, id: string, now: int) returns (slot: Slot)
      requires Limit() >= MIN_ARTIFACT_BYTES
      ensures Incoming(slot, artifact, id, now)
    {
      var bounded := BoundArtifact(artifact, Limit());
      slot := Slot(id, bounded, now + ttlMs, PayloadBytes(bounded));
    }

    /**
     * Inserts an artifact under the given id or a new one. A storage fault leaves the entries as they were; otherwise
     * the expired entries are gone, the bounded artifact is in, and the fewest oldest others have been evicted. The
     * checks on the way never refuse: a bounded artifact fits, eviction finds an entry to drop, and the bytes add up.
     */
    method PutArtifact(artifact: Payload, id: Option<string>, newId: string, now: int, fault: Fault)
        returns (r: Result<string, StoreError>, ghost slot: Slot)
      requires Valid()
      modifies this
      ensures Valid()
      ensures r.Err? <==> fault.InsertFault? || (fault.IdFault? && id.None?)
      ensures r.Err? ==> r.error == StorageFault
      ensures r.Err? ==> entries == old(entries) && retainedBytes == old(retainedBytes)
      ensures r.Ok? ==>
                && r.value == (if id.Some? then id.value else "mx_" + newId) && Incoming(slot, artifact, r.value, now)
                && entries == Evicted(Upsert(Live(old(entries), now), slot), slot.id, maxEntries, aggregateByteBudget)
                && slot in entries
    {
      var live, liveBytes := KeepLive(entries, retainedBytes, now);
      slot := Slot("", Payload("", None, None, None), 0, 0);
      if id.None? && fault.IdFault? {
        return Err(StorageFault), slot;
      }
      var resolvedId := if id.Some? then id.value else "mx_" + newId;
      var incoming := MakeSlot(artifact, resolvedId, now);
      slot := incoming;
      LiveDistinct(entries, now);
      var next, nextBytes, refused := live, liveBytes, FitError(incoming.serializedBytes);
      if refused.None? {
        next, nextBytes, refused := StageInsert(live, liveBytes, incoming);
      }
      if refused.None? {
        refused := AccountingError(nextBytes);
      }
      if refused.None? && !fault.InsertFault? {
        Commit(next, nextBytes, live, incoming, now);
        r := Ok(resolvedId);
      } else {
        r := Err(match refused case Some(error) => error case None => StorageFault);
      }
    }

    /** The staged entries take the place of the old ones, all at once. */
    method Commit(next: seq<Slot>, nextBytes: nat, ghost live: seq<Slot>, ghost incoming: Slot, ghost now: int)
      requires Valid() && live == Live(entries, now)
      requires incoming.serializedBytes == PayloadBytes(incoming.payload) <= Limit()
      requires next == Evicted(Upsert(live, incoming), incoming.id, maxEntries, aggregateByteBudget)
      requires nextBytes == Total(next) && Bounded(next, maxEntries, aggregateByteBudget) && DistinctIds(next)
      modifies this
      ensures Valid() && entries == next
    {
      EvictedSlots(live, incoming, maxEntries, aggregateByteBudget);
      entries, retainedBytes := next, nextBytes;
    }

    method BytesWithout(slots: seq<Slot>, bytes: nat, i: nat) returns (r: nat)
      requires i < |slots| && bytes == Total(slots)
      ensures r == bytes - slots[i].serializedBytes
    {
      TotalWithout(slots, i);
      r := bytes - slots[i].serializedBytes;
    }

    /** Removes an entry and its bytes. */
    method RemoveEntry(i: nat)
      requires Valid() && i < |entries|
      modifies this
      ensures Valid() && entries == Without(old(entries), i)
    {
      DistinctWithout(entries, i);
      WithoutIn(entries, i);
      TotalWithout(entries, i);
      retainedBytes := retainedBytes - entries[i].serializedBytes;
      entries := Without(entries, i);
    }

    /** Size of what is retained under the id; looking does not count as use. */
    method GetStoredArtifactBytes(id: string, now: int) returns (bytes: Option<nat>)
      requires Valid()
      modifies this
      ensures Valid()
      ensures var i := IndexOf(old(entries), id);
              if i < 0 then bytes.None? && entries == old(entries)
              else if old(entries)[i].expiresAt <= now then bytes.None? && entries == Without(old(entries), i)
              else bytes == Some(PayloadBytes(old(entries)[i].payload)) && entries == old(entries)
    {
      var i := IndexOf(entries, id);
      if i < 0 {
        return None;
      }
      if entries[i].expiresAt <= now {
        RemoveEntry(i);
        return None;
      }
      assert entries[i] in entries;
      bytes := Some(entries[i].serializedBytes);
    }

    /** A live entry becomes the most recently used and shows the window asked for. */
    method Retrieve(id: string, options: RetrieveOptions, now: int) returns (r: Option<Window>)
      requires Valid()
      modifies this
      ensures Valid()
      ensures var i := IndexOf(old(entries), id);
              if i < 0 then r.None? && entries == old(entries)
              else if old(entries)[i].expiresAt <= now then r.None? && entries == Without(old(entries), i)
              else
                && entries == Without(old(entries), i) + [old(entries)[i]] && r.Some?
                && var lines := Split(Source(old(entries)[i].payload, options.stream), '\n');
                && Shows(r.value, lines, WindowStart(MatchIndex(lines, options.query), options), MaxLines(options))
                && r.value.matchLine == if MatchIndex(lines, options.query) < 0 then None
                                        else Some(MatchIndex(lines, options.query) + 1)
    {
      var i := IndexOf(entries, id);
      if i < 0 {
        return None;
      }
      if entries[i].expiresAt <= now {
        RemoveEntry(i);
        return None;
      }
      var entry := entries[i];
      Refreshed(entries, i);
      entries := Without(entries, i) + [entry];
      var window := WindowOf(Source(entry.payload, options.stream), options);
      r := Some(window);
    }

    /** The newest live entries that match, at most the allowed number; what has expired is removed. */
    method Search(matches: Payload -> bool, maxResults: int, now: int) returns (found: seq<Slot>)
      requires Valid()
      modifies this
      ensures Valid() && entries == Live(old(entries), now)
      ensures found == First(Reversed(Selected(entries, matches)), Clamp(maxResults, 1, MAX_RESULTS))
    {
      var next, nextBytes := KeepLive(entries, retainedBytes, now);
      LiveDistinct(entries, now);
      TotalLive(entries, now);
      entries, retainedBytes := next, nextBytes;
      found := Newest(entries, matches, Clamp(maxResults, 1, MAX_RESULTS));
    }
  }

  /** The entries that have not expired, and their bytes. */
  method KeepLive(slots: seq<Slot>, bytes: nat, now: int) returns (next: seq<Slot>, nextBytes: nat)
    requires bytes == Total(slots)
    ensures next == Live(slots, now) && nextBytes == Total(next)
  {
    next, nextBytes := [], bytes;
    for i := 0 to |slots|
      invariant Live(slots, now) == next + Live(slots[i..], now)
      invariant nextBytes == Total(next) + Total(slots[i..])
    {
      LiveStep(slots, i, now, next);
      if slots[i].expiresAt <= now {
        nextBytes := nextBytes - slots[i].serializedBytes;
      } else {
        next := next + [slots[i]];
      }
    }
    assert slots[|slots|..] == [] && next + [] == next;
  }

  method Newest(slots: seq<Slot>, matches: Payload -> bool, limit: nat) returns (found: seq<Slot>)
    requires limit > 0
    ensures found == First(Reversed(Selected(slots, matches)), limit)
  {
    found := [];
    var i := |slots|;
    assert slots[..|slots|] == slots;
    while i > 0
      invariant 0 <= i <= |slots| && |found| < limit
      invariant Reversed(Selected(slots, matches)) == found + Reversed(Selected(slots[..i], matches))
    {
      i := i - 1;
      SelectedStep(slots, i, matches, found);
      if matches(slots[i].payload) {
        found := found + [slots[i]];
        if |found| >= limit {
          Enough(found, Reversed(Selected(slots[..i], matches)), limit);
          return;
        }
      }
    }
    assert slots[..0] == [] && found + [] == found;
  }

  lemma Enough(found: seq<Slot>, rest: seq<Slot>, limit: nat)
    requires |found| == limit
    ensures First(found + rest, limit) == found
  {
  }

  const MAX_RESULTS := 100

  function Selected(slots: seq<Slot>, matches: Payload -> bool): seq<Slot> {
    if slots == [] then []
    else Selected(slots[..|slots| - 1], matches)
           + if matches(slots[|slots| - 1].payload) then [slots[|slots| - 1]] else []
  }

  function Reversed(slots: seq<Slot>): seq<Slot> {
    if slots == [] then [] else [slots[|slots| - 1]] + Reversed(slots[..|slots| - 1])
  }

  function First(slots: seq<Slot>, n: nat): seq<Slot> {
    if |slots| <= n then slots else slots[..n]
  }

  lemma ReversedSnoc(slots: seq<Slot>, slot: Slot)
    ensures Reversed(slots + [slot]) == [slot] + Reversed(slots)
  {
    assert (slots + [slot])[..|slots|] == slots;
  }

  lemma SelectedStep(slots: seq<Slot>, i: nat, matches: Payload -> bool, found: seq<Slot>)
    requires i < |slots|
    ensures found + Reversed(Selected(slots[..i + 1], matches)) ==
              (if matches(slots[i].payload) then found + [slots[i]] else found)
                + Reversed(Selected(slots[..i], matches))
  {
    assert slots[..i + 1][..i] == slots[..i];
    var before := Selected(slots[..i], matches);
    if matches(slots[i].payload) {
      ReversedSnoc(before, slots[i]);
    } else {
      assert before + [] == before;
    }
  }

  lemma LiveStep(slots: seq<Slot>, i: nat, now: int, next: seq<Slot>)
    requires i < |slots| && Live(slots, now) == next + Live(slots[i..], now)
    ensures Live(slots, now) == (if slots[i].expiresAt <= now then next else next + [slots[i]])
        + Live(slots[i + 1..], now)
    ensures Total(slots[i..]) == slots[i].serializedBytes + Total(slots[i + 1..])
    ensures Total(next + [slots[i]]) == Total(next) + slots[i].serializedBytes
  {
    assert slots[i..][0] == slots[i] && slots[i..][1..] == slots[i + 1..];
    TotalConcat(next, [slots[i]]);
    TotalOne(slots[i]);
    var head := if slots[i].expiresAt > now then [slots[i]] else [];
    Regroup(Live(slots, now), next, head, Live(slots[i + 1..], now));
    assert next + [] == next;
  }

  lemma UpsertAtEnd(slots: seq<Slot>, slot: Slot)
    ensures |Upsert(slots, slot)| == |slots|
        || (|Upsert(slots, slot)| == |slots| + 1 && Upsert(slots, slot)[|slots|] == slot)
    ensures forall s :: s in Upsert(slots, slot) ==> s == slot || s in slots
  {
  }

  /** Everything that survives an insertion is the incoming slot or was there before. */
  lemma EvictedSlots(live: seq<Slot>, slot: Slot, maxEntries: nat, budget: nat)
    ensures forall s :: s in Evicted(Upsert(live, slot), slot.id, maxEntries, budget) ==> s == slot || s in live
  {
    UpsertAtEnd(live, slot);
    DropIn(Upsert(live, slot), slot.id, Excess(Upsert(live, slot), slot.id, maxEntries, budget));
  }

  /** Moving an entry to the end keeps ids, entries and bytes. */
  lemma Refreshed(slots: seq<Slot>, i: nat)
    requires DistinctIds(slots) && i < |slots|
    ensures var r := Without(slots, i) + [slots[i]];
            DistinctIds(r) && |r| == |slots| && Total(r) == Total(slots) && forall s :: s in r ==> s in slots
  {
    DistinctWithout(slots, i);
    WithoutIn(slots, i);
    TotalWithout(slots, i);
    TotalConcat(Without(slots, i), [slots[i]]);
    TotalOne(slots[i]);
    WithoutId(slots, i);
  }

  lemma WithoutId(slots: seq<Slot>, i: nat)
    requires DistinctIds(slots) && i < |slots|
    ensures forall j :: 0 <= j < |slots| - 1 ==> Without(slots, i)[j].id != slots[i].id
  {
  }

  /** Part of an eviction: `gone` slots are out, and the bounds still need what `next` is in excess of them. */
  ghost predicate Evicting(staged: seq<Slot>, next: seq<Slot>, kept: Slot, gone: nat, maxEntries: nat, budget: nat) {
    && DistinctIds(next) && kept in next && next == Drop(staged, kept.id, gone)
    && Excess(staged, kept.id, maxEntries, budget) == gone + Excess(next, kept.id, maxEntries, budget)
  }

  lemma EvictingEnds(staged: seq<Slot>, next: seq<Slot>, kept: Slot, gone: nat, maxEntries: nat, budget: nat)
    requires Evicting(staged, next, kept, gone, maxEntries, budget) && Bounded(next, maxEntries, budget)
    ensures next == Evicted(staged, kept.id, maxEntries, budget)
  {
  }

  lemma LastIsNotFirst(slots: seq<Slot>)
    requires DistinctIds(slots) && |slots| > 1
    ensures OldestOther(slots, slots[|slots| - 1].id) == 0
  {
    assert slots[0].id != slots[|slots| - 1].id;
  }

  lemma OverBudgetHasOther(slots: seq<Slot>, kept: Slot, budget: nat)
    requires DistinctIds(slots) && kept in slots && kept.serializedBytes <= budget < Total(slots)
    ensures OldestOther(slots, kept.id) >= 0
  {
    if OldestOther(slots, kept.id) < 0 {
      OnlyKept(slots, kept);
      TotalOne(kept);
    }
  }

  lemma EvictedOne(staged: seq<Slot>, next: seq<Slot>, kept: Slot, gone: nat, maxEntries: nat, budget: nat, oldest: nat)
    requires Evicting(staged, next, kept, gone, maxEntries, budget)
    requires !Bounded(next, maxEntries, budget) && oldest == OldestOther(next, kept.id)
    ensures Evicting(staged, Without(next, oldest), kept, gone + 1, maxEntries, budget)
    ensures Total(Without(next, oldest)) == Total(next) - next[oldest].serializedBytes
  {
    DistinctWithout(next, oldest);
    TotalWithout(next, oldest);
    DropMore(staged, kept.id, gone);
  }

  function WithoutOldest(slots: seq<Slot>, keep: string): seq<Slot> {
    if OldestOther(slots, keep) < 0 then slots else Without(slots, OldestOther(slots, keep))
  }

  lemma DropFirst(slots: seq<Slot>, keep: string, n: nat)
    ensures Drop(slots, keep, n + 1) == Drop(WithoutOldest(slots, keep), keep, n)
  {
  }

  /** Dropping one more is dropping the oldest of what is left. */
  lemma {:induction false} DropMore(slots: seq<Slot>, keep: string, n: nat)
    ensures Drop(slots, keep, n + 1) == WithoutOldest(Drop(slots, keep, n), keep)
    decreases n
  {
    var next := WithoutOldest(slots, keep);
    DropFirst(slots, keep, n);
    assert Drop(slots, keep, n + 1) == Drop(next, keep, n);
    if n > 0 {
      DropFirst(slots, keep, n - 1);
      assert Drop(slots, keep, n) == Drop(next, keep, n - 1);
      DropMore(next, keep, n - 1);
    }
  }

  lemma {:induction false} ExcessIsSmall(slots: seq<Slot>, kept: Slot, maxEntries: nat, budget: nat)
    requires DistinctIds(slots) && kept in slots
    ensures Excess(slots, kept.id, maxEntries, budget) < |slots|
    decreases |slots|
  {
    var i := OldestOther(slots, kept.id);
    if i >= 0 {
      DistinctWithout(slots, i);
      ExcessIsSmall(Without(slots, i), kept, maxEntries, budget);
    }
  }

  /** After an insertion the store holds its newest entries, and the incoming one even when it is older. */
  lemma NewestSurvive(live: seq<Slot>, slot: Slot, maxEntries: nat, budget: nat) returns (p: nat)
    requires DistinctIds(live)
    ensures var staged, n := Upsert(live, slot), Excess(Upsert(live, slot), slot.id, maxEntries, budget);
            && p < |staged| && staged[p] == slot && n < |staged|
            && Evicted(staged, slot.id, maxEntries, budget) == if n <= p then staged[n..] else [slot] + staged[n + 1..]
  {
    var staged := Upsert(live, slot);
    UpsertDistinct(live, slot);
    ExcessIsSmall(staged, slot, maxEntries, budget);
    p := if IndexOf(live, slot.id) >= 0 then IndexOf(live, slot.id) else |live|;
    DropShape(staged, slot.id, p, Excess(staged, slot.id, maxEntries, budget));
  }
}
