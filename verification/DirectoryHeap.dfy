/**
 * The bounded max-heap that keeps the smallest names of a directory while it is read in whatever order the file
 * system delivers it.
 */
module DirectoryHeap {
  import opened Utf16
  import opened DirectoryOrder

  function Parent(k: nat): nat
    requires k > 0
  {
    (k - 1) / 2
  }

  ghost predicate HeapOrder(h: seq<Dirent>) {
    forall k :: 1 <= k < |h| ==> AtLeast(h[Parent(k)], h[k])
  }

  /** Heap order everywhere except between i and its parent; what is below i is below that parent too. */
  ghost predicate RisingOrder(h: seq<Dirent>, i: nat) {
    && i < |h|
    && (forall k :: 1 <= k < |h| && k != i ==> AtLeast(h[Parent(k)], h[k]))
    && (forall k :: 1 <= k < |h| && Parent(k) == i && i > 0 ==> AtLeast(h[Parent(i)], h[k]))
  }

  /** Heap order everywhere except between i and its children. */
  ghost predicate SinkingOrder(h: seq<Dirent>, i: nat) {
    && i < |h|
    && (forall k :: 1 <= k < |h| && Parent(k) != i ==> AtLeast(h[Parent(k)], h[k]))
    && (forall k :: 1 <= k < |h| && Parent(k) == i && i > 0 ==> AtLeast(h[Parent(i)], h[k]))
  }

  function Swap(h: seq<Dirent>, i: nat, j: nat): (r: seq<Dirent>)
    requires i < |h| && j < |h|
    ensures |r| == |h| && multiset(r) == multiset(h)
  {
    h[i := h[j]][j := h[i]]
  }

  lemma SwapUp(h: seq<Dirent>, i: nat)
    requires RisingOrder(h, i) && i > 0 && !AtLeast(h[Parent(i)], h[i])
    ensures RisingOrder(Swap(h, Parent(i), i), Parent(i))
  {
    var p := Parent(i);
    var s := Swap(h, p, i);
    LessAtLeast(h[p], h[i]);
    forall k | 1 <= k < |s| && k != p ensures AtLeast(s[Parent(k)], s[k]) {
      if Parent(k) == p && k != i {
        AtLeastTransitive(h[i], h[p], h[k]);
      }
    }
    forall k | 1 <= k < |s| && Parent(k) == p && p > 0 ensures AtLeast(s[Parent(p)], s[k]) {
      if k != i {
        AtLeastTransitive(h[Parent(p)], h[p], h[k]);
      }
    }
  }

  /** The larger child of i, or i itself when no child is larger. */
  ghost predicate LargestOf(h: seq<Dirent>, i: nat, largest: nat) {
    && i < |h| && largest < |h| && (largest == i || (largest > 0 && Parent(largest) == i && Less(h[i], h[largest])))
    && forall k :: 1 <= k < |h| && Parent(k) == i ==> AtLeast(h[largest], h[k])
  }

  lemma SwapDown(h: seq<Dirent>, i: nat, largest: nat)
    requires SinkingOrder(h, i) && LargestOf(h, i, largest) && largest != i
    ensures SinkingOrder(Swap(h, i, largest), largest)
  {
    var s := Swap(h, i, largest);
    LessAtLeast(h[i], h[largest]);
    forall k | 1 <= k < |s| && Parent(k) != largest ensures AtLeast(s[Parent(k)], s[k]) {
    }
    forall k | 1 <= k < |s| && Parent(k) == largest ensures AtLeast(s[Parent(largest)], s[k]) {
    }
  }

  lemma SettledDown(h: seq<Dirent>, i: nat)
    requires SinkingOrder(h, i) && LargestOf(h, i, i)
    ensures HeapOrder(h)
  {
  }

  lemma {:induction false} RootIsLargest(h: seq<Dirent>, k: nat)
    requires HeapOrder(h) && k < |h|
    ensures AtLeast(h[0], h[k])
  {
    if k == 0 {
      BeforeTotal(h[0].name, h[0].name);
    } else {
      RootIsLargest(h, Parent(k));
      AtLeastTransitive(h[0], h[Parent(k)], h[k]);
    }
  }

  // ----- The two sifts -----

  /** The part of the array above the heap and the contents of the heap are kept. */
  twostate predicate Rearranged(heap: array<Dirent>, n: nat)
    reads heap
  {
    n <= heap.Length && multiset(heap[..n]) == multiset(old(heap[..n])) && heap[n..] == old(heap[n..])
  }

  method SiftUpMaxHeap(heap: array<Dirent>, n: nat, start: nat)
    requires n <= heap.Length && RisingOrder(heap[..n], start)
    modifies heap
    ensures HeapOrder(heap[..n]) && Rearranged(heap, n)
  {
    var index: nat := start;
    while index > 0
      invariant RisingOrder(heap[..n], index) && Rearranged(heap, n)
    {
      var parent := (index - 1) / 2;
      ghost var h := heap[..n];
      if AtLeast(heap[parent], heap[index]) {
        assert AtLeast(h[Parent(index)], h[index]);
        return;
      }
      SwapUp(h, index);
      heap[parent], heap[index] := heap[index], heap[parent];
      assert heap[..n] == Swap(h, parent, index);
      index := parent;
    }
  }

  method SiftDownMaxHeap(heap: array<Dirent>, n: nat, start: nat)
    requires n <= heap.Length && SinkingOrder(heap[..n], start)
    modifies heap
    ensures HeapOrder(heap[..n]) && Rearranged(heap, n)
  {
    var index := start;
    while true
      invariant SinkingOrder(heap[..n], index) && Rearranged(heap, n)
      decreases n - index
    {
      var largest := Largest(heap, n, index);
      ghost var h := heap[..n];
      if largest == index {
        SettledDown(h, index);
        return;
      }
      SwapDown(h, index, largest);
      heap[index], heap[largest] := heap[largest], heap[index];
      assert heap[..n] == Swap(h, index, largest);
      index := largest;
    }
  }

  method Largest(heap: array<Dirent>, n: nat, index: nat) returns (largest: nat)
    requires index < n <= heap.Length
    ensures LargestOf(heap[..n], index, largest)
  {
    var left := index * 2 + 1;
    var right := left + 1;
    largest := index;
    BeforeTotal(heap[index].name, heap[index].name);
    if left < n && Less(heap[largest], heap[left]) {
      largest := left;
      LessAtLeast(heap[index], heap[left]);
    }
    if right < n && Less(heap[largest], heap[right]) {
      AtLeastFromChoice(heap[index], heap[left], heap[right], largest == left);
      largest := right;
    }
    ghost var h := heap[..n];
    if left < n {
      BeforeTotal(heap[left].name, heap[left].name);
    }
    if right < n {
      BeforeTotal(heap[right].name, heap[right].name);
    }
    forall k | 1 <= k < |h| && Parent(k) == index ensures AtLeast(h[largest], h[k]) {
      assert k == left || k == right;
    }
  }

  /** The right child beats whichever of the node and its left child was larger. */
  lemma AtLeastFromChoice(node: Dirent, left: Dirent, right: Dirent, leftLarger: bool)
    requires if leftLarger then Less(node, left) && Less(left, right) else AtLeast(node, left) && Less(node, right)
    ensures Less(node, right) && AtLeast(right, left)
  {
    if leftLarger {
      BeforeTransitive(node.name, left.name, right.name);
      LessAtLeast(left, right);
    } else {
      LessAtLeast(node, right);
      AtLeastTransitive(right, node, left);
    }
  }

  // ----- Reading a directory -----

  /** The entries kept so far are the smallest: everything dropped is no smaller than the root. */
  ghost predicate Keeps(h: seq<Dirent>, dropped: seq<Dirent>, seen: seq<Dirent>, limit: nat) {
    && HeapOrder(h)
    && multiset(h) + multiset(dropped) == multiset(Visible(seen))
    && (|h| < limit ==> dropped == [])
    && (h != [] ==> forall d :: d in dropped ==> AtLeast(d, h[0]))
  }

  lemma {:induction false} VisibleSnoc(seen: seq<Dirent>, e: Dirent)
    ensures Visible(seen + [e]) == Visible(seen) + if Omitted(e) then [] else [e]
  {
    if seen != [] {
      assert (seen + [e])[1..] == seen[1..] + [e];
      VisibleSnoc(seen[1..], e);
    }
  }

  lemma PushRises(h: seq<Dirent>, e: Dirent)
    requires HeapOrder(h)
    ensures RisingOrder(h + [e], |h|)
  {
  }

  lemma ReplaceSinks(h: seq<Dirent>, e: Dirent)
    requires HeapOrder(h) && h != []
    ensures SinkingOrder(h[0 := e], 0)
  {
  }

  lemma KeepsPushed(h: seq<Dirent>, e: Dirent, pushed: seq<Dirent>, dropped: seq<Dirent>, seen: seq<Dirent>, limit: nat)
    requires Keeps(h, dropped, seen, limit) && |h| < limit && !Omitted(e)
    requires HeapOrder(pushed) && multiset(pushed) == multiset(h + [e])
    ensures Keeps(pushed, dropped, seen + [e], limit)
  {
    VisibleSnoc(seen, e);
    assert multiset(h + [e]) == multiset(h) + multiset{e};
  }

  lemma KeepsDropped(h: seq<Dirent>, e: Dirent, dropped: seq<Dirent>, seen: seq<Dirent>, limit: nat)
    requires Keeps(h, dropped, seen, limit) && h != [] && |h| >= limit && !Omitted(e) && AtLeast(e, h[0])
    ensures Keeps(h, dropped + [e], seen + [e], limit)
  {
    VisibleSnoc(seen, e);
    assert multiset(dropped + [e]) == multiset(dropped) + multiset{e};
  }

  lemma KeepsReplaced(h: seq<Dirent>, e: Dirent, replaced: seq<Dirent>, dropped: seq<Dirent>, seen: seq<Dirent>,
                      limit: nat)
    requires Keeps(h, dropped, seen, limit) && h != [] && |h| >= limit && !Omitted(e) && Less(e, h[0])
    requires HeapOrder(replaced) && multiset(replaced) == multiset(h[0 := e])
    ensures Keeps(replaced, dropped + [h[0]], seen + [e], limit)
  {
    VisibleSnoc(seen, e);
    MultisetMembers(replaced, h[0 := e]);
    assert replaced[0] in h[0 := e];
    var k :| 0 <= k < |h| && h[0 := e][k] == replaced[0];
    if k == 0 {
      LessAtLeast(e, h[0]);
    } else {
      RootIsLargest(h, k);
    }
    forall d | d in dropped + [h[0]] ensures AtLeast(d, replaced[0]) {
      if d in dropped {
        AtLeastTransitive(d, h[0], replaced[0]);
      }
    }
    assert multiset(dropped + [h[0]]) == multiset(dropped) + multiset{h[0]};
  }

  lemma KeptAreDistinct(h: seq<Dirent>, dropped: seq<Dirent>, seen: seq<Dirent>)
    requires multiset(h) + multiset(dropped) == multiset(Visible(seen)) && DistinctEntries(seen)
    ensures DistinctEntries(h + dropped) && DistinctEntries(h) && DistinctEntries(dropped)
    ensures Ordered(Sorted(h)) && Ordered(Sorted(dropped)) && Ordered(Sorted(Visible(seen)))
    ensures |h| + |dropped| == |Visible(seen)|
  {
    VisibleDistinct(seen);
    assert multiset(h + dropped) == multiset(Visible(seen));
    PermutedDistinct(Visible(seen), h + dropped);
    MultisetMembers(h + dropped, Visible(seen));
    PartDistinct(h, dropped);
    SortedIsOrdered(Visible(seen));
    SortedIsOrdered(h);
    SortedIsOrdered(dropped);
  }

  lemma OrderedConcat(a: seq<Dirent>, b: seq<Dirent>)
    requires Ordered(a) && Ordered(b) && forall x, y :: x in a && y in b ==> Less(x, y)
    ensures Ordered(a + b)
  {
  }

  lemma JoinedOrdered(h: seq<Dirent>, dropped: seq<Dirent>)
    requires HeapOrder(h) && DistinctEntries(h + dropped) && (h != [] ==> forall d :: d in dropped ==> AtLeast(d, h[0]))
    requires Ordered(Sorted(h)) && Ordered(Sorted(dropped))
    ensures Ordered(Sorted(h) + Sorted(dropped))
  {
    forall x, y | x in Sorted(h) && y in Sorted(dropped) ensures Less(x, y) {
      AcrossLess(h, dropped, x, y);
    }
    OrderedConcat(Sorted(h), Sorted(dropped));
  }

  /** What was kept, sorted, is the front of everything visible, sorted. */
  lemma KeptIsFront(h: seq<Dirent>, dropped: seq<Dirent>, seen: seq<Dirent>, limit: nat)
    requires Keeps(h, dropped, seen, limit) && DistinctEntries(seen) && |h| <= limit && limit > 0
    ensures Sorted(Visible(seen)) == Sorted(h) + Sorted(dropped)
    ensures Sorted(h) == if |Visible(seen)| <= limit then Sorted(Visible(seen)) else Sorted(Visible(seen))[..limit]
    ensures dropped != [] <==> |Visible(seen)| > limit
  {
    KeptAreDistinct(h, dropped, seen);
    JoinedOrdered(h, dropped);
    OrderedUnique(Sorted(h) + Sorted(dropped), Sorted(Visible(seen)));
  }

  lemma PartDistinct(h: seq<Dirent>, dropped: seq<Dirent>)
    requires DistinctEntries(h + dropped)
    ensures DistinctEntries(h) && DistinctEntries(dropped)
  {
    var whole := h + dropped;
    forall i, j | 0 <= i < j < |h| ensures h[i].name != h[j].name {
      assert whole[i] == h[i] && whole[j] == h[j];
    }
    forall i, j | 0 <= i < j < |dropped| ensures dropped[i].name != dropped[j].name {
      assert whole[|h| + i] == dropped[i] && whole[|h| + j] == dropped[j];
    }
  }

  lemma AcrossLess(h: seq<Dirent>, dropped: seq<Dirent>, kept: Dirent, lost: Dirent)
    requires HeapOrder(h) && DistinctEntries(h + dropped) && kept in h && lost in dropped
    requires forall d :: d in dropped ==> AtLeast(d, h[0])
    ensures Less(kept, lost)
  {
    var i :| 0 <= i < |h| && h[i] == kept;
    var j :| 0 <= j < |dropped| && dropped[j] == lost;
    RootIsLargest(h, i);
    AtLeastTransitive(lost, h[0], kept);
    assert (h + dropped)[i] == kept && (h + dropped)[|h| + j] == lost;
    BeforeTotal(kept.name, lost.name);
  }

  /** Distinct names are a matter of contents. */
  lemma {:induction false} PermutedDistinct(a: seq<Dirent>, b: seq<Dirent>)
    requires DistinctEntries(a) && multiset(a) == multiset(b)
    ensures DistinctEntries(b)
  {
    forall i, j | 0 <= i < j < |b| ensures b[i].name != b[j].name {
      MultisetMembers(a, b);
      assert b[i] in a && b[j] in a;
      if b[i] == b[j] {
        TwiceCounted(b, i, j);
        OnceCounted(a, b[i]);
        assert false;
      }
    }
  }

  lemma TwiceCounted(s: seq<Dirent>, i: nat, j: nat)
    requires i < j < |s| && s[i] == s[j]
    ensures multiset(s)[s[i]] >= 2
  {
    var front, back := s[..j], s[j..];
    assert s == front + back;
    assert s[i] in front && s[j] in back by {
      assert front[i] == s[i] && back[0] == s[j];
    }
    assert multiset(s) == multiset(front) + multiset(back);
  }

  lemma {:induction false} OnceCounted(s: seq<Dirent>, e: Dirent)
    requires DistinctEntries(s) && e in s
    ensures multiset(s)[e] == 1
  {
    assert s == [s[0]] + s[1..];
    if e == s[0] {
      assert e !in s[1..];
      assert multiset(s[1..])[e] == 0;
    } else {
      OnceCounted(s[1..], e);
    }
  }

  /** One entry is offered to the heap in selected[..n]. */
  method Offer(selected: array<Dirent>, n: nat, entry: Dirent, ghost dropped: seq<Dirent>, ghost seen: seq<Dirent>)
    returns (count: nat, full: bool, ghost lost: seq<Dirent>)
    requires 0 < selected.Length && n <= selected.Length && !Omitted(entry)
    requires Keeps(selected[..n], dropped, seen, selected.Length)
    modifies selected
    ensures n <= count <= selected.Length && Keeps(selected[..count], lost, seen + [entry], selected.Length)
    ensures full <==> n == selected.Length
    ensures if full then lost != [] else lost == dropped
  {
    ghost var h := selected[..n];
    count, full, lost := n, n >= selected.Length, dropped;
    if !full {
      selected[n] := entry;
      count := n + 1;
      assert selected[..count] == h + [entry];
      PushRises(h, entry);
      SiftUpMaxHeap(selected, count, n);
      KeepsPushed(h, entry, selected[..count], dropped, seen, selected.Length);
      return;
    }
    if Less(entry, selected[0]) {
      selected[0] := entry;
      assert selected[..n] == h[0 := entry];
      ReplaceSinks(h, entry);
      SiftDownMaxHeap(selected, n, 0);
      KeepsReplaced(h, entry, selected[..n], dropped, seen, selected.Length);
      lost := dropped + [h[0]];
    } else {
      KeepsDropped(h, entry, dropped, seen, selected.Length);
      lost := dropped + [entry];
    }
  }

  /**
   * The `limit` smallest entries that are not omitted, sorted, whatever order they are delivered in, and whether there
   * were more.
   */
  method ReadSortedDirectory(delivered: seq<Dirent>, limit: nat) returns (entries: seq<Dirent>, hasMore: bool)
    requires limit > 0 && DistinctEntries(delivered)
    ensures entries == if |Visible(delivered)| <= limit then Sorted(Visible(delivered))
                       else Sorted(Visible(delivered))[..limit]
    ensures hasMore <==> |Visible(delivered)| > limit
  {
    var selected := new Dirent[limit];
    var n := 0;
    hasMore := false;
    ghost var dropped: seq<Dirent> := [];
    for i := 0 to |delivered|
      invariant 0 <= n <= limit
      invariant Keeps(selected[..n], dropped, delivered[..i], limit)
      invariant hasMore <==> dropped != []
    {
      assert delivered[..i + 1] == delivered[..i] + [delivered[i]];
      VisibleSnoc(delivered[..i], delivered[i]);
      if Omitted(delivered[i]) {
        continue;
      }
      var full;
      n, full, dropped := Offer(selected, n, delivered[i], dropped, delivered[..i]);
      hasMore := hasMore || full;
    }
    assert delivered[..|delivered|] == delivered;
    KeptIsFront(selected[..n], dropped, delivered, limit);
    entries := Sorted(selected[..n]);
  }
}
