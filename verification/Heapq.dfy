/** The binary heap of Python's heapq, on a list of queued events. */
module Heapq {
  import opened Model

  type Queue = seq<QueuedEvent>

  function Parent(i: int): int {
    (i - 1) / 2
  }

  ghost predicate NodeOk(q: Queue, i: nat)
    requires i < |q|
  {
    i == 0 || Leq(q[Parent(i)], q[i])
  }

  /** Every node whose parent is at or behind `from` is no smaller than that parent. */
  ghost predicate HeapFrom(q: Queue, from: nat) {
    forall i: nat :: i < |q| && from <= Parent(i) ==> NodeOk(q, i)
  }

  ghost predicate IsHeap(q: Queue) {
    HeapFrom(q, 0)
  }

  /** The first event of a heap is no larger than any other. */
  lemma {:induction false} HeapMin(q: Queue, i: nat)
    requires IsHeap(q) && i < |q|
    ensures Leq(q[0], q[i])
    decreases i
  {
    if i == 0 {
      LessTotal(q[0], q[0]);
    } else {
      HeapMin(q, Parent(i));
      assert NodeOk(q, i);
      LeqTransitive(q[0], q[Parent(i)], q[i]);
    }
  }

  ghost predicate SkipOk(q: Queue, pos: nat, i: nat)
    requires 0 < pos < |q| && i < |q|
  {
    Leq(q[Parent(pos)], q[i])
  }

  /** A heap from `from` on, except that node `pos` may be smaller than its parent; its
      children are no smaller than that parent. */
  ghost predicate AlmostHeap(q: Queue, from: nat, pos: nat) {
    && from <= pos < |q|
    && (forall i: nat :: i < |q| && i != pos && from <= Parent(i) ==> NodeOk(q, i))
    && (from <= Parent(pos) ==> forall i: nat :: i < |q| && Parent(i) == pos ==> SkipOk(q, pos, i))
  }

  /** `pos` lies in the subtree of `start`. */
  ghost predicate Under(start: nat, pos: int)
    decreases pos
  {
    pos == start || (pos > start && Under(start, Parent(pos)))
  }

  lemma {:induction false} SwapParent(q: Queue, from: nat, pos: nat)
    requires AlmostHeap(q, from, pos)
    requires from <= Parent(pos) && Less(q[pos], q[Parent(pos)])
    ensures AlmostHeap(q[pos := q[Parent(pos)]][Parent(pos) := q[pos]], from, Parent(pos))
  {
    hide Less;
    var p, x := Parent(pos), q[pos];
    var q' := q[pos := q[p]][p := x];
    LessTotal(x, q[p]);
    LessTotal(q[p], q[p]);
    forall i: nat | i < |q| && i != p && from <= Parent(i) ensures NodeOk(q', i) {
      if Parent(i) == pos {
        assert SkipOk(q, pos, i);
      } else if Parent(i) == p && i != pos {
        assert NodeOk(q, i);
        LeqTransitive(x, q[p], q[i]);
      } else if i != pos {
        assert NodeOk(q, i);
      }
    }
    if from <= Parent(p) {
      assert NodeOk(q, p);
      forall i: nat | i < |q| && Parent(i) == p ensures SkipOk(q', p, i) {
        if i != pos {
          assert NodeOk(q, i);
          LeqTransitive(q[Parent(p)], q[p], q[i]);
        }
      }
    }
  }

  lemma SwapMultiset(q: Queue, i: nat, j: nat)
    requires i < |q| && j < |q|
    ensures multiset(q[i := q[j]][j := q[i]]) == multiset(q)
  {
  }

  /** heapq._siftdown: the event at `at` moves towards `start`, past larger parents. */
  method SiftDown(heap: Queue, start: nat, at: nat) returns (q: Queue)
    requires AlmostHeap(heap, start, at) && Under(start, at)
    ensures |q| == |heap| && multiset(q) == multiset(heap)
    ensures HeapFrom(q, start)
  {
    hide Less;
    q := heap;
    var pos, x := at, heap[at];
    while pos > start
      invariant start <= pos < |q| == |heap| && Under(start, pos)
      invariant multiset(q[pos := x]) == multiset(heap)
      invariant AlmostHeap(q[pos := x], start, pos)
    {
      var parentPos := Parent(pos);
      var parent := q[parentPos];
      ghost var g := q[pos := x];
      if Less(x, parent) {
        SwapParent(g, start, pos);
        SwapMultiset(g, pos, parentPos);
        q := q[pos := parent];
        assert q[parentPos := x] == g[pos := parent][parentPos := x];
        pos := parentPos;
      } else {
        assert NodeOk(g, pos);
        break;
      }
    }
    q := q[pos := x];
    assert HeapFrom(q, start);
  }

  lemma UnderSelf(start: nat)
    ensures Under(start, start)
  {
  }

  lemma RaiseChild(q: Queue, start: nat, pos: nat, child: nat)
    requires start <= pos < child < |q| && Parent(child) == pos
    requires HeapFrom(q, if pos == start then start + 1 else start)
    requires pos > start ==> start <= Parent(pos)
    requires forall i: nat :: i < |q| && Parent(i) == pos ==> Leq(q[child], q[i])
    ensures HeapFrom(q[pos := q[child]], start)
  {
    hide Less;
    var q' := q[pos := q[child]];
    forall i: nat | i < |q'| && start <= Parent(i) ensures NodeOk(q', i) {
      if i == pos {
        assert NodeOk(q, pos) && NodeOk(q, child);
        LeqTransitive(q[Parent(pos)], q[pos], q[child]);
      } else if Parent(i) != pos {
        assert NodeOk(q, i);
      }
    }
  }

  /** heapq._siftup: the smaller child is raised into the hole down to a leaf, and the event
      that was at `start` sifts back up from there. */
  method SiftUp(heap: Queue, start: nat) returns (q: Queue)
    requires start < |heap| && HeapFrom(heap, start + 1)
    ensures |q| == |heap| && multiset(q) == multiset(heap)
    ensures HeapFrom(q, start)
  {
    hide Less, HeapFrom, Under, AlmostHeap;
    UnderSelf(start);
    q := heap;
    assert q[start := heap[start]] == heap;
    var pos, x := start, heap[start];
    while 2 * pos + 1 < |q|
      invariant start <= pos < |q| == |heap| && Under(start, pos)
      invariant multiset(q[pos := x]) == multiset(heap)
      invariant HeapFrom(q, if pos == start then start + 1 else start)
      decreases |q| - pos
    {
      var child := 2 * pos + 1;
      if child + 1 < |q| && !Less(q[child], q[child + 1]) {
        child := child + 1;
      }
      RaiseStep(q, start, pos, child, x);
      q := q[pos := q[child]];
      pos := child;
    }
    LeafAlmostHeap(q, start, pos, x);
    q := q[pos := x];
    q := SiftDown(q, start, pos);
  }

  lemma SmallerChild(q: Queue, pos: nat, child: nat)
    requires 2 * pos + 1 <= child <= 2 * pos + 2 && child < |q|
    requires child == 2 * pos + 1 ==> child + 1 < |q| ==> Less(q[child], q[child + 1])
    requires child == 2 * pos + 2 ==> !Less(q[child - 1], q[child])
    ensures forall i: nat :: i < |q| && Parent(i) == pos ==> Leq(q[child], q[i])
  {
    LessTotal(q[child], q[child]);
    if child == 2 * pos + 1 && child + 1 < |q| {
      LessTotal(q[child], q[child + 1]);
    }
  }

  lemma LeafAlmostHeap(q: Queue, start: nat, pos: nat, x: QueuedEvent)
    requires start <= pos < |q| <= 2 * pos + 1
    requires HeapFrom(q, if pos == start then start + 1 else start)
    ensures AlmostHeap(q[pos := x], start, pos)
  {
    hide Less;
    forall i: nat | i < |q| && i != pos && start <= Parent(i) ensures NodeOk(q[pos := x], i) {
      assert NodeOk(q, i);
    }
  }

  lemma RaiseStep(q: Queue, start: nat, pos: nat, child: nat, x: QueuedEvent)
    requires start <= pos < |q| && Under(start, pos)
    requires HeapFrom(q, if pos == start then start + 1 else start)
    requires 2 * pos + 1 <= child <= 2 * pos + 2 && child < |q|
    requires child == 2 * pos + 1 ==> child + 1 < |q| ==> Less(q[child], q[child + 1])
    requires child == 2 * pos + 2 ==> !Less(q[child - 1], q[child])
    ensures HeapFrom(q[pos := q[child]], start) && Under(start, child)
    ensures multiset(q[pos := q[child]][child := x]) == multiset(q[pos := x])
  {
    hide Less;
    SmallerChild(q, pos, child);
    RaiseChild(q, start, pos, child);
    RaiseMultiset(q, pos, child, x);
    hide HeapFrom;
  }

  lemma RaiseMultiset(q: Queue, pos: nat, child: nat, x: QueuedEvent)
    requires pos < child < |q|
    ensures multiset(q[pos := q[child]][child := x]) == multiset(q[pos := x])
  {
    SwapMultiset(q[pos := x], pos, child);
    assert q[pos := q[child]][child := x] == q[pos := x][pos := q[child]][child := x];
  }

  // ---------------------------------------------------------------- the operations

  method HeapPush(heap: Queue, x: QueuedEvent) returns (q: Queue)
    requires IsHeap(heap)
    ensures IsHeap(q) && multiset(q) == multiset(heap) + multiset{x}
    ensures |q| == |heap| + 1
  {
    q := heap + [x];
    forall i: nat | i < |q| && i != |heap| && 0 <= Parent(i) ensures NodeOk(q, i) {
      assert NodeOk(heap, i);
    }
    UnderRoot(|heap|);
    q := SiftDown(q, 0, |heap|);
  }

  lemma {:induction false} UnderRoot(pos: nat)
    ensures Under(0, pos)
    decreases pos
  {
    if pos > 0 {
      UnderRoot(Parent(pos));
    }
  }

  /** Removes and returns the first event, which is the smallest of all. */
  method HeapPop(heap: Queue) returns (x: QueuedEvent, q: Queue)
    requires IsHeap(heap) && heap != []
    ensures x == heap[0] && x in multiset(heap)
    ensures IsHeap(q) && multiset(q) == multiset(heap) - multiset{x}
    ensures |q| == |heap| - 1
  {
    var last := heap[|heap| - 1];
    q := heap[..|heap| - 1];
    assert heap == q + [last];
    if q != [] {
      x := q[0];
      q := q[0 := last];
      assert multiset(q) == multiset(heap) - multiset{x};
      forall i: nat | i < |q| && 1 <= Parent(i) ensures NodeOk(q, i) {
        assert NodeOk(heap, i);
      }
      q := SiftUp(q, 0);
    } else {
      x := last;
    }
  }

  method Heapify(list: Queue) returns (q: Queue)
    ensures IsHeap(q) && multiset(q) == multiset(list) && |q| == |list|
  {
    q := list;
    var i := |list| / 2;
    while i > 0
      invariant 0 <= i && |q| == |list| && multiset(q) == multiset(list)
      invariant HeapFrom(q, i)
    {
      i := i - 1;
      q := SiftUp(q, i);
    }
  }

  /** The first event of a list, found in a permutation of it. */
  lemma FindFirst(q: Queue, q': Queue) returns (j: nat)
    requires q != [] && multiset(q) == multiset(q')
    ensures j < |q'| && q'[j] == q[0]
    ensures multiset(q[1..]) == multiset(q'[..j] + q'[j + 1..])
  {
    j := Find(q[0], q');
    WithoutOne(q', j);
    WithoutFirst(q);
  }

  lemma WithoutFirst(q: Queue)
    requires q != []
    ensures multiset(q[1..]) == multiset(q) - multiset{q[0]}
  {
    WithoutOne(q, 0);
    assert q[..0] + q[1..] == q[1..];
  }

  lemma Find(e: QueuedEvent, q: Queue) returns (j: nat)
    requires e in multiset(q)
    ensures j < |q| && q[j] == e
  {
    assert e in q;
    j :| 0 <= j < |q| && q[j] == e;
  }

  lemma WithoutOne(q: Queue, j: nat)
    requires j < |q|
    ensures multiset(q[..j] + q[j + 1..]) == multiset(q) - multiset{q[j]}
  {
    assert q == q[..j] + [q[j]] + q[j + 1..];
  }

  // ---------------------------------------------------------------- the least severe event

  /** `max(range(len(queue)), key=priority)`: the first index with the largest priority number. */
  function WorstIndex(q: Queue): (w: nat)
    requires q != []
    ensures w < |q|
    ensures forall i | 0 <= i < |q| :: q[i].priority <= q[w].priority
    ensures forall i | 0 <= i < w :: q[i].priority < q[w].priority
  {
    if |q| == 1 then 0
    else
      var w := WorstIndex(q[..|q| - 1]);
      if q[|q| - 1].priority > q[w].priority then |q| - 1 else w
  }
}
