/** The priority queue of `MakeTree`: `DownHeap` on a 1-based heap of node numbers ordered by frequency. */
module HuffmanHeap {

  /** A heap sequence has an unused entry 0; every other entry is a node number with a frequency. */
  ghost predicate Nodes(h: seq<nat>, f: seq<nat>)
  {
    1 <= |h| && forall k :: 1 <= k < |h| ==> h[k] < |f|
  }

  /** The child of `i` with the smaller frequency, the left one on a tie. */
  function Child(h: seq<nat>, f: seq<nat>, i: nat): (j: nat)
    requires Nodes(h, f) && 1 <= i && 2 * i < |h|
    ensures (j == 2 * i || j == 2 * i + 1) && j < |h|
    ensures f[h[j]] <= f[h[2 * i]] && (2 * i + 1 < |h| ==> f[h[j]] <= f[h[2 * i + 1]])
  {
    if 2 * i + 1 < |h| && f[h[2 * i]] > f[h[2 * i + 1]] then 2 * i + 1 else 2 * i
  }

  /** Puts `v` at `i` or below, moving smaller children up. */
  function Sift(h: seq<nat>, f: seq<nat>, i: nat, v: nat): (r: seq<nat>)
    requires Nodes(h, f) && 1 <= i < |h| && v < |f|
    ensures |r| == |h| && Nodes(r, f)
    ensures forall k :: 0 <= k < i ==> r[k] == h[k]
    decreases |h| - i
  {
    if 2 * i >= |h| then h[i := v]
    else
      var j := Child(h, f, i);
      if f[v] <= f[h[j]] then h[i := v] else Sift(h[i := h[j]], f, j, v)
  }

  /** The entries in use. */
  ghost function Live(h: seq<nat>): multiset<nat>
    requires 1 <= |h|
  {
    multiset(h[1..])
  }

  lemma LiveUpdate(h: seq<nat>, i: nat, v: nat)
    requires 1 <= i < |h|
    ensures Live(h[i := v]) == Live(h) - multiset{h[i]} + multiset{v}
  {
    assert h[i := v][1..] == h[1..][i - 1 := v];
  }

  /** Sifting loses and duplicates nothing. */
  lemma {:induction false} SiftPermutes(h: seq<nat>, f: seq<nat>, i: nat, v: nat)
    requires Nodes(h, f) && 1 <= i < |h| && v < |f|
    ensures Live(Sift(h, f, i, v)) == Live(h) - multiset{h[i]} + multiset{v}
    decreases |h| - i
  {
    LiveUpdate(h, i, v);
    if 2 * i < |h| {
      var j := Child(h, f, i);
      if f[v] > f[h[j]] {
        LiveUpdate(h, i, h[j]);
        SiftPermutes(h[i := h[j]], f, j, v);
      }
    }
  }

  /** Entry `k` is at least as frequent as its parent. */
  ghost predicate Edge(h: seq<nat>, f: seq<nat>, k: nat)
    requires Nodes(h, f) && 2 <= k < |h|
  {
    f[h[k / 2]] <= f[h[k]]
  }

  /** Heap order below every node from `lo` on. */
  ghost predicate Ordered(h: seq<nat>, f: seq<nat>, lo: nat)
    requires Nodes(h, f) && 1 <= lo
  {
    forall k :: 2 * lo <= k < |h| ==> Edge(h, f, k)
  }

  /** Heap order with a hole at `i` that is to receive `v`. */
  ghost predicate OrderedAround(h: seq<nat>, f: seq<nat>, lo: nat, i: nat, v: nat)
    requires Nodes(h, f) && 1 <= lo <= i < |h| && v < |f|
  {
    && (forall k :: 2 * lo <= k < |h| && k / 2 != i && k != i ==> Edge(h, f, k))
    && (2 * lo <= i ==> f[h[i / 2]] <= f[v])
    && (2 * lo <= i ==> forall k :: 2 * i <= k <= 2 * i + 1 && k < |h| ==> f[h[i / 2]] <= f[h[k]])
  }

  lemma MoveUp(h: seq<nat>, f: seq<nat>, lo: nat, i: nat, v: nat)
    requires Nodes(h, f) && 1 <= lo <= i && 2 * i < |h| && v < |f|
    requires OrderedAround(h, f, lo, i, v)
    requires f[h[Child(h, f, i)]] < f[v]
    ensures var j := Child(h, f, i); OrderedAround(h[i := h[j]], f, lo, j, v)
  {
    var j := Child(h, f, i);
    var g := h[i := h[j]];
    assert j / 2 == i;
    forall k | 2 * lo <= k < |h| && k / 2 != j && k != j
      ensures Edge(g, f, k)
    {
      if k / 2 == i {
        assert k == 2 * i || k == 2 * i + 1;
      } else if k != i {
        assert Edge(h, f, k);
      }
    }
    forall k | 2 * j <= k <= 2 * j + 1 && k < |h|
      ensures f[g[i]] <= f[g[k]]
    {
      assert Edge(h, f, k);
    }
  }

  /** Sifting restores heap order. */
  lemma {:induction false} SiftOrders(h: seq<nat>, f: seq<nat>, lo: nat, i: nat, v: nat)
    requires Nodes(h, f) && 1 <= lo <= i < |h| && v < |f|
    requires OrderedAround(h, f, lo, i, v)
    ensures Ordered(Sift(h, f, i, v), f, lo)
    decreases |h| - i
  {
    if 2 * i < |h| && f[h[Child(h, f, i)]] < f[v] {
      var j := Child(h, f, i);
      MoveUp(h, f, lo, i, v);
      SiftOrders(h[i := h[j]], f, lo, j, v);
    } else {
      var r := h[i := v];
      forall k | 2 * lo <= k < |h|
        ensures Edge(r, f, k)
      {
        if k / 2 == i {
          assert k == 2 * i || k == 2 * i + 1;
        } else if k != i {
          assert Edge(h, f, k);
        }
      }
    }
  }

  /** The root of an ordered heap has the least frequency. */
  lemma {:induction false} RootIsLeast(h: seq<nat>, f: seq<nat>, k: nat)
    requires Nodes(h, f) && Ordered(h, f, 1) && 1 <= k < |h|
    ensures f[h[1]] <= f[h[k]]
  {
    if k > 1 {
      RootIsLeast(h, f, k / 2);
      assert Edge(h, f, k);
    }
  }

  /** The loop that makes a priority queue, from node `i` down to 1. */
  function Heapify(h: seq<nat>, f: seq<nat>, i: nat): (r: seq<nat>)
    requires Nodes(h, f) && i < |h|
    ensures |r| == |h| && Nodes(r, f) && r[0] == h[0]
    decreases i
  {
    if i == 0 then h else Heapify(Sift(h, f, i, h[i]), f, i - 1)
  }

  lemma {:induction false} HeapifyOrders(h: seq<nat>, f: seq<nat>, i: nat)
    requires Nodes(h, f) && i < |h| && Ordered(h, f, i + 1)
    ensures Ordered(Heapify(h, f, i), f, 1) && Live(Heapify(h, f, i)) == Live(h)
    decreases i
  {
    hide Sift;
    if i > 0 {
      forall k | 2 * i <= k < |h| && k / 2 != i && k != i
        ensures Edge(h, f, k)
      {
        assert 2 * (i + 1) <= k;
      }
      SiftOrders(h, f, i, i, h[i]);
      SiftPermutes(h, f, i, h[i]);
      HeapifyOrders(Sift(h, f, i, h[i]), f, i - 1);
      assert h[i] in h[1..];
    }
  }

  /** A new root sinks to its place. */
  function ReplaceRoot(h: seq<nat>, f: seq<nat>, v: nat): (r: seq<nat>)
    requires Nodes(h, f) && 2 <= |h| && v < |f|
    ensures |r| == |h| && Nodes(r, f) && r[0] == h[0]
  {
    Sift(h[1 := v], f, 1, v)
  }

  lemma ReplaceRootKeeps(h: seq<nat>, f: seq<nat>, v: nat)
    requires Nodes(h, f) && 2 <= |h| && Ordered(h, f, 1) && v < |f|
    ensures Ordered(ReplaceRoot(h, f, v), f, 1)
    ensures Live(ReplaceRoot(h, f, v)) == Live(h) - multiset{h[1]} + multiset{v}
  {
    var g := h[1 := v];
    forall k | 2 <= k < |g| && k / 2 != 1 && k != 1
      ensures Edge(g, f, k)
    {
      assert Edge(h, f, k);
    }
    SiftOrders(g, f, 1, 1, v);
    SiftPermutes(h[1 := v], f, 1, v);
    LiveUpdate(h, 1, v);
    assert v in h[1 := v][1..];
  }

  /** Removing the root: the last entry takes its place and sinks. */
  function PopRoot(h: seq<nat>, f: seq<nat>): (r: seq<nat>)
    requires Nodes(h, f) && 3 <= |h|
    ensures |r| == |h| - 1 && Nodes(r, f) && r[0] == h[0]
  {
    ReplaceRoot(h[..|h| - 1], f, h[|h| - 1])
  }

  lemma PopRootKeeps(h: seq<nat>, f: seq<nat>)
    requires Nodes(h, f) && 3 <= |h| && Ordered(h, f, 1)
    ensures Ordered(PopRoot(h, f), f, 1)
    ensures Live(PopRoot(h, f)) == Live(h) - multiset{h[1]}
  {
    var g, v := h[..|h| - 1], h[|h| - 1];
    forall k | 2 <= k < |g|
      ensures Edge(g, f, k)
    {
      assert Edge(h, f, k);
    }
    ReplaceRootKeeps(g, f, v);
    assert h[1..] == g[1..] + [v];
    assert g[1] in g[1..];
  }

  /** `DownHeap`, in place; the first `avail` frequencies are the ones in use. */
  method DownHeap(heap: array<nat>, size: nat, freq: array<nat>, ghost avail: nat, i0: nat)
    requires heap != freq && size < heap.Length && avail <= freq.Length && 1 <= i0 <= size
    requires Nodes(heap[..size + 1], freq[..avail])
    modifies heap
    ensures heap[..size + 1] == Sift(old(heap[..size + 1]), freq[..avail], i0, old(heap[i0]))
  {
    ghost var f := freq[..avail];
    var i: nat, v: nat := i0, heap[i0];
    assert v == heap[..size + 1][i0];
    ghost var target := Sift(heap[..size + 1], f, i0, v);
    var j := 2 * i;
    while j <= size
      invariant 1 <= i <= size && j == 2 * i && v < avail
      invariant Nodes(heap[..size + 1], f)
      invariant Sift(heap[..size + 1], f, i, v) == target
      decreases size - i
    {
      ghost var h := heap[..size + 1];
      assert heap[j] == h[j] < avail;
      if j < size {
        assert heap[j + 1] == h[j + 1];
      }
      if j < size && freq[heap[j]] > freq[heap[j + 1]] {
        j := j + 1;
      }
      assert j == Child(h, f, i);
      if freq[v] <= freq[heap[j]] {
        break;
      }
      heap[i] := heap[j];
      assert heap[..size + 1] == h[i := h[j]];
      i := j;
      j := 2 * i;
    }
    ghost var h := heap[..size + 1];
    heap[i] := v;
    assert heap[..size + 1] == h[i := v];
  }
}
