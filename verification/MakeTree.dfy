/** `MakeTree`, `MakeLen` and `CountLen` on the compressor's arrays. */
module MakeTree {
  import opened Bits
  import opened HuffmanHeap
  import opened HuffmanTree
  import opened CanonicalCode
  import opened CodeLengths

  /** The inner nodes n..avail-1 have smaller children. */
  ghost predicate Tree(left: array<nat>, right: array<nat>, n: nat, avail: nat)
    reads left, right
  {
    && n <= avail <= left.Length && avail <= right.Length
    && forall i :: n <= i < avail ==> left[i] < i && right[i] < i
  }

  lemma AddAssociates(a: seq<nat>, b: seq<nat>, c: seq<nat>)
    requires |a| == |b| == |c| == 17
    ensures Add(Add(a, b), c) == Add(a, Add(b, c))
  {
  }

  lemma AddUnit(c: seq<nat>, l: nat)
    requires |c| == 17 && l <= 16
    ensures Add(c, Unit(l)) == c[l := c[l] + 1]
  {
  }

  /** `CountLen`: adds the leaves below `v` to the UINT16 counts. */
  method CountLen(left: array<nat>, right: array<nat>, n: nat, ghost avail: nat, v: nat, depth: nat, lenCnt: array<nat>)
    requires lenCnt != left && lenCnt != right && lenCnt.Length == 17
    requires Tree(left, right, n, avail) && v < avail
    requires forall k :: 0 <= k <= 16 ==> lenCnt[k] + LeafCount(left[n..avail], right[n..avail], n, v) < 0x1_0000
    modifies lenCnt
    ensures lenCnt[..] == Add(old(lenCnt[..]), DepthCounts(left[n..avail], right[n..avail], n, v, depth))
    decreases v
  {
    ghost var l, r, c := left[n..avail], right[n..avail], lenCnt[..];
    if v < n {
      var d := if depth < 16 then depth else 16;
      AddUnit(c, d);
      WrapSmall(lenCnt[d] + 1);
      lenCnt[d] := Wrap16(lenCnt[d] + 1);
      assert lenCnt[..] == c[d := c[d] + 1];
    } else {
      assert left[v] == l[v - n] && right[v] == r[v - n] && Inner(l, r, n, v);
      CountLen(left, right, n, avail, left[v], depth + 1, lenCnt);
      ghost var c1 := DepthCounts(l, r, n, left[v], depth + 1);
      forall k | 0 <= k <= 16
        ensures lenCnt[k] + LeafCount(l, r, n, right[v]) < 0x1_0000
      {
        DepthCountsBound(l, r, n, left[v], depth + 1, k);
        assert lenCnt[k] == lenCnt[..][k] == c[k] + c1[k];
      }
      CountLen(left, right, n, avail, right[v], depth + 1, lenCnt);
      AddAssociates(c, c1, DepthCounts(l, r, n, right[v], depth + 1));
    }
  }

  /** The Kraft sum of the counts, computed from the longest codes up. */
  method CumulateCounts(lenCnt: array<nat>) returns (cum: nat)
    requires lenCnt.Length == 17
    ensures cum == Start(lenCnt[..], 17)
  {
    ghost var c := lenCnt[..];
    cum := 0;
    var l := 16;
    while l > 0
      invariant 0 <= l <= 16 && cum + Start(c, l + 1) == Start(c, 17)
    {
      cum := cum + Shl(lenCnt[l], 16 - l);
      l := l - 1;
    }
  }

  lemma {:induction false} CodesBound(c: seq<nat>, l: nat, k: nat)
    requires |c| == 17 && 1 <= k <= l <= 16
    ensures c[k] <= Codes(c, l)
  {
    if k < l {
      CodesBound(c, l - 1, k);
    }
  }

  /** One turn of `MakeLen`'s repair loop, in UINT16 arithmetic. */
  method RepairOnce(lenCnt: array<nat>, ghost cum: nat, ghost n: nat)
    requires lenCnt.Length == 17 && Repairable(lenCnt[..], cum, n) && 0x1_0000 < cum
    modifies lenCnt
    ensures lenCnt[..] == RepairStep(old(lenCnt[..]))
  {
    ghost var target := RepairStep(lenCnt[..]);
    RepairStepKeeps(lenCnt[..], cum, n);
    lenCnt[16] := lenCnt[16] - 1;
    ghost var a := lenCnt[..];
    assert target == Borrow(a, 15);
    var l := 15;
    while l > 0
      invariant 0 <= l <= 15 && lenCnt[..] == a && target == Borrow(a, l)
    {
      if lenCnt[l] != 0 {
        CodesBound(target, 16, l + 1);
        assert target[l + 1] == lenCnt[l + 1] + 2;
        WrapSmall(lenCnt[l + 1] + 2);
        lenCnt[l] := lenCnt[l] - 1;
        lenCnt[l + 1] := Wrap16(lenCnt[l + 1] + 2);
        return;
      }
      l := l - 1;
    }
  }

  /** `MakeLen` up to and including the repair loop. */
  method LimitLengths(left: array<nat>, right: array<nat>, n: nat, ghost avail: nat, root: nat, lenCnt: array<nat>)
    requires lenCnt != left && lenCnt != right && lenCnt.Length == 17
    requires Tree(left, right, n, avail) && n <= root < avail
    requires LeafCount(left[n..avail], right[n..avail], n, root) < 0x1_0000
    modifies lenCnt
    ensures var c := DepthCounts(left[n..avail], right[n..avail], n, root, 0);
      var k := LeafCount(left[n..avail], right[n..avail], n, root);
      Repairable(c, Start(c, 17), k) && lenCnt[..] == Repair(c, Start(c, 17), k)
  {
    ghost var l, r := left[n..avail], right[n..avail];
    for i := 0 to 17
      invariant forall j :: 0 <= j < i ==> lenCnt[j] == 0
    {
      lenCnt[i] := 0;
    }
    ghost var zero := lenCnt[..];
    CountLen(left, right, n, avail, root, 0, lenCnt);
    ghost var c, k := DepthCounts(l, r, n, root, 0), LeafCount(l, r, n, root);
    assert Add(zero, c) == c;
    assert Inner(l, r, n, root);
    RootRepairable(l, r, n, root);
    var cum := CumulateCounts(lenCnt);
    while cum != 0x1_0000
      invariant Repairable(lenCnt[..], cum, k)
      invariant Repair(lenCnt[..], cum, k) == Repair(c, Start(c, 17), k)
      decreases cum
    {
      ghost var before := lenCnt[..];
      RepairStepKeeps(before, cum, k);
      RepairOnce(lenCnt, cum, k);
      cum := cum - 1;
    }
  }

  /** The next `k` sorted symbols, from position `p` on, get length `l`. */
  method AssignRun(n: nat, p: nat, k: nat, l: nat, code: array<nat>, len: array<nat>, ghost s: seq<nat>,
                   ghost list: seq<nat>)
    requires len != code && n <= len.Length && p + k <= |s| == |list| <= code.Length
    requires s == code[..|s|] && forall i :: 0 <= i < |s| ==> s[i] < n
    requires forall i :: p <= i < p + k ==> list[i] == l
    requires len[..n] == HandOut(n, s, list, p)
    modifies len
    ensures len[..n] == HandOut(n, s, list, p + k) && len[n..] == old(len[n..])
  {
    for j := p to p + k
      invariant len[..n] == HandOut(n, s, list, j)
      invariant len[n..] == old(len[n..])
    {
      ghost var r := len[..n];
      assert code[j] == s[j];
      len[code[j]] := l;
      assert len[..n] == r[s[j] := list[j]];
    }
  }

  lemma ListStep(list: seq<nat>, c: seq<nat>, p: nat, l: nat)
    requires |c| == 17 && 1 <= l <= 16 && p <= |list| && list[p..] == LengthList(c, l)
    ensures p + c[l] <= |list|
    ensures forall i :: p <= i < p + c[l] ==> list[i] == l
    ensures list[p + c[l]..] == LengthList(c, l - 1)
  {
    assert list[p..] == Repeat(l, c[l]) + LengthList(c, l - 1);
    assert forall i :: p <= i < |list| ==> list[i] == list[p..][i - p];
    assert list[p + c[l]..] == list[p..][c[l]..];
  }

  lemma NoLengths(n: nat, s: seq<nat>, list: seq<nat>, c: seq<nat>)
    requires |c| == 17
    ensures HandOut(n, s, list, 0) == Repeat(0, n) && LengthList(c, 0) == []
  {
  }

  /** `MakeLen`'s last loop: the sorted symbols in `code` get their lengths, longest first. */
  method AssignLengths(n: nat, ghost m: nat, code: array<nat>, len: array<nat>, lenCnt: array<nat>)
    requires len != code && len != lenCnt && lenCnt.Length == 17
    requires n <= len.Length && m <= code.Length && m == Codes(lenCnt[..], 16)
    requires forall i :: 0 <= i < m ==> code[i] < n
    requires forall i :: 0 <= i < n ==> len[i] == 0
    modifies len
    ensures len[..n] == HandOut(n, code[..m], LengthList(lenCnt[..], 16), m)
    ensures len[n..] == old(len[n..])
  {
    hide HandOut, LengthList;
    ghost var c, s, list := lenCnt[..], code[..m], LengthList(lenCnt[..], 16);
    NoLengths(n, s, list, c);
    assert len[..n] == Repeat(0, n) && list[0..] == list;
    var p: nat, l: nat := 0, 16;
    while l > 0
      invariant 0 <= l <= 16 && 0 <= p <= m
      invariant list[p..] == LengthList(c, l)
      invariant len[..n] == HandOut(n, s, list, p)
      invariant len[n..] == old(len[n..])
    {
      ListStep(list, c, p, l);
      AssignRun(n, p, lenCnt[l], l, code, len, s, list);
      p := p + lenCnt[l];
      l := l - 1;
    }
  }

  /** The first half of a turn: the root leaves the heap. */
  method TakeRoot(heap: array<nat>, freq: array<nat>, size: nat, ghost avail: nat) returns (a: nat)
    requires heap != freq && 2 <= size < heap.Length && avail <= freq.Length
    requires Nodes(heap[..size + 1], freq[..avail])
    modifies heap
    ensures var h := old(heap[..size + 1]); a == First(h) && heap[..size] == PopRoot(h, freq[..avail])
  {
    ghost var h := heap[..size + 1];
    a := heap[1];
    assert a == h[1];
    heap[1] := heap[size];
    assert heap[..size] == h[..size][1 := h[size]];
    DownHeap(heap, size - 1, freq, avail, 1);
  }

  /** The second half: the new root is replaced by the node that combines both. */
  method CombineRoot(heap: array<nat>, freq: array<nat>, size: nat, avail: nat, a: nat) returns (b: nat, ghost x: nat)
    requires heap != freq && 2 <= size < heap.Length && a < avail < freq.Length
    requires Nodes(heap[..size], freq[..avail])
    modifies heap, freq
    ensures var h, f := old(heap[..size]), old(freq[..avail]);
      && b == h[1] < avail && x == Wrap16(f[a] + f[b])
      && freq[..avail + 1] == f + [x]
      && heap[..size] == ReplaceRoot(h, f + [x], avail)
  {
    ghost var h, f := heap[..size], freq[..avail];
    b := heap[1];
    assert b == h[1];
    assert freq[a] == f[a] && freq[b] == f[b];
    x := Wrap16(f[a] + f[b]);
    freq[avail] := Wrap16(freq[a] + freq[b]);
    assert freq[..avail + 1] == f + [x];
    heap[1] := avail;
    assert heap[..size] == h[1 := avail];
    DownHeap(heap, size - 1, freq, avail + 1, 1);
  }

  /** A leaf that left the heap is noted in the sort buffer. */
  method NoteLeaf(code: array<nat>, n: nat, v: nat, p: nat) returns (q: nat)
    requires p <= code.Length && (v < n ==> p < code.Length)
    modifies code
    ensures q <= code.Length && code[..q] == Note(old(code[..p]), n, v)
  {
    q := p;
    if v < n {
      code[p] := v;
      q := p + 1;
    }
  }

  lemma {:induction false} Pigeonhole(s: seq<nat>, n: nat)
    requires Distinct(s) && forall i :: 0 <= i < |s| ==> s[i] < n
    ensures |s| <= n
  {
    if s != [] {
      var m := set i | 0 <= i < |s| :: s[i];
      DistinctSize(s);
      UpTo(m, n);
    }
  }

  lemma {:induction false} DistinctSize(s: seq<nat>)
    requires Distinct(s)
    ensures |set i | 0 <= i < |s| :: s[i]| == |s|
  {
    if s != [] {
      var k := |s| - 1;
      DistinctSize(s[..k]);
      var m, t := set i | 0 <= i < |s| :: s[i], set i | 0 <= i < |s[..k]| :: s[..k][i];
      assert m == t + {s[k]};
    }
  }

  lemma {:induction false} UpTo(m: set<nat>, n: nat)
    requires forall x :: x in m ==> x < n
    ensures |m| <= n
  {
    if n == 0 {
      assert m == {};
    } else {
      UpTo(m - {n - 1}, n - 1);
    }
  }

  lemma PartitionBound(sorted: seq<nat>, m: multiset<nat>, f0: seq<nat>)
    requires Partition(sorted, m, f0)
    ensures |sorted| <= |f0|
  {
    OnceDistinct(sorted, |f0|);
    Pigeonhole(sorted, |f0|);
  }

  /** The sort buffer never holds more entries than there are symbols. */
  lemma TurnBound(f: seq<nat>, k: nat)
    requires k + 1 < |Symbols(f, |f|)| && Total(f) < 0x1_0000
    ensures Turns(f, k + 1) == Merge(Turns(f, k), |f|)
    ensures |Turns(f, k + 1).sorted| <= |f|
  {
    var s := Turns(f, k + 1);
    TurnsGood(f, k + 1);
    PartitionBound(s.sorted, Live(s.heap), f);
  }

  lemma LastTurn(f: seq<nat>, k: nat)
    requires 1 <= k == |Symbols(f, |f|)| - 1
    ensures Turns(f, k) == Grow(f)
  {
  }

  /** The arrays of `MakeTree` as the forest they hold. */
  ghost function View(heap: array<nat>, freq: array<nat>, left: array<nat>, right: array<nat>, code: array<nat>,
                      n: nat, size: nat, avail: nat, p: nat): Forest
    requires size < heap.Length && n <= avail <= freq.Length && avail <= left.Length && avail <= right.Length
    requires p <= code.Length
    reads heap, freq, left, right, code
  {
    Forest(heap[..size + 1], freq[..avail], left[n..avail], right[n..avail], code[..p])
  }

  class TreeBuilder {
    const heap: array<nat>     // mHeap
    const left: array<nat>     // mLeft
    const right: array<nat>    // mRight
    const lenCnt: array<nat>   // mLenCnt

    ghost predicate Valid()
      reads this, heap
    {
      && heap.Length == 511 && left.Length == 1019 && right.Length == 1019 && lenCnt.Length == 17
      && heap != left && heap != right && heap != lenCnt && left != right && left != lenCnt && right != lenCnt
      && heap[0] == 0
    }

    /** The caller's arrays are not the builder's. */
    ghost predicate Foreign(a: array<nat>)
    {
      a != heap && a != left && a != right && a != lenCnt
    }

    constructor ()
      ensures Valid() && fresh(heap) && fresh(left) && fresh(right) && fresh(lenCnt)
    {
      heap, left, right, lenCnt := new nat[511](_ => 0), new nat[1019](_ => 0), new nat[1019](_ => 0),
        new nat[17](_ => 0);
    }

    /** The first loop: the lengths become zero and the used symbols fill the heap. */
    method CollectSymbols(n: nat, freq: array<nat>, len: array<nat>) returns (size: nat)
      requires Valid() && n <= 510 && n <= freq.Length && n <= len.Length
      requires Foreign(freq) && Foreign(len) && freq != len
      modifies heap, len
      ensures Valid() && size == |Symbols(freq[..n], n)| <= n
      ensures heap[..size + 1] == [0] + Symbols(freq[..n], n)
      ensures size == 0 ==> heap[1] == 0
      ensures forall i :: 0 <= i < n ==> len[i] == 0
      ensures len[n..] == old(len[n..])
    {
      ghost var f := freq[..n];
      size := 0;
      heap[1] := 0;
      for i := 0 to n
        invariant size == |Symbols(f, i)| <= i && heap[..size + 1] == [0] + Symbols(f, i)
        invariant heap[0] == 0 && (size == 0 ==> heap[1] == 0)
        invariant forall j :: 0 <= j < i ==> len[j] == 0
        invariant len[n..] == old(len[n..])
      {
        len[i] := 0;
        if freq[i] != 0 {
          size := size + 1;
          heap[size] := i;
        }
      }
    }

    /** One turn of the second loop. */
    method SettleNode(n: nat, freq: array<nat>, size: nat, i: nat)
      requires Valid() && Foreign(freq) && n <= freq.Length && size < heap.Length && 1 <= i <= size
      requires Nodes(heap[..size + 1], freq[..n])
      modifies heap
      ensures Valid() && Nodes(heap[..size + 1], freq[..n])
      ensures Heapify(heap[..size + 1], freq[..n], i - 1) == Heapify(old(heap[..size + 1]), freq[..n], i)
    {
      hide Sift;
      ghost var h := heap[..size + 1];
      DownHeap(heap, size, freq, n, i);
      assert heap[0] == heap[..size + 1][0] == h[0];
    }

    /** The second loop: a priority queue. */
    method BuildHeap(n: nat, freq: array<nat>, size: nat)
      requires Valid() && Foreign(freq) && n <= freq.Length && size < heap.Length
      requires Nodes(heap[..size + 1], freq[..n])
      modifies heap
      ensures Valid() && heap[..size + 1] == Heapify(old(heap[..size + 1]), freq[..n], size / 2)
    {
      hide Nodes, Sift;
      ghost var f := freq[..n];
      ghost var target := Heapify(heap[..size + 1], f, size / 2);
      var i := size / 2;
      while i >= 1
        invariant 0 <= i <= size && heap[0] == 0
        invariant Nodes(heap[..size + 1], f) && Heapify(heap[..size + 1], f, i) == target
      {
        SettleNode(n, freq, size, i);
        i := i - 1;
      }
    }

    /** One turn of the third loop. */
    method MergeTurn(n: nat, freq: array<nat>, code: array<nat>, size: nat, avail: nat, p: nat) returns (q: nat)
      requires Valid() && Foreign(freq) && Foreign(code) && freq != code
      requires 2 <= size < heap.Length && n <= avail < freq.Length && avail < left.Length && p <= code.Length
      requires var s := View(heap, freq, left, right, code, n, size, avail, p);
        Shape(s, n) && |Merge(s, n).sorted| <= code.Length
      modifies heap, freq, left, right, code
      ensures Valid() && q <= code.Length
      ensures View(heap, freq, left, right, code, n, size - 1, avail + 1, q)
           == Merge(old(View(heap, freq, left, right, code, n, size, avail, p)), n)
    {
      hide Merge, Sift;
      ghost var s := View(heap, freq, left, right, code, n, size, avail, p);
      var a := TakeRoot(heap, freq, size, avail);
      var b, x := CombineRoot(heap, freq, size, avail, a);
      MergeIsJoin(s, n, a, b, s.freq[a] + s.freq[b], x);
      assert heap[0] == heap[..size][0] == s.heap[0];
      q := NoteLeaf(code, n, a, p);
      q := NoteLeaf(code, n, b, q);
      left[avail] := a;
      right[avail] := b;
      assert left[n..avail + 1] == s.lefts + [a] && right[n..avail + 1] == s.rights + [b];
    }

    /** The `k`-th turn. */
    method Turn(n: nat, freq: array<nat>, code: array<nat>, size: nat, avail: nat, p: nat, ghost f: seq<nat>,
                ghost k: nat)
      returns (size': nat, avail': nat, p': nat)
      requires Valid() && Foreign(freq) && Foreign(code) && freq != code && |f| == n <= code.Length
      requires 2 <= size < heap.Length && n <= avail < freq.Length && avail < left.Length && p <= code.Length
      requires k + 1 < |Symbols(f, n)| && Total(f) < 0x1_0000
      requires View(heap, freq, left, right, code, n, size, avail, p) == Turns(f, k)
      modifies heap, freq, left, right, code
      ensures Valid() && size' == size - 1 && avail' == avail + 1 && p' <= code.Length
      ensures View(heap, freq, left, right, code, n, size', avail', p') == Turns(f, k + 1)
    {
      hide Merge, Shape;
      TurnBound(f, k);
      p' := MergeTurn(n, freq, code, size, avail, p);
      size', avail' := size - 1, avail + 1;
    }

    /** The third loop: merge until one node is left, the last one made. */
    method MergeLoop(n: nat, freq: array<nat>, code: array<nat>, size0: nat, ghost f: seq<nat>)
      returns (avail: nat, ghost p: nat)
      requires Valid() && Foreign(freq) && Foreign(code) && freq != code
      requires |f| == n <= 510 && 2 * n - 1 <= freq.Length && n <= code.Length
      requires Total(f) < 0x1_0000 && 2 <= size0 == |Symbols(f, n)| <= n
      requires View(heap, freq, left, right, code, n, size0, n, 0) == Plant(f)
      modifies heap, freq, left, right, code
      ensures Valid() && avail == Root(f) + 1 <= freq.Length && avail <= left.Length && p <= code.Length
      ensures View(heap, freq, left, right, code, n, 1, avail, p) == Grow(f)
    {
      var size, q := size0, 0;
      avail := n;
      ghost var k := 0;
      while size > 1
        invariant Valid() && 1 <= size <= size0 && avail == n + k && size + k == size0 && 0 <= q <= code.Length
        invariant View(heap, freq, left, right, code, n, size, avail, q) == Turns(f, k)
        decreases size
      {
        size, avail, q := Turn(n, freq, code, size, avail, q, f, k);
        k := k + 1;
      }
      LastTurn(f, k);
      p := q;
    }

    /** The first part of `MakeLen`: length counts, limited to 16 bits. */
    method CountLengths(n: nat, avail: nat, ghost f: seq<nat>)
      requires Valid() && |f| == n && Codable(f) && avail == Root(f) + 1 <= left.Length
      requires left[n..avail] == Grow(f).lefts && right[n..avail] == Grow(f).rights
      modifies lenCnt
      ensures Valid() && lenCnt[..] == LengthCounts(f)
    {
      assert Tree(left, right, n, avail) by {
        assert forall i :: n <= i < avail ==> left[i] == left[n..avail][i - n] && right[i] == right[n..avail][i - n];
      }
      GrowRepairable(f);
      LimitLengths(left, right, n, avail, avail - 1, lenCnt);
    }

    /** The second part of `MakeLen`: the lengths themselves. */
    method GiveLengths(n: nat, code: array<nat>, len: array<nat>, ghost p: nat, ghost f: seq<nat>)
      requires Valid() && Foreign(code) && Foreign(len) && len != code
      requires |f| == n <= len.Length && Codable(f) && p <= code.Length
      requires lenCnt[..] == LengthCounts(f) && code[..p] == Grow(f).sorted
      requires forall i :: 0 <= i < n ==> len[i] == 0
      modifies len
      ensures Valid() && len[..n] == CodeLens(f) && len[n..] == old(len[n..])
    {
      SortedLength(f);
      assert forall i :: 0 <= i < p ==> code[i] == code[..p][i];
      AssignLengths(n, p, code, len, lenCnt);
    }

    /** `MakeLen`, then `MakeCode`. */
    method MakeLenAndCode(n: nat, code: array<nat>, len: array<nat>, avail: nat, ghost p: nat, ghost f: seq<nat>)
      requires Valid() && Foreign(code) && Foreign(len) && len != code
      requires |f| == n <= len.Length && n <= code.Length && Codable(f) && avail == Root(f) + 1 <= left.Length
      requires p <= code.Length
      requires left[n..avail] == Grow(f).lefts && right[n..avail] == Grow(f).rights && code[..p] == Grow(f).sorted
      requires forall i :: 0 <= i < n ==> len[i] == 0
      modifies lenCnt, len, code
      ensures Valid() && len[..n] == CodeLens(f) && len[n..] == old(len[n..])
      ensures Coded(code[..], len[..n], n)
    {
      CountLengths(n, avail, f);
      GiveLengths(n, code, len, p, f);
      forall l | 1 <= l <= 16
        ensures lenCnt[l] == Count(len[..n], l)
      {
        CodeLensCounts(f, l);
        assert lenCnt[l] == lenCnt[..][l];
      }
      assert ValidLens(len[..n]) by {
        CodeLensGood(f);
      }
      MakeCode(n, len, lenCnt, code);
    }

    /** The loops of `MakeTree` that build the tree of two symbols and more. */
    method GrowTree(n: nat, freq: array<nat>, code: array<nat>, size: nat, ghost f: seq<nat>)
      returns (avail: nat, ghost p: nat)
      requires Valid() && Foreign(freq) && Foreign(code) && freq != code
      requires 1 <= n <= 510 && 2 * n - 1 <= freq.Length && n <= code.Length
      requires f == freq[..n] && Total(f) < 0x1_0000 && 2 <= size == |Symbols(f, n)| <= n
      requires heap[..size + 1] == [0] + Symbols(f, n)
      modifies heap, left, right, freq, code
      ensures Valid() && avail == Root(f) + 1 <= freq.Length && avail <= left.Length && p <= code.Length
      ensures freq[..avail] == Grow(f).freq && code[..p] == Grow(f).sorted
      ensures left[n..avail] == Grow(f).lefts && right[n..avail] == Grow(f).rights
    {
      hide Grow, Heapify, Turns;
      BuildHeap(n, freq, size);
      assert View(heap, freq, left, right, code, n, size, n, 0) == Plant(f);
      avail, p := MergeLoop(n, freq, code, size, f);
    }

    /** The part of `MakeTree` for two symbols and more. */
    method BuildMany(n: nat, freq: array<nat>, len: array<nat>, code: array<nat>, size: nat, ghost f: seq<nat>)
      returns (root: nat)
      requires Valid() && Foreign(freq) && Foreign(len) && Foreign(code)
      requires freq != len && freq != code && len != code
      requires 1 <= n <= 510 && 2 * n - 1 <= freq.Length && n <= len.Length && n <= code.Length
      requires f == freq[..n] && Total(f) < 0x1_0000 && 2 <= size == |Symbols(f, n)| <= n
      requires heap[..size + 1] == [0] + Symbols(f, n) && forall i :: 0 <= i < n ==> len[i] == 0
      modifies heap, left, right, lenCnt, freq, len, code
      ensures Valid() && freq[..n] == f
      ensures root == Root(f) < freq.Length && freq[root] == Total(f)
      ensures len[..n] == CodeLens(f) && len[n..] == old(len[n..]) && Coded(code[..], len[..n], n)
    {
      var avail, p := GrowTree(n, freq, code, size, f);
      root := avail - 1;
      assert f <= freq[..avail] && freq[..avail][root] == Total(f) by {
        GrowGood(f, root);
      }
      MakeLenAndCode(n, code, len, avail, p, f);
    }

    /** `MakeTree`. */
    method Build(n: nat, freq: array<nat>, len: array<nat>, code: array<nat>) returns (root: nat)
      requires Valid() && Foreign(freq) && Foreign(len) && Foreign(code)
      requires freq != len && freq != code && len != code
      requires 1 <= n <= 510 && 2 * n - 1 <= freq.Length && n <= len.Length && n <= code.Length
      requires Total(freq[..n]) < 0x1_0000
      modifies heap, left, right, lenCnt, freq, len, code
      ensures Valid()
      ensures var f := old(freq[..n]);
        && freq[..n] == f
        && root == TreeRoot(f) < freq.Length && freq[root] == Total(f)
        && len[..n] == TreeLens(f) && len[n..] == old(len[n..])
        && (root < n ==> code[root] == 0)
        && (n <= root ==> Coded(code[..], len[..n], n))
    {
      ghost var f := freq[..n];
      var size := CollectSymbols(n, freq, len);
      if size < 2 {
        TotalFew(f, n);
        assert f[..n] == f;
        assert size == 1 ==> heap[1] == heap[..2][1];
        code[heap[1]] := 0;
        root := heap[1];
      } else {
        root := BuildMany(n, freq, len, code, size, f);
      }
    }
  }
}
