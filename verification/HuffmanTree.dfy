/** The Huffman tree of `MakeTree`: repeatedly merging the two rarest nodes. */
module HuffmanTree {
  import opened Bits
  import opened HuffmanHeap

  // ---- Weights of node collections ----

  ghost predicate Below(m: multiset<nat>, n: nat) {
    forall x :: x in m ==> x < n
  }

  function Times(n: nat, x: nat): nat {
    if n == 0 then 0 else Times(n - 1, x) + x
  }

  /** The total weight of a collection of nodes. */
  ghost function Sum(m: multiset<nat>, w: seq<nat>): nat {
    if w == [] then 0 else Sum(m, w[..|w| - 1]) + Times(m[|w| - 1], w[|w| - 1])
  }

  lemma {:induction false} SumInsert(m: multiset<nat>, x: nat, w: seq<nat>)
    ensures Sum(m + multiset{x}, w) == Sum(m, w) + (if x < |w| then w[x] else 0)
  {
    if w != [] {
      var k := |w| - 1;
      SumInsert(m, x, w[..k]);
    }
  }

  lemma SumSnoc(m: multiset<nat>, w: seq<nat>, x: nat)
    ensures Sum(m, w + [x]) == Sum(m, w) + Times(m[|w|], x)
  {
    assert (w + [x])[..|w|] == w;
  }

  lemma SumRemove(m: multiset<nat>, x: nat, w: seq<nat>)
    requires x in m && x < |w|
    ensures Sum(m, w) == w[x] + Sum(m - multiset{x}, w)
  {
    SumInsert(m - multiset{x}, x, w);
    assert m - multiset{x} + multiset{x} == m;
  }

  /** The weight of a merged node is the sum of its children's, so the total stays. */
  lemma MergeWeights(w: seq<nat>, m: multiset<nat>, a: nat, b: nat, x: nat)
    requires a in m && b in m - multiset{a} && Below(m, |w|)
    ensures w[a] + w[b] <= Sum(m, w)
    ensures x == w[a] + w[b] ==> Sum(m - multiset{a} - multiset{b} + multiset{|w|}, w + [x]) == Sum(m, w)
  {
    var rest, k := m - multiset{a} - multiset{b}, |w|;
    SumRemove(m, a, w);
    SumRemove(m - multiset{a}, b, w);
    SumInsert(rest, k, w);
    SumSnoc(rest + multiset{k}, w, x);
    assert (rest + multiset{k})[k] == 1;
    assert Times(1, x) == x;
  }

  // ---- Trees ----

  /** The state of `MakeTree`'s loop: leaves are 0..n-1, inner node n+i has the children lefts[i], rights[i]. */
  datatype Forest = Forest(heap: seq<nat>, freq: seq<nat>, lefts: seq<nat>, rights: seq<nat>, sorted: seq<nat>)

  ghost predicate Shape(s: Forest, n: nat)
  {
    && Nodes(s.heap, s.freq)
    && |s.lefts| == |s.rights|
    && |s.freq| == n + |s.lefts|
    && forall i :: 0 <= i < |s.lefts| ==> s.lefts[i] < n + i && s.rights[i] < n + i
  }

  /** Leaves are noted in the order in which they leave the heap. */
  function Note(sorted: seq<nat>, n: nat, v: nat): seq<nat> {
    if v < n then sorted + [v] else sorted
  }

  /** Nodes `a` and `b` become the children of a new node of frequency `x`; the new heap is given. */
  function Join(s: Forest, n: nat, a: nat, b: nat, x: nat, heap: seq<nat>): Forest {
    Forest(heap, s.freq + [x], s.lefts + [a], s.rights + [b], Note(Note(s.sorted, n, a), n, b))
  }

  /** One turn of the loop. */
  function Merge(s: Forest, n: nat): (t: Forest)
    requires Shape(s, n) && 3 <= |s.heap|
    ensures Shape(t, n) && |t.heap| == |s.heap| - 1
  {
    var a := s.heap[1];
    var h := PopRoot(s.heap, s.freq);
    var b := h[1];
    var x := Wrap16(s.freq[a] + s.freq[b]);
    Join(s, n, a, b, x, ReplaceRoot(h, s.freq + [x], |s.freq|))
  }

  predicate Inner(lefts: seq<nat>, rights: seq<nat>, n: nat, v: nat) {
    n <= v && v - n < |lefts| && v - n < |rights| && lefts[v - n] < v && rights[v - n] < v
  }

  /** The number of leaves below `v`. */
  function LeafCount(lefts: seq<nat>, rights: seq<nat>, n: nat, v: nat): (r: nat)
    ensures r >= 1
  {
    if Inner(lefts, rights, n, v)
    then LeafCount(lefts, rights, n, lefts[v - n]) + LeafCount(lefts, rights, n, rights[v - n])
    else 1
  }

  lemma {:induction false} LeafCountFrame(lefts: seq<nat>, rights: seq<nat>, a: nat, b: nat, n: nat, v: nat)
    requires |lefts| == |rights| && v < n + |lefts|
    ensures LeafCount(lefts + [a], rights + [b], n, v) == LeafCount(lefts, rights, n, v)
    decreases v
  {
    if Inner(lefts, rights, n, v) {
      LeafCountFrame(lefts, rights, a, b, n, lefts[v - n]);
      LeafCountFrame(lefts, rights, a, b, n, rights[v - n]);
    }
  }

  /** The leaf counts of all nodes. */
  ghost function LeafCounts(lefts: seq<nat>, rights: seq<nat>, n: nat): (r: seq<nat>)
    ensures |r| == n + |lefts|
    ensures forall v :: 0 <= v < |r| ==> r[v] == LeafCount(lefts, rights, n, v)
  {
    seq(n + |lefts|, v requires 0 <= v => LeafCount(lefts, rights, n, v))
  }

  lemma LeafCountsSnoc(lefts: seq<nat>, rights: seq<nat>, n: nat, a: nat, b: nat)
    requires |lefts| == |rights| && a < n + |lefts| && b < n + |lefts|
    ensures var w := LeafCounts(lefts, rights, n); LeafCounts(lefts + [a], rights + [b], n) == w + [w[a] + w[b]]
  {
    var w := LeafCounts(lefts, rights, n);
    forall v | 0 <= v <= |w|
      ensures LeafCount(lefts + [a], rights + [b], n, v) == (w + [w[a] + w[b]])[v]
    {
      if v < |w| {
        LeafCountFrame(lefts, rights, a, b, n, v);
      } else {
        assert Inner(lefts + [a], rights + [b], n, v);
        LeafCountFrame(lefts, rights, a, b, n, a);
        LeafCountFrame(lefts, rights, a, b, n, b);
      }
    }
  }

  // ---- The loop invariant ----

  /** Every used symbol either is still among `m` or has been noted, once. */
  ghost predicate Partition(sorted: seq<nat>, m: multiset<nat>, f0: seq<nat>)
  {
    && (forall i :: 0 <= i < |sorted| ==> sorted[i] < |f0|)
    && forall x :: 0 <= x < |f0| ==> multiset(sorted)[x] + m[x] == if f0[x] == 0 then 0 else 1
  }

  /** Ascending order: every node noted so far is at most as frequent as the later ones and those in `m`. */
  ghost predicate Floor(sorted: seq<nat>, f: seq<nat>, m: multiset<nat>)
  {
    && (forall i :: 0 <= i < |sorted| ==> sorted[i] < |f|)
    && (forall i, j :: 0 <= i < j < |sorted| ==> f[sorted[i]] <= f[sorted[j]])
    && forall i, x :: 0 <= i < |sorted| && x in m && x < |f| ==> f[sorted[i]] <= f[x]
  }

  /** What the loop keeps, with the heap seen as the collection `m` of its nodes. */
  ghost predicate Good(s: Forest, m: multiset<nat>, f0: seq<nat>, total: nat, leaves: nat)
  {
    && |s.lefts| == |s.rights| && |s.freq| == |f0| + |s.lefts|
    && Below(m, |s.freq|)
    && f0 <= s.freq
    && Sum(m, s.freq) == total
    && Sum(m, LeafCounts(s.lefts, s.rights, |f0|)) == leaves
    && Partition(s.sorted, m, f0)
    && Floor(s.sorted, s.freq, m)
  }

  // ---- One turn keeps it ----

  ghost predicate Least(a: nat, m: multiset<nat>, f: seq<nat>)
  {
    a in m && a < |f| && forall x :: x in m && x < |f| ==> f[a] <= f[x]
  }

  lemma NotePartition(sorted: seq<nat>, m: multiset<nat>, f0: seq<nat>, a: nat)
    requires Partition(sorted, m, f0) && a in m
    ensures Partition(Note(sorted, |f0|, a), m - multiset{a}, f0)
  {
    if a < |f0| {
      assert multiset(sorted + [a]) == multiset(sorted) + multiset{a};
    }
  }

  lemma InnerPartition(sorted: seq<nat>, m: multiset<nat>, f0: seq<nat>, k: nat)
    requires Partition(sorted, m, f0) && |f0| <= k
    ensures Partition(sorted, m + multiset{k}, f0)
  {
  }

  lemma NoteFloor(sorted: seq<nat>, f: seq<nat>, n: nat, m: multiset<nat>, a: nat)
    requires Floor(sorted, f, m) && Least(a, m, f)
    ensures Floor(Note(sorted, n, a), f, m - multiset{a})
  {
    var one, rest := Note(sorted, n, a), m - multiset{a};
    forall i, x | 0 <= i < |one| && x in rest && x < |f|
      ensures f[one[i]] <= f[x]
    {
      assert x in m;
    }
    forall i, j | 0 <= i < j < |one|
      ensures f[one[i]] <= f[one[j]]
    {
      assert a in m;
    }
  }

  /** Noting the two rarest nodes and putting their sum back keeps the order. */
  lemma NoteTwo(sorted: seq<nat>, f: seq<nat>, n: nat, m: multiset<nat>, a: nat, b: nat, x: nat)
    requires Floor(sorted, f, m) && Least(a, m, f) && Least(b, m - multiset{a}, f) && x == f[a] + f[b]
    ensures Floor(Note(Note(sorted, n, a), n, b), f + [x], m - multiset{a} - multiset{b} + multiset{|f|})
  {
    var one := Note(sorted, n, a);
    var two, g := Note(one, n, b), f + [x];
    NoteFloor(sorted, f, n, m, a);
    NoteFloor(one, f, n, m - multiset{a}, b);
    forall i | 0 <= i < |two|
      ensures g[two[i]] <= g[|f|]
    {
      assert i < |one| ==> f[one[i]] <= f[b];
    }
  }

  lemma JoinGood(s: Forest, m: multiset<nat>, f0: seq<nat>, total: nat, leaves: nat,
                 a: nat, b: nat, x: nat, heap: seq<nat>)
    requires Good(s, m, f0, total, leaves)
    requires Least(a, m, s.freq) && Least(b, m - multiset{a}, s.freq) && x == s.freq[a] + s.freq[b]
    ensures Good(Join(s, |f0|, a, b, x, heap), m - multiset{a} - multiset{b} + multiset{|s.freq|}, f0, total, leaves)
  {
    hide Sum, LeafCounts, Partition, Floor, Note;
    MergeWeights(s.freq, m, a, b, x);
    JoinLeaves(s.lefts, s.rights, |f0|, m, a, b);
    JoinNotes(s.sorted, m, s.freq, f0, a, b, x);
  }

  lemma JoinLeaves(lefts: seq<nat>, rights: seq<nat>, n: nat, m: multiset<nat>, a: nat, b: nat)
    requires |lefts| == |rights| && Below(m, n + |lefts|) && a in m && b in m - multiset{a}
    ensures Sum(m - multiset{a} - multiset{b} + multiset{n + |lefts|}, LeafCounts(lefts + [a], rights + [b], n))
         == Sum(m, LeafCounts(lefts, rights, n))
  {
    hide Sum;
    var w := LeafCounts(lefts, rights, n);
    LeafCountsSnoc(lefts, rights, n, a, b);
    MergeWeights(w, m, a, b, w[a] + w[b]);
  }

  lemma JoinNotes(sorted: seq<nat>, m: multiset<nat>, f: seq<nat>, f0: seq<nat>, a: nat, b: nat, x: nat)
    requires Partition(sorted, m, f0) && Floor(sorted, f, m) && |f0| <= |f|
    requires Least(a, m, f) && Least(b, m - multiset{a}, f) && x == f[a] + f[b]
    ensures Partition(Note(Note(sorted, |f0|, a), |f0|, b), m - multiset{a} - multiset{b} + multiset{|f|}, f0)
    ensures Floor(Note(Note(sorted, |f0|, a), |f0|, b), f + [x], m - multiset{a} - multiset{b} + multiset{|f|})
  {
    NotePartition(sorted, m, f0, a);
    NotePartition(Note(sorted, |f0|, a), m - multiset{a}, f0, b);
    InnerPartition(Note(Note(sorted, |f0|, a), |f0|, b), m - multiset{a} - multiset{b}, f0, |f|);
    NoteTwo(sorted, f, |f0|, m, a, b, x);
  }

  lemma RootLeast(h: seq<nat>, f: seq<nat>)
    requires Nodes(h, f) && 2 <= |h| && Ordered(h, f, 1)
    ensures Least(h[1], Live(h), f)
  {
    assert h[1] in h[1..];
    forall x | x in Live(h)
      ensures x < |f| && f[h[1]] <= f[x]
    {
      var k :| 1 <= k < |h| && h[k] == x;
      RootIsLeast(h, f, k);
    }
  }

  lemma OrderedFrame(h: seq<nat>, f: seq<nat>, g: seq<nat>)
    requires Nodes(h, f) && Ordered(h, f, 1) && f <= g
    ensures Nodes(h, g) && Ordered(h, g, 1)
  {
    forall k | 2 <= k < |h|
      ensures Edge(h, g, k)
    {
      assert Edge(h, f, k);
    }
  }

  /** The two nodes that leave the heap in one turn, and their combined frequency. */
  ghost function First(h: seq<nat>): nat
    requires 2 <= |h|
  {
    h[1]
  }

  ghost function Second(h: seq<nat>, f: seq<nat>): nat
    requires Nodes(h, f) && 3 <= |h|
  {
    PopRoot(h, f)[1]
  }

  lemma TwoRarest(h: seq<nat>, f: seq<nat>)
    requires Nodes(h, f) && 3 <= |h| && Ordered(h, f, 1)
    ensures Least(First(h), Live(h), f) && Least(Second(h, f), Live(h) - multiset{First(h)}, f)
  {
    PopRootKeeps(h, f);
    RootLeast(h, f);
    RootLeast(PopRoot(h, f), f);
  }

  lemma CombinedFits(h: seq<nat>, f: seq<nat>, a: nat, b: nat, x: nat)
    requires Nodes(h, f) && 3 <= |h| && Ordered(h, f, 1) && Sum(Live(h), f) < 0x1_0000
    requires a == First(h) && b == Second(h, f) && a < |f| && b < |f| && x == f[a] + f[b]
    ensures Wrap16(x) == x
  {
    TwoRarest(h, f);
    MergeWeights(f, Live(h), a, b, x);
    WrapSmall(x);
  }

  /** The heap after a turn, given the new frequencies. */
  lemma HeapAfter(h: seq<nat>, f: seq<nat>, x: nat)
    requires Nodes(h, f) && 3 <= |h| && Ordered(h, f, 1)
    ensures var g := ReplaceRoot(PopRoot(h, f), f + [x], |f|);
      && Ordered(g, f + [x], 1)
      && Live(g) == Live(h) - multiset{First(h)} - multiset{Second(h, f)} + multiset{|f|}
  {
    PopRootKeeps(h, f);
    OrderedFrame(PopRoot(h, f), f, f + [x]);
    ReplaceRootKeeps(PopRoot(h, f), f + [x], |f|);
  }

  lemma MergeIsJoin(s: Forest, n: nat, a: nat, b: nat, y: nat, x: nat)
    requires Shape(s, n) && 3 <= |s.heap|
    requires a == First(s.heap) && b == Second(s.heap, s.freq) && a < |s.freq| && b < |s.freq|
    requires y == s.freq[a] + s.freq[b] && x == Wrap16(y)
    ensures Merge(s, n) == Join(s, n, a, b, x, ReplaceRoot(PopRoot(s.heap, s.freq), s.freq + [x], |s.freq|))
  {
  }

  lemma MergeGood(s: Forest, f0: seq<nat>, total: nat, leaves: nat)
    requires Shape(s, |f0|) && 3 <= |s.heap| && Ordered(s.heap, s.freq, 1)
    requires Good(s, Live(s.heap), f0, total, leaves) && total < 0x1_0000
    ensures var t := Merge(s, |f0|); Ordered(t.heap, t.freq, 1) && Good(t, Live(t.heap), f0, total, leaves)
  {
    var a, b := First(s.heap), Second(s.heap, s.freq);
    TwoRarest(s.heap, s.freq);
    var x := s.freq[a] + s.freq[b];
    CombinedFits(s.heap, s.freq, a, b, x);
    HeapAfter(s.heap, s.freq, x);
    MergeIsJoin(s, |f0|, a, b, x, x);
    JoinGood(s, Live(s.heap), f0, total, leaves, a, b, x, Merge(s, |f0|).heap);
  }

  // ---- From frequencies to the tree ----

  /** The symbols below `i` that occur, in ascending order. */
  function Symbols(f: seq<nat>, i: nat): (r: seq<nat>)
    requires i <= |f|
    ensures forall k :: 0 <= k < |r| ==> r[k] < i
  {
    if i == 0 then [] else if f[i - 1] != 0 then Symbols(f, i - 1) + [i - 1] else Symbols(f, i - 1)
  }

  function Total(f: seq<nat>): nat {
    if f == [] then 0 else Total(f[..|f| - 1]) + f[|f| - 1]
  }

  lemma {:induction false} SymbolsOnce(f: seq<nat>, i: nat)
    requires i <= |f|
    ensures forall x :: 0 <= x < |f| ==> multiset(Symbols(f, i))[x] == if x < i && f[x] != 0 then 1 else 0
  {
    if i > 0 {
      SymbolsOnce(f, i - 1);
    }
  }

  lemma {:induction false} SymbolsBound(f: seq<nat>, i: nat)
    requires i <= |f|
    ensures |Symbols(f, i)| <= i
  {
    if i > 0 {
      SymbolsBound(f, i - 1);
    }
  }

  /** The initial forest: every occurring symbol is a node of its own. */
  function Plant(f: seq<nat>): (s: Forest)
    ensures Shape(s, |f|) && |s.heap| == 1 + |Symbols(f, |f|)|
  {
    var h := [0] + Symbols(f, |f|);
    Forest(Heapify(h, f, (|h| - 1) / 2), f, [], [], [])
  }

  /** Weights taken once for every used symbol add up to the total of the used weights. */
  lemma {:induction false} SumUsed(m: multiset<nat>, f: seq<nat>, i: nat)
    requires i <= |f|
    requires forall x :: 0 <= x < |f| ==> m[x] == if f[x] == 0 then 0 else 1
    ensures Sum(m, f[..i]) == Total(f[..i])
  {
    if i > 0 {
      SumUsed(m, f, i - 1);
      assert f[..i] == f[..i - 1] + [f[i - 1]];
      SumSnoc(m, f[..i - 1], f[i - 1]);
      assert f[..i][..i - 1] == f[..i - 1];
    }
  }

  lemma {:induction false} SumOnes(m: multiset<nat>, f: seq<nat>, w: seq<nat>, i: nat)
    requires i <= |f| == |w|
    requires forall x :: 0 <= x < |f| ==> m[x] == (if f[x] == 0 then 0 else 1) && w[x] == 1
    ensures Sum(m, w[..i]) == |Symbols(f, i)|
  {
    if i > 0 {
      SumOnes(m, f, w, i - 1);
      assert w[..i] == w[..i - 1] + [w[i - 1]];
      SumSnoc(m, w[..i - 1], w[i - 1]);
    }
  }

  lemma SeedGood(f: seq<nat>, heap: seq<nat>)
    ensures Good(Forest(heap, f, [], [], []), multiset(Symbols(f, |f|)), f, Total(f), |Symbols(f, |f|)|)
  {
    var m, w := multiset(Symbols(f, |f|)), LeafCounts([], [], |f|);
    SymbolsOnce(f, |f|);
    SumUsed(m, f, |f|);
    SumOnes(m, f, w, |f|);
    assert f[..|f|] == f && w[..|w|] == w;
  }

  lemma PlantGood(f: seq<nat>)
    requires 1 <= |Symbols(f, |f|)|
    ensures var s := Plant(f);
      Ordered(s.heap, f, 1) && Good(s, Live(s.heap), f, Total(f), |Symbols(f, |f|)|)
  {
    var h := [0] + Symbols(f, |f|);
    HeapifyOrders(h, f, (|h| - 1) / 2);
    assert h[1..] == Symbols(f, |f|);
    SeedGood(f, Plant(f).heap);
  }

  /** The forest after `k` turns of the loop. */
  function Turns(f: seq<nat>, k: nat): (s: Forest)
    requires k == 0 || k < |Symbols(f, |f|)|
    ensures Shape(s, |f|) && |s.heap| == 1 + |Symbols(f, |f|)| - k && |s.freq| == |f| + k
  {
    if k == 0 then Plant(f) else Merge(Turns(f, k - 1), |f|)
  }

  /** What every turn keeps. */
  lemma {:induction false} TurnsGood(f: seq<nat>, k: nat)
    requires k < |Symbols(f, |f|)| && Total(f) < 0x1_0000
    ensures var s := Turns(f, k);
      Ordered(s.heap, s.freq, 1) && Good(s, Live(s.heap), f, Total(f), |Symbols(f, |f|)|)
  {
    hide Floor, Good, Live, Merge, Nodes, Ordered, Partition, Sift, Sum, Symbols, Total;
    if k == 0 {
      PlantGood(f);
    } else {
      TurnsGood(f, k - 1);
      MergeGood(Turns(f, k - 1), f, Total(f), |Symbols(f, |f|)|);
    }
  }

  /** The finished forest of a frequency table with at least two symbols. */
  function Grow(f: seq<nat>): (s: Forest)
    requires 2 <= |Symbols(f, |f|)|
    ensures Shape(s, |f|)
  {
    Turns(f, |Symbols(f, |f|)| - 1)
  }

  lemma LastRoot(s: Forest, n: nat)
    requires Shape(s, n) && |s.heap| == 3
    ensures Merge(s, n).heap[1] == |s.freq|
  {
  }

  lemma {:induction false} SumSingle(k: nat, w: seq<nat>, i: nat)
    requires i <= |w|
    ensures Sum(multiset{k}, w[..i]) == if k < i then w[k] else 0
  {
    if i > 0 {
      SumSingle(k, w, i - 1);
      assert w[..i] == w[..i - 1] + [w[i - 1]];
      SumSnoc(multiset{k}, w[..i - 1], w[i - 1]);
    }
  }

  /** The order in which the leaves left the heap: each used symbol once, by ascending frequency. */
  ghost predicate SortedSymbols(sorted: seq<nat>, f: seq<nat>)
  {
    && (forall i :: 0 <= i < |sorted| ==> sorted[i] < |f|)
    && (forall x :: 0 <= x < |f| ==> multiset(sorted)[x] == if f[x] == 0 then 0 else 1)
    && (forall i, j :: 0 <= i < j < |sorted| ==> f[sorted[i]] <= f[sorted[j]])
  }

  lemma RootFacts(t: Forest, f: seq<nat>, total: nat, leaves: nat, root: nat)
    requires Good(t, multiset{root}, f, total, leaves) && |f| <= root < |t.freq|
    ensures f <= t.freq && t.freq[root] == total
    ensures LeafCount(t.lefts, t.rights, |f|, root) == leaves
    ensures SortedSymbols(t.sorted, f)
  {
    hide LeafCounts, Sum;
    var w := LeafCounts(t.lefts, t.rights, |f|);
    SumSingle(root, t.freq, |t.freq|);
    SumSingle(root, w, |w|);
    assert t.freq[..|t.freq|] == t.freq && w[..|w|] == w;
  }

  lemma LiveSingle(h: seq<nat>)
    requires |h| == 2
    ensures Live(h) == multiset{h[1]}
  {
    assert h[1..] == [h[1]];
  }

  /** `MakeTree`'s loop ends with one tree over all used symbols that carries the whole frequency. */
  lemma GrowGood(f: seq<nat>, root: nat)
    requires 2 <= |Symbols(f, |f|)| && Total(f) < 0x1_0000
    requires root == |f| + |Symbols(f, |f|)| - 2
    ensures var t := Grow(f);
      && |t.freq| == root + 1
      && f <= t.freq && t.freq[root] == Total(f)
      && LeafCount(t.lefts, t.rights, |f|, root) == |Symbols(f, |f|)|
      && SortedSymbols(t.sorted, f)
  {
    var t, k := Grow(f), |Symbols(f, |f|)| - 1;
    TurnsGood(f, k);
    LastRoot(Turns(f, k - 1), |f|);
    LiveSingle(t.heap);
    assert t.heap[1] == root;
    RootFacts(t, f, Total(f), |Symbols(f, |f|)|, t.heap[1]);
  }
}
