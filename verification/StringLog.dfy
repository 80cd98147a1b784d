/** What is remembered of the strings in the window beside the tree: which leaf stands for which position, the free
    nodes and the numbers of children. */
module StringLog {
  import opened Bits
  import opened SuffixTree
  import HC = HashChains

  // ---- Leaves and positions ----

  /** The leaf for a position. */
  function Slot(p: nat): (l: nat)
    ensures Leaf(l)
  {
    8192 + p % 8192
  }

  lemma SlotApart(p: nat, q: nat)
    requires p < q < p + 8192
    ensures Slot(p) != Slot(q)
  {
  }

  lemma SlotAgain(p: nat, a: nat)
    requires p < a <= p + 8192 && Slot(p) == Slot(a)
    ensures p + 8192 == a
  {
  }

  /** Nodes keep their positions as offsets in the upper half of the window, which is at `a`; as long as they are in the
      window the offset in the text gives the position. */
  lemma OffsetRecovers(p: nat, a: nat)
    requires p < a <= p + 8192
    ensures var x, pos := Slot(p), Slot(a); (if x >= pos then x - 8192 else x) == pos - (a - p)
  {
  }

  /** The position `p` has a leaf, or one with the same 256 characters has superseded it: its heir. */
  ghost predicate Present(t: Tree, heir: seq<nat>, text: Text, p: nat, hi: nat)
    requires Sized(t) && |heir| == 16384
  {
    && t.pos[Slot(p)] == p
    && (Live(t, Slot(p)) ||
        (var h := heir[Slot(p)];
         Leaf(h) && p < t.pos[h] < hi && h == Slot(t.pos[h]) && Agree(text, p, t.pos[h], 256)))
  }

  ghost predicate Logged(t: Tree, heir: seq<nat>, text: Text, lo: nat, hi: nat)
    requires Sized(t) && |heir| == 16384
  {
    && (forall p: nat :: lo <= p < hi ==> Present(t, heir, text, p, hi))
    && (forall l: nat :: Leaf(l) && Live(t, l) ==> l == Slot(t.pos[l]))
  }

  lemma {:induction false} LiveLeaf(t: Tree, heir: seq<nat>, text: Text, lo: nat, hi: nat, p: nat) returns (q: nat)
    requires Sized(t) && |heir| == 16384 && Logged(t, heir, text, lo, hi) && lo <= p < hi
    ensures p <= q < hi && Live(t, Slot(q)) && t.pos[Slot(q)] == q && Agree(text, p, q, 256)
    decreases hi - p
  {
    hide Agree, Slot;
    assert Present(t, heir, text, p, hi);
    if Live(t, Slot(p)) {
      q := p;
      AgreeSelf(text, p, 256);
    } else {
      var r := t.pos[heir[Slot(p)]];
      q := LiveLeaf(t, heir, text, lo, hi, r);
      AgreeThrough(text, p, r, q, 256, 256);
    }
  }

  /** No leaf has changed. */
  ghost predicate SameLeaves(t: Tree, t': Tree)
    requires Sized(t) && Sized(t')
  {
    forall l: nat :: Leaf(l) ==> t'.pos[l] == t.pos[l] && (Live(t', l) <==> Live(t, l))
  }

  lemma LoggedSame(t: Tree, t': Tree, heir: seq<nat>, text: Text, lo: nat, hi: nat)
    requires Sized(t) && Sized(t') && |heir| == 16384 && Logged(t, heir, text, lo, hi) && SameLeaves(t, t')
    ensures Logged(t', heir, text, lo, hi)
  {
    hide Agree, Slot;
    forall p: nat | lo <= p < hi
      ensures Present(t', heir, text, p, hi)
    {
      assert Present(t, heir, text, p, hi);
    }
  }

  /** The leaf for `a` is there now; nothing else has changed about leaves. */
  ghost predicate LeafAdded(t: Tree, t': Tree, a: nat)
    requires Sized(t) && Sized(t')
  {
    && Live(t', Slot(a)) && t'.pos[Slot(a)] == a
    && forall l: nat :: Leaf(l) && l != Slot(a) ==> t'.pos[l] == t.pos[l] && (Live(t', l) <==> Live(t, l))
  }

  lemma LoggedAdded(t: Tree, t': Tree, heir: seq<nat>, text: Text, lo: nat, a: nat)
    requires Sized(t) && Sized(t') && |heir| == 16384 && Logged(t, heir, text, lo, a) && LeafAdded(t, t', a)
    requires a < lo + 8192
    ensures Logged(t', heir, text, lo, a + 1)
  {
    hide Agree, Slot;
    var hi := a + 1;
    forall p: nat | lo <= p < hi
      ensures Present(t', heir, text, p, hi)
    {
      if p < a {
        assert Present(t, heir, text, p, a);
        SlotApart(p, a);
        var h := heir[Slot(p)];
        if !Live(t, Slot(p)) {
          SlotApart(t.pos[h], a);
        }
      }
    }
  }

  /** The leaf `v` has been superseded by the leaf for `a`. */
  lemma LoggedSuperseded(t: Tree, heir: seq<nat>, text: Text, lo: nat, a: nat, v: nat)
    requires Sized(t) && |heir| == 16384 && Logged(t, heir, text, lo, a) && a < lo + 8192
    requires Leaf(v) && Live(t, v) && lo <= t.pos[v] < a && Agree(text, t.pos[v], a, 256)
    ensures Logged(Supersede(t, v, Slot(a), a), heir[v := Slot(a)], text, lo, a + 1)
  {
    hide Agree, Slot;
    var t' := Supersede(t, v, Slot(a), a);
    SlotApart(t.pos[v], a);
    assert v == Slot(t.pos[v]);
    assert Live(t', Slot(a)) by { NotZero(t, v); }
    var hi, heir' := a + 1, heir[v := Slot(a)];
    forall p: nat | lo <= p < hi
      ensures Present(t', heir', text, p, hi)
    {
      if p < a {
        assert Present(t, heir, text, p, a);
        SlotApart(p, a);
        var h := heir[Slot(p)];
        if !Live(t, Slot(p)) {
          SlotApart(t.pos[h], a);
        }
      }
    }
  }

  lemma NotZero(t: Tree, v: nat)
    requires Sized(t) && Live(t, v)
    ensures t.parent[v] != 0
  {
  }

  /** The oldest leaf is gone. */
  lemma LoggedDropped(t: Tree, heir: seq<nat>, text: Text, lo: nat, hi: nat)
    requires Sized(t) && |heir| == 16384 && Logged(t, heir, text, lo, hi) && hi <= lo + 8192
    ensures Logged(Drop(t, Slot(lo)), heir, text, lo + 1, hi)
  {
    hide Agree, Slot;
    var t' := Drop(t, Slot(lo));
    forall p: nat | lo + 1 <= p < hi
      ensures Present(t', heir, text, p, hi)
    {
      assert Present(t, heir, text, p, hi);
      SlotApart(lo, p);
    }
  }

  // ---- Numbers of children ----

  ghost function Kids(t: Tree, u: nat): set<nat>
    requires Sized(t)
  {
    set v: nat | v < 16384 && Live(t, v) && t.parent[v] == u
  }

  lemma {:induction false} Pigeons(s: set<nat>, f: seq<nat>, b: nat)
    requires forall v :: v in s ==> v < |f| && f[v] < b
    requires forall v, w :: v in s && w in s && f[v] == f[w] ==> v == w
    ensures |s| <= b
    decreases b
  {
    if b == 0 {
      assert s == {};
    } else if v :| v in s && f[v] == b - 1 {
      Pigeons(s - {v}, f, b - 1);
    } else {
      Pigeons(s, f, b - 1);
    }
  }

  /** There are no more children than characters. */
  lemma KidsAtMost(t: Tree, u: nat)
    requires Sized(t) && Distinct(t)
    ensures |Kids(t, u)| <= 256
  {
    Pigeons(Kids(t, u), t.edge, 256);
  }

  lemma TwoOf(k: set<nat>) returns (v: nat, w: nat)
    requires |k| >= 2
    ensures v in k && w in k && v != w
  {
    v :| v in k;
    var r := k - {v};
    assert r != {} by { assert k == r + {v}; }
    w :| w in r;
  }

  lemma AtLeastTwo(k: set<nat>, v: nat, w: nat)
    requires v in k && w in k && v != w
    ensures |k| >= 2
  {
    SubsetSize({v, w}, k);
  }

  lemma TwoKids(t: Tree, u: nat)
    requires Sized(t)
    ensures Branches(t, u) <==> |Kids(t, u)| >= 2
  {
    var k := Kids(t, u);
    if Branches(t, u) {
      var v: nat, w: nat :| Siblings(t, u, v, w);
      AtLeastTwo(k, v, w);
    }
    if |k| >= 2 {
      var v, w := TwoOf(k);
      assert Siblings(t, u, v, w);
    }
  }

  lemma SubsetSize(a: set<nat>, b: set<nat>)
    requires a <= b
    ensures |a| <= |b|
  {
    assert b == a + (b - a);
  }

  lemma Swapped(s: set<nat>, x: nat, y: nat)
    requires x in s && y !in s
    ensures |s - {x} + {y}| == |s|
  {
  }

  lemma OneKid(t: Tree, u: nat) returns (w: nat)
    requires Sized(t) && Inner(u) && Live(t, u) && |Kids(t, u)| == 1
    ensures OnlyChild(t, u, w)
  {
    w :| w in Kids(t, u);
    forall v: nat | Live(t, v) && t.parent[v] == u
      ensures v == w
    {
      assert {v, w} <= Kids(t, u);
      SubsetSize({v, w}, Kids(t, u));
    }
  }

  /** The counts are kept in bytes. */
  ghost predicate Counted(t: Tree, count: seq<nat>)
    requires Sized(t)
  {
    |count| == 16384 && forall u: nat :: Inner(u) && Live(t, u) ==> count[u] == |Kids(t, u)| % 256
  }

  lemma CountedSame(t: Tree, t': Tree, count: seq<nat>)
    requires Sized(t) && Sized(t') && t'.parent == t.parent && Counted(t, count)
    ensures Counted(t', count)
  {
    forall u: nat | Inner(u) && Live(t', u)
      ensures count[u] == |Kids(t', u)| % 256
    {
      assert Kids(t', u) == Kids(t, u);
    }
  }

  lemma CountedAttach(t: Tree, u: nat, c: Byte, l: nat, a: nat, count: seq<nat>)
    requires Sized(t) && Counted(t, count) && 0 < u < 16384 && Leaf(l) && !Live(t, l)
    ensures Counted(Attach(t, u, c, l, a), count[u := (count[u] + 1) % 256])
  {
    var t' := Attach(t, u, c, l, a);
    forall w: nat | Inner(w) && Live(t', w)
      ensures count[u := (count[u] + 1) % 256][w] == |Kids(t', w)| % 256
    {
      if w == u {
        assert Kids(t', w) == Kids(t, w) + {l};
      } else {
        assert Kids(t', w) == Kids(t, w);
      }
    }
  }

  lemma CountedSplit(t: Tree, text: Text, v: nat, k: nat, n: nat, l: nat, a: nat, count: seq<nat>)
    requires Shaped(t, text) && Counted(t, count) && Splits(t, text, v, k, n, l, a)
    ensures Counted(SplitAt(t, text, v, k, n, l, a), count[n := 2])
  {
    hide Agree, NodesOk, Distinct;
    var t' := SplitAt(t, text, v, k, n, l, a);
    OldParent(t, text, n);
    NodeIs(t, text, v);
    forall w: nat | Inner(w) && Live(t', w)
      ensures count[n := 2][w] == |Kids(t', w)| % 256
    {
      if w == n {
        assert Kids(t', n) == {v, l};
      } else if w == t.parent[v] {
        assert Kids(t', w) == Kids(t, w) - {v} + {n};
        Swapped(Kids(t, w), v, n);
      } else {
        assert Kids(t', w) == Kids(t, w);
      }
    }
  }

  lemma CountedSupersede(t: Tree, v: nat, l: nat, a: nat, count: seq<nat>)
    requires Sized(t) && Counted(t, count) && Leaf(v) && Live(t, v) && Leaf(l) && !Live(t, l)
    ensures Counted(Supersede(t, v, l, a), count)
  {
    var t' := Supersede(t, v, l, a);
    forall w: nat | Inner(w) && Live(t', w)
      ensures count[w] == |Kids(t', w)| % 256
    {
      if w == t.parent[v] {
        assert Kids(t', w) == Kids(t, w) - {v} + {l};
        Swapped(Kids(t, w), v, l);
      } else {
        assert Kids(t', w) == Kids(t, w);
      }
    }
  }

  /** The counts without one child of `u`; those of roots are not counted down. */
  function CountOff(count: seq<nat>, u: nat): seq<nat> {
    if Inner(u) && u < |count| then count[u := (count[u] + 255) % 256] else count
  }

  lemma CountedDrop(t: Tree, l: nat, count: seq<nat>)
    requires Sized(t) && Counted(t, count) && Leaf(l) && Live(t, l) && Distinct(t)
    ensures var u := t.parent[l]; Counted(Drop(t, l), CountOff(count, u))
    ensures var u := t.parent[l]; Inner(u) && Live(t, u) ==>
      CountOff(count, u)[u] == |Kids(Drop(t, l), u)| == |Kids(t, u)| - 1
  {
    var t', u := Drop(t, l), t.parent[l];
    KidsAtMost(t, u);
    assert l in Kids(t, u) && Kids(t', u) == Kids(t, u) - {l};
    if Inner(u) {
      CountDown(count[u], |Kids(t, u)|);
    }
    forall w: nat | Inner(w) && Live(t', w)
      ensures CountOff(count, u)[w] == |Kids(t', w)| % 256
    {
      if w != u {
        assert Kids(t', w) == Kids(t, w);
      }
    }
  }

  /** A byte counts down from 256 to 255. */
  lemma CountDown(c: nat, k: nat)
    requires 0 < k <= 256
    ensures c == k % 256 ==> (c + 255) % 256 == k - 1 == (k - 1) % 256
  {
  }

  lemma CountedSplice(t: Tree, text: Text, u: nat, w: nat, count: seq<nat>)
    requires Shaped(t, text) && Counted(t, count) && OnlyChild(t, u, w)
    ensures Counted(Splice(t, u, w), count)
  {
    hide Agree, NodesOk, Distinct;
    var t' := Splice(t, u, w);
    NodeIs(t, text, u);
    NodeIs(t, text, w);
    forall v: nat | Inner(v) && Live(t', v)
      ensures count[v] == |Kids(t', v)| % 256
    {
      if v == t.parent[u] {
        assert Kids(t', v) == Kids(t, v) - {u} + {w};
        Swapped(Kids(t, v), u, w);
      } else {
        assert Kids(t', v) == Kids(t, v);
      }
    }
  }

  // ---- Free nodes ----

  /** The free inner nodes, each once. */
  ghost predicate Spare(t: Tree, avail: seq<nat>)
    requires Sized(t)
  {
    && (forall i :: 0 <= i < |avail| ==> Inner(avail[i]) && !Live(t, avail[i]))
    && (forall i, j :: 0 <= i < j < |avail| ==> avail[i] != avail[j])
    && (forall n: nat :: Inner(n) && !Live(t, n) ==> n in avail)
  }

  ghost function Range(lo: nat, hi: nat): (s: set<nat>)
    requires lo <= hi
    ensures |s| == hi - lo && forall x: nat :: x in s <==> lo <= x < hi
    decreases hi
  {
    if lo == hi then {} else Range(lo, hi - 1) + {hi - 1}
  }

  /** All children of the nodes in `s`. */
  ghost function KidsOf(t: Tree, s: set<nat>): set<nat>
    requires Sized(t)
  {
    set v: nat | v < 16384 && Live(t, v) && t.parent[v] in s
  }

  lemma {:induction false} TwoEach(t: Tree, s: set<nat>)
    requires Sized(t) && forall u :: u in s ==> Branches(t, u)
    ensures |KidsOf(t, s)| >= 2 * |s|
    decreases |s|
  {
    if u :| u in s {
      TwoEach(t, s - {u});
      TwoKids(t, u);
      assert KidsOf(t, s) == KidsOf(t, s - {u}) + Kids(t, u) && KidsOf(t, s - {u}) !! Kids(t, u);
    }
  }

  lemma KidsAmong(t: Tree, l: nat, top: nat)
    requires Sized(t) && !Live(t, l) && top < 16384 && Root(t.parent[top])
    ensures KidsOf(t, Range(1, 8192)) <= Range(1, 16384) - {l} - {top}
  {
    hide Range;
  }

  /** While a leaf is free, so is an inner node: every inner node in use has two children. */
  lemma SomeSpare(t: Tree, text: Text, l: nat)
    requires Shaped(t, text) && Branching(t) && Leaf(l) && !Live(t, l)
    ensures exists n: nat :: Inner(n) && !Live(t, n)
  {
    hide Range, NodesOk, Distinct, KidsOf, Branches;
    if forall n: nat :: Inner(n) ==> Live(t, n) {
      assert Inner(1);
      TwoEach(t, Range(1, 8192));
      var top := TopOf(t, text, 1);
      KidsAmong(t, l, top);
      var all := Range(1, 16384) - {l} - {top};
      SubsetSize(KidsOf(t, Range(1, 8192)), all);
      assert false;
    }
  }

  lemma SpareLeft(t: Tree, text: Text, l: nat, avail: seq<nat>)
    requires Shaped(t, text) && Branching(t) && Leaf(l) && !Live(t, l) && Spare(t, avail)
    ensures avail != []
  {
    hide Shaped;
    SomeSpare(t, text, l);
  }

  lemma SpareSame(t: Tree, t': Tree, avail: seq<nat>)
    requires Sized(t) && Sized(t') && Spare(t, avail) && forall n: nat :: Inner(n) ==> (Live(t', n) <==> Live(t, n))
    ensures Spare(t', avail)
  {
  }

  lemma SpareTaken(t: Tree, t': Tree, avail: seq<nat>)
    requires Sized(t) && Sized(t') && avail != [] && Spare(t, avail) && Live(t', avail[0])
    requires forall n: nat :: Inner(n) && n != avail[0] ==> (Live(t', n) <==> Live(t, n))
    ensures Spare(t', avail[1..])
  {
    forall n: nat | Inner(n) && !Live(t', n)
      ensures n in avail[1..]
    {
      assert n in avail;
    }
  }

  lemma SpareBack(t: Tree, t': Tree, avail: seq<nat>, u: nat)
    requires Sized(t) && Sized(t') && Spare(t, avail) && Inner(u) && Live(t, u) && !Live(t', u)
    requires forall n: nat :: Inner(n) && n != u ==> (Live(t', n) <==> Live(t, n))
    ensures Spare(t', [u] + avail)
  {
  }

  // ---- Chains ----

  /** The chain in which the child of `u` for the character `c` is found. */
  function Hash(u: nat, c: Byte): (b: nat)
    ensures b >= 16384 && (u < 8448 ==> HC.Head(b))
  {
    u + 16 * c + 16384
  }

  /** Every node of the tree is in the chain of its parent and character, and no other node is in a chain. */
  ghost predicate Chained(t: Tree, ch: HC.Chains)
    requires Sized(t)
  {
    HC.Ok(ch) && forall v: nat :: 0 < v < 16384 ==>
      ch.head[v] == if t.parent[v] != 0 then Hash(t.parent[v], t.edge[v]) else 0
  }

  lemma ChainedSame(t: Tree, t': Tree, ch: HC.Chains)
    requires Sized(t) && Sized(t') && t'.parent == t.parent && t'.edge == t.edge && Chained(t, ch)
    ensures Chained(t', ch)
  {
    hide HC.Ok, Hash;
  }

  lemma ChainedIn(t: Tree, ch: HC.Chains, v: nat)
    requires Sized(t) && Chained(t, ch) && 0 < v < 16384
    ensures HC.In(ch, v) <==> Live(t, v)
  {
    hide HC.NodesLinked, HC.HeadsLinked, HC.Ranked, Hash;
  }

  /** The new chains `ch'` of a tree in which some nodes have other parents or characters. */
  lemma ChainedBy(t: Tree, ch: HC.Chains, t': Tree, ch': HC.Chains)
    requires Sized(t) && Chained(t, ch) && Sized(t') && HC.Ok(ch')
    requires forall v: nat :: 0 < v < 16384 ==>
      || (t'.parent[v] == t.parent[v] && t'.edge[v] == t.edge[v] && ch'.head[v] == ch.head[v])
      || ch'.head[v] == if t'.parent[v] != 0 then Hash(t'.parent[v], t'.edge[v]) else 0
    ensures Chained(t', ch')
  {
    hide HC.Ok, Hash;
  }

  // ---- All together ----

  /** The tree, the heirs of superseded leaves, the numbers of children and the free inner nodes. */
  datatype Log = Log(tree: Tree, heir: seq<nat>, count: seq<nat>, avail: seq<nat>)

  /** The positions from `lo` to below `hi` are in the log. */
  ghost predicate LogOk(g: Log, text: Text, lo: nat, hi: nat) {
    && Sized(g.tree) && Grown(g.tree, text, lo, hi) && |g.heir| == |g.count| == 16384
    && Logged(g.tree, g.heir, text, lo, hi)
    && Counted(g.tree, g.count) && Spare(g.tree, g.avail)
  }

  /** While the position `a` is put in: nodes may begin there, but it has no leaf yet. */
  ghost predicate Open(g: Log, text: Text, lo: nat, a: nat) {
    && Sized(g.tree) && Grown(g.tree, text, lo, a + 1) && |g.heir| == |g.count| == 16384
    && Logged(g.tree, g.heir, text, lo, a)
    && Counted(g.tree, g.count) && Spare(g.tree, g.avail)
    && !Live(g.tree, Slot(a)) && lo <= a < lo + 8192
  }

  /** `MakeChild` for the leaf of `a`. */
  function Grow(g: Log, text: Text, u: nat, a: nat): Log
    requires Sized(g.tree) && u < |g.count|
  {
    g.(tree := Attach(g.tree, u, text(a + Level(g.tree, u)), Slot(a), a), count := g.count[u := (g.count[u] + 1) % 256])
  }

  lemma GrowKeeps(g: Log, text: Text, u: nat, lo: nat, a: nat)
    requires Open(g, text, lo, a) && Ready(g.tree, u, a) && Spells(g.tree, text, u, a)
    requires NoChild(g.tree, u, text(a + Level(g.tree, u)))
    ensures LogOk(Grow(g, text, u, a), text, lo, a + 1)
  {
    hide Grown, Logged, Counted, Spare, Slot, Ready, Spells, NoChild;
    var t, c := g.tree, text(a + Level(g.tree, u));
    assert 0 < u < 16384 by { ReadyNode(t, u, a); }
    AttachKeeps(t, text, u, c, Slot(a), a, lo);
    var t' := Attach(t, u, c, Slot(a), a);
    LoggedAdded(t, t', g.heir, text, lo, a);
    CountedAttach(t, u, c, Slot(a), a, g.count);
    SpareSame(t, t', g.avail);
  }

  lemma ReadyNode(t: Tree, u: nat, a: nat)
    requires Sized(t) && Ready(t, u, a)
    ensures 0 < u < 16384
  {
  }

  /** `Split` at the level `k`, with the first free node. */
  function Fork(g: Log, text: Text, v: nat, k: nat, a: nat): Log
    requires Sized(g.tree) && v < 16384 && |g.count| == 16384 && g.avail != [] && g.avail[0] < 16384
  {
    var n := g.avail[0];
    Log(SplitAt(g.tree, text, v, k, n, Slot(a), a), g.heir, g.count[n := 2], g.avail[1..])
  }

  lemma SpareFirst(g: Log, text: Text, lo: nat, a: nat)
    requires Open(g, text, lo, a)
    ensures g.avail != [] && Inner(g.avail[0]) && !Live(g.tree, g.avail[0])
  {
    hide NodesOk, Distinct, Updated, Branching, Within, Logged, Slot;
    SpareLeft(g.tree, text, Slot(a), g.avail);
  }

  lemma ForkKeeps(g: Log, text: Text, v: nat, k: nat, lo: nat, a: nat)
    requires Open(g, text, lo, a) && Live(g.tree, v) && Ready(g.tree, g.tree.parent[v], a)
    requires Level(g.tree, g.tree.parent[v]) < k < g.tree.level[v]
    requires Agree(text, g.tree.pos[v], a, k) && text(g.tree.pos[v] + k) != text(a + k)
    ensures g.avail != [] && g.avail[0] < 16384 && LogOk(Fork(g, text, v, k, a), text, lo, a + 1)
  {
    hide Shaped, Updated, Branching, Within, Logged, Counted, Spare, Slot, Ready, Agree;
    SpareFirst(g, text, lo, a);
    var t, n := g.tree, g.avail[0];
    SplitKeeps(t, text, v, k, n, Slot(a), a, lo);
    var t' := SplitAt(t, text, v, k, n, Slot(a), a);
    LoggedAdded(t, t', g.heir, text, lo, a);
    CountedSplit(t, text, v, k, n, Slot(a), a, g.count);
    SpareTaken(t, t', g.avail);
  }

  /** The end of `InsertNode`: a leaf with the same 256 characters is superseded. */
  function Inherit(g: Log, v: nat, a: nat): Log
    requires Sized(g.tree) && v < 16384 && |g.heir| == 16384
  {
    g.(tree := Supersede(g.tree, v, Slot(a), a), heir := g.heir[v := Slot(a)])
  }

  lemma InheritKeeps(g: Log, text: Text, v: nat, lo: nat, a: nat)
    requires Open(g, text, lo, a) && Leaf(v) && Live(g.tree, v) && Ready(g.tree, g.tree.parent[v], a)
    requires Agree(text, g.tree.pos[v], a, 256) && g.tree.pos[v] < a
    ensures LogOk(Inherit(g, v, a), text, lo, a + 1)
  {
    hide Shaped, Updated, Branching, Logged, Counted, Spare, Slot, Ready, Agree;
    var t, t' := g.tree, Supersede(g.tree, v, Slot(a), a);
    SupersedeKeeps(t, text, v, Slot(a), a, lo);
    LoggedSuperseded(t, g.heir, text, lo, a, v);
    CountedSupersede(t, v, Slot(a), a, g.count);
    SpareSame(t, t', g.avail);
  }

  /** One node further down. */
  function Pass(g: Log, v: nat, a: nat): Log
    requires Sized(g.tree) && v < 16384
  {
    g.(tree := Touch(g.tree, v, a))
  }

  lemma PassKeeps(g: Log, text: Text, v: nat, lo: nat, a: nat)
    requires Open(g, text, lo, a) && Inner(v) && Live(g.tree, v) && Ready(g.tree, g.tree.parent[v], a)
    requires Agree(text, g.tree.pos[v], a, g.tree.level[v])
    ensures Open(Pass(g, v, a), text, lo, a) && Ready(Pass(g, v, a).tree, v, a)
  {
    hide Grown, Logged, Counted, Spare, Slot, Ready, Agree;
    var t, t' := g.tree, Touch(g.tree, v, a);
    TouchKeeps(t, text, v, a, lo);
    LoggedSame(t, t', g.heir, text, lo, a);
    CountedSame(t, t', g.count);
    SpareSame(t, t', g.avail);
  }

  /** A position that is not in the log has no leaf. */
  lemma Opens(g: Log, text: Text, lo: nat, a: nat)
    requires LogOk(g, text, lo, a) && lo <= a < lo + 8192
    ensures Open(g, text, lo, a)
  {
    hide Shaped, Updated, Branching, Counted, Spare, Agree, Slot;
    if Live(g.tree, Slot(a)) {
      SlotApart(g.tree.pos[Slot(a)], a);
      assert false;
    }
  }

  /** Telling inner nodes changes nothing else. */
  lemma ToldKeeps(g: Log, t': Tree, text: Text, k: nat, lo: nat, a: nat)
    requires Open(g, text, lo, a) && k < 16384 && Sized(t') && Told(g.tree, t', k)
    requires Shaped(t', text) && Updated(t') && Within(t', lo, a + 1)
    ensures Open(g.(tree := t'), text, lo, a)
  {
    hide Shaped, Updated, Branching, Within, Logged, Counted, Spare, Agree, Slot;
    ToldBranching(g.tree, t');
    LoggedSame(g.tree, t', g.heir, text, lo, a);
    CountedSame(g.tree, t', g.count);
    SpareSame(g.tree, t', g.avail);
  }

  // ---- Deletion ----

  /** All leaves are younger than `lo`. */
  ghost predicate Younger(t: Tree, lo: nat)
    requires Sized(t)
  {
    forall l: nat :: Leaf(l) && Live(t, l) ==> lo < t.pos[l]
  }

  /** The leaf of `lo` has gone, and `u` may have only one child left. */
  ghost predicate Loose(g: Log, text: Text, u: nat, lo: nat, hi: nat) {
    && Shaped(g.tree, text) && Updated(g.tree) && BranchingBut(g.tree, u)
    && Within(g.tree, lo, hi) && Younger(g.tree, lo) && |g.heir| == |g.count| == 16384
    && Logged(g.tree, g.heir, text, lo + 1, hi) && Counted(g.tree, g.count) && Spare(g.tree, g.avail)
  }

  lemma LooseOk(g: Log, text: Text, u: nat, lo: nat, hi: nat)
    requires Loose(g, text, u, lo, hi) && (Inner(u) && Live(g.tree, u) ==> Branches(g.tree, u))
    ensures LogOk(g, text, lo + 1, hi)
  {
    hide Shaped, Updated, Logged, Counted, Spare, Branches;
    assert Sized(g.tree) by { ShapedSized(g.tree, text); }
    AllRecent(g.tree, text, lo, hi, lo + 1);
  }

  lemma ShapedSized(t: Tree, text: Text)
    requires Shaped(t, text)
    ensures Sized(t)
  {
  }

  /** The leaf of the position that leaves the window. */
  lemma OldestLeaf(t: Tree, heir: seq<nat>, text: Text, lo: nat, a: nat)
    requires Sized(t) && |heir| == 16384 && Logged(t, heir, text, lo, a) && Within(t, lo, a) && a <= lo + 8192
    ensures Live(t, Slot(a)) ==> a == lo + 8192 && t.pos[Slot(a)] == lo && Slot(lo) == Slot(a)
    ensures !Live(t, Slot(a)) && a == lo + 8192 ==> Younger(t, lo)
  {
    hide Agree, Slot;
    if Live(t, Slot(a)) {
      SlotAgain(t.pos[Slot(a)], a);
    } else if a == lo + 8192 {
      SlotWraps(lo);
    }
  }

  lemma SlotWraps(p: nat)
    ensures Slot(p + 8192) == Slot(p)
  {
  }

  lemma LoggedLater(t: Tree, heir: seq<nat>, text: Text, lo: nat, hi: nat)
    requires Sized(t) && |heir| == 16384 && Logged(t, heir, text, lo, hi)
    ensures Logged(t, heir, text, lo + 1, hi)
  {
  }

  /** The leaf is dropped and counted off. */
  function Prune(g: Log, l: nat): Log
    requires Sized(g.tree) && l < 16384
  {
    g.(tree := Drop(g.tree, l), count := CountOff(g.count, g.tree.parent[l]))
  }

  lemma PruneKeeps(g: Log, text: Text, lo: nat, hi: nat)
    requires LogOk(g, text, lo, hi) && hi == lo + 8192 && Live(g.tree, Slot(lo)) && g.tree.pos[Slot(lo)] == lo
    ensures var u := g.tree.parent[Slot(lo)];
      && 0 < u < 16384 && Loose(Prune(g, Slot(lo)), text, u, lo, hi) && (Inner(u) ==> Live(g.tree, u))
      && (Inner(u) ==> Prune(g, Slot(lo)).count[u] == |Kids(Prune(g, Slot(lo)).tree, u)| >= 1)
  {
    hide NodesOk, Distinct, Updated, Branching, BranchingBut, Younger, Logged, Counted, Spare, Agree, Slot, Kids,
         Branches;
    var t, l := g.tree, Slot(lo);
    var u := t.parent[l];
    NodeIs(t, text, l);
    if Inner(u) {
      TwoKids(t, u);
      BranchingIs(t, u);
    }
    DropShaped(t, text, l);
    DropUpdated(t, l);
    DropBranching(t, l);
    CountedDrop(t, l, g.count);
    LoggedDropped(t, g.heir, text, lo, hi);
    OthersYounger(t, g.heir, text, lo, hi);
    SpareSame(t, Drop(t, l), g.avail);
  }

  lemma BranchingIs(t: Tree, u: nat)
    requires Sized(t) && Branching(t) && Inner(u) && Live(t, u)
    ensures Branches(t, u)
  {
  }

  lemma OthersYounger(t: Tree, heir: seq<nat>, text: Text, lo: nat, hi: nat)
    requires Sized(t) && |heir| == 16384 && Logged(t, heir, text, lo, hi) && Within(t, lo, hi)
    ensures Younger(Drop(t, Slot(lo)), lo)
  {
    hide Agree, Slot;
  }

  /** The only child of `u` takes its place, and `u` is free. */
  function Merge(g: Log, u: nat, w: nat): Log
    requires Sized(g.tree) && u < 16384 && w < 16384
  {
    g.(tree := Splice(g.tree, u, w), avail := [u] + g.avail)
  }

  lemma MergeKeeps(g: Log, text: Text, u: nat, w: nat, lo: nat, hi: nat)
    requires Loose(g, text, u, lo, hi) && OnlyChild(g.tree, u, w) && g.tree.sent[w] <= g.tree.sent[u]
    ensures LogOk(Merge(g, u, w), text, lo + 1, hi)
  {
    hide Shaped, Updated, BranchingBut, Logged, Counted, Spare;
    assert Sized(g.tree) by { ShapedSized(g.tree, text); }
    var t, t' := g.tree, Splice(g.tree, u, w);
    SpliceShaped(t, text, u, w);
    SpliceUpdated(t, text, u, w);
    SpliceBranching(t, text, u, w);
    assert t.parent[u] != 0;
    LoggedSame(t, t', g.heir, text, lo + 1, hi);
    CountedSplice(t, text, u, w, g.count);
    SpareBack(t, t', g.avail, u);
    AllRecent(t', text, lo, hi, lo + 1);
  }

  /** The beginning of a node with one child is still in the window, and the character behind it leads to the child. */
  lemma LastChild(g: Log, text: Text, u: nat, w: nat, lo: nat, hi: nat)
    requires Loose(g, text, u, lo, hi) && OnlyChild(g.tree, u, w)
    ensures g.tree.sent[w] <= g.tree.pos[u] && lo < g.tree.pos[u] < hi
    ensures g.tree.edge[w] == text(g.tree.pos[u] + g.tree.level[u])
  {
    hide NodesOk, Distinct, Updated, BranchingBut, Logged, Counted, Spare, Agree, Slot, Spells;
    var t := g.tree;
    NodeIs(t, text, w);
    NodeIs(t, text, u);
    UpdatedIs(t, u);
    NodeRecent(t, text, u, lo + 1, w);
    LeadsTo(g, text, u, w, lo, hi);
  }

  /** A position in the window at which `u` begins leads to its only child. */
  lemma LeadsTo(g: Log, text: Text, u: nat, w: nat, lo: nat, hi: nat)
    requires Loose(g, text, u, lo, hi) && OnlyChild(g.tree, u, w) && lo < g.tree.pos[u] < hi && g.tree.level[u] < 256
    ensures g.tree.edge[w] == text(g.tree.pos[u] + g.tree.level[u])
  {
    hide NodesOk, Distinct, Updated, BranchingBut, Within, Younger, Logged, Counted, Spare, Agree, Slot;
    var t := g.tree;
    var q := LiveLeaf(t, g.heir, text, lo + 1, hi, t.pos[u]);
    AgreeAt(text, t.pos[u], q, 256, t.level[u]);
    OnlyChildEdge(t, text, u, w, Slot(q));
  }

  /** Telling the nodes above `u` changes nothing else. */
  lemma LooseTold(g: Log, t': Tree, text: Text, u: nat, lo: nat, hi: nat)
    requires Loose(g, text, u, lo, hi) && Inner(u) && Sized(t') && t'.parent == g.tree.parent && SameLeaves(g.tree, t')
    requires Shaped(t', text) && Updated(t') && Within(t', lo, hi)
    ensures Loose(g.(tree := t'), text, u, lo, hi)
  {
    hide Shaped, Updated, BranchingBut, Within, Logged, Counted, Spare;
    assert Sized(g.tree) by { ShapedSized(g.tree, text); }
    ToldBranching(g.tree, t');
    LoggedSame(g.tree, t', g.heir, text, lo + 1, hi);
    CountedSame(g.tree, t', g.count);
    SpareSame(g.tree, t', g.avail);
  }

  /** If the oldest position has no leaf any more, nothing is left to delete. */
  lemma StaysOk(g: Log, text: Text, lo: nat, hi: nat)
    requires LogOk(g, text, lo, hi) && Younger(g.tree, lo)
    ensures LogOk(g, text, lo + 1, hi)
  {
    hide Shaped, Updated, Branching, Logged, Counted, Spare;
    LoggedLater(g.tree, g.heir, text, lo, hi);
    AllRecent(g.tree, text, lo, hi, lo + 1);
  }

  // ---- The longest match ----

  /** No position from `lo` on agrees with `a` in `k` characters. */
  ghost predicate NoneAgrees(text: Text, lo: nat, a: nat, k: nat) {
    forall q: nat :: lo <= q < a ==> !Agree(text, q, a, k)
  }

  /** What no leaf does, no position in the log does. */
  lemma LeafAgrees(g: Log, text: Text, lo: nat, a: nat, q: nat, k: nat) returns (y: nat)
    requires Open(g, text, lo, a) && lo <= q < a && k <= 256 && Agree(text, q, a, k)
    ensures Leaf(y) && Live(g.tree, y) && Agree(text, g.tree.pos[y], a, k)
  {
    hide Grown, Counted, Spare, Agree, Slot;
    var p := LiveLeaf(g.tree, g.heir, text, lo, a, q);
    y := Slot(p);
    AgreeBack(text, q, p, 256);
    AgreeThrough(text, p, q, a, 256, k);
  }

  lemma ForkLongest(g: Log, text: Text, v: nat, k: nat, lo: nat, a: nat)
    requires Open(g, text, lo, a) && Live(g.tree, v) && Level(g.tree, g.tree.parent[v]) < k < g.tree.level[v]
    requires Agree(text, g.tree.pos[v], a, k) && text(g.tree.pos[v] + k) != text(a + k)
    ensures NoneAgrees(text, lo, a, k + 1)
  {
    hide NodesOk, Distinct, Updated, Branching, Within, Logged, Counted, Spare, Agree, Slot, Spells;
    NodeIs(g.tree, text, v);
    var n := k + 1;
    forall q: nat | lo <= q < a
      ensures !Agree(text, q, a, n)
    {
      if Agree(text, q, a, n) {
        var y := LeafAgrees(g, text, lo, a, q, n);
        NotBelowFork(g.tree, text, y, v, k, a);
        assert false;
      }
    }
  }

  lemma EndLongest(g: Log, text: Text, u: nat, lo: nat, a: nat)
    requires Open(g, text, lo, a) && (Root(u) || (Inner(u) && Live(g.tree, u)))
    requires Spells(g.tree, text, u, a) && NoChild(g.tree, u, text(a + Level(g.tree, u)))
    ensures NoneAgrees(text, lo, a, Level(g.tree, u) + 1)
  {
    hide NodesOk, Distinct, Updated, Branching, Within, Logged, Counted, Spare, Agree, Slot, NoChild, Spells;
    if Inner(u) {
      assert g.tree.level[u] < 256 by { InnerLevel(g.tree, text, u); }
    }
    var n := Level(g.tree, u) + 1;
    forall q: nat | lo <= q < a
      ensures !Agree(text, q, a, n)
    {
      if Agree(text, q, a, n) {
        var y := LeafAgrees(g, text, lo, a, q, n);
        NotBelowEnd(g.tree, text, y, u, a);
        assert false;
      }
    }
  }

  lemma InnerLevel(t: Tree, text: Text, u: nat)
    requires Shaped(t, text) && Inner(u) && Live(t, u)
    ensures t.level[u] < 256
  {
    hide Spells;
    NodeIs(t, text, u);
  }
}
