/** `InsertNode` and `DeleteNode`: the longest match of every position, found by a tree of the strings in the window. */
module MatchFinder {
  import opened Bits
  import opened SuffixTree
  import opened StringLog
  import opened SearchSteps
  import HC = HashChains

  /** Where the window begins when `a` positions have been put in. */
  function WindowStart(a: nat): nat {
    if a <= 8192 then 0 else a - 8192
  }

  // ---- The arrays ----

  /** mParent, mLevel, mPosition (offsets and flags), mNext of superseded leaves, mChildCount and mAvail. */
  datatype Nodes = Nodes(parent: seq<nat>, level: seq<nat>, position: seq<nat>, flag: seq<bool>, heir: seq<nat>,
                         count: seq<nat>, avail: seq<nat>)

  /** The arrays hold the log: the level and the position of an inner node, the position as an offset in the upper half
      of the window. */
  ghost predicate Stored(n: Nodes, g: Log) {
    && Sized(g.tree) && |n.level| == |n.position| == |n.flag| == 16384
    && n.parent == g.tree.parent && n.heir == g.heir && n.count == g.count && n.avail == g.avail
    && forall v: nat :: Inner(v) && Live(g.tree, v) ==> StoredAt(n, g, v)
  }

  ghost predicate StoredAt(n: Nodes, g: Log, v: nat)
    requires Sized(g.tree) && |n.level| == |n.position| == |n.flag| == 16384 && Inner(v)
  {
    n.level[v] == g.tree.level[v] && n.position[v] == Slot(g.tree.pos[v]) && n.flag[v] == g.tree.flag[v]
  }

  /** An offset of the upper half, as one in the text before `pos`. */
  function Offset(x: nat, pos: nat): int {
    if x >= pos then x - 8192 else x
  }

  /** An offset in the text, as one of the upper half. */
  function Upper(x: int): nat {
    8192 + x % 8192
  }

  /** The level of a parent; that of a root is 1. */
  function LevelOf(n: Nodes, u: nat): nat
    requires |n.level| == 16384
  {
    if Inner(u) then n.level[u] else 1
  }

  lemma StoredGrow(n: Nodes, g: Log, text: Text, u: nat, a: nat)
    requires Stored(n, g) && u < 16384 && |g.count| == 16384
    ensures Stored(n.(parent := n.parent[Slot(a) := u], count := n.count[u := (n.count[u] + 1) % 256]),
                   Grow(g, text, u, a))
  {
    hide Slot;
    var l, g' := Slot(a), Grow(g, text, u, a);
    forall v: nat | Inner(v) && Live(g'.tree, v)
      ensures StoredAt(n.(parent := n.parent[l := u], count := n.count[u := (n.count[u] + 1) % 256]), g', v)
    {
      assert StoredAt(n, g, v);
    }
  }

  /** The arrays after a split at the level `k`. */
  function ForkNodes(n: Nodes, v: nat, k: nat, pos: nat): Nodes
    requires |n.parent| == |n.level| == |n.position| == |n.flag| == |n.count| == 16384 && v < 16384 && pos < 16384
    requires n.avail != [] && n.avail[0] < 16384
  {
    var x := n.avail[0];
    n.(parent := n.parent[x := n.parent[v]][v := x][pos := x], level := n.level[x := k],
       position := n.position[x := pos], flag := n.flag[x := false], count := n.count[x := 2], avail := n.avail[1..])
  }

  lemma StoredFork(n: Nodes, g: Log, text: Text, v: nat, k: nat, a: nat)
    requires Stored(n, g) && 0 < v < 16384 && |g.count| == 16384 && g.avail != [] && Inner(g.avail[0])
    requires v != g.avail[0]
    requires g.tree.parent[v] != 0
    ensures Stored(ForkNodes(n, v, k, Slot(a)), Fork(g, text, v, k, a))
  {
    hide Slot;
    var n', g' := ForkNodes(n, v, k, Slot(a)), Fork(g, text, v, k, a);
    forall w: nat | Inner(w) && Live(g'.tree, w)
      ensures StoredAt(n', g', w)
    {
      if w != g.avail[0] {
        assert StoredAt(n, g, w);
      }
    }
  }

  lemma StoredInherit(n: Nodes, g: Log, v: nat, a: nat)
    requires Stored(n, g) && Leaf(v) && |g.heir| == 16384
    ensures Stored(n.(parent := n.parent[Slot(a) := n.parent[v]][v := 0], heir := n.heir[v := Slot(a)]),
                   Inherit(g, v, a))
  {
    hide Slot;
    var l, g' := Slot(a), Inherit(g, v, a);
    forall w: nat | Inner(w) && Live(g'.tree, w)
      ensures StoredAt(n.(parent := n.parent[l := n.parent[v]][v := 0], heir := n.heir[v := l]), g', w)
    {
      assert StoredAt(n, g, w);
    }
  }

  /** An inner node begins elsewhere. */
  lemma StoredPlace(n: Nodes, g: Log, u: nat, p: nat, flag: bool, sent: nat)
    requires Stored(n, g) && Inner(u)
    ensures Stored(n.(position := n.position[u := Slot(p)], flag := n.flag[u := flag]),
                   g.(tree := Place(g.tree, u, p, flag, sent)))
  {
    hide Slot;
    var n' := n.(position := n.position[u := Slot(p)], flag := n.flag[u := flag]);
    var g' := g.(tree := Place(g.tree, u, p, flag, sent));
    forall w: nat | Inner(w) && Live(g'.tree, w)
      ensures StoredAt(n', g', w)
    {
      assert StoredAt(n, g, w);
    }
  }

  lemma StoredRaise(n: Nodes, g: Log, u: nat)
    requires Stored(n, g) && Inner(u)
    ensures Stored(n, g.(tree := Raise(g.tree, u)))
  {
    hide Slot;
    var g' := g.(tree := Raise(g.tree, u));
    forall w: nat | Inner(w) && Live(g'.tree, w)
      ensures StoredAt(n, g', w)
    {
      assert StoredAt(n, g, w);
    }
  }

  lemma StoredPrune(n: Nodes, g: Log, l: nat)
    requires Stored(n, g) && Leaf(l)
    ensures Stored(n.(parent := n.parent[l := 0], count := CountOff(n.count, n.parent[l])), Prune(g, l))
  {
    hide Slot;
    var n', g' := n.(parent := n.parent[l := 0], count := CountOff(n.count, n.parent[l])), Prune(g, l);
    forall w: nat | Inner(w) && Live(g'.tree, w)
      ensures StoredAt(n', g', w)
    {
      assert StoredAt(n, g, w);
    }
  }

  lemma StoredMerge(n: Nodes, g: Log, u: nat, w: nat)
    requires Stored(n, g) && Inner(u) && Live(g.tree, w) && w != u
    ensures Stored(n.(parent := n.parent[w := n.parent[u]][u := 0], avail := [u] + n.avail), Merge(g, u, w))
  {
    hide Slot;
    var n', g' := n.(parent := n.parent[w := n.parent[u]][u := 0], avail := [u] + n.avail), Merge(g, u, w);
    forall v: nat | Inner(v) && Live(g'.tree, v)
      ensures StoredAt(n', g', v)
    {
      assert StoredAt(n, g, v);
    }
  }

  lemma StoredIs(n: Nodes, g: Log, v: nat)
    requires Stored(n, g) && Inner(v) && Live(g.tree, v)
    ensures StoredAt(n, g, v)
  {
  }

  lemma StoredSizes(n: Nodes, g: Log)
    requires Stored(n, g)
    ensures Sized(g.tree) && |n.parent| == |n.level| == |n.position| == |n.flag| == 16384
    ensures n.parent == g.tree.parent && n.heir == g.heir && n.count == g.count && n.avail == g.avail
  {
  }

  /** The parent of a node. */
  lemma StoredParent(n: Nodes, g: Log, text: Text, v: nat)
    requires Stored(n, g) && Shaped(g.tree, text) && Live(g.tree, v)
    ensures var u := g.tree.parent[v];
      && u < 8448 && |n.level| == |n.flag| == 16384 && n.parent == g.tree.parent
      && LevelOf(n, u) == Level(g.tree, u) && (Inner(u) ==> Live(g.tree, u) && n.flag[u] == g.tree.flag[u])
  {
    hide Spells, Slot, NodesOk, Distinct;
    NodeIs(g.tree, text, v);
    if Inner(g.tree.parent[v]) {
      StoredIs(n, g, g.tree.parent[v]);
    }
  }

  /** The offset kept for a position in the window gives its offset in the text. */
  lemma OffsetOf(p: nat, a: nat, pos: nat)
    requires p < a <= p + 8192 && pos == Slot(a)
    ensures Offset(Slot(p), pos) == pos - (a - p)
  {
    OffsetRecovers(p, a);
  }

  /** And back. */
  lemma UpperOf(x: int, p: nat, a: nat, pos: nat)
    requires x == pos - (a - p) && pos == Slot(a)
    ensures Upper(x) == Slot(p)
  {
  }

  // ---- The search ----

  class Finder {
    ghost const text: Text     // what the buffer holds, by position in the source
    const buf: array<Byte>     // mText
    ghost var log: Log         // what the arrays stand for
    var nodes: Nodes
    var chains: HC.Chains      // mNext and mPrev
    var matchLen: nat          // mMatchLen
    var matchPos: int          // mMatchPos
    ghost var matchAt: nat     // the position that matchPos stands for

    constructor (t: Text, b: array<Byte>)
      ensures text == t && buf == b && log == NoStrings() && LogOk(log, t, 0, 0) && Chained(log.tree, chains)
      ensures Stored(nodes, log) && matchLen == matchAt == matchPos == 0
    {
      text, buf := t, b;
      var none, no := seq(16384, _ => 0), seq(16384, _ => false);
      log := NoStrings();
      nodes := Nodes(none, none, none, no, none, none, seq(8191, i => i + 1));
      chains := HC.Chains(seq(28912, _ => 0), none, none, none, 0);
      matchLen, matchPos, matchAt := 0, 0, 0;
      new;
      AllSpare(log.tree, log.avail);
    }

    /** The buffer shows the text around the position `a`, which is at `pos`. */
    ghost predicate Shows(a: nat, pos: nat)
      reads buf
    {
      && buf.Length == 16640 && pos == Slot(a)
      && forall j: nat :: j < pos + 256 && pos <= a + j ==> buf[j] == text(a + j - pos)
    }

    /** A parent is told of the position `y`, which is at the offset `x`: it keeps the later one. */
    method TellParent(u: nat, x: int, pos: nat, ghost a: nat, ghost y: nat) returns (later: int)
      requires Stored(nodes, log) && Inner(u) && Live(log.tree, u) && pos == Slot(a) && y <= a && x == pos - (a - y)
      requires log.tree.pos[u] <= a <= log.tree.pos[u] + 8192 && (y < a ==> log.tree.pos[u] < a)
      modifies this`log, this`nodes
      ensures Stored(nodes, log) && log == old(log).(tree := Learn(old(log.tree), u, y))
      ensures later == pos - (a - log.tree.pos[u])
    {
      hide Slot, Stored;
      StoredIs(nodes, log, u);
      StoredSizes(nodes, log);
      ghost var t := log.tree;
      ghost var z := Max(t.pos[u], y);
      later := x;
      if x < pos {
        OffsetOf(t.pos[u], a, pos);
        if Offset(nodes.position[u], pos) > x {
          later := Offset(nodes.position[u], pos);
        }
      }
      UpperOf(later, z, a, pos);
      var flag := !nodes.flag[u];
      StoredPlace(nodes, log, u, z, flag, if flag then t.sent[u] else z);
      nodes := nodes.(position := nodes.position[u := Upper(later)], flag := nodes.flag[u := flag]);
      log := log.(tree := Learn(t, u, y));
    }

    /** `c` has to tell its parent of the position `y`, which is at the offset `x`. */
    ghost predicate Telling(c: nat, x: int, pos: nat, y: nat, lo: nat, a: nat)
      reads this
    {
      && Stored(nodes, log) && Shaped(log.tree, text) && Live(log.tree, c) && UpdatedBut(log.tree, c)
      && log.tree.sent[c] <= y && Spells(log.tree, text, log.tree.parent[c], y)
      && lo <= y <= a <= lo + 8192 && Within(log.tree, lo, if y < a then a else a + 1)
      && pos == Slot(a) && x == pos - (a - y)
    }

    lemma TellingParent(c: nat, x: int, pos: nat, y: nat, lo: nat, a: nat)
      requires Telling(c, x, pos, y, lo, a)
      ensures Sized(log.tree) && Live(log.tree, c) && nodes.parent == log.tree.parent && |nodes.flag| == 16384
      ensures var u := log.tree.parent[c];
        if Inner(u) then log.tree.level[u] < log.tree.level[c] && nodes.flag[u] == log.tree.flag[u] else Root(u)
    {
      hide Stored, Spells, Slot, NodesOk, Distinct, Within, UpdatedBut;
      StoredParent(nodes, log, text, c);
      NodeIs(log.tree, text, c);
    }

    /** One step up. */
    method TellOne(c: nat, x: int, pos: nat, ghost y: nat, ghost lo: nat, ghost a: nat) returns (later: int)
      requires Telling(c, x, pos, y, lo, a) && Inner(log.tree.parent[c])
      modifies this`log, this`nodes
      ensures Stored(nodes, log) && log == old(log).(tree := Learn(old(log.tree), old(log.tree).parent[c], y))
      ensures var t, t', u := old(log.tree), log.tree, old(log.tree).parent[c];
        && Sized(t') && Told(t, t', c) && Shaped(t', text) && Within(t', lo, if y < a then a else a + 1)
        && y <= t'.pos[u] && (y < a <==> t'.pos[u] < a)
        && if t.flag[u] then Telling(u, later, pos, t'.pos[u], lo, a) else Updated(t')
    {
      hide Agree, NodesOk, Distinct, UpdatedBut, Spells, Updated, Slot, Stored, Told;
      ghost var t := log.tree;
      LearnKeeps(t, text, c, y, lo, if y < a then a else a + 1);
      StoredSizes(nodes, log);
      later := TellParent(nodes.parent[c], x, pos, a, y);
    }

    /** A node has changed its beginning: if it was told of a change before, it now tells its parent. In `DeleteNode`
        the later position is passed on; that of `InsertNode` is the latest. */
    method TellParents(k: nat, x: int, pos: nat, ghost y: nat, ghost lo: nat, ghost a: nat, ghost n: nat)
      requires Telling(k, x, pos, y, lo, a) && log.tree.level[k] <= n
      modifies this`log, this`nodes
      ensures Stored(nodes, log) && log == old(log).(tree := Tell(old(log.tree), k, y, n))
      ensures Shaped(log.tree, text) && Updated(log.tree) && Within(log.tree, lo, if y < a then a else a + 1)
      ensures Told(old(log.tree), log.tree, k)
    {
      hide Telling, Shaped, Updated, Learn, Slot, Stored, Within, Root;
      ghost var t := log.tree;
      ghost var w: nat, m: nat := y, n;
      var c, z := k, x;
      TellingParent(c, z, pos, w, lo, a);
      while Inner(nodes.parent[c]) && nodes.flag[nodes.parent[c]]
        invariant Telling(c, z, pos, w, lo, a) && log == old(log).(tree := log.tree) && (y < a <==> w < a)
        invariant Sized(log.tree) && Live(log.tree, c) && nodes.parent == log.tree.parent && |nodes.flag| == 16384
        invariant var u := log.tree.parent[c];
          if Inner(u) then log.tree.level[u] < log.tree.level[c] && nodes.flag[u] == log.tree.flag[u] else Root(u)
        invariant Told(t, log.tree, k) && log.tree.level[c] <= log.tree.level[k]
        invariant log.tree.level[c] <= m && Tell(log.tree, c, w, m) == Tell(t, k, y, n)
        decreases log.tree.level[c]
      {
        var u := nodes.parent[c];
        z := TellOne(c, z, pos, w, lo, a);
        c, w, m := u, log.tree.pos[u], m - 1;
        TellingParent(c, z, pos, w, lo, a);
      }
      if Inner(nodes.parent[c]) {
        z := TellOne(c, z, pos, w, lo, a);
      } else {
        TellingNone(c, z, pos, w, lo, a);
      }
    }

    lemma TellingNone(c: nat, x: int, pos: nat, y: nat, lo: nat, a: nat)
      requires Telling(c, x, pos, y, lo, a) && Root(log.tree.parent[c])
      ensures Stored(nodes, log) && Shaped(log.tree, text) && Updated(log.tree)
      ensures Within(log.tree, lo, if y < a then a else a + 1)
    {
      hide Stored, Spells, Slot, NodesOk, Distinct, Within;
      ButNothing(log.tree, c);
    }

    /** `Child`: the child of `u` for the character `c`, or 0. */
    method Child(u: nat, c: Byte) returns (v: nat)
      requires Sized(log.tree) && Chained(log.tree, chains) && Distinct(log.tree) && nodes.parent == log.tree.parent
      requires 0 < u < 8448
      ensures v == ChildOf(log.tree, u, c)
      ensures v == 0 ==> NoChild(log.tree, u, c)
      ensures v != 0 ==> Live(log.tree, v) && log.tree.parent[v] == u && log.tree.edge[v] == c
    {
      hide HC.NodesLinked, HC.HeadsLinked, HC.Ranked, Distinct, ChildOf;
      var b := Hash(u, c);
      HC.LinkOf(chains, b);
      v := chains.next[b];
      AllAhead(log.tree, chains, u, c);
      while v != 0 && nodes.parent[v] != u
        invariant v == 0 || (HC.In(chains, v) && chains.head[v] == b)
        invariant forall w: nat :: Wanted(log.tree, u, c, w) ==> v != 0 && chains.rank[w] <= chains.rank[v]
        decreases if v == 0 then 0 else chains.rank[v] + 1
      {
        HC.LinksOf(chains, v);
        StillAhead(log.tree, chains, u, c, v);
        v := chains.next[v];
      }
      if v != 0 {
        ChainedIn(log.tree, chains, v);
      } else {
        forall w: nat | Live(log.tree, w) && log.tree.parent[w] == u
          ensures log.tree.edge[w] != c
        {
          assert !Wanted(log.tree, u, c, w);
        }
      }
      ChildIs(log.tree, u, c, v);
    }

    /** The leaf that stands for the position `p`, whose own leaf is `first`: this or its heir's. */
    method StandIn(first: nat, ghost p: nat, ghost lo: nat, ghost hi: nat) returns (l: nat)
      requires LogOk(log, text, lo, hi) && Stored(nodes, log) && lo <= p < hi <= lo + 8192 && first == Slot(p)
      ensures l == LeafOf(log, Slot(p), 8192)
      ensures Leaf(l) && Live(log.tree, l) && Agree(text, p, log.tree.pos[l], 256)
    {
      hide Grown, Counted, Spare, Agree, Slot;
      l := first;
      ghost var q, m: nat := p, 8192;
      AgreeSelf(text, p, 256);
      assert Present(log.tree, log.heir, text, p, hi);
      while nodes.parent[l] == 0
        invariant lo <= q < hi && l == Slot(q) && Agree(text, p, q, 256)
        invariant log.tree.pos[l] == q && hi - q <= m && LeafOf(log, l, m) == LeafOf(log, Slot(p), 8192)
        decreases hi - q
      {
        assert Present(log.tree, log.heir, text, q, hi);
        l := nodes.heir[l];
        AgreeThrough(text, p, q, log.tree.pos[l], 256, 256);
        q, m := log.tree.pos[l], m - 1;
      }
    }

    /** From a leaf up to the first node whose string is shorter than `n`. */
    method Climb(l: nat, n: nat, ghost a: nat) returns (v: nat)
      requires Shaped(log.tree, text) && Stored(nodes, log) && Leaf(l) && Live(log.tree, l) && 1 < n <= 256
      requires Agree(text, log.tree.pos[l], a, n)
      ensures v == Up(log.tree, l, n, 256)
      ensures Live(log.tree, v) && Level(log.tree, log.tree.parent[v]) < n <= log.tree.level[v]
      ensures Agree(text, log.tree.pos[v], a, n)
    {
      hide NodesOk, Distinct, Agree, Slot, Stored;
      v := l;
      ghost var m: nat := 256;
      StoredParent(nodes, log, text, l);
      NodeIs(log.tree, text, l);
      while LevelOf(nodes, nodes.parent[v]) >= n
        invariant Live(log.tree, v) && n <= log.tree.level[v] <= m && Agree(text, log.tree.pos[v], a, n)
        invariant LevelOf(nodes, nodes.parent[v]) == Level(log.tree, log.tree.parent[v])
        invariant Up(log.tree, v, n, m) == Up(log.tree, l, n, 256)
        decreases log.tree.level[v]
      {
        NodeIs(log.tree, text, v);
        var u := nodes.parent[v];
        AgreeThrough(text, log.tree.pos[u], log.tree.pos[v], a, log.tree.level[u], n);
        v, m := u, m - 1;
        StoredParent(nodes, log, text, v);
        NodeIs(log.tree, text, v);
      }
    }

    /** The parent of `v` is told of the new position `a`. */
    method Announce(v: nat, pos: nat, ghost a: nat, ghost lo: nat)
      requires LogOk(log, text, lo, a) && lo <= a < lo + 8192 && Live(log.tree, v)
      requires Spells(log.tree, text, log.tree.parent[v], a) && Stored(nodes, log) && pos == Slot(a)
      modifies this`log, this`nodes
      ensures Open(log, text, lo, a) && Told(old(log.tree), log.tree, v) && Stored(nodes, log)
      ensures Ready(log.tree, log.tree.parent[v], a) && Untouched(log.tree, log.tree.parent[v], a)
      ensures log == old(log).(tree := Tell(old(log.tree), v, a, 256))
    {
      hide NodesOk, Distinct, Spells, Updated, Branching, Within, Logged, Counted, Spare, Slot, Learn, UpdatedBut,
           Agree, Stored;
      ghost var t := log.tree;
      Opens(log, text, lo, a);
      StoredParent(nodes, log, text, v);
      var u := nodes.parent[v];
      NodeIs(t, text, v);
      if Inner(u) {
        LearnNewest(t, text, v, lo, a);
        var flagged := nodes.flag[u];
        assert lo <= t.pos[u] < a by { WithinAt(t, lo, a, u); }
        var x := TellParent(u, pos, pos, a, a);
        if flagged {
          ghost var t1 := log.tree;
          TellParents(u, pos, pos, a, lo, a, 255);
          CalmTold(t1, log.tree, text, u, a);
        }
        ToldKeeps(old(log), log.tree, text, v, lo, a);
      } else {
        AllOlder(t, text, u, lo, a);
      }
    }

    /** How far the strings at the offsets `pos` and `x` agree, from `n` on. */
    method CommonLength(pos: nat, x: int, n: nat, limit: nat, ghost a: nat, ghost q: nat) returns (k: nat)
      requires Shows(a, pos) && q < a <= q + 8192 && x == pos - (a - q) && n <= limit <= 256 && Agree(text, q, a, n)
      ensures k == Extent(text, q, a, n, limit) && k <= limit && Agree(text, q, a, k)
      ensures k < limit ==> text(q + k) != text(a + k)
    {
      hide Agree, Slot, Shows;
      k := n;
      while k < limit
        invariant n <= k <= limit && Agree(text, q, a, k)
        invariant Extent(text, q, a, k, limit) == Extent(text, q, a, n, limit)
      {
        Seen(a, pos, a + k, pos + k);
        Seen(a, pos, q + k, x + k);
        if buf[pos + k] != buf[x + k] {
          return;
        }
        AgreeMore(text, q, a, k);
        k := k + 1;
      }
    }

    /** What is read from the buffer. */
    lemma Seen(a: nat, pos: nat, q: nat, j: int)
      requires Shows(a, pos) && q < a + 256 && a <= q + 8192 && j == pos - a + q
      ensures 0 <= j < buf.Length && buf[j] == text(q)
    {
    }

    /** Where the way down may go on from: `v` is below a node that is ready for `a` and agrees with it so far. */
    ghost predicate AtNode(v: nat, lo: nat, a: nat)
      reads this
    {
      && Open(log, text, lo, a) && Chained(log.tree, chains) && Stored(nodes, log) && Live(log.tree, v)
      && Ready(log.tree, log.tree.parent[v], a) && Untouched(log.tree, log.tree.parent[v], a)
      && Level(log.tree, log.tree.parent[v]) < matchLen <= log.tree.level[v]
      && Agree(text, log.tree.pos[v], a, matchLen)
    }

    /** The strings at `v` and at `pos` are compared up to the level of `v`. */
    method Compare(v: nat, pos: nat, ghost a: nat, ghost lo: nat) returns (same: bool)
      requires AtNode(v, lo, a) && Shows(a, pos)
      modifies this`matchLen, this`matchPos, this`matchAt
      ensures AtNode(v, lo, a) && matchAt == log.tree.pos[v] && lo <= matchAt < a && matchPos == pos - (a - matchAt)
      ensures matchLen == Extent(text, matchAt, a, old(matchLen), log.tree.level[v])
      ensures same == (matchLen == log.tree.level[v]) && (same && 256 <= matchLen <==> same && Leaf(v))
      ensures !same ==> text(matchAt + matchLen) != text(a + matchLen)
    {
      hide Agree, Slot, Stored, NodesOk, Distinct, Spells, Shows, Offset, Extent, Updated, Branching, Counted, Spare,
           Chained, Calm, Logged;
      NodeIs(log.tree, text, v);
      StoredSizes(nodes, log);
      if Inner(v) {
        StoredIs(nodes, log, v);
      } else {
        LeafIs(log, text, lo, a, v);
      }
      assert pos == Slot(a) by { ShowsAt(a, pos); }
      OffsetOf(log.tree.pos[v], a, pos);
      matchAt := log.tree.pos[v];
      matchPos := Offset(if v >= 8192 then v else nodes.position[v], pos);
      var limit := if v >= 8192 then 256 else nodes.level[v];
      matchLen := CommonLength(pos, matchPos, matchLen, limit, a, matchAt);
      same := matchLen == limit;
    }

    lemma ShowsAt(a: nat, pos: nat)
      requires Shows(a, pos)
      ensures pos == Slot(a)
    {
    }

    /** The position has been put in; a match of two or more characters is one with an earlier position in the window,
        and none is longer. */
    ghost predicate Found(lo: nat, a: nat)
      reads this
    {
      && LogOk(log, text, lo, a + 1) && Chained(log.tree, chains) && Stored(nodes, log) && matchLen <= 256
      && (2 <= matchLen ==> lo <= matchAt < a && Agree(text, matchAt, a, matchLen))
      && (matchLen < 256 ==> NoneAgrees(text, lo, a, matchLen + 1))
    }

    /** The leaf of `a` becomes a child of `u` for the character `c`. */
    method AddLeaf(u: nat, c: Byte, pos: nat, ghost a: nat, ghost lo: nat)
      requires Open(log, text, lo, a) && Chained(log.tree, chains) && Stored(nodes, log) && pos == Slot(a)
      requires Ready(log.tree, u, a) && Spells(log.tree, text, u, a) && c == text(a + Level(log.tree, u))
      requires NoChild(log.tree, u, c)
      modifies this`log, this`nodes, this`chains
      ensures LogOk(log, text, lo, a + 1) && Chained(log.tree, chains) && Stored(nodes, log)
      ensures log == Grow(old(log), text, u, a) && NoneAgrees(text, lo, a, Level(old(log.tree), u) + 1)
    {
      hide NodesOk, Distinct, Updated, Branching, Within, Logged, Counted, Spare, Slot, Agree, Calm, NoneAgrees,
           HC.NodesLinked, HC.HeadsLinked, HC.Ranked, Stored, Hash, Grow;
      ghost var g, t, ch := log, log.tree, chains;
      var b := Hash(u, c);
      ChainedIn(t, ch, pos);
      HC.PushOk(chains, b, pos);
      chains := HC.Push(chains, b, pos);
      EndLongest(log, text, u, lo, a);
      GrowKeeps(log, text, u, lo, a);
      ReadyNode(t, u, a);
      StoredSizes(nodes, log);
      StoredGrow(nodes, log, text, u, a);
      nodes := nodes.(parent := nodes.parent[pos := u], count := nodes.count[u := (nodes.count[u] + 1) % 256]);
      log := Grow(log, text, u, a);
      ChainedGrow(g, text, u, a, ch, chains);
    }

    /** The links of a split: `n` takes the place of `v`, and `v` and `l` go to the heads `b` and `c`. */
    method ForkChains(v: nat, n: nat, l: nat, b: nat, c: nat)
      requires HC.Ok(chains) && HC.In(chains, v) && 0 < n < 16384 && !HC.In(chains, n) && 0 < l < 16384
      requires !HC.In(chains, l)
      requires l != n && HC.Head(b) && HC.Head(c)
      modifies this`chains
      ensures HC.Ok(chains) && chains.head == old(chains.head)[n := old(chains.head)[v]][v := b][l := c]
    {
      hide HC.NodesLinked, HC.HeadsLinked, HC.Ranked;
      HC.SwapOk(chains, v, n);
      chains := HC.Swap(chains, v, n);
      HC.PushOk(chains, b, v);
      chains := HC.Push(chains, b, v);
      HC.PushOk(chains, c, l);
      chains := HC.Push(chains, c, l);
    }

    /** `Split`: a new node for the first `matchLen` characters of `v`, with `v` and the leaf of `a` below it. */
    method Split(v: nat, pos: nat, ghost a: nat, ghost lo: nat)
      requires AtNode(v, lo, a) && Shows(a, pos) && matchLen < log.tree.level[v] && lo <= matchAt < a
      requires matchAt == log.tree.pos[v] && matchPos == pos - (a - matchAt)
      requires text(matchAt + matchLen) != text(a + matchLen)
      modifies this`log, this`nodes, this`chains
      ensures LogOk(log, text, lo, a + 1) && Chained(log.tree, chains) && Stored(nodes, log)
      ensures LogSized(old(log)) && old(log.avail) != [] && old(log.avail)[0] < 16384
      ensures log == Fork(old(log), text, v, matchLen, a) && NoneAgrees(text, lo, a, matchLen + 1)
    {
      hide NodesOk, Distinct, Updated, Branching, Within, Logged, Counted, Spare, Slot, Agree, Ready, NoneAgrees,
           HC.NodesLinked, HC.HeadsLinked, HC.Ranked, Stored, Hash, Fork, ForkNodes, Shows;
      ghost var g, t, ch := log, log.tree, chains;
      NodeIs(t, text, v);
      ShowsAt(a, pos);
      ForkLongest(log, text, v, matchLen, lo, a);
      SpareFirst(log, text, lo, a);
      StoredSizes(nodes, log);
      var n := nodes.avail[0];
      ChainedIn(t, ch, v);
      ChainedIn(t, ch, n);
      ChainedIn(t, ch, pos);
      Seen(a, pos, a + matchLen, pos + matchLen);
      Seen(a, pos, matchAt + matchLen, matchPos + matchLen);
      ForkChains(v, n, pos, Hash(n, buf[matchPos + matchLen]), Hash(n, buf[pos + matchLen]));
      ForkKeeps(log, text, v, matchLen, lo, a);
      StoredFork(nodes, log, text, v, matchLen, a);
      nodes := ForkNodes(nodes, v, matchLen, pos);
      log := Fork(log, text, v, matchLen, a);
      ChainedFork(g, text, v, matchLen, a, ch, chains);
    }

    /** The leaf of `a` takes the place of the leaf `v`. */
    method TakeOver(v: nat, pos: nat, ghost a: nat, ghost lo: nat)
      requires AtNode(v, lo, a) && pos == Slot(a) && Leaf(v) && matchLen == 256 && log.tree.pos[v] < a
      modifies this`log, this`nodes, this`chains
      ensures LogOk(log, text, lo, a + 1) && Chained(log.tree, chains) && Stored(nodes, log)
      ensures LogSized(old(log)) && log == Inherit(old(log), v, a)
    {
      hide NodesOk, Distinct, Updated, Branching, Within, Logged, Counted, Spare, Slot, Agree, Ready, HC.NodesLinked,
           HC.HeadsLinked, HC.Ranked, Stored;
      ghost var t, ch := log.tree, chains;
      ChainedIn(t, ch, v);
      ChainedIn(t, ch, pos);
      HC.SwapOk(chains, v, pos);
      chains := HC.Swap(chains, v, pos);
      InheritKeeps(log, text, v, lo, a);
      StoredSizes(nodes, log);
      StoredInherit(nodes, log, v, a);
      nodes := nodes.(parent := nodes.parent[pos := nodes.parent[v]][v := 0], heir := nodes.heir[v := pos]);
      log := Inherit(log, v, a);
      ChainedBy(t, ch, log.tree, chains);
    }

    /** A node on the way down begins at `a` from now on. */
    method PassNode(v: nat, pos: nat, ghost a: nat, ghost lo: nat)
      requires AtNode(v, lo, a) && Inner(v) && matchLen == log.tree.level[v] && pos == Slot(a)
      modifies this`log, this`nodes
      ensures LogSized(old(log)) && log == Pass(old(log), v, a) && Open(log, text, lo, a) && Ready(log.tree, v, a)
      ensures Chained(log.tree, chains) && Stored(nodes, log) && Live(log.tree, v)
    {
      hide NodesOk, Distinct, Updated, Branching, Within, Logged, Counted, Spare, Slot, Agree, Chained, Stored;
      NodeIs(log.tree, text, v);
      PassKeeps(log, text, v, lo, a);
      ChainedSame(log.tree, Touch(log.tree, v, a), chains);
      StoredSizes(nodes, log);
      StoredPlace(nodes, log, v, a, false, a);
      nodes := nodes.(position := nodes.position[v := pos], flag := nodes.flag[v := false]);
      log := Pass(log, v, a);
    }

    /** The string of `v` has been matched in full: on to the next node, if there is one. */
    method Next(v: nat, pos: nat, ghost a: nat, ghost lo: nat) returns (w: nat)
      requires AtNode(v, lo, a) && Inner(v) && matchLen == log.tree.level[v] < 256 && matchAt == log.tree.pos[v]
      requires lo <= matchAt < a && Shows(a, pos)
      modifies this`log, this`nodes, this`chains, this`matchLen
      ensures LogSized(old(log)) && w == ChildOf(Pass(old(log), v, a).tree, v, text(a + old(matchLen)))
      ensures w == 0 ==> Found(lo, a) && matchLen == old(matchLen) && log == Grow(Pass(old(log), v, a), text, v, a)
      ensures w != 0 ==> AtNode(w, lo, a) && matchLen == old(matchLen) + 1 && log == Pass(old(log), v, a)
      ensures w != 0 ==> log.tree.parent[w] == v && Level(log.tree, v) == old(matchLen)
    {
      hide NodesOk, Distinct, Updated, Branching, Within, Logged, Counted, Spare, Slot, Agree, Chained, NoneAgrees,
           Stored, ChildOf, Grow, Shows;
      ShowsAt(a, pos);
      PassNode(v, pos, a, lo);
      AgreeSelf(text, a, matchLen);
      Seen(a, pos, a + matchLen, pos + matchLen);
      StoredSizes(nodes, log);
      w := Child(v, buf[pos + matchLen]);
      if w == 0 {
        AddLeaf(v, buf[pos + matchLen], pos, a, lo);
      } else {
        NodeIs(log.tree, text, w);
        ChildAgrees(log.tree, text, w, a);
        matchLen := matchLen + 1;
      }
    }

    /** The way down: the longest match. */
    method Descend(start: nat, pos: nat, ghost a: nat, ghost lo: nat)
      requires AtNode(start, lo, a) && 2 <= matchLen && Shows(a, pos)
      modifies this`log, this`nodes, this`chains, this`matchLen, this`matchPos, this`matchAt
      ensures Found(lo, a) && 2 <= matchLen && matchPos == pos - (a - matchAt)
      ensures LogSized(old(log)) && Scan(log, matchLen, matchAt) == Down(text, old(log), start, old(matchLen), a)
    {
      hide AtNode, Agree, Chained, NoneAgrees, Stored, ChildOf, Extent, Down, Fork, Inherit, Grow, Pass, Shows, LogOk;
      var v := start;
      AtNodeFits(v, lo, a);
      ShowsAt(a, pos);
      ghost var r := Down(text, log, start, matchLen, a);
      while true
        invariant AtNode(v, lo, a) && 2 <= matchLen && LogSized(log) && v < 16384
        invariant Down(text, log, v, matchLen, a) == r
        decreases 256 - matchLen
      {
        ghost var n := matchLen;
        var same := Compare(v, pos, a, lo);
        DownFrom(text, log, v, n, a, matchLen);
        AtNodeFits(v, lo, a);
        if !same {
          Split(v, pos, a, lo);
          return;
        }
        if matchLen >= 256 {
          TakeOver(v, pos, a, lo);
          return;
        }
        v := Next(v, pos, a, lo);
        if v == 0 {
          return;
        }
        AtNodeFits(v, lo, a);
      }
    }

    lemma AtNodeFits(v: nat, lo: nat, a: nat)
      requires AtNode(v, lo, a)
      ensures LogSized(log) && 0 < v < 16384 && matchLen <= log.tree.level[v] <= 256 && (Inner(v) || Leaf(v))
      ensures Agree(text, log.tree.pos[v], a, matchLen)
    {
      hide Agree, NodesOk, Distinct, Spells;
      NodeIs(log.tree, text, v);
    }

    /** The match of the position before `a`, which may have been cut short. */
    ghost predicate Last(lo: nat, a: nat)
      reads this
    {
      4 <= matchLen ==>
        && matchLen <= 256 && 0 < a && lo <= matchAt + 1 < a && Agree(text, matchAt, a - 1, matchLen)
        && Upper(matchPos + 1) == Slot(matchAt + 1)
    }

    /** After a long match: the tree is entered at the next position of the match. */
    method EnterLong(pos: nat, ghost a: nat, ghost lo: nat) returns (v: nat)
      requires LogOk(log, text, lo, a) && Chained(log.tree, chains) && Stored(nodes, log) && lo <= a < lo + 8192
      requires 3 <= matchLen < 256 && lo <= matchAt + 1 < a && Agree(text, matchAt + 1, a, matchLen)
      requires Upper(matchPos + 1) == Slot(matchAt + 1) && pos == Slot(a)
      modifies this`log, this`nodes
      ensures AtNode(v, lo, a)
      ensures LogSized(old(log)) && v == Up(old(log.tree), LeafOf(old(log), Slot(matchAt + 1), 8192), matchLen, 256)
      ensures log == old(log).(tree := Tell(old(log.tree), v, a, 256))
    {
      hide NodesOk, Distinct, Updated, Branching, Within, Logged, Counted, Spare, Slot, Agree, Spells, Ready, Untouched,
           Stored, Tell, Up, LeafOf;
      var l := StandIn(Upper(matchPos + 1), matchAt + 1, lo, a);
      AgreeBack(text, matchAt + 1, log.tree.pos[l], 256);
      AgreeThrough(text, log.tree.pos[l], matchAt + 1, a, 256, matchLen);
      v := Climb(l, matchLen, a);
      ParentSpells(log.tree, text, v, a, matchLen);
      ghost var t := log.tree;
      Announce(v, pos, a, lo);
      ChainedSame(t, log.tree, chains);
    }

    /** A child of the root for the first two characters is where the way down begins. */
    lemma AtTop(v: nat, lo: nat, a: nat)
      requires LogOk(log, text, lo, a) && lo <= a < lo + 8192 && Chained(log.tree, chains) && Stored(nodes, log)
      requires Live(log.tree, v) && log.tree.parent[v] == text(a) + 8192 && log.tree.edge[v] == text(a + 1)
      requires matchLen == 2
      ensures AtNode(v, lo, a)
    {
      hide NodesOk, Distinct, Updated, Branching, Within, Logged, Counted, Spare, Slot, Agree, Stored, Chained;
      Opens(log, text, lo, a);
      NodeIs(log.tree, text, v);
      ChildAgrees(log.tree, text, v, a);
      AllOlder(log.tree, text, text(a) + 8192, lo, a);
    }

    /** Otherwise: the tree is entered at its root; if there is no child the position is put in right there. */
    method EnterShort(pos: nat, ghost a: nat, ghost lo: nat) returns (v: nat)
      requires LogOk(log, text, lo, a) && Chained(log.tree, chains) && Stored(nodes, log) && lo <= a < lo + 8192
      requires Shows(a, pos)
      modifies this`log, this`nodes, this`chains, this`matchLen
      ensures LogSized(old(log)) && v == ChildOf(old(log.tree), text(a) + 8192, text(a + 1))
      ensures v == 0 ==> matchLen == 1 && LogOk(log, text, lo, a + 1) && Chained(log.tree, chains) && Stored(nodes, log)
      ensures v == 0 ==> NoneAgrees(text, lo, a, 2) && log == Grow(old(log), text, text(a) + 8192, a)
      ensures v != 0 ==> matchLen == 2 && AtNode(v, lo, a) && log == old(log)
    {
      hide NodesOk, Distinct, Updated, Branching, Within, Logged, Counted, Spare, Slot, Agree, Stored, ChildOf, AtNode,
           Shows, Chained, NoneAgrees, Grow;
      Opens(log, text, lo, a);
      ShowsAt(a, pos);
      Seen(a, pos, a, pos);
      Seen(a, pos, a + 1, pos + 1);
      StoredSizes(nodes, log);
      var c: nat := buf[pos];
      var u := c + 8192;
      v := Child(u, buf[pos + 1]);
      if v == 0 {
        AddLeaf(u, buf[pos + 1], pos, a, lo);
        matchLen := 1;
      } else {
        matchLen := 2;
        AtTop(v, lo, a);
      }
    }

    /** `InsertNode`: the position `a`, which is at `pos`, is put in and its longest match found. */
    method InsertNode(pos: nat, ghost a: nat, ghost lo: nat)
      requires LogOk(log, text, lo, a) && Chained(log.tree, chains) && Stored(nodes, log) && lo <= a < lo + 8192
      requires Last(lo, a) && Shows(a, pos)
      modifies this`log, this`nodes, this`chains, this`matchLen, this`matchPos, this`matchAt
      ensures Found(lo, a) && (2 <= matchLen ==> matchPos == pos - (a - matchAt))
      ensures LogSized(old(log))
      ensures Scan(log, matchLen, matchAt) == Insert(text, old(log), old(matchLen), old(matchAt), a)
    {
      hide LogOk, Chained, AtNode, Agree, NoneAgrees, Stored, Down, Tell, Up, LeafOf, ChildOf, Grow;
      var v;
      if matchLen >= 4 {
        AgreeTail(text, matchAt, a - 1, matchLen);
        matchLen := matchLen - 1;
        v := EnterLong(pos, a, lo);
      } else {
        v := EnterShort(pos, a, lo);
        if v == 0 {
          return;
        }
      }
      Descend(v, pos, a, lo);
    }

    /** The nodes above `u` are told where it begins, which is at the offset `x`. */
    method TellAbove(u: nat, x: int, pos: nat, ghost lo: nat, ghost a: nat)
      requires Loose(log, text, u, lo, a) && Inner(u) && Live(log.tree, u) && lo < log.tree.pos[u] < a == lo + 8192
      requires Chained(log.tree, chains) && Stored(nodes, log) && pos == Slot(a) && x == pos - (a - log.tree.pos[u])
      modifies this`log, this`nodes
      ensures Loose(log, text, u, lo, a) && Chained(log.tree, chains) && Stored(nodes, log)
      ensures Told(Raise(old(log.tree), u), log.tree, u)
      ensures log == old(log).(tree := Tell(Raise(old(log.tree), u), u, old(log.tree.pos[u]), 256))
    {
      hide NodesOk, Distinct, Updated, UpdatedBut, BranchingBut, Younger, Logged, Counted, Spare, Spells, Agree,
           Stored, Slot, Tell;
      ghost var g, y := log, log.tree.pos[u];
      NodeIs(log.tree, text, u);
      RaiseKeeps(log.tree, text, u, lo, a);
      StoredRaise(nodes, log, u);
      log := log.(tree := Raise(log.tree, u));
      TellParents(u, x, pos, y, lo, a, 256);
      LooseTold(g, log.tree, text, u, lo, a);
      ChainedSame(g.tree, log.tree, chains);
    }

    /** The only child `v` of `u` takes its place. */
    method TakeOut(u: nat, v: nat, ghost lo: nat, ghost hi: nat)
      requires Loose(log, text, u, lo, hi) && OnlyChild(log.tree, u, v) && log.tree.sent[v] <= log.tree.sent[u]
      requires Chained(log.tree, chains) && Stored(nodes, log) && u != v
      modifies this`log, this`nodes, this`chains
      ensures LogOk(log, text, lo + 1, hi) && Chained(log.tree, chains) && Stored(nodes, log)
      ensures log == Merge(old(log), u, v)
    {
      hide NodesOk, Distinct, Updated, BranchingBut, Within, Younger, Logged, Counted, Spare, HC.NodesLinked,
           HC.HeadsLinked, HC.Ranked, Stored;
      ghost var t, ch := log.tree, chains;
      ChainedIn(t, ch, u);
      ChainedIn(t, ch, v);
      HC.UnlinkOk(chains, v);
      chains := HC.Unlink(chains, v);
      HC.SwapOk(chains, u, v);
      chains := HC.Swap(chains, u, v);
      MergeKeeps(log, text, u, v, lo, hi);
      StoredSizes(nodes, log);
      StoredMerge(nodes, log, u, v);
      nodes := nodes.(parent := nodes.parent[v := nodes.parent[u]][u := 0], avail := [u] + nodes.avail);
      log := Merge(log, u, v);
      ChainedBy(t, ch, log.tree, chains);
    }

    /** The only child of `u`, which begins at the offset `x`, is found and takes its place. */
    method SpliceOut(u: nat, x: int, pos: nat, ghost y: nat, ghost w: nat, ghost lo: nat, ghost a: nat)
      requires Loose(log, text, u, lo, a) && Inner(u) && Live(log.tree, u) && OnlyChild(log.tree, u, w) && u != w
      requires log.tree.sent[w] <= log.tree.sent[u] && log.tree.edge[w] == text(y + log.tree.level[u])
      requires Chained(log.tree, chains) && Stored(nodes, log) && Shows(a, pos) && lo < y < a == lo + 8192
      requires x == pos - (a - y) && log.tree.level[u] < 256
      modifies this`log, this`nodes, this`chains
      ensures LogOk(log, text, lo + 1, a) && Chained(log.tree, chains) && Stored(nodes, log)
      ensures log == Merge(old(log), u, ChildOf(old(log.tree), u, text(y + old(log.tree.level[u]))))
    {
      hide NodesOk, Distinct, Updated, BranchingBut, Within, Younger, Logged, Counted, Spare, Agree, Chained, Stored,
           Slot, ChildOf, Merge, Shows;
      StoredSizes(nodes, log);
      StoredIs(nodes, log, u);
      Seen(a, pos, y + log.tree.level[u], x + nodes.level[u]);
      var v := Child(u, buf[x + nodes.level[u]]);
      FoundOnly(log.tree, u, w, v);
      TakeOut(u, v, lo, a);
    }

    /** An inner node with one child is taken out; what it begins with is told to the nodes above it. */
    method Collapse(u: nat, pos: nat, ghost lo: nat, ghost a: nat)
      requires Loose(log, text, u, lo, a) && Inner(u) && Live(log.tree, u) && |Kids(log.tree, u)| == 1
      requires Chained(log.tree, chains) && Stored(nodes, log) && Shows(a, pos) && a == lo + 8192
      modifies this`log, this`nodes, this`chains
      ensures LogOk(log, text, lo + 1, a) && Chained(log.tree, chains) && Stored(nodes, log)
      ensures LogSized(old(log)) && log == Removed(text, old(log), u)
    {
      hide NodesOk, Distinct, Updated, BranchingBut, Within, Younger, Logged, Counted, Spare, Spells, Kids, Agree,
           Chained, Stored, Slot, Tell, ChildOf, Removed, Merge, Shows, Offset;
      ghost var g := log;
      ghost var w := OneKid(log.tree, u);
      ShowsAt(a, pos);
      LastChild(log, text, u, w, lo, a);
      NodeIs(log.tree, text, w);
      NodeIs(log.tree, text, u);
      StoredSizes(nodes, log);
      StoredIs(nodes, log, u);
      ghost var y := log.tree.pos[u];
      OffsetOf(y, a, pos);
      var x := Offset(nodes.position[u], pos);
      TellAbove(u, x, pos, lo, a);
      RemovedIs(text, g, u, log, ChildOf(log.tree, u, text(y + log.tree.level[u])));
      SpliceOut(u, x, pos, y, w, lo, a);
    }

    /** A leaf is taken out and counted off. */
    method RemoveLeaf(l: nat)
      requires Sized(log.tree) && Chained(log.tree, chains) && Stored(nodes, log) && Leaf(l) && Live(log.tree, l)
      modifies this`log, this`nodes, this`chains
      ensures log == Prune(old(log), l) && Chained(log.tree, chains) && Stored(nodes, log)
    {
      hide HC.NodesLinked, HC.HeadsLinked, HC.Ranked, Stored;
      ghost var t, ch := log.tree, chains;
      ChainedIn(t, ch, l);
      HC.UnlinkOk(chains, l);
      chains := HC.Unlink(chains, l);
      StoredSizes(nodes, log);
      StoredPrune(nodes, log, l);
      nodes := nodes.(parent := nodes.parent[l := 0], count := CountOff(nodes.count, nodes.parent[l]));
      log := Prune(log, l);
      ChainedBy(t, ch, log.tree, chains);
    }

    /** `DeleteNode`: the position that leaves the window when `a` comes, to `pos`, is taken out. */
    method DeleteNode(pos: nat, ghost a: nat, ghost lo: nat)
      requires LogOk(log, text, lo, a) && Chained(log.tree, chains) && Stored(nodes, log) && lo <= a <= lo + 8192
      requires Shows(a, pos)
      modifies this`log, this`nodes, this`chains
      ensures LogOk(log, text, if a == lo + 8192 then lo + 1 else lo, a) && Chained(log.tree, chains)
      ensures Stored(nodes, log) && LogSized(old(log)) && log == Delete(text, old(log), a)
    {
      hide Shaped, Updated, Branching, Within, Logged, Counted, Spare, Slot, Branches, Kids, Stored, Removed;
      OldestLeaf(log.tree, log.heir, text, lo, a);
      StoredSizes(nodes, log);
      if nodes.parent[pos] == 0 {
        if a == lo + 8192 {
          StaysOk(log, text, lo, a);
        }
        return;
      }
      PruneKeeps(log, text, lo, a);
      var u := nodes.parent[pos];
      RemoveLeaf(pos);
      StoredSizes(nodes, log);
      if u >= 8192 {
        LooseOk(log, text, u, lo, a);
        return;
      }
      if nodes.count[u] > 1 {
        TwoKids(log.tree, u);
        LooseOk(log, text, u, lo, a);
        return;
      }
      Collapse(u, pos, lo, a);
    }

    /** Before the search at `a`: all positions before it have been put in. */
    ghost predicate Before(a: nat)
      reads this
    {
      && Sized(log.tree) && LogOk(log, text, WindowStart(a), a) && Chained(log.tree, chains) && Stored(nodes, log)
      && Last(WindowStart(a + 1), a)
    }

    /** The search at `a`, which is at `pos`. */
    method Search(pos: nat, ghost a: nat)
      requires Before(a) && Shows(a, pos)
      modifies this`log, this`nodes, this`chains, this`matchLen, this`matchPos, this`matchAt
      ensures Before(a + 1) && matchLen <= 256
      ensures 2 <= matchLen ==>
        WindowStart(a + 1) <= matchAt < a && Agree(text, matchAt, a, matchLen) && matchPos == pos - (a - matchAt)
      ensures matchLen < 256 ==> NoneAgrees(text, WindowStart(a + 1), a, matchLen + 1)
      ensures var s := Scan(old(log), old(matchLen), old(matchAt));
        LogSized(s.log) && Scan(log, matchLen, matchAt) == SearchSteps.Search(text, s, a)
    {
      hide Grown, Logged, Counted, Spare, Chained, Agree, NoneAgrees, Stored, Slot, Upper, Delete, Insert;
      DeleteNode(pos, a, WindowStart(a));
      InsertNode(pos, a, WindowStart(a + 1));
      if 4 <= matchLen {
        UpperNext(pos, a, matchPos, matchAt);
      }
    }

    /** A match may be cut. */
    method CutTo(limit: nat, ghost a: nat)
      requires Before(a + 1)
      requires 2 <= matchLen ==> WindowStart(a + 1) <= matchAt < a && Agree(text, matchAt, a, matchLen)
      modifies this`matchLen
      ensures Before(a + 1) && matchLen == Min(old(matchLen), limit)
    {
      hide Grown, Logged, Counted, Spare, Chained, Agree, Stored, Slot, Upper;
      if matchLen > limit {
        if 2 <= matchLen {
          AgreeShort(text, matchAt, a, matchLen, limit);
        }
        matchLen := limit;
      }
    }
  }

  // ---- Chains ----

  lemma AllAhead(t: Tree, ch: HC.Chains, u: nat, c: Byte)
    requires Sized(t) && Chained(t, ch) && 0 < u < 8448
    ensures var v := ch.next[Hash(u, c)];
      v < 16384 && forall w: nat :: Wanted(t, u, c, w) ==> v != 0 && ch.rank[w] <= ch.rank[v]
  {
    hide HC.NodesLinked, HC.HeadsLinked, HC.Ranked;
    HC.LinkOf(ch, Hash(u, c));
    forall w: nat | Wanted(t, u, c, w)
      ensures ch.next[Hash(u, c)] != 0 && ch.rank[w] <= ch.rank[ch.next[Hash(u, c)]]
    {
      HC.HeadIsFirst(ch, w);
    }
  }

  lemma StillAhead(t: Tree, ch: HC.Chains, u: nat, c: Byte, v: nat)
    requires Sized(t) && Chained(t, ch) && HC.In(ch, v) && ch.head[v] == Hash(u, c) && t.parent[v] != u
    requires forall w: nat :: Wanted(t, u, c, w) ==> ch.rank[w] <= ch.rank[v]
    ensures ch.next[v] < 16384
    ensures forall w: nat :: Wanted(t, u, c, w) ==> ch.next[v] != 0 && ch.rank[w] <= ch.rank[ch.next[v]]
  {
    hide HC.NodesLinked, HC.HeadsLinked;
    HC.LinksOf(ch, v);
    forall w: nat | Wanted(t, u, c, w)
      ensures ch.next[v] != 0 && ch.rank[w] <= ch.rank[ch.next[v]]
    {
      HC.NothingBetween(ch, v, w);
    }
  }

  lemma ChainedFork(g: Log, text: Text, v: nat, k: nat, a: nat, ch: HC.Chains, ch': HC.Chains)
    requires LogSized(g) && Chained(g.tree, ch) && HC.Ok(ch') && g.avail != [] && Inner(g.avail[0]) && 0 < v < 16384
    requires g.tree.parent[v] != 0 && v != g.avail[0] && v != Slot(a)
    requires var n := g.avail[0];
      ch'.head == ch.head[n := ch.head[v]][v := Hash(n, text(g.tree.pos[v] + k))][Slot(a) := Hash(n, text(a + k))]
    ensures Chained(Fork(g, text, v, k, a).tree, ch')
  {
    hide HC.NodesLinked, HC.HeadsLinked, HC.Ranked, Hash, Slot;
    ChainedBy(g.tree, ch, Fork(g, text, v, k, a).tree, ch');
  }

  lemma ChainedGrow(g: Log, text: Text, u: nat, a: nat, ch: HC.Chains, ch': HC.Chains)
    requires LogSized(g) && Chained(g.tree, ch) && HC.Ok(ch') && 0 < u < 16384
    requires ch'.head == ch.head[Slot(a) := Hash(u, text(a + Level(g.tree, u)))]
    ensures Chained(Grow(g, text, u, a).tree, ch')
  {
    hide HC.NodesLinked, HC.HeadsLinked, HC.Ranked, Hash, Slot;
    ChainedBy(g.tree, ch, Grow(g, text, u, a).tree, ch');
  }

  // ---- Around the methods ----

  lemma AllOlder(t: Tree, text: Text, u: nat, lo: nat, a: nat)
    requires Grown(t, text, lo, a)
    ensures Untouched(t, u, a)
  {
  }

  lemma FoundOnly(t: Tree, u: nat, w: nat, v: nat)
    requires Sized(t) && OnlyChild(t, u, w)
    requires v == 0 ==> NoChild(t, u, t.edge[w])
    requires v != 0 ==> Live(t, v) && t.parent[v] == u
    ensures v == w
  {
  }

  lemma AllSpare(t: Tree, avail: seq<nat>)
    requires Sized(t) && (forall v: nat :: v < 16384 ==> t.parent[v] == 0) && |avail| == 8191
    requires forall i :: 0 <= i < 8191 ==> avail[i] == i + 1
    ensures Spare(t, avail)
  {
    forall n: nat | Inner(n) && !Live(t, n)
      ensures n in avail
    {
      assert avail[n - 1] == n;
    }
  }

  // ---- Matches of a source ----

  /** The text begins with the source. */
  ghost predicate Begins(text: Text, src: seq<Byte>) {
    forall i: nat :: i < |src| ==> text(i) == src[i]
  }

  /** Equal strings in the text are equal in the source as far as it goes. */
  lemma MatchIsReal(text: Text, src: seq<Byte>, at: nat, a: nat, n: nat)
    requires Begins(text, src) && at < a && Agree(text, at, a, n)
    ensures forall j :: a <= j < a + n && j < |src| ==> src[j - (a - at)] == src[j]
  {
    hide Agree;
    forall j | a <= j < a + n && j < |src|
      ensures src[j - (a - at)] == src[j]
    {
      AgreeAt(text, at, a, n, j - a);
    }
  }

  lemma WithinAt(t: Tree, lo: nat, hi: nat, v: nat)
    requires Sized(t) && Within(t, lo, hi) && Live(t, v)
    ensures lo <= t.pos[v] < hi
  {
  }

  /** A live leaf is the one of its position. */
  lemma LeafIs(g: Log, text: Text, lo: nat, a: nat, v: nat)
    requires Open(g, text, lo, a) && Leaf(v) && Live(g.tree, v)
    ensures v == Slot(g.tree.pos[v])
  {
  }

  lemma RemovedIs(text: Text, g: Log, u: nat, g': Log, v: nat)
    requires LogSized(g) && u < 16384 && g' == g.(tree := Tell(Raise(g.tree, u), u, g.tree.pos[u], 256))
    requires v == ChildOf(g'.tree, u, text(g.tree.pos[u] + g'.tree.level[u]))
    ensures Removed(text, g, u) == Merge(g', u, v)
  {
    hide Tell, ChildOf, Merge, Raise;
  }

  lemma UpperNext(pos: nat, a: nat, x: int, p: nat)
    requires pos == Slot(a) && x == pos - (a - p)
    ensures Upper(x + 1) == Slot(p + 1)
  {
  }
}
