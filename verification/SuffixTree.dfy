/** The tree of strings in the window: what every search and every deletion keeps. */
module SuffixTree {
  import opened Bits

  /** The text: the source and whatever follows it in the buffer. */
  type Text = nat -> Byte

  /** Nodes are numbers: 0 is none, those below 8192 are inner nodes, those from 8192 on are leaves. As a parent,
      8192 + c is the root of all strings that begin with c. `pos` is where the string of a node begins, `level` how
      long it is and `edge` the character by which the parent finds it. An inner node has a flag if it has been
      updated since it last updated its parent; `sent` is the position it updated the parent with. */
  datatype Tree = Tree(parent: seq<nat>, edge: seq<Byte>, level: seq<nat>, pos: seq<nat>, flag: seq<bool>,
                       sent: seq<nat>)

  predicate Sized(t: Tree) {
    |t.parent| == |t.edge| == |t.level| == |t.pos| == |t.flag| == |t.sent| == 16384
  }

  predicate Inner(v: nat) {
    0 < v < 8192
  }

  predicate Leaf(v: nat) {
    8192 <= v < 16384
  }

  predicate Root(u: nat) {
    8192 <= u < 8448
  }

  predicate Live(t: Tree, v: nat)
    requires Sized(t)
  {
    0 < v < 16384 && t.parent[v] != 0
  }

  function Level(t: Tree, u: nat): nat
    requires Sized(t)
  {
    if Inner(u) then t.level[u] else 1
  }

  // ---- Agreement of strings ----

  function Char(text: Text, p: nat, i: nat): Byte {
    text(p + i)
  }

  /** The strings of length `n` at `p` and at `q` are the same. */
  ghost predicate Agree(text: Text, p: nat, q: nat, n: nat) {
    forall i: nat :: i < n ==> Char(text, p, i) == Char(text, q, i)
  }

  lemma AgreeThrough(text: Text, p: nat, q: nat, r: nat, n: nat, k: nat)
    requires Agree(text, p, q, n) && Agree(text, q, r, k)
    ensures Agree(text, p, r, Min(n, k)) && Agree(text, q, p, n) && Agree(text, r, q, k)
  {
    forall i: nat | i < Min(n, k)
      ensures Char(text, p, i) == Char(text, r, i)
    {
      assert Char(text, p, i) == Char(text, q, i);
    }
  }

  lemma AgreeAt(text: Text, p: nat, q: nat, n: nat, k: nat)
    requires Agree(text, p, q, n) && k < n
    ensures text(p + k) == text(q + k) && Agree(text, p, q, k)
  {
    assert Char(text, p, k) == Char(text, q, k);
  }

  lemma AgreeMore(text: Text, p: nat, q: nat, n: nat)
    requires Agree(text, p, q, n) && text(p + n) == text(q + n)
    ensures Agree(text, p, q, n + 1)
  {
    forall i: nat | i < n + 1
      ensures Char(text, p, i) == Char(text, q, i)
    {
      if i == n {
        assert Char(text, p, n) == text(p + n) && Char(text, q, n) == text(q + n);
      }
    }
  }

  // ---- The shape of the tree ----

  /** The string of a parent: it begins the strings of all its children. */
  ghost predicate Spells(t: Tree, text: Text, u: nat, p: nat)
    requires Sized(t)
  {
    if Inner(u) then Agree(text, t.pos[u], p, t.level[u]) else text(p) == u - 8192
  }

  ghost predicate NodeOk(t: Tree, text: Text, v: nat)
    requires Sized(t) && Live(t, v)
  {
    var u := t.parent[v];
    && (Root(u) || (Inner(u) && Live(t, u)))
    && Level(t, u) < t.level[v] <= 256 && (t.level[v] == 256 <==> Leaf(v))
    && Spells(t, text, u, t.pos[v]) && t.edge[v] == text(t.pos[v] + Level(t, u))
  }

  ghost predicate NodesOk(t: Tree, text: Text)
    requires Sized(t)
  {
    forall v: nat :: Live(t, v) ==> NodeOk(t, text, v)
  }

  /** A parent has at most one child for a character. */
  ghost predicate Distinct(t: Tree)
    requires Sized(t)
  {
    forall v: nat, w: nat :: Live(t, v) && Live(t, w) && t.parent[v] == t.parent[w] && t.edge[v] == t.edge[w] ==> v == w
  }

  ghost predicate Shaped(t: Tree, text: Text) {
    Sized(t) && NodesOk(t, text) && Distinct(t)
  }

  /** Two different children of `u`. */
  predicate Siblings(t: Tree, u: nat, v: nat, w: nat)
    requires Sized(t)
  {
    Live(t, v) && Live(t, w) && t.parent[v] == t.parent[w] == u && v != w
  }

  /** A parent is at least as recent as what its children sent, and what it sent itself is at least as recent as what
      all its children but one sent. */
  ghost predicate UpToDate(t: Tree, u: nat)
    requires Sized(t) && Inner(u)
  {
    && t.sent[u] <= t.pos[u] && (!t.flag[u] ==> t.sent[u] == t.pos[u])
    && (forall v: nat :: Live(t, v) && t.parent[v] == u ==> t.sent[v] <= t.pos[u])
    && (forall v: nat, w: nat :: Siblings(t, u, v, w) ==> t.sent[v] <= t.sent[u] || t.sent[w] <= t.sent[u])
  }

  ghost predicate Updated(t: Tree)
    requires Sized(t)
  {
    && (forall u: nat :: Inner(u) && Live(t, u) ==> UpToDate(t, u))
    && LeavesSent(t)
  }

  ghost predicate LeavesSent(t: Tree)
    requires Sized(t)
  {
    forall v: nat :: Leaf(v) && Live(t, v) ==> t.sent[v] == t.pos[v]
  }

  ghost predicate Branches(t: Tree, u: nat)
    requires Sized(t)
  {
    exists v: nat, w: nat :: Siblings(t, u, v, w)
  }

  ghost predicate Branching(t: Tree)
    requires Sized(t)
  {
    forall u: nat :: Inner(u) && Live(t, u) ==> Branches(t, u)
  }

  /** Every node begins in the window. */
  ghost predicate Within(t: Tree, lo: nat, hi: nat)
    requires Sized(t)
  {
    forall v: nat :: Live(t, v) ==> lo <= t.sent[v] && lo <= t.pos[v] < hi
  }

  // ---- The window moves on ----

  ghost predicate BranchingBut(t: Tree, u: nat)
    requires Sized(t)
  {
    forall w: nat :: Inner(w) && Live(t, w) && w != u ==> Branches(t, w)
  }

  /** If all leaves are recent, so is every node: some child has sent no more than the node has. */
  lemma {:induction false} NodeRecent(t: Tree, text: Text, u: nat, lo: nat, v: nat)
    requires Shaped(t, text) && Updated(t) && BranchingBut(t, u) && Live(t, v)
    requires Inner(u) ==> Level(t, u) < t.level[v]
    requires forall l: nat :: Leaf(l) && Live(t, l) ==> lo <= t.pos[l]
    ensures lo <= t.sent[v] && lo <= t.pos[v]
    decreases 256 - t.level[v]
  {
    hide Spells;
    assert NodeOk(t, text, v);
    if Inner(v) {
      assert UpToDate(t, v) && Branches(t, v);
      var w: nat, x: nat :| Siblings(t, v, w, x);
      var k := if t.sent[w] <= t.sent[v] then w else x;
      assert NodeOk(t, text, k);
      NodeRecent(t, text, u, lo, k);
    }
  }

  lemma AllRecent(t: Tree, text: Text, lo: nat, hi: nat, lo': nat)
    requires Grown(t, text, lo, hi)
    requires forall l: nat :: Leaf(l) && Live(t, l) ==> lo' <= t.pos[l]
    ensures Grown(t, text, lo', hi)
  {
    forall v: nat | Live(t, v)
      ensures lo' <= t.sent[v] && lo' <= t.pos[v]
    {
      NodeRecent(t, text, 0, lo', v);
    }
  }

  // ---- Changes ----

  /** Everything about a node is set; it has told its parent where it begins. */
  function SetNode(t: Tree, v: nat, u: nat, c: Byte, level: nat, p: nat): Tree
    requires Sized(t) && v < 16384
  {
    Tree(t.parent[v := u], t.edge[v := c], t.level[v := level], t.pos[v := p], t.flag[v := false], t.sent[v := p])
  }

  /** A node gets another parent. */
  function Move(t: Tree, v: nat, u: nat, c: Byte): Tree
    requires Sized(t) && v < 16384
  {
    t.(parent := t.parent[v := u], edge := t.edge[v := c])
  }

  function Drop(t: Tree, v: nat): Tree
    requires Sized(t) && v < 16384
  {
    t.(parent := t.parent[v := 0])
  }

  /** A node begins elsewhere. */
  function Place(t: Tree, v: nat, p: nat, flag: bool, sent: nat): Tree
    requires Sized(t) && v < 16384
  {
    t.(pos := t.pos[v := p], flag := t.flag[v := flag], sent := t.sent[v := sent])
  }

  lemma PlaceSpells(t: Tree, text: Text, u: nat, p: nat, flag: bool, sent: nat, v: nat)
    requires Sized(t) && Inner(u) && Live(t, u) && Live(t, v) && NodeOk(t, text, v)
    requires Agree(text, t.pos[u], p, t.level[u])
    ensures NodeOk(Place(t, u, p, flag, sent), text, v)
  {
    hide Agree;
    var w := t.parent[v];
    if v == u {
      AgreeAt(text, t.pos[u], p, t.level[u], Level(t, w));
      AgreeAt(text, t.pos[u], p, t.level[u], 0);
      if Inner(w) {
        AgreeThrough(text, t.pos[w], t.pos[u], p, t.level[w], t.level[u]);
      }
    } else if w == u {
      AgreeBack(text, t.pos[u], p, t.level[u]);
      AgreeThrough(text, p, t.pos[u], t.pos[v], t.level[u], t.level[u]);
    }
  }

  /** An inner node may begin wherever its string occurs. */
  lemma PlaceShaped(t: Tree, text: Text, u: nat, p: nat, flag: bool, sent: nat)
    requires Shaped(t, text) && Inner(u) && Live(t, u) && Agree(text, t.pos[u], p, t.level[u])
    ensures Shaped(Place(t, u, p, flag, sent), text)
  {
    hide Agree, NodeOk;
    var t' := Place(t, u, p, flag, sent);
    forall v: nat | Live(t', v)
      ensures NodeOk(t', text, v)
    {
      PlaceSpells(t, text, u, p, flag, sent, v);
    }
  }

  lemma AgreeBack(text: Text, p: nat, q: nat, n: nat)
    requires Agree(text, p, q, n)
    ensures Agree(text, q, p, n)
  {
  }

  /** Without the first character. */
  lemma AgreeTail(text: Text, p: nat, q: nat, n: nat)
    requires Agree(text, p, q, n) && n > 0
    ensures Agree(text, p + 1, q + 1, n - 1)
  {
    var m, p', q' := n - 1, p + 1, q + 1;
    forall i: nat | i < m
      ensures Char(text, p', i) == Char(text, q', i)
    {
      assert Char(text, p, i + 1) == Char(text, q, i + 1);
    }
  }

  lemma AgreeSelf(text: Text, p: nat, n: nat)
    ensures Agree(text, p, p, n)
  {
  }

  // ---- Updates on the way up ----

  /** As `UpToDate`, but for what the child `k` has sent. */
  ghost predicate UpToDateBut(t: Tree, u: nat, k: nat)
    requires Sized(t) && Inner(u) && k < 16384
  {
    && t.sent[u] <= t.pos[u] && (!t.flag[u] ==> t.sent[u] == t.pos[u])
    && (forall v: nat :: Live(t, v) && t.parent[v] == u && v != k ==> t.sent[v] <= t.pos[u])
    && (t.parent[k] != u ==>
          forall v: nat, w: nat :: Siblings(t, u, v, w) ==> t.sent[v] <= t.sent[u] || t.sent[w] <= t.sent[u])
  }

  ghost predicate UpdatedBut(t: Tree, k: nat)
    requires Sized(t) && k < 16384
  {
    (forall u: nat :: Inner(u) && Live(t, u) ==> UpToDateBut(t, u, k)) && LeavesSent(t)
  }

  function Max(a: nat, b: nat): nat {
    if a < b then b else a
  }

  /** The parent of `k` learns of `x`: if it was flagged it passes the news on, otherwise it keeps it for the time
      being. */
  function Learn(t: Tree, u: nat, x: nat): Tree
    requires Sized(t) && Inner(u)
  {
    var y := Max(t.pos[u], x);
    if t.flag[u] then Place(t, u, y, false, y) else Place(t, u, y, true, t.sent[u])
  }

  lemma LearnUpdates(t: Tree, k: nat, x: nat)
    requires Sized(t) && Live(t, k) && Inner(t.parent[k]) && Live(t, t.parent[k]) && UpdatedBut(t, k) && t.sent[k] <= x
    ensures var u, t' := t.parent[k], Learn(t, t.parent[k], x);
      if t.flag[u] then UpdatedBut(t', u) else Updated(t')
  {
    var u, t' := t.parent[k], Learn(t, t.parent[k], x);
    assert UpToDateBut(t, u, k);
    forall w: nat | Inner(w) && Live(t', w)
      ensures if t.flag[u] then UpToDateBut(t', w, u) else UpToDate(t', w)
    {
      assert UpToDateBut(t, w, k);
    }
  }

  lemma LearnShaped(t: Tree, text: Text, u: nat, x: nat)
    requires Shaped(t, text) && Inner(u) && Live(t, u) && Agree(text, t.pos[u], x, t.level[u])
    ensures Shaped(Learn(t, u, x), text)
    ensures Spells(t, text, t.parent[u], x) && Spells(Learn(t, u, x), text, t.parent[u], Max(t.pos[u], x))
  {
    hide Agree, NodesOk, Distinct;
    var y := Max(t.pos[u], x);
    AgreeSelf(text, t.pos[u], t.level[u]);
    PlaceShaped(t, text, u, y, !t.flag[u], if t.flag[u] then y else t.sent[u]);
    PlaceShaped(t, text, u, x, false, x);
    NodeIs(Learn(t, u, x), text, u);
    NodeIs(Place(t, u, x, false, x), text, u);
    NodeIs(t, text, u);
  }

  lemma NodeIs(t: Tree, text: Text, v: nat)
    requires Shaped(t, text) && Live(t, v)
    ensures NodeOk(t, text, v)
  {
  }

  /** Only inner nodes above `k` have been told anything. */
  ghost predicate Told(t: Tree, t': Tree, k: nat)
    requires Sized(t) && Sized(t') && k < 16384
  {
    && t'.parent == t.parent && t'.edge == t.edge && t'.level == t.level
    && forall v: nat :: v < 16384 && (Inner(v) ==> t.level[k] <= t.level[v]) ==>
         t'.pos[v] == t.pos[v] && t'.sent[v] == t.sent[v] && t'.flag[v] == t.flag[v]
  }

  /** One step up. */
  lemma LearnKeeps(t: Tree, text: Text, k: nat, x: nat, lo: nat, hi: nat)
    requires Shaped(t, text) && Live(t, k) && Inner(t.parent[k]) && UpdatedBut(t, k) && t.sent[k] <= x
    requires Spells(t, text, t.parent[k], x) && Within(t, lo, hi) && lo <= x < hi
    ensures var u, t' := t.parent[k], Learn(t, t.parent[k], x);
      && Live(t, u) && Level(t, u) < t.level[k] && Told(t, t', k) && Shaped(t', text) && Within(t', lo, hi)
      && Spells(t', text, t.parent[u], t'.pos[u]) && x <= t'.pos[u]
      && (if t.flag[u] then UpdatedBut(t', u) && t'.sent[u] == t'.pos[u] else Updated(t'))
  {
    hide Agree, NodesOk, Distinct, UpdatedBut;
    NodeIs(t, text, k);
    NodeIs(t, text, t.parent[k]);
    LearnUpdates(t, k, x);
    LearnShaped(t, text, t.parent[k], x);
  }

  lemma LearnCalm(t: Tree, u: nat, x: nat)
    requires Sized(t) && Inner(u) && Live(t, u) && UpToDate(t, u) && t.parent[u] != u
    ensures Calm(Learn(t, u, x), u)
  {
  }

  lemma ButNothing(t: Tree, k: nat)
    requires Sized(t) && Live(t, k) && UpdatedBut(t, k) && Root(t.parent[k])
    ensures Updated(t)
  {
    forall u: nat | Inner(u) && Live(t, u)
      ensures UpToDate(t, u)
    {
      assert UpToDateBut(t, u, k);
    }
  }

  // ---- Insertion ----

  /** All children have sent no more than their parent has. */
  ghost predicate Calm(t: Tree, u: nat)
    requires Sized(t) && Inner(u)
  {
    forall v: nat :: Live(t, v) && t.parent[v] == u ==> t.sent[v] <= t.sent[u]
  }

  /** Below `u` a node that begins at `a` may be put in. */
  ghost predicate Ready(t: Tree, u: nat, a: nat)
    requires Sized(t)
  {
    Root(u) || (Inner(u) && Live(t, u) && t.pos[u] == a && Calm(t, u))
  }

  ghost predicate NoChild(t: Tree, u: nat, c: Byte)
    requires Sized(t)
  {
    forall v: nat :: Live(t, v) && t.parent[v] == u ==> t.edge[v] != c
  }

  /** What the tree is between two steps. */
  ghost predicate Grown(t: Tree, text: Text, lo: nat, hi: nat) {
    Shaped(t, text) && Updated(t) && Branching(t) && Within(t, lo, hi)
  }

  /** A leaf for the position `a` is put in below `u`. */
  function Attach(t: Tree, u: nat, c: Byte, l: nat, a: nat): Tree
    requires Sized(t) && l < 16384
  {
    SetNode(t, l, u, c, 256, a)
  }

  lemma AttachShaped(t: Tree, text: Text, u: nat, c: Byte, l: nat, a: nat)
    requires Shaped(t, text) && Leaf(l) && !Live(t, l) && (Root(u) || (Inner(u) && Live(t, u) && t.level[u] < 256))
    requires Spells(t, text, u, a) && c == text(a + Level(t, u)) && NoChild(t, u, c)
    ensures Shaped(Attach(t, u, c, l, a), text)
  {
    hide Agree;
    var t' := Attach(t, u, c, l, a);
    forall v: nat | Live(t', v)
      ensures NodeOk(t', text, v)
    {
      if v != l {
        assert NodeOk(t, text, v);
      }
    }
  }

  lemma AttachUpdated(t: Tree, u: nat, c: Byte, l: nat, a: nat)
    requires Sized(t) && Updated(t) && Leaf(l) && !Live(t, l) && Ready(t, u, a)
    ensures Updated(Attach(t, u, c, l, a))
  {
    var t' := Attach(t, u, c, l, a);
    forall w: nat | Inner(w) && Live(t', w)
      ensures UpToDate(t', w)
    {
      assert UpToDate(t, w);
    }
  }

  lemma AttachBranching(t: Tree, u: nat, c: Byte, l: nat, a: nat)
    requires Sized(t) && Branching(t) && Leaf(l) && !Live(t, l)
    ensures Branching(Attach(t, u, c, l, a))
  {
    var t' := Attach(t, u, c, l, a);
    forall w: nat | Inner(w) && Live(t', w)
      ensures Branches(t', w)
    {
      assert Branches(t, w);
      var x: nat, y: nat :| Siblings(t, w, x, y);
      assert Siblings(t', w, x, y);
    }
  }

  lemma AttachKeeps(t: Tree, text: Text, u: nat, c: Byte, l: nat, a: nat, lo: nat)
    requires Grown(t, text, lo, a + 1) && Leaf(l) && !Live(t, l) && Ready(t, u, a) && lo <= a
    requires Spells(t, text, u, a) && c == text(a + Level(t, u)) && NoChild(t, u, c)
    ensures Grown(Attach(t, u, c, l, a), text, lo, a + 1)
  {
    hide Spells, NoChild, Updated, Branching, Calm, Distinct;
    if Inner(u) {
      NodeIs(t, text, u);
    }
    AttachShaped(t, text, u, c, l, a);
    AttachUpdated(t, u, c, l, a);
    AttachBranching(t, u, c, l, a);
  }

  /** On the way down an inner node is told of `a`. */
  function Touch(t: Tree, v: nat, a: nat): Tree
    requires Sized(t) && v < 16384
  {
    Place(t, v, a, false, a)
  }

  lemma TouchKeeps(t: Tree, text: Text, v: nat, a: nat, lo: nat)
    requires Grown(t, text, lo, a + 1) && Inner(v) && Live(t, v) && Ready(t, t.parent[v], a) && lo <= a
    requires Agree(text, t.pos[v], a, t.level[v])
    ensures Grown(Touch(t, v, a), text, lo, a + 1) && Ready(Touch(t, v, a), v, a)
  {
    hide Agree, NodesOk, Distinct, Spells, Updated, Branching, Calm;
    NodeIs(t, text, v);
    PlaceShaped(t, text, v, a, false, a);
    PlaceBranching(t, v, a, false, a);
    TouchUpdated(t, v, a);
  }

  lemma PlaceBranching(t: Tree, v: nat, a: nat, flag: bool, sent: nat)
    requires Sized(t) && Branching(t) && v < 16384
    ensures Branching(Place(t, v, a, flag, sent))
  {
    var t' := Place(t, v, a, flag, sent);
    forall w: nat | Inner(w) && Live(t', w)
      ensures Branches(t', w)
    {
      assert Branches(t, w);
      var x: nat, y: nat :| Siblings(t, w, x, y);
      assert Siblings(t', w, x, y);
    }
  }

  lemma TouchUpdated(t: Tree, v: nat, a: nat)
    requires Sized(t) && Updated(t) && Inner(v) && Live(t, v) && Ready(t, t.parent[v], a) && t.pos[v] <= a
    requires t.parent[v] != v
    ensures Updated(Touch(t, v, a)) && Calm(Touch(t, v, a), v)
  {
    var t' := Touch(t, v, a);
    assert UpToDate(t, v);
    forall w: nat | Inner(w) && Live(t', w)
      ensures UpToDate(t', w)
    {
      assert UpToDate(t, w);
    }
  }

  /** The new inner node `n` for the first `k` characters of `v` and of the string at `a`. */
  function SplitAt(t: Tree, text: Text, v: nat, k: nat, n: nat, l: nat, a: nat): Tree
    requires Sized(t) && v < 16384 && n < 16384 && l < 16384
  {
    var t1 := SetNode(t, n, t.parent[v], t.edge[v], k, a);
    var t2 := Move(t1, v, n, text(t.pos[v] + k));
    SetNode(t2, l, n, text(a + k), 256, a)
  }

  /** The strings at `v` and at `a` agree in their first `k` characters and no further, below the parent of `v`. */
  ghost predicate Splits(t: Tree, text: Text, v: nat, k: nat, n: nat, l: nat, a: nat)
    requires Sized(t)
  {
    && Live(t, v) && Inner(n) && !Live(t, n) && Leaf(l) && !Live(t, l)
    && Level(t, t.parent[v]) < k < t.level[v] && Agree(text, t.pos[v], a, k) && text(t.pos[v] + k) != text(a + k)
  }

  lemma SplitNew(t: Tree, text: Text, v: nat, k: nat, n: nat, l: nat, a: nat)
    requires Shaped(t, text) && Splits(t, text, v, k, n, l, a)
    ensures NodeOk(SplitAt(t, text, v, k, n, l, a), text, n)
  {
    hide Agree, NodesOk, Distinct;
    var u := t.parent[v];
    NodeIs(t, text, v);
    AgreeAt(text, t.pos[v], a, k, Level(t, u));
    AgreeAt(text, t.pos[v], a, k, 0);
    if Inner(u) {
      AgreeThrough(text, t.pos[u], t.pos[v], a, t.level[u], k);
    }
  }

  lemma SplitOther(t: Tree, text: Text, v: nat, k: nat, n: nat, l: nat, a: nat, w: nat)
    requires Shaped(t, text) && Splits(t, text, v, k, n, l, a) && Live(SplitAt(t, text, v, k, n, l, a), w) && w != n
    ensures NodeOk(SplitAt(t, text, v, k, n, l, a), text, w)
  {
    hide Agree, NodesOk, Distinct;
    NodeIs(t, text, v);
    if w == v {
      AgreeBack(text, t.pos[v], a, k);
    } else if w == l {
      AgreeSelf(text, a, k);
    } else {
      NodeIs(t, text, w);
    }
  }

  lemma SplitDistinct(t: Tree, text: Text, v: nat, k: nat, n: nat, l: nat, a: nat)
    requires Shaped(t, text) && Splits(t, text, v, k, n, l, a)
    ensures Distinct(SplitAt(t, text, v, k, n, l, a))
  {
    hide Agree, Spells;
    var t' := SplitAt(t, text, v, k, n, l, a);
    forall x: nat, y: nat | Live(t', x) && Live(t', y) && t'.parent[x] == t'.parent[y] && t'.edge[x] == t'.edge[y]
      ensures x == y
    {
      OldParent(t, text, n);
    }
  }

  /** A node that is not in the tree has no children. */
  lemma OldParent(t: Tree, text: Text, n: nat)
    requires Shaped(t, text) && Inner(n) && !Live(t, n)
    ensures forall v: nat :: Live(t, v) ==> t.parent[v] != n
  {
    hide Spells;
    forall v: nat | Live(t, v)
      ensures t.parent[v] != n
    {
      NodeIs(t, text, v);
    }
  }

  lemma SplitUpdated(t: Tree, text: Text, v: nat, k: nat, n: nat, l: nat, a: nat)
    requires Shaped(t, text) && Updated(t) && Splits(t, text, v, k, n, l, a) && Ready(t, t.parent[v], a)
    requires t.sent[v] <= a
    ensures Updated(SplitAt(t, text, v, k, n, l, a))
  {
    hide Agree, NodesOk, Distinct;
    var t' := SplitAt(t, text, v, k, n, l, a);
    OldParent(t, text, n);
    forall w: nat | Inner(w) && Live(t', w)
      ensures UpToDate(t', w)
    {
      if w != n {
        assert UpToDate(t, w);
      }
    }
  }

  lemma SplitBranching(t: Tree, text: Text, v: nat, k: nat, n: nat, l: nat, a: nat)
    requires Shaped(t, text) && Branching(t) && Splits(t, text, v, k, n, l, a)
    ensures Branching(SplitAt(t, text, v, k, n, l, a))
  {
    hide Agree, NodesOk, Distinct;
    var t' := SplitAt(t, text, v, k, n, l, a);
    OldParent(t, text, n);
    forall w: nat | Inner(w) && Live(t', w)
      ensures Branches(t', w)
    {
      if w == n {
        assert Siblings(t', n, v, l);
      } else {
        assert Branches(t, w);
        var x: nat, y: nat :| Siblings(t, w, x, y);
        assert Siblings(t', w, if x == v then n else x, if y == v then n else y);
      }
    }
  }

  lemma SplitShaped(t: Tree, text: Text, v: nat, k: nat, n: nat, l: nat, a: nat)
    requires Shaped(t, text) && Splits(t, text, v, k, n, l, a)
    ensures Shaped(SplitAt(t, text, v, k, n, l, a), text)
  {
    hide Agree, NodeOk, Distinct;
    var t' := SplitAt(t, text, v, k, n, l, a);
    forall w: nat | Live(t', w)
      ensures NodeOk(t', text, w)
    {
      if w == n {
        SplitNew(t, text, v, k, n, l, a);
      } else {
        SplitOther(t, text, v, k, n, l, a, w);
      }
    }
    SplitDistinct(t, text, v, k, n, l, a);
  }

  lemma SplitKeeps(t: Tree, text: Text, v: nat, k: nat, n: nat, l: nat, a: nat, lo: nat)
    requires Grown(t, text, lo, a + 1) && Splits(t, text, v, k, n, l, a) && Ready(t, t.parent[v], a) && lo <= a
    ensures Grown(SplitAt(t, text, v, k, n, l, a), text, lo, a + 1)
  {
    hide Updated, Branching, Agree, Calm, NodesOk, Distinct;
    SentPlaced(t, text, v);
    SplitShaped(t, text, v, k, n, l, a);
    SplitUpdated(t, text, v, k, n, l, a);
    SplitBranching(t, text, v, k, n, l, a);
  }

  lemma SentPlaced(t: Tree, text: Text, v: nat)
    requires Shaped(t, text) && Updated(t) && Live(t, v)
    ensures t.sent[v] <= t.pos[v]
  {
    if Inner(v) {
      assert UpToDate(t, v);
    }
  }

  /** The leaf for `a` takes the place of a leaf with the same 256 characters. */
  function Supersede(t: Tree, v: nat, l: nat, a: nat): Tree
    requires Sized(t) && v < 16384 && l < 16384
  {
    Drop(SetNode(t, l, t.parent[v], t.edge[v], 256, a), v)
  }

  lemma SupersedeNode(t: Tree, text: Text, v: nat, l: nat, a: nat)
    requires Shaped(t, text) && Leaf(v) && Live(t, v) && Leaf(l) && !Live(t, l) && Agree(text, t.pos[v], a, 256)
    ensures NodeOk(Supersede(t, v, l, a), text, l)
  {
    hide Agree, NodesOk, Distinct;
    var u := t.parent[v];
    NodeIs(t, text, v);
    AgreeAt(text, t.pos[v], a, 256, Level(t, u));
    AgreeAt(text, t.pos[v], a, 256, 0);
    if Inner(u) {
      AgreeThrough(text, t.pos[u], t.pos[v], a, t.level[u], 256);
    }
  }

  lemma SupersedeShaped(t: Tree, text: Text, v: nat, l: nat, a: nat)
    requires Shaped(t, text) && Leaf(v) && Live(t, v) && Leaf(l) && !Live(t, l) && Agree(text, t.pos[v], a, 256)
    ensures Shaped(Supersede(t, v, l, a), text)
  {
    hide Agree;
    var t' := Supersede(t, v, l, a);
    SupersedeNode(t, text, v, l, a);
    forall w: nat | Live(t', w)
      ensures NodeOk(t', text, w)
    {
      if w != l {
        NodeIs(t, text, w);
      }
    }
  }

  lemma SupersedeUpdated(t: Tree, v: nat, l: nat, a: nat)
    requires Sized(t) && Updated(t) && Leaf(v) && Live(t, v) && Leaf(l) && !Live(t, l) && Ready(t, t.parent[v], a)
    ensures Updated(Supersede(t, v, l, a))
  {
    var t' := Supersede(t, v, l, a);
    forall w: nat | Inner(w) && Live(t', w)
      ensures UpToDate(t', w)
    {
      assert UpToDate(t, w);
    }
  }

  lemma SupersedeBranching(t: Tree, v: nat, l: nat, a: nat)
    requires Sized(t) && Branching(t) && Leaf(v) && Live(t, v) && Leaf(l) && !Live(t, l)
    ensures Branching(Supersede(t, v, l, a))
  {
    var t' := Supersede(t, v, l, a);
    forall w: nat | Inner(w) && Live(t', w)
      ensures Branches(t', w)
    {
      assert Branches(t, w);
      var x: nat, y: nat :| Siblings(t, w, x, y);
      assert Siblings(t', w, if x == v then l else x, if y == v then l else y);
    }
  }

  lemma SupersedeKeeps(t: Tree, text: Text, v: nat, l: nat, a: nat, lo: nat)
    requires Grown(t, text, lo, a + 1) && Leaf(v) && Live(t, v) && Leaf(l) && !Live(t, l)
    requires Agree(text, t.pos[v], a, 256)
    requires Ready(t, t.parent[v], a) && lo <= a
    ensures Grown(Supersede(t, v, l, a), text, lo, a + 1)
  {
    hide Agree, NodesOk, Distinct, Updated, Branching, Calm;
    SupersedeShaped(t, text, v, l, a);
    SupersedeUpdated(t, v, l, a);
    SupersedeBranching(t, v, l, a);
  }

  // ---- Deletion ----

  lemma DropShaped(t: Tree, text: Text, l: nat)
    requires Shaped(t, text) && Leaf(l) && Live(t, l)
    ensures Shaped(Drop(t, l), text)
  {
    hide Agree;
    var t' := Drop(t, l);
    forall w: nat | Live(t', w)
      ensures NodeOk(t', text, w)
    {
      NodeIs(t, text, w);
    }
  }

  lemma DropUpdated(t: Tree, l: nat)
    requires Sized(t) && Updated(t) && Leaf(l) && Live(t, l)
    ensures Updated(Drop(t, l))
  {
    var t' := Drop(t, l);
    forall w: nat | Inner(w) && Live(t', w)
      ensures UpToDate(t', w)
    {
      assert UpToDate(t, w);
    }
  }

  lemma DropBranching(t: Tree, l: nat)
    requires Sized(t) && Branching(t) && Leaf(l) && Live(t, l)
    ensures BranchingBut(Drop(t, l), t.parent[l])
  {
    var t', u := Drop(t, l), t.parent[l];
    forall w: nat | Inner(w) && Live(t', w) && w != u
      ensures Branches(t', w)
    {
      assert Branches(t, w);
      var x: nat, y: nat :| Siblings(t, w, x, y);
      assert Siblings(t', w, x, y);
    }
  }

  /** The only child of a node takes its place. */
  function Splice(t: Tree, u: nat, w: nat): Tree
    requires Sized(t) && u < 16384 && w < 16384
  {
    Drop(Move(t, w, t.parent[u], t.edge[u]), u)
  }

  ghost predicate OnlyChild(t: Tree, u: nat, w: nat)
    requires Sized(t)
  {
    && Inner(u) && Live(t, u) && Live(t, w) && t.parent[w] == u
    && forall v: nat :: Live(t, v) && t.parent[v] == u ==> v == w
  }

  lemma SpliceNode(t: Tree, text: Text, u: nat, w: nat)
    requires Shaped(t, text) && OnlyChild(t, u, w)
    ensures NodeOk(Splice(t, u, w), text, w)
  {
    hide Agree, NodesOk, Distinct;
    var p := t.parent[u];
    NodeIs(t, text, u);
    NodeIs(t, text, w);
    AgreeAt(text, t.pos[u], t.pos[w], t.level[u], Level(t, p));
    AgreeAt(text, t.pos[u], t.pos[w], t.level[u], 0);
    if Inner(p) {
      AgreeThrough(text, t.pos[p], t.pos[u], t.pos[w], t.level[p], t.level[u]);
    }
  }

  lemma SpliceOther(t: Tree, text: Text, u: nat, w: nat, v: nat)
    requires Shaped(t, text) && OnlyChild(t, u, w) && Live(Splice(t, u, w), v) && v != w
    ensures NodeOk(Splice(t, u, w), text, v)
  {
    hide Agree, NodesOk, Distinct;
    NodeIs(t, text, v);
    NodeIs(t, text, u);
  }

  lemma SpliceShaped(t: Tree, text: Text, u: nat, w: nat)
    requires Shaped(t, text) && OnlyChild(t, u, w)
    ensures Shaped(Splice(t, u, w), text)
  {
    hide Agree, NodeOk;
    var t' := Splice(t, u, w);
    SpliceNode(t, text, u, w);
    forall v: nat | Live(t', v)
      ensures NodeOk(t', text, v)
    {
      if v != w {
        SpliceOther(t, text, u, w, v);
      }
    }
  }

  lemma SpliceUpToDate(t: Tree, u: nat, w: nat, v: nat)
    requires Sized(t) && OnlyChild(t, u, w) && t.sent[w] <= t.sent[u] && u != w && t.parent[u] != u
    requires Inner(v) && Live(Splice(t, u, w), v) && UpToDate(t, v)
    ensures UpToDate(Splice(t, u, w), v)
  {
    var t' := Splice(t, u, w);
    forall x: nat, y: nat | Siblings(t', v, x, y)
      ensures t'.sent[x] <= t'.sent[v] || t'.sent[y] <= t'.sent[v]
    {
      var x', y' := if x == w then u else x, if y == w then u else y;
      if v == t.parent[u] {
        assert Siblings(t, v, x', y');
      } else {
        assert Siblings(t, v, x, y);
      }
    }
  }

  lemma SpliceUpdated(t: Tree, text: Text, u: nat, w: nat)
    requires Shaped(t, text) && Updated(t) && OnlyChild(t, u, w) && t.sent[w] <= t.sent[u]
    ensures Updated(Splice(t, u, w))
  {
    hide Agree, NodesOk, Distinct, UpToDate;
    var t' := Splice(t, u, w);
    NodeIs(t, text, u);
    NodeIs(t, text, w);
    forall v: nat | Inner(v) && Live(t', v)
      ensures UpToDate(t', v)
    {
      SpliceUpToDate(t, u, w, v);
    }
  }

  lemma SpliceBranching(t: Tree, text: Text, u: nat, w: nat)
    requires Shaped(t, text) && BranchingBut(t, u) && OnlyChild(t, u, w)
    ensures Branching(Splice(t, u, w))
  {
    hide Agree, NodesOk, Distinct;
    var t' := Splice(t, u, w);
    forall v: nat | Inner(v) && Live(t', v)
      ensures Branches(t', v)
    {
      assert Branches(t, v);
      var x: nat, y: nat :| Siblings(t, v, x, y);
      assert Siblings(t', v, if x == u then w else x, if y == u then w else y);
    }
  }

  // ---- Where a string is in the tree ----

  /** `y` is the node `v` or below it. */
  ghost predicate Below(t: Tree, y: nat, v: nat)
    requires Sized(t) && y < 16384
    decreases t.level[y]
  {
    y == v || (Inner(t.parent[y]) && t.level[t.parent[y]] < t.level[y] && Below(t, t.parent[y], v))
  }

  /** The child of `v` on the way to `y`. */
  lemma {:induction false} ChildTowards(t: Tree, text: Text, y: nat, v: nat) returns (c: nat)
    requires Shaped(t, text) && Live(t, y) && Inner(v) && y != v && Below(t, y, v)
    ensures Live(t, c) && t.parent[c] == v && Below(t, y, c) && Agree(text, t.pos[c], t.pos[y], t.level[c])
    decreases t.level[y]
  {
    hide Agree, NodesOk, Distinct;
    NodeIs(t, text, y);
    var u := t.parent[y];
    if u == v {
      c := y;
      AgreeSelf(text, t.pos[y], t.level[y]);
    } else {
      c := ChildTowards(t, text, u, v);
      BelowLevel(t, u, c);
      AgreeThrough(text, t.pos[c], t.pos[u], t.pos[y], t.level[c], t.level[u]);
    }
  }

  lemma {:induction false} BelowLevel(t: Tree, y: nat, v: nat)
    requires Sized(t) && y < 16384 && v < 16384 && Below(t, y, v)
    ensures t.level[v] <= t.level[y]
    decreases t.level[y]
  {
    if y != v {
      BelowLevel(t, t.parent[y], v);
    }
  }

  /** The child of a root on the way to `y`. */
  lemma {:induction false} TopOf(t: Tree, text: Text, y: nat) returns (c: nat)
    requires Shaped(t, text) && Live(t, y)
    ensures Live(t, c) && Root(t.parent[c]) && Below(t, y, c) && Agree(text, t.pos[c], t.pos[y], t.level[c])
    decreases t.level[y]
  {
    hide Agree, NodesOk, Distinct;
    NodeIs(t, text, y);
    var u := t.parent[y];
    if Root(u) {
      c := y;
      AgreeSelf(text, t.pos[y], t.level[y]);
    } else {
      c := TopOf(t, text, u);
      BelowLevel(t, u, c);
      AgreeThrough(text, t.pos[c], t.pos[u], t.pos[y], t.level[c], t.level[u]);
    }
  }

  /** A leaf whose string leads past the parent of a node to the node is below the node. */
  lemma {:induction false} FindsWay(t: Tree, text: Text, y: nat, v: nat)
    requires Shaped(t, text) && Live(t, y) && Leaf(y) && Live(t, v)
    requires Agree(text, t.pos[v], t.pos[y], Level(t, t.parent[v]) + 1)
    ensures Below(t, y, v)
    decreases t.level[v]
  {
    hide Agree, NodesOk;
    NodeIs(t, text, v);
    var u, k := t.parent[v], Level(t, t.parent[v]);
    AgreeAt(text, t.pos[v], t.pos[y], k + 1, k);
    AgreeAt(text, t.pos[v], t.pos[y], k + 1, 0);
    var c;
    if Inner(u) {
      NodeIs(t, text, u);
      AgreeThrough(text, t.pos[u], t.pos[v], t.pos[y], k, k + 1);
      AgreeShort(text, t.pos[u], t.pos[y], k, Level(t, t.parent[u]) + 1);
      FindsWay(t, text, y, u);
      c := ChildTowards(t, text, y, u);
    } else {
      c := TopOf(t, text, y);
    }
    NodeIs(t, text, c);
    AgreeAt(text, t.pos[c], t.pos[y], t.level[c], 0);
    assert t.parent[c] == u;
    AgreeAt(text, t.pos[c], t.pos[y], t.level[c], k);
  }

  /** What is below a node begins like it. */
  lemma {:induction false} BelowAgrees(t: Tree, text: Text, y: nat, v: nat)
    requires Shaped(t, text) && Live(t, y) && 0 < v < 16384 && Below(t, y, v)
    ensures Agree(text, t.pos[v], t.pos[y], t.level[v])
    decreases t.level[y]
  {
    hide Agree, NodesOk, Distinct;
    NodeIs(t, text, y);
    if y == v {
      AgreeSelf(text, t.pos[y], t.level[y]);
    } else {
      var u := t.parent[y];
      BelowAgrees(t, text, u, v);
      BelowLevel(t, u, v);
      AgreeThrough(text, t.pos[v], t.pos[u], t.pos[y], t.level[v], t.level[u]);
    }
  }

  /** The only child of a node is found by the character behind the string of any leaf that begins like the node. */
  lemma OnlyChildEdge(t: Tree, text: Text, u: nat, w: nat, y: nat)
    requires Shaped(t, text) && OnlyChild(t, u, w) && Leaf(y) && Live(t, y)
    requires Agree(text, t.pos[u], t.pos[y], t.level[u])
    ensures t.edge[w] == text(t.pos[y] + t.level[u])
  {
    hide Agree, NodesOk, Distinct;
    NodeIs(t, text, u);
    AgreeShort(text, t.pos[u], t.pos[y], t.level[u], Level(t, t.parent[u]) + 1);
    FindsWay(t, text, y, u);
    var c := ChildTowards(t, text, y, u);
    NodeIs(t, text, c);
    AgreeAt(text, t.pos[c], t.pos[y], t.level[c], t.level[u]);
  }

  /** Below the level of `u` no node begins at `a` yet. */
  ghost predicate Untouched(t: Tree, u: nat, a: nat)
    requires Sized(t)
  {
    forall w: nat :: Live(t, w) && Level(t, u) < t.level[w] ==> t.pos[w] < a
  }

  lemma CalmTold(t: Tree, t': Tree, text: Text, u: nat, a: nat)
    requires Shaped(t, text) && Sized(t') && Inner(u) && Live(t, u) && Told(t, t', u)
    requires Calm(t, u) && t.pos[u] == a && Untouched(t, u, a)
    ensures Ready(t', u, a) && Untouched(t', u, a)
  {
    hide Spells, NodesOk, Distinct;
    forall v: nat | Live(t', v) && t'.parent[v] == u
      ensures t'.sent[v] <= t'.sent[u]
    {
      NodeIs(t, text, v);
    }
  }

  lemma UpdatedIs(t: Tree, u: nat)
    requires Sized(t) && Updated(t) && Inner(u) && Live(t, u)
    ensures UpToDate(t, u)
  {
  }

  lemma UpdatedIsBut(t: Tree, k: nat)
    requires Sized(t) && Updated(t) && k < 16384
    ensures UpdatedBut(t, k)
  {
    forall u: nat | Inner(u) && Live(t, u)
      ensures UpToDateBut(t, u, k)
    {
      assert UpToDate(t, u);
    }
  }

  /** The parent of `v` learns of `a`, which is newer than anything in the tree. */
  lemma LearnNewest(t: Tree, text: Text, v: nat, lo: nat, a: nat)
    requires Grown(t, text, lo, a) && lo <= a && Live(t, v) && Inner(t.parent[v]) && Spells(t, text, t.parent[v], a)
    ensures var u, t' := t.parent[v], Learn(t, t.parent[v], a);
      && Live(t, u) && Told(t, t', v) && Shaped(t', text) && Within(t', lo, a + 1) && Calm(t', u) && t'.pos[u] == a
      && Untouched(t', u, a)
      && Spells(t', text, t'.parent[u], a) && (if t.flag[u] then UpdatedBut(t', u) && t'.sent[u] == a else Updated(t'))
  {
    hide Agree, NodesOk, Distinct, Spells, Branching;
    var u := t.parent[v];
    NodeIs(t, text, v);
    NodeIs(t, text, u);
    SentPlaced(t, text, v);
    UpdatedIsBut(t, v);
    WithinMore(t, lo, a);
    LearnKeeps(t, text, v, a, lo, a + 1);
    LearnCalm(t, u, a);
  }

  lemma WithinMore(t: Tree, lo: nat, a: nat)
    requires Sized(t) && Within(t, lo, a)
    ensures Within(t, lo, a + 1)
  {
  }

  lemma ToldBranching(t: Tree, t': Tree)
    requires Sized(t) && Sized(t') && t'.parent == t.parent
    ensures Branching(t) ==> Branching(t')
    ensures forall u: nat :: BranchingBut(t, u) ==> BranchingBut(t', u)
  {
    forall u: nat | Inner(u) && Live(t, u) && Branches(t, u)
      ensures Branches(t', u)
    {
      var x: nat, y: nat :| Siblings(t, u, x, y);
      assert Siblings(t', u, x, y);
    }
  }

  /** A child that is found by its character agrees in one character more. */
  lemma ChildAgrees(t: Tree, text: Text, v: nat, a: nat)
    requires Shaped(t, text) && Live(t, v) && Spells(t, text, t.parent[v], a)
    requires t.edge[v] == text(a + Level(t, t.parent[v]))
    ensures Agree(text, t.pos[v], a, Level(t, t.parent[v]) + 1)
  {
    hide NodesOk, Distinct, Agree;
    NodeIs(t, text, v);
    var u := t.parent[v];
    if Inner(u) {
      AgreeBack(text, t.pos[u], t.pos[v], t.level[u]);
      AgreeThrough(text, t.pos[v], t.pos[u], a, t.level[u], t.level[u]);
    } else {
      AgreeNone(text, t.pos[v], a);
      AgreeMore(text, t.pos[v], a, 0);
    }
    AgreeMore(text, t.pos[v], a, Level(t, u));
  }

  lemma AgreeShort(text: Text, p: nat, q: nat, n: nat, k: nat)
    requires Agree(text, p, q, n) && k <= n
    ensures Agree(text, p, q, k)
  {
  }

  lemma AgreeNone(text: Text, p: nat, q: nat)
    ensures Agree(text, p, q, 0)
  {
  }

  /** What agrees with a node agrees with its parent. */
  lemma ParentSpells(t: Tree, text: Text, v: nat, a: nat, n: nat)
    requires Shaped(t, text) && Live(t, v) && Agree(text, t.pos[v], a, n) && Level(t, t.parent[v]) <= n && 0 < n
    ensures Spells(t, text, t.parent[v], a)
  {
    hide NodesOk, Distinct, Agree;
    NodeIs(t, text, v);
    var u := t.parent[v];
    if Inner(u) {
      AgreeThrough(text, t.pos[u], t.pos[v], a, t.level[u], n);
    } else {
      AgreeAt(text, t.pos[v], a, n, 0);
    }
  }

  /** A node is taken to have told its parent of its beginning. */
  function Raise(t: Tree, u: nat): Tree
    requires Sized(t) && u < 16384
  {
    Place(t, u, t.pos[u], t.flag[u], t.pos[u])
  }

  lemma RaiseKeeps(t: Tree, text: Text, u: nat, lo: nat, hi: nat)
    requires Shaped(t, text) && Updated(t) && Within(t, lo, hi) && Inner(u) && Live(t, u)
    ensures var t' := Raise(t, u);
      Shaped(t', text) && UpdatedBut(t', u) && Within(t', lo, hi) && Spells(t', text, t'.parent[u], t'.pos[u])
  {
    hide Agree, NodesOk, Distinct;
    AgreeSelf(text, t.pos[u], t.level[u]);
    PlaceShaped(t, text, u, t.pos[u], t.flag[u], t.pos[u]);
    NodeIs(Raise(t, u), text, u);
    RaiseUpdated(t, text, u);
  }

  lemma RaiseUpdated(t: Tree, text: Text, u: nat)
    requires Shaped(t, text) && Updated(t) && Inner(u) && Live(t, u)
    ensures UpdatedBut(Raise(t, u), u)
  {
    hide Spells, NodesOk, Distinct;
    var t' := Raise(t, u);
    NodeIs(t, text, u);
    assert UpToDate(t, u);
    forall w: nat | Inner(w) && Live(t', w)
      ensures UpToDateBut(t', w, u)
    {
      assert UpToDate(t, w);
    }
  }

  // ---- The longest match ----

  /** A leaf that agrees with `a` further than to the level `k`, where `a` parts from the node `v`, does not exist. */
  lemma NotBelowFork(t: Tree, text: Text, y: nat, v: nat, k: nat, a: nat)
    requires Shaped(t, text) && Live(t, y) && Leaf(y) && Live(t, v) && Level(t, t.parent[v]) < k < t.level[v]
    requires Agree(text, t.pos[v], a, k) && text(t.pos[v] + k) != text(a + k)
    ensures !Agree(text, t.pos[y], a, k + 1)
  {
    hide Agree, NodesOk, Distinct;
    if Agree(text, t.pos[y], a, k + 1) {
      AgreeBack(text, t.pos[y], a, k + 1);
      AgreeThrough(text, t.pos[v], a, t.pos[y], k, k + 1);
      AgreeShort(text, t.pos[v], t.pos[y], k, Level(t, t.parent[v]) + 1);
      FindsWay(t, text, y, v);
      BelowAgrees(t, text, y, v);
      AgreeAt(text, t.pos[v], t.pos[y], t.level[v], k);
      AgreeAt(text, t.pos[y], a, k + 1, k);
      assert false;
    }
  }

  /** Nor one that agrees with `a` further than a node that has no child for the next character. */
  lemma NotBelowEnd(t: Tree, text: Text, y: nat, u: nat, a: nat)
    requires Shaped(t, text) && Live(t, y) && Leaf(y) && (Root(u) || (Inner(u) && Live(t, u)))
    requires Spells(t, text, u, a) && NoChild(t, u, text(a + Level(t, u)))
    ensures !Agree(text, t.pos[y], a, Level(t, u) + 1)
  {
    hide Agree, NodesOk, Distinct;
    var k := Level(t, u);
    if Agree(text, t.pos[y], a, k + 1) {
      AgreeAt(text, t.pos[y], a, k + 1, k);
      AgreeAt(text, t.pos[y], a, k + 1, 0);
      var c;
      if Inner(u) {
        NodeIs(t, text, u);
        AgreeBack(text, t.pos[y], a, k + 1);
        AgreeThrough(text, t.pos[u], a, t.pos[y], k, k + 1);
        AgreeShort(text, t.pos[u], t.pos[y], k, Level(t, t.parent[u]) + 1);
        FindsWay(t, text, y, u);
        c := ChildTowards(t, text, y, u);
      } else {
        c := TopOf(t, text, y);
      }
      NodeIs(t, text, c);
      AgreeAt(text, t.pos[c], t.pos[y], t.level[c], 0);
      AgreeAt(text, t.pos[c], t.pos[y], t.level[c], k);
      assert false;
    }
  }
}
