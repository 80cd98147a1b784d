/** The doubly linked chains in which nodes are found by a hash value. */
module HashChains {
  /** Nodes are numbers from 1 to 16383, heads of chains from 16384 to 28911; 0 ends a chain. Every node in a chain
      knows its head and has a rank, which falls along the chain; ranks from `top` on are not in use. */
  datatype Chains = Chains(next: seq<nat>, prev: seq<nat>, head: seq<nat>, rank: seq<nat>, top: nat)

  predicate Sized(ch: Chains) {
    |ch.next| == 28912 && |ch.prev| == |ch.head| == |ch.rank| == 16384
  }

  predicate Head(b: nat) {
    16384 <= b < 28912
  }

  predicate In(ch: Chains, v: nat)
    requires Sized(ch)
  {
    0 < v < 16384 && ch.head[v] != 0
  }

  /** What is before a node: its head, or a node of the same chain with a higher rank. */
  predicate LinkedBack(ch: Chains, v: nat)
    requires Sized(ch) && In(ch, v)
  {
    var b, p := ch.head[v], ch.prev[v];
    Head(b) && ch.rank[v] < ch.top
    && (if p == b then ch.next[b] == v else In(ch, p) && ch.head[p] == b && ch.next[p] == v && ch.rank[v] < ch.rank[p])
  }

  /** What is behind a node or a head. */
  predicate LinkedOn(ch: Chains, p: nat)
    requires Sized(ch) && p < 28912
  {
    ch.next[p] == 0 || (In(ch, ch.next[p]) && ch.prev[ch.next[p]] == p)
  }

  ghost predicate NodesLinked(ch: Chains)
    requires Sized(ch)
  {
    forall v: nat :: In(ch, v) ==> LinkedBack(ch, v) && LinkedOn(ch, v)
  }

  ghost predicate HeadsLinked(ch: Chains)
    requires Sized(ch)
  {
    forall b: nat :: Head(b) ==> LinkedOn(ch, b)
  }

  ghost predicate Ranked(ch: Chains)
    requires Sized(ch)
  {
    forall v: nat, w: nat :: In(ch, v) && In(ch, w) && ch.rank[v] == ch.rank[w] ==> v == w
  }

  ghost predicate Ok(ch: Chains) {
    Sized(ch) && NodesLinked(ch) && HeadsLinked(ch) && Ranked(ch)
  }

  lemma LinksOf(ch: Chains, v: nat)
    requires Ok(ch) && In(ch, v)
    ensures LinkedBack(ch, v) && LinkedOn(ch, v)
    ensures ch.next[v] != 0 ==> LinkedBack(ch, ch.next[v])
    ensures ch.next[v] < 16384 && ch.prev[v] < 28912
  {
  }

  lemma LinkOf(ch: Chains, b: nat)
    requires Ok(ch) && Head(b)
    ensures LinkedOn(ch, b) && ch.next[b] < 16384 && (ch.next[b] != 0 ==> LinkedBack(ch, ch.next[b]))
  {
  }

  // ---- Searching ----

  lemma {:induction false} HeadIsFirst(ch: Chains, v: nat)
    requires Ok(ch) && In(ch, v)
    ensures Head(ch.head[v]) && In(ch, ch.next[ch.head[v]]) && ch.rank[v] <= ch.rank[ch.next[ch.head[v]]]
    decreases ch.top - ch.rank[v]
  {
    hide NodesLinked, HeadsLinked, Ranked;
    LinksOf(ch, v);
    if ch.prev[v] != ch.head[v] {
      LinksOf(ch, ch.prev[v]);
      HeadIsFirst(ch, ch.prev[v]);
    }
  }

  /** Behind `r` comes every node of its chain with a lower rank. */
  lemma {:induction false} NothingBetween(ch: Chains, r: nat, w: nat)
    requires Ok(ch) && In(ch, r) && In(ch, w) && ch.head[r] == ch.head[w] && ch.rank[w] < ch.rank[r]
    ensures In(ch, ch.next[r]) && ch.rank[w] <= ch.rank[ch.next[r]]
    decreases ch.top - ch.rank[w]
  {
    hide NodesLinked, HeadsLinked;
    LinksOf(ch, w);
    LinksOf(ch, r);
    var p := ch.prev[w];
    if p == ch.head[w] {
      HeadIsFirst(ch, r);
    } else if ch.rank[p] < ch.rank[r] {
      NothingBetween(ch, r, p);
    } else if p != r {
      NothingBetween(ch, p, r);
    }
  }

  // ---- Changes ----

  /** A node becomes the first of a chain. */
  function Push(ch: Chains, b: nat, v: nat): Chains
    requires Sized(ch) && Head(b) && v < 16384 && ch.next[b] < 16384
  {
    var n := ch.next[b];
    Chains(ch.next[b := v][v := n], ch.prev[n := v][v := b], ch.head[v := b], ch.rank[v := ch.top], ch.top + 1)
  }

  lemma PushLinks(ch: Chains, b: nat, v: nat, w: nat)
    requires Ok(ch) && Head(b) && 0 < v < 16384 && !In(ch, v) && ch.next[b] < 16384 && In(Push(ch, b, v), w)
    ensures LinkedBack(Push(ch, b, v), w) && LinkedOn(Push(ch, b, v), w)
  {
    hide NodesLinked, HeadsLinked, Ranked;
    LinkOf(ch, b);
    if w != v {
      LinksOf(ch, w);
    }
  }

  lemma PushOk(ch: Chains, b: nat, v: nat)
    requires Ok(ch) && Head(b) && 0 < v < 16384 && !In(ch, v)
    ensures ch.next[b] < 16384 && Ok(Push(ch, b, v))
  {
    hide LinkedBack, LinkedOn;
    LinkOf(ch, b);
    var ch' := Push(ch, b, v);
    forall w: nat | In(ch', w)
      ensures LinkedBack(ch', w) && LinkedOn(ch', w)
    {
      PushLinks(ch, b, v, w);
    }
    forall c: nat | Head(c)
      ensures LinkedOn(ch', c)
    {
      PushHead(ch, b, v, c);
    }
    forall x: nat, y: nat | In(ch', x) && In(ch', y) && ch'.rank[x] == ch'.rank[y]
      ensures x == y
    {
      RankBound(ch, v, x);
      RankBound(ch, v, y);
    }
  }

  lemma RankBound(ch: Chains, v: nat, x: nat)
    requires Ok(ch) && x < 16384
    ensures In(ch, x) ==> ch.rank[x] < ch.top
  {
    if In(ch, x) {
      LinksOf(ch, x);
    }
  }

  lemma PushHead(ch: Chains, b: nat, v: nat, c: nat)
    requires Ok(ch) && Head(b) && 0 < v < 16384 && !In(ch, v) && ch.next[b] < 16384 && Head(c)
    ensures LinkedOn(Push(ch, b, v), c)
  {
    hide NodesLinked, HeadsLinked, Ranked;
    LinkOf(ch, b);
    LinkOf(ch, c);
  }

  /** A node is taken out of its chain. */
  function Unlink(ch: Chains, v: nat): Chains
    requires Sized(ch) && v < 16384 && ch.prev[v] < 28912 && ch.next[v] < 16384
  {
    var p, n := ch.prev[v], ch.next[v];
    ch.(next := ch.next[p := n], prev := ch.prev[n := p], head := ch.head[v := 0])
  }

  lemma UnlinkLinks(ch: Chains, v: nat, w: nat)
    requires Ok(ch) && In(ch, v) && ch.prev[v] < 28912 && ch.next[v] < 16384 && In(Unlink(ch, v), w)
    ensures LinkedBack(Unlink(ch, v), w) && LinkedOn(Unlink(ch, v), w)
  {
    hide NodesLinked, HeadsLinked, Ranked;
    LinksOf(ch, v);
    LinksOf(ch, w);
  }

  lemma UnlinkHead(ch: Chains, v: nat, c: nat)
    requires Ok(ch) && In(ch, v) && ch.prev[v] < 28912 && ch.next[v] < 16384 && Head(c)
    ensures LinkedOn(Unlink(ch, v), c)
  {
    hide NodesLinked, HeadsLinked, Ranked;
    LinksOf(ch, v);
    LinkOf(ch, c);
  }

  lemma UnlinkOk(ch: Chains, v: nat)
    requires Ok(ch) && In(ch, v)
    ensures ch.prev[v] < 28912 && ch.next[v] < 16384 && Ok(Unlink(ch, v))
  {
    hide LinkedBack, LinkedOn;
    LinksOf(ch, v);
    var ch' := Unlink(ch, v);
    forall w: nat | In(ch', w)
      ensures LinkedBack(ch', w) && LinkedOn(ch', w)
    {
      UnlinkLinks(ch, v, w);
    }
    forall c: nat | Head(c)
      ensures LinkedOn(ch', c)
    {
      UnlinkHead(ch, v, c);
    }
  }

  /** A node takes the place of another. */
  function Swap(ch: Chains, v: nat, w: nat): Chains
    requires Sized(ch) && v < 16384 && w < 16384 && ch.prev[v] < 28912 && ch.next[v] < 16384
  {
    var p, n := ch.prev[v], ch.next[v];
    Chains(ch.next[p := w][w := n], ch.prev[w := p][n := w], ch.head[w := ch.head[v]][v := 0], ch.rank[w := ch.rank[v]],
           ch.top)
  }

  lemma SwapLinks(ch: Chains, v: nat, w: nat, x: nat)
    requires Ok(ch) && In(ch, v) && 0 < w < 16384 && !In(ch, w) && ch.prev[v] < 28912 && ch.next[v] < 16384
    requires In(Swap(ch, v, w), x)
    ensures LinkedBack(Swap(ch, v, w), x) && LinkedOn(Swap(ch, v, w), x)
  {
    hide NodesLinked, HeadsLinked, Ranked;
    LinksOf(ch, v);
    if x != w {
      LinksOf(ch, x);
    }
  }

  lemma SwapHead(ch: Chains, v: nat, w: nat, c: nat)
    requires Ok(ch) && In(ch, v) && 0 < w < 16384 && !In(ch, w) && ch.prev[v] < 28912 && ch.next[v] < 16384 && Head(c)
    ensures LinkedOn(Swap(ch, v, w), c)
  {
    hide NodesLinked, HeadsLinked, Ranked;
    LinksOf(ch, v);
    LinkOf(ch, c);
  }

  lemma SwapOk(ch: Chains, v: nat, w: nat)
    requires Ok(ch) && In(ch, v) && 0 < w < 16384 && !In(ch, w)
    ensures ch.prev[v] < 28912 && ch.next[v] < 16384 && Ok(Swap(ch, v, w))
  {
    hide LinkedBack, LinkedOn;
    LinksOf(ch, v);
    var ch' := Swap(ch, v, w);
    forall x: nat | In(ch', x)
      ensures LinkedBack(ch', x) && LinkedOn(ch', x)
    {
      SwapLinks(ch, v, w, x);
    }
    forall c: nat | Head(c)
      ensures LinkedOn(ch', c)
    {
      SwapHead(ch, v, w, c);
    }
  }
}
