/** The exchange argument behind Huffman's construction: whatever lengths the nodes have, the two rarest can be made
    siblings at no cost. */
module Exchange {
  import opened Bits
  import opened HuffmanTree

  // ---- Sums over collections without repetition ----

  ghost predicate Once(m: multiset<nat>) {
    forall x :: x in m ==> m[x] == 1
  }

  lemma SumOne(m: multiset<nat>, w: seq<nat>, k: nat)
    requires Once(m) && k < |w|
    ensures Times(m[k], w[k]) == if k in m then w[k] else 0
  {
    assert m[k] == if k in m then 1 else 0;
    assert Times(1, w[k]) == w[k];
  }

  lemma {:induction false} SumUpdate(m: multiset<nat>, w: seq<nat>, i: nat, v: nat)
    requires Once(m) && i in m && i < |w|
    ensures Sum(m, w[i := v]) + w[i] == Sum(m, w) + v
  {
    var k := |w| - 1;
    SumOne(m, w, k);
    SumOne(m, w[i := v], k);
    if i < k {
      SumUpdate(m, w[..k], i, v);
      assert w[i := v][..k] == w[..k][i := v];
    } else {
      assert w[i := v][..k] == w[..k];
    }
  }

  lemma {:induction false} SumEven(m: multiset<nat>, w: seq<nat>)
    requires Once(m) && forall x :: 0 <= x < |w| && x in m ==> w[x] % 2 == 0
    ensures Sum(m, w) % 2 == 0
  {
    if w != [] {
      SumOne(m, w, |w| - 1);
      SumEven(m, w[..|w| - 1]);
    }
  }

  lemma {:induction false} SumDouble(m: multiset<nat>, w: seq<nat>, z: seq<nat>)
    requires Once(m) && |w| == |z| && forall x :: 0 <= x < |w| && x in m ==> z[x] == 2 * w[x]
    ensures Sum(m, z) == 2 * Sum(m, w)
  {
    if w != [] {
      var k := |w| - 1;
      SumOne(m, w, k);
      SumOne(m, z, k);
      SumDouble(m, w[..k], z[..k]);
    }
  }

  lemma {:induction false} SumAgree(m: multiset<nat>, w: seq<nat>, z: seq<nat>)
    requires Once(m) && |w| == |z| && forall x :: 0 <= x < |w| && x in m ==> z[x] == w[x]
    ensures Sum(m, z) == Sum(m, w)
  {
    if w != [] {
      var k := |w| - 1;
      SumOne(m, w, k);
      SumOne(m, z, k);
      SumAgree(m, w[..k], z[..k]);
    }
  }

  lemma {:induction false} SumZero(m: multiset<nat>, w: seq<nat>)
    requires Once(m) && forall x :: 0 <= x < |w| && x in m ==> w[x] == 0
    ensures Sum(m, w) == 0
  {
    if w != [] {
      SumOne(m, w, |w| - 1);
      SumZero(m, w[..|w| - 1]);
    }
  }

  // ---- Lengths and what they cost ----

  /** The share of a code space of 2^d that a code of each length takes. */
  function Space(ls: seq<nat>, d: nat): (r: seq<nat>)
    ensures |r| == |ls| && forall x :: 0 <= x < |ls| && ls[x] <= d ==> r[x] == Pow2(d - ls[x])
  {
    seq(|ls|, x requires 0 <= x < |ls| => if ls[x] <= d then Pow2(d - ls[x]) else 0)
  }

  /** Kraft's inequality: the codes of the nodes in `m` fit the code space. */
  ghost predicate Fits(m: multiset<nat>, ls: seq<nat>, d: nat) {
    && Below(m, |ls|) && (forall x :: x in m ==> ls[x] <= d)
    && Sum(m, Space(ls, d)) <= Pow2(d)
  }

  function Prices(f: seq<nat>, ls: seq<nat>): (r: seq<nat>)
    requires |f| == |ls|
    ensures |r| == |f| && forall x :: 0 <= x < |f| ==> r[x] == f[x] * ls[x]
  {
    seq(|f|, x requires 0 <= x < |f| => f[x] * ls[x])
  }

  /** What the nodes in `m` cost in all. */
  ghost function Cost(m: multiset<nat>, f: seq<nat>, ls: seq<nat>): nat
    requires |f| == |ls|
  {
    Sum(m, Prices(f, ls))
  }

  lemma CostUpdate(m: multiset<nat>, f: seq<nat>, ls: seq<nat>, u: nat, v: nat)
    requires Once(m) && |f| == |ls| && u in m && u < |ls|
    ensures Cost(m, f, ls[u := v]) + f[u] * ls[u] == Cost(m, f, ls) + f[u] * v
  {
    hide Sum, Once;
    var x: nat := f[u] * v;
    SumUpdate(m, Prices(f, ls), u, x);
    assert Prices(f, ls[u := v]) == Prices(f, ls)[u := x];
  }

  lemma SpaceUpdate(m: multiset<nat>, ls: seq<nat>, d: nat, u: nat, v: nat)
    requires Once(m) && u in m && u < |ls| && ls[u] <= d && v <= d
    ensures Sum(m, Space(ls[u := v], d)) + Pow2(d - ls[u]) == Sum(m, Space(ls, d)) + Pow2(d - v)
  {
    hide Sum, Once, Pow2;
    SumUpdate(m, Space(ls, d), u, Pow2(d - v));
    assert Space(ls[u := v], d) == Space(ls, d)[u := Pow2(d - v)];
  }

  lemma Halve(m: multiset<nat>, ls: seq<nat>, d: nat)
    requires Once(m) && Fits(m, ls, d + 1) && forall x :: x in m ==> ls[x] <= d
    ensures Fits(m, ls, d)
  {
    var w, z := Space(ls, d), Space(ls, d + 1);
    forall x | 0 <= x < |ls| && x in m
      ensures z[x] == 2 * w[x]
    {
      assert d + 1 - ls[x] == (d - ls[x]) + 1;
    }
    SumDouble(m, w, z);
  }

  // ---- Two nodes of the greatest length ----

  lemma TwoIn(m: multiset<nat>, w: seq<nat>, u: nat, v: nat)
    requires Once(m) && u in m && v in m && u != v && Below(m, |w|)
    ensures w[u] + w[v] <= Sum(m, w)
  {
    MergeWeights(w, m, u, v, 0);
  }

  lemma SpaceEven(ls: seq<nat>, d: nat, x: nat)
    requires x < |ls| && ls[x] <= d
    ensures Space(ls, d + 1)[x] % 2 == 0
  {
    assert d + 1 - ls[x] == (d - ls[x]) + 1;
  }

  lemma RestOnce(m: multiset<nat>, u: nat)
    requires Once(m) && u in m
    ensures var rest := m - multiset{u}; Once(rest) && u !in rest && forall x :: x in rest ==> x in m
  {
  }

  /** A node that is alone at the greatest length leaves room, since all others take an even share. */
  lemma RoomLeft(m: multiset<nat>, ls: seq<nat>, d: nat, u: nat)
    requires Once(m) && Fits(m, ls, d + 1) && u in m && ls[u] == d + 1
    requires forall x :: x in m && x != u ==> ls[x] <= d
    ensures Sum(m, Space(ls, d + 1)) < Pow2(d + 1)
  {
    hide Sum, Once, Space;
    var w, rest := Space(ls, d + 1), m - multiset{u};
    RestOnce(m, u);
    forall x | 0 <= x < |w| && x in rest
      ensures w[x] % 2 == 0
    {
      SpaceEven(ls, d, x);
    }
    SumEven(rest, w);
    SumRemove(m, u, w);
    assert w[u] == Pow2(0) == 1;
  }

  /** So it can be shortened. */
  lemma Shorten(m: multiset<nat>, f: seq<nat>, ls: seq<nat>, d: nat, u: nat)
    requires Once(m) && |f| == |ls| && Fits(m, ls, d + 1) && u in m && ls[u] == d + 1
    requires forall x :: x in m && x != u ==> ls[x] <= d
    ensures var r := ls[u := d]; Fits(m, r, d) && Cost(m, f, r) <= Cost(m, f, ls)
  {
    hide Sum, Cost, Space;
    var r := ls[u := d];
    RoomLeft(m, ls, d, u);
    SpaceUpdate(m, ls, d + 1, u, d);
    Halve(m, r, d);
    CostUpdate(m, f, ls, u, d);
    assert f[u] * d <= f[u] * (d + 1);
  }

  /** Two codes of no bits do not fit. */
  lemma SomeBits(m: multiset<nat>, ls: seq<nat>, d: nat, p: nat, q: nat)
    requires Once(m) && Fits(m, ls, d) && p in m && q in m && p != q
    ensures 1 <= d
  {
    hide Sum;
    if d == 0 {
      TwoIn(m, Space(ls, 0), p, q);
    }
  }

  /** Lengths that cost no more and in which two nodes have the greatest length. */
  lemma {:induction false} Tighten(m: multiset<nat>, f: seq<nat>, ls: seq<nat>, d: nat, p: nat, q: nat)
    returns (r: seq<nat>, e: nat, u: nat, v: nat)
    requires Once(m) && |f| == |ls| && Fits(m, ls, d) && p in m && q in m && p != q
    ensures |r| == |f| && Fits(m, r, e) && 1 <= e && Cost(m, f, r) <= Cost(m, f, ls)
    ensures u in m && v in m && u != v && r[u] == r[v] == e
    decreases d
  {
    hide Sum, Cost, Once, Space, Pow2;
    SomeBits(m, ls, d, p, q);
    if u' :| u' in m && ls[u'] == d {
      if v' :| v' in m && v' != u' && ls[v'] == d {
        r, e, u, v := ls, d, u', v';
      } else {
        Shorten(m, f, ls, d - 1, u');
        r, e, u, v := Tighten(m, f, ls[u' := d - 1], d - 1, p, q);
      }
    } else {
      Halve(m, ls, d - 1);
      r, e, u, v := Tighten(m, f, ls, d - 1, p, q);
    }
  }

  // ---- Exchanging ----

  lemma ExchangePays(a: nat, b: nat, s: nat, t: nat)
    requires a <= b && s <= t
    ensures a * t + b * s <= a * s + b * t
  {
    assert (b - a) * (t - s) >= 0;
  }

  /** A rarer node takes over the greatest length from another. */
  lemma Promote(m: multiset<nat>, f: seq<nat>, ls: seq<nat>, d: nat, a: nat, u: nat) returns (r: seq<nat>)
    requires Once(m) && |f| == |ls| && Fits(m, ls, d) && a in m && u in m && f[a] <= f[u] && ls[u] == d
    ensures |r| == |f| && Fits(m, r, d) && Cost(m, f, r) <= Cost(m, f, ls)
    ensures r[a] == d && forall x :: 0 <= x < |f| && x != a && x != u ==> r[x] == ls[x]
  {
    hide Sum, Cost, Once, Space, Pow2;
    if a == u {
      r := ls;
    } else {
      var t := ls[a := d];
      r := t[u := ls[a]];
      SpaceUpdate(m, ls, d, a, d);
      SpaceUpdate(m, t, d, u, ls[a]);
      CostUpdate(m, f, ls, a, d);
      CostUpdate(m, f, t, u, ls[a]);
      ExchangePays(f[a], f[u], ls[a], d);
    }
  }

  lemma OtherNode(m: multiset<nat>, a: nat, b: nat)
    requires Once(m) && a in m && b in m - multiset{a}
    ensures b in m && b != a
  {
  }

  /** The two rarest nodes both get the greatest length. */
  lemma Settle(m: multiset<nat>, f: seq<nat>, ls: seq<nat>, d: nat, a: nat, b: nat) returns (r: seq<nat>, e: nat)
    requires Once(m) && |f| == |ls| && Fits(m, ls, d) && Least(a, m, f) && Least(b, m - multiset{a}, f)
    ensures |r| == |f| && Fits(m, r, e) && 1 <= e && Cost(m, f, r) <= Cost(m, f, ls)
    ensures r[a] == r[b] == e
  {
    hide Cost, Sum;
    OtherNode(m, a, b);
    var t, e', u, v := Tighten(m, f, ls, d, a, b);
    e := e';
    if v == a {
      u, v := v, u;
    }
    var s := Promote(m, f, t, e, a, u);
    assert v in m - multiset{a};
    r := Promote(m, f, s, e, b, v);
  }

  // ---- One turn ----

  lemma MergedPrice(x: nat, y: nat, d: nat)
    requires 1 <= d
    ensures x * d + y * d == (x + y) * (d - 1) + (x + y)
  {
  }

  /** The collection after a turn. */
  ghost function Joined(m: multiset<nat>, a: nat, b: nat, k: nat): multiset<nat> {
    m - multiset{a} - multiset{b} + multiset{k}
  }

  lemma JoinedOnce(m: multiset<nat>, a: nat, b: nat, k: nat)
    requires Once(m) && Below(m, k)
    ensures var m' := Joined(m, a, b, k); Once(m') && Below(m', k + 1) && m'[k] == 1
  {
  }

  lemma MergedSpace(m: multiset<nat>, r: seq<nat>, d: nat, a: nat, b: nat)
    requires Once(m) && Fits(m, r, d + 1) && a in m && b in m && a != b && r[a] == r[b] == d + 1
    ensures Fits(Joined(m, a, b, |r|), r + [d], d + 1)
  {
    hide Sum, Once;
    var w := Space(r, d + 1);
    assert Pow2(0) == 1 && Pow2(1) == 2;
    MergeWeights(w, m, a, b, 2);
    assert Space(r + [d], d + 1) == w + [2];
  }

  lemma MergedCost(m: multiset<nat>, f: seq<nat>, r: seq<nat>, d: nat, a: nat, b: nat)
    requires Once(m) && |f| == |r| && Below(m, |f|) && a in m && b in m && a != b && r[a] == r[b] == d + 1
    ensures var x := f[a] + f[b]; Cost(Joined(m, a, b, |f|), f + [x], r + [d]) + x == Cost(m, f, r)
  {
    hide Sum, Once;
    var x, p, m' := f[a] + f[b], Prices(f, r), Joined(m, a, b, |f|);
    var y: nat := x * d;
    MergeWeights(p, m, a, b, p[a] + p[b]);
    MergedPrice(f[a], f[b], d + 1);
    JoinedOnce(m, a, b, |f|);
    SumSnoc(m', p, p[a] + p[b]);
    SumSnoc(m', p, y);
    assert Times(1, p[a] + p[b]) == p[a] + p[b] && Times(1, y) == y;
    assert Prices(f + [x], r + [d]) == p + [y];
  }

  /** A turn of Huffman's loop takes its new weight off the cost of any lengths. */
  lemma TurnPays(m: multiset<nat>, f: seq<nat>, ls: seq<nat>, d: nat, a: nat, b: nat) returns (r: seq<nat>, e: nat)
    requires Once(m) && |f| == |ls| && Fits(m, ls, d) && Least(a, m, f) && Least(b, m - multiset{a}, f)
    ensures var x, m' := f[a] + f[b], Joined(m, a, b, |f|);
      && Once(m') && |r| == |f| + 1 && Fits(m', r, e) && Cost(m', f + [x], r) + x <= Cost(m, f, ls)
  {
    hide Cost, Sum, Space, Pow2, Once, Joined;
    OtherNode(m, a, b);
    var s, d' := Settle(m, f, ls, d, a, b);
    JoinedOnce(m, a, b, |f|);
    MergedSpace(m, s, d' - 1, a, b);
    MergedCost(m, f, s, d' - 1, a, b);
    r, e := s + [d' - 1], d';
  }
}
