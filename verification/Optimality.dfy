/** The code lengths of `MakeTree` are optimal: no prefix code takes fewer bits, unless the limit of 16 bits cuts
    the tree. */
module Optimality {
  import opened Bits
  import opened CanonicalCode
  import opened HuffmanHeap
  import opened HuffmanTree
  import opened CodeLengths
  import opened Exchange
  import opened PrefixCodes

  // ---- Sums over trees ----

  /** What the leaves below `v` weigh. */
  function TreeSum(lefts: seq<nat>, rights: seq<nat>, g: seq<nat>, v: nat): nat {
    if Inner(lefts, rights, |g|, v)
    then TreeSum(lefts, rights, g, lefts[v - |g|]) + TreeSum(lefts, rights, g, rights[v - |g|])
    else if v < |g| then g[v] else 0
  }

  /** The weight of every leaf below `v` as often as it is deep below `v`. */
  function PathSum(lefts: seq<nat>, rights: seq<nat>, g: seq<nat>, v: nat): nat {
    if Inner(lefts, rights, |g|, v)
    then PathSum(lefts, rights, g, lefts[v - |g|]) + PathSum(lefts, rights, g, rights[v - |g|])
      + TreeSum(lefts, rights, g, v)
    else 0
  }

  lemma {:induction false} TreeFrame(lefts: seq<nat>, rights: seq<nat>, a: nat, b: nat, g: seq<nat>, v: nat)
    requires |lefts| == |rights| && v < |g| + |lefts|
    ensures TreeSum(lefts + [a], rights + [b], g, v) == TreeSum(lefts, rights, g, v)
    ensures PathSum(lefts + [a], rights + [b], g, v) == PathSum(lefts, rights, g, v)
    decreases v
  {
    if Inner(lefts, rights, |g|, v) {
      TreeFrame(lefts, rights, a, b, g, lefts[v - |g|]);
      TreeFrame(lefts, rights, a, b, g, rights[v - |g|]);
    }
  }

  ghost function TreeSums(lefts: seq<nat>, rights: seq<nat>, g: seq<nat>): (r: seq<nat>)
    ensures |r| == |g| + |lefts| && forall v :: 0 <= v < |r| ==> r[v] == TreeSum(lefts, rights, g, v)
  {
    seq(|g| + |lefts|, v requires 0 <= v => TreeSum(lefts, rights, g, v))
  }

  ghost function PathSums(lefts: seq<nat>, rights: seq<nat>, g: seq<nat>): (r: seq<nat>)
    ensures |r| == |g| + |lefts| && forall v :: 0 <= v < |r| ==> r[v] == PathSum(lefts, rights, g, v)
  {
    seq(|g| + |lefts|, v requires 0 <= v => PathSum(lefts, rights, g, v))
  }

  lemma TreeSumsSnoc(lefts: seq<nat>, rights: seq<nat>, g: seq<nat>, a: nat, b: nat)
    requires |lefts| == |rights| && a < |g| + |lefts| && b < |g| + |lefts|
    ensures var w := TreeSums(lefts, rights, g); TreeSums(lefts + [a], rights + [b], g) == w + [w[a] + w[b]]
    ensures var w, p := TreeSums(lefts, rights, g), PathSums(lefts, rights, g);
      PathSums(lefts + [a], rights + [b], g) == p + [p[a] + p[b] + w[a] + w[b]]
  {
    var w, p := TreeSums(lefts, rights, g), PathSums(lefts, rights, g);
    forall v | 0 <= v <= |w|
      ensures TreeSum(lefts + [a], rights + [b], g, v) == (w + [w[a] + w[b]])[v]
      ensures PathSum(lefts + [a], rights + [b], g, v) == (p + [p[a] + p[b] + w[a] + w[b]])[v]
    {
      if v < |w| {
        TreeFrame(lefts, rights, a, b, g, v);
      } else {
        assert Inner(lefts + [a], rights + [b], |g|, v);
        TreeFrame(lefts, rights, a, b, g, a);
        TreeFrame(lefts, rights, a, b, g, b);
      }
    }
  }

  // ---- What the turns keep ----

  /** The used symbols. */
  ghost function UsedSymbols(f: seq<nat>): multiset<nat> {
    multiset(Symbols(f, |f|))
  }

  /** The nodes a turn takes and the node it makes. */
  lemma TurnTakes(f: seq<nat>, k: nat) returns (a: nat, b: nat)
    requires 0 < k < |Symbols(f, |f|)| && Total(f) < 0x1_0000
    ensures var s, t := Turns(f, k - 1), Turns(f, k); var m := Live(s.heap);
      && Least(a, m, s.freq) && Least(b, m - multiset{a}, s.freq) && Below(m, |s.freq|)
      && |s.lefts| == |s.rights| && |s.freq| == |f| + |s.lefts|
      && t.lefts == s.lefts + [a] && t.rights == s.rights + [b] && t.freq == s.freq + [s.freq[a] + s.freq[b]]
      && Live(t.heap) == Joined(m, a, b, |s.freq|)
  {
    hide Turns, Symbols, Total, Sift, Sum, LeafCounts, Partition, Floor;
    var s := Turns(f, k - 1);
    assert Turns(f, k) == Merge(s, |f|) by { TurnIs(f, k); }
    TurnsGood(f, k - 1);
    a, b := First(s.heap), Second(s.heap, s.freq);
    TwoRarest(s.heap, s.freq);
    var x := s.freq[a] + s.freq[b];
    CombinedFits(s.heap, s.freq, a, b, x);
    HeapAfter(s.heap, s.freq, x);
    MergeIsJoin(s, |f|, a, b, x, x);
  }

  lemma TurnIs(f: seq<nat>, k: nat)
    requires 0 < k < |Symbols(f, |f|)|
    ensures Turns(f, k) == Merge(Turns(f, k - 1), |f|)
  {
  }

  lemma PlantIs(f: seq<nat>)
    requires 1 <= |Symbols(f, |f|)|
    ensures var s := Turns(f, 0); s.freq == f && s.lefts == s.rights == [] && Live(s.heap) == UsedSymbols(f)
  {
    hide Symbols, Heapify;
    var h := [0] + Symbols(f, |f|);
    HeapifyOrders(h, f, (|h| - 1) / 2);
    assert h[1..] == Symbols(f, |f|);
  }

  lemma NoTree(g: seq<nat>)
    ensures TreeSums([], [], g) == g && PathSums([], [], g) == Repeat(0, |g|)
  {
  }

  /** The trees together weigh what the used symbols weigh, whatever the weights are. */
  lemma {:induction false} TurnsSum(f: seq<nat>, k: nat, g: seq<nat>)
    requires k < |Symbols(f, |f|)| && Total(f) < 0x1_0000 && |g| == |f|
    ensures var s := Turns(f, k); Sum(Live(s.heap), TreeSums(s.lefts, s.rights, g)) == Sum(UsedSymbols(f), g)
  {
    hide Turns, Symbols, Total, Sum, TreeSums, UsedSymbols, Live;
    if k == 0 {
      PlantIs(f);
      NoTree(g);
    } else {
      TurnsSum(f, k - 1, g);
      var a, b := TurnTakes(f, k);
      var s := Turns(f, k - 1);
      var w := TreeSums(s.lefts, s.rights, g);
      TreeSumsSnoc(s.lefts, s.rights, g, a, b);
      MergeWeights(w, Live(s.heap), a, b, w[a] + w[b]);
    }
  }

  /** Every node has the frequency of the leaves below it. */
  lemma {:induction false} TurnsFreq(f: seq<nat>, k: nat)
    requires k < |Symbols(f, |f|)| && Total(f) < 0x1_0000
    ensures var s := Turns(f, k); s.freq == TreeSums(s.lefts, s.rights, f)
  {
    hide Turns, Symbols, Total, TreeSums, UsedSymbols, Live;
    if k == 0 {
      PlantIs(f);
      NoTree(f);
    } else {
      TurnsFreq(f, k - 1);
      var a, b := TurnTakes(f, k);
      var s := Turns(f, k - 1);
      TreeSumsSnoc(s.lefts, s.rights, f, a, b);
    }
  }

  // ---- No lengths are cheaper than the tree ----

  lemma UsedOnce(f: seq<nat>)
    ensures Once(UsedSymbols(f)) && Below(UsedSymbols(f), |f|)
    ensures forall x :: 0 <= x < |f| ==> (x in UsedSymbols(f) <==> f[x] != 0)
  {
    SymbolsOnce(f, |f|);
    forall x | x in UsedSymbols(f)
      ensures x < |f|
    {
      assert x in Symbols(f, |f|);
    }
  }

  /** The paths of the trees grow by the weight of the new node. */
  lemma PathsGrow(p: seq<nat>, m: multiset<nat>, a: nat, b: nat, x: nat)
    requires Once(m) && a in m && b in m && a != b && Below(m, |p|)
    ensures Sum(Joined(m, a, b, |p|), p + [p[a] + p[b] + x]) == Sum(m, p) + x
  {
    hide Sum;
    var m', y, z := Joined(m, a, b, |p|), p[a] + p[b], p[a] + p[b] + x;
    JoinedOnce(m, a, b, |p|);
    MergeWeights(p, m, a, b, y);
    SumSnoc(m', p, y);
    SumSnoc(m', p, z);
    assert Times(1, y) == y && Times(1, z) == z;
  }

  /** One turn, on the nodes `m` that are left. */
  lemma TurnCost(m: multiset<nat>, lefts: seq<nat>, rights: seq<nat>, f: seq<nat>, freq: seq<nat>, a: nat, b: nat,
                 ls: seq<nat>, d: nat)
    returns (r: seq<nat>, e: nat)
    requires |lefts| == |rights| && |ls| == |freq| && freq == TreeSums(lefts, rights, f)
    requires Once(m) && Fits(m, ls, d) && Least(a, m, freq) && Least(b, m - multiset{a}, freq) && Below(m, |freq|)
    ensures var m', x := Joined(m, a, b, |freq|), freq[a] + freq[b];
      && |r| == |freq| + 1 && Once(m') && Fits(m', r, e)
      && Cost(m', freq + [x], r) + Sum(m', PathSums(lefts + [a], rights + [b], f))
         <= Cost(m, freq, ls) + Sum(m, PathSums(lefts, rights, f))
  {
    hide Sum, TreeSum, PathSum, Cost, Fits, Once, Joined;
    r, e := TurnPays(m, freq, ls, d, a, b);
    TreeSumsSnoc(lefts, rights, f, a, b);
    OtherNode(m, a, b);
    PathsGrow(PathSums(lefts, rights, f), m, a, b, freq[a] + freq[b]);
  }

  /** During the turns: any lengths for the symbols give lengths for the nodes that are left, which together with the
      paths of the trees cost no more. */
  lemma {:induction false} TurnsCost(f: seq<nat>, k: nat, ls: seq<nat>, d: nat) returns (r: seq<nat>, e: nat)
    requires k < |Symbols(f, |f|)| && Total(f) < 0x1_0000 && |ls| == |f| && Fits(UsedSymbols(f), ls, d)
    ensures var s := Turns(f, k); var m := Live(s.heap);
      && |r| == |s.freq| && Once(m) && Fits(m, r, e)
      && Cost(m, s.freq, r) + Sum(m, PathSums(s.lefts, s.rights, f)) <= Cost(UsedSymbols(f), f, ls)
  {
    hide Turns, Symbols, Total, Sum, TreeSums, PathSums, UsedSymbols, Live, Cost, Fits, Once, Joined, Below, Least;
    if k == 0 {
      PlantIs(f);
      NoTree(f);
      UsedOnce(f);
      SumZero(UsedSymbols(f), Repeat(0, |f|));
      r, e := ls, d;
    } else {
      var r', e' := TurnsCost(f, k - 1, ls, d);
      var a, b := TurnTakes(f, k);
      TurnsFreq(f, k - 1);
      var s := Turns(f, k - 1);
      r, e := TurnCost(Live(s.heap), s.lefts, s.rights, f, s.freq, a, b, r', e');
    }
  }

  lemma RootOnly(f: seq<nat>)
    requires 2 <= |Symbols(f, |f|)|
    ensures Live(Grow(f).heap) == multiset{Root(f)}
    ensures Root(f) < |f| + |Grow(f).lefts| && |Grow(f).lefts| == |Grow(f).rights|
  {
    hide Turns, Symbols, Merge;
    var k := |Symbols(f, |f|)| - 1;
    TurnIs(f, k);
    LastRoot(Turns(f, k - 1), |f|);
    LiveSingle(Grow(f).heap);
  }

  /** The paths of the finished tree cost no more than any lengths that satisfy Kraft's inequality. */
  lemma TreeCheapest(f: seq<nat>, ls: seq<nat>, d: nat)
    requires 2 <= |Symbols(f, |f|)| && Total(f) < 0x1_0000 && |ls| == |f| && Fits(UsedSymbols(f), ls, d)
    ensures var t := Grow(f); PathSum(t.lefts, t.rights, f, Root(f)) <= Cost(UsedSymbols(f), f, ls)
  {
    hide Turns, Symbols, Total, Sum, UsedSymbols, Live, Cost, Fits, Once, PathSum;
    var t := Grow(f);
    var p := PathSums(t.lefts, t.rights, f);
    var r, e := TurnsCost(f, |Symbols(f, |f|)| - 1, ls, d);
    RootOnly(f);
    SumSingle(Root(f), p, |p|);
    assert p[..|p|] == p;
  }

  // ---- Trees that the limit does not cut ----

  /** No leaf below `v`, itself at depth `d`, is deeper than 16. */
  predicate Shallow(lefts: seq<nat>, rights: seq<nat>, n: nat, v: nat, d: nat)
    decreases v
  {
    if Inner(lefts, rights, n, v)
    then Shallow(lefts, rights, n, lefts[v - n], d + 1) && Shallow(lefts, rights, n, rights[v - n], d + 1)
    else d <= 16
  }

  lemma {:induction false} ShallowKraft(lefts: seq<nat>, rights: seq<nat>, n: nat, v: nat, d: nat)
    requires Shallow(lefts, rights, n, v, d) && 1 <= d
    ensures d <= 16 && Start(DepthCounts(lefts, rights, n, v, d), 17) == Pow2(16 - d)
    decreases v
  {
    hide Start, Codes, Add;
    if Inner(lefts, rights, n, v) {
      var a, b := lefts[v - n], rights[v - n];
      ShallowKraft(lefts, rights, n, a, d + 1);
      ShallowKraft(lefts, rights, n, b, d + 1);
      StartAdd(DepthCounts(lefts, rights, n, a, d + 1), DepthCounts(lefts, rights, n, b, d + 1), 17);
    } else {
      StartUnit(d, 17);
    }
  }

  /** The tree of a frequency table is not cut. */
  predicate Uncut(f: seq<nat>)
    requires 2 <= |Symbols(f, |f|)|
  {
    Shallow(Grow(f).lefts, Grow(f).rights, |f|, Root(f), 0)
  }

  /** Then nothing is to be repaired. */
  lemma UncutCounts(f: seq<nat>)
    requires Codable(f) && Uncut(f)
    ensures LengthCounts(f) == DepthCounts(Grow(f).lefts, Grow(f).rights, |f|, Root(f), 0)
  {
    hide Grow, Symbols, Start, Add;
    var t, n, root := Grow(f), |f|, Root(f);
    GrowRepairable(f);
    var a, b := t.lefts[root - n], t.rights[root - n];
    ShallowKraft(t.lefts, t.rights, n, a, 1);
    ShallowKraft(t.lefts, t.rights, n, b, 1);
    StartAdd(DepthCounts(t.lefts, t.rights, n, a, 1), DepthCounts(t.lefts, t.rights, n, b, 1), 17);
    Pow2Values();
  }

  // ---- Prices for lengths ----

  /** The greatest frequency below `i` of a symbol longer than `l`. */
  function Top(f: seq<nat>, h: seq<nat>, l: nat, i: nat): (r: nat)
    requires |f| == |h| && i <= |f|
    ensures forall x :: 0 <= x < i && h[x] > l ==> f[x] <= r
    ensures r == 0 || exists x :: 0 <= x < i && h[x] > l && f[x] == r
  {
    if i == 0 then 0
    else
      var r := Top(f, h, l, i - 1);
      if h[i - 1] > l && f[i - 1] > r then f[i - 1] else r
  }

  /** What a code of length `l` is charged: shorter ones more, by what keeps rarer symbols from taking them. */
  function Price(f: seq<nat>, h: seq<nat>, l: nat): nat
    requires |f| == |h|
    decreases 16 - l
  {
    if l >= 16 then 0 else Price(f, h, l + 1) + Top(f, h, l, |f|)
  }

  lemma PriceStep(f: seq<nat>, h: seq<nat>, x: nat, l: nat)
    requires |f| == |h| && x < |f| && l < 16
    ensures f[x] * (l + 1) + Price(f, h, l + 1) + Top(f, h, l, |f|) == f[x] * l + Price(f, h, l) + f[x]
  {
    hide Top;
  }

  lemma TopAtMost(f: seq<nat>, h: seq<nat>, x: nat, l: nat)
    requires |f| == |h| && GoodLens(h, f) && x < |f| && f[x] != 0 && h[x] <= l
    ensures Top(f, h, l, |f|) <= f[x]
  {
    hide Complete, Counts;
  }

  lemma {:induction false} LongerNotBetter(f: seq<nat>, h: seq<nat>, x: nat, l: nat)
    requires |f| == |h| && GoodLens(h, f) && x < |f| && f[x] != 0 && h[x] <= l <= 16
    ensures f[x] * h[x] + Price(f, h, h[x]) <= f[x] * l + Price(f, h, l)
    decreases l
  {
    hide GoodLens, Price, Top;
    if h[x] < l {
      LongerNotBetter(f, h, x, l - 1);
      TopAtMost(f, h, x, l - 1);
      PriceStep(f, h, x, l - 1);
    }
  }

  lemma {:induction false} ShorterNotBetter(f: seq<nat>, h: seq<nat>, x: nat, l: nat)
    requires |f| == |h| && x < |f| && l <= h[x] <= 16
    ensures f[x] * h[x] + Price(f, h, h[x]) <= f[x] * l + Price(f, h, l)
    decreases h[x] - l
  {
    hide Price;
    if l < h[x] {
      ShorterNotBetter(f, h, x, l + 1);
      assert f[x] <= Top(f, h, l, |f|);
      PriceStep(f, h, x, l);
    }
  }

  /** At these prices every symbol has the length that suits it best. */
  lemma BestLength(f: seq<nat>, h: seq<nat>, x: nat, l: nat)
    requires GoodLens(h, f) && x < |f| && f[x] != 0 && l <= 16
    ensures f[x] * h[x] + Price(f, h, h[x]) <= f[x] * l + Price(f, h, l)
  {
    if h[x] <= l {
      LongerNotBetter(f, h, x, l);
    } else {
      ShorterNotBetter(f, h, x, l);
    }
  }

  // ---- What counted lengths are charged ----

  /** The charges for the lengths 1 to `l`. */
  function Worth(c: seq<nat>, u: seq<nat>, l: nat): nat
    requires |c| == |u| == 17 && l <= 16
  {
    if l == 0 then 0 else Worth(c, u, l - 1) + c[l] * u[l]
  }

  lemma Distribute(x: nat, y: nat, z: nat)
    ensures (x + y) * z == x * z + y * z
  {
  }

  lemma {:induction false} WorthAdd(c: seq<nat>, d: seq<nat>, u: seq<nat>, l: nat)
    requires |c| == |d| == |u| == 17 && l <= 16
    ensures Worth(Add(c, d), u, l) == Worth(c, u, l) + Worth(d, u, l)
  {
    if l > 0 {
      WorthAdd(c, d, u, l - 1);
      Distribute(c[l], d[l], u[l]);
    }
  }

  lemma {:induction false} WorthUnit(k: nat, u: seq<nat>, l: nat)
    requires |u| == 17 && k <= 16 && l <= 16
    ensures Worth(Unit(k), u, l) == if 1 <= k <= l then u[k] else 0
  {
    if l > 0 {
      WorthUnit(k, u, l - 1);
    }
  }

  lemma {:induction false} WorthAgree(c: seq<nat>, d: seq<nat>, u: seq<nat>, l: nat)
    requires |c| == |d| == |u| == 17 && l <= 16 && forall i :: 1 <= i <= 16 ==> c[i] == d[i]
    ensures Worth(c, u, l) == Worth(d, u, l)
  {
    if l > 0 {
      WorthAgree(c, d, u, l - 1);
    }
  }

  lemma CountsSnoc(h: seq<nat>, i: nat)
    requires i < |h| && h[i] <= 16
    ensures Counts(h[..i + 1]) == Add(Counts(h[..i]), Unit(h[i]))
  {
    assert h[..i + 1][..i] == h[..i];
  }

  /** The charges of the used symbols are those of their counts. */
  lemma {:induction false} UsedWorth(f: seq<nat>, h: seq<nat>, u: seq<nat>, w: seq<nat>, i: nat)
    requires GoodLens(h, f) && |u| == 17 && i <= |f| == |w|
    requires forall x :: 0 <= x < |f| ==> w[x] == u[h[x]]
    ensures Sum(UsedSymbols(f), w[..i]) == Worth(Counts(h[..i]), u, 16)
  {
    hide Sum, UsedSymbols, Complete, Once, Counts, Worth;
    UsedOnce(f);
    if i == 0 {
      assert w[..0] == [] && h[..0] == [];
      NoWorth(UsedSymbols(f), u);
    } else {
      var j := i - 1;
      UsedWorth(f, h, u, w, j);
      assert w[..i] == w[..j] + [w[j]];
      SumSnoc(UsedSymbols(f), w[..j], w[j]);
      SumOne(UsedSymbols(f), w, j);
      CountsSnoc(h, j);
      WorthAdd(Counts(h[..j]), Unit(h[j]), u, 16);
      WorthUnit(h[j], u, 16);
    }
  }

  lemma NoWorth(m: multiset<nat>, u: seq<nat>)
    requires |u| == 17
    ensures Sum(m, []) == 0 && Worth(Counts([]), u, 16) == 0
  {
    WorthUnit(0, u, 16);
    WorthAgree(Counts([]), Unit(0), u, 16);
  }

  // ---- The lengths are as cheap as the tree ----

  /** Children come before their parents. */
  ghost predicate Rooted(lefts: seq<nat>, rights: seq<nat>, n: nat) {
    |lefts| == |rights| && forall i :: 0 <= i < |lefts| ==> lefts[i] < n + i && rights[i] < n + i
  }

  /** What a symbol pays for a length, its charge included. */
  function Offer(freq: nat, l: nat, charge: nat): nat {
    freq * l + charge
  }

  /** No length would cost a symbol less. */
  ghost predicate NoBetter(f: seq<nat>, best: seq<nat>, u: seq<nat>) {
    && |best| == |f| && |u| == 17
    && forall x, l :: 0 <= x < |f| && 0 <= l <= 16 ==> best[x] <= Offer(f[x], l, u[l])
  }

  /** The best offers of all leaves together are at most what the tree costs. */
  lemma {:induction false} TreeBest(lefts: seq<nat>, rights: seq<nat>, f: seq<nat>, best: seq<nat>, u: seq<nat>, v: nat,
                                    d: nat)
    requires Rooted(lefts, rights, |f|) && v < |f| + |lefts| && NoBetter(f, best, u)
    requires Shallow(lefts, rights, |f|, v, d) && 1 <= d
    ensures TreeSum(lefts, rights, best, v) <= PathSum(lefts, rights, f, v) + TreeSum(lefts, rights, f, v) * d
                                               + Worth(DepthCounts(lefts, rights, |f|, v, d), u, 16)
    decreases v
  {
    hide Worth, Add, Unit;
    if Inner(lefts, rights, |f|, v) {
      var a, b := lefts[v - |f|], rights[v - |f|];
      TreeBest(lefts, rights, f, best, u, a, d + 1);
      TreeBest(lefts, rights, f, best, u, b, d + 1);
      WorthAdd(DepthCounts(lefts, rights, |f|, a, d + 1), DepthCounts(lefts, rights, |f|, b, d + 1), u, 16);
      Deeper(TreeSum(lefts, rights, f, a), TreeSum(lefts, rights, f, b), d);
    } else {
      assert best[v] <= Offer(f[v], d, u[d]);
      WorthUnit(d, u, 16);
    }
  }

  lemma Deeper(x: nat, y: nat, d: nat)
    ensures x * (d + 1) + y * (d + 1) == (x + y) * d + (x + y)
  {
  }

  lemma RootBest(lefts: seq<nat>, rights: seq<nat>, f: seq<nat>, best: seq<nat>, u: seq<nat>, root: nat)
    requires Rooted(lefts, rights, |f|) && NoBetter(f, best, u)
    requires Inner(lefts, rights, |f|, root) && Shallow(lefts, rights, |f|, root, 0)
    ensures TreeSum(lefts, rights, best, root)
         <= PathSum(lefts, rights, f, root) + Worth(DepthCounts(lefts, rights, |f|, root, 0), u, 16)
  {
    hide Worth, Add, Unit;
    var a, b := lefts[root - |f|], rights[root - |f|];
    TreeBest(lefts, rights, f, best, u, a, 1);
    TreeBest(lefts, rights, f, best, u, b, 1);
    WorthAdd(DepthCounts(lefts, rights, |f|, a, 1), DepthCounts(lefts, rights, |f|, b, 1), u, 16);
  }

  lemma {:induction false} SumAdd(m: multiset<nat>, v: seq<nat>, w: seq<nat>, z: seq<nat>)
    requires Once(m) && |v| == |w| == |z| && forall x :: 0 <= x < |v| && x in m ==> z[x] == v[x] + w[x]
    ensures Sum(m, z) == Sum(m, v) + Sum(m, w)
  {
    if v != [] {
      var k := |v| - 1;
      SumOne(m, v, k);
      SumOne(m, w, k);
      SumOne(m, z, k);
      SumAdd(m, v[..k], w[..k], z[..k]);
    }
  }

  /** What every symbol pays for its own length; an unused one pays nothing. */
  function Offers(f: seq<nat>, h: seq<nat>): (r: seq<nat>)
    requires |f| == |h|
    ensures |r| == |f|
    ensures forall x :: 0 <= x < |f| ==> r[x] == if f[x] == 0 then 0 else Offer(f[x], h[x], Price(f, h, h[x]))
  {
    seq(|f|, x requires 0 <= x < |f| => if f[x] == 0 then 0 else Offer(f[x], h[x], Price(f, h, h[x])))
  }

  function PriceList(f: seq<nat>, h: seq<nat>): (u: seq<nat>)
    requires |f| == |h|
    ensures |u| == 17 && forall l :: 0 <= l <= 16 ==> u[l] == Price(f, h, l)
  {
    seq(17, l requires 0 <= l => Price(f, h, l))
  }

  lemma OffersSum(f: seq<nat>, h: seq<nat>)
    requires GoodLens(h, f)
    ensures Sum(UsedSymbols(f), Offers(f, h)) == Cost(UsedSymbols(f), f, h) + Worth(Counts(h), PriceList(f, h), 16)
  {
    hide Sum, UsedSymbols, Complete, Once, Counts, Worth, Price;
    var u := PriceList(f, h);
    var w: seq<nat> := seq(|f|, x requires 0 <= x < |f| => u[h[x]]);
    UsedOnce(f);
    UsedWorth(f, h, u, w, |f|);
    assert w[..|f|] == w && h[..|f|] == h;
    SumAdd(UsedSymbols(f), Prices(f, h), w, Offers(f, h));
  }

  lemma OfferBest(f: seq<nat>, h: seq<nat>, x: nat, l: nat)
    requires |f| == |h| && GoodLens(h, f) && x < |f| && l <= 16
    ensures Offers(f, h)[x] <= Offer(f[x], l, PriceList(f, h)[l])
  {
    hide Price, GoodLens;
    if f[x] != 0 {
      BestLength(f, h, x, l);
    }
  }

  lemma OffersBest(f: seq<nat>, h: seq<nat>)
    requires |f| == |h| && GoodLens(h, f)
    ensures NoBetter(f, Offers(f, h), PriceList(f, h))
  {
    hide Offers, PriceList, GoodLens, Offer;
    forall x, l | 0 <= x < |f| && 0 <= l <= 16
      ensures Offers(f, h)[x] <= Offer(f[x], l, PriceList(f, h)[l])
    {
      OfferBest(f, h, x, l);
    }
  }

  lemma TreeTotal(f: seq<nat>, g: seq<nat>)
    requires 2 <= |Symbols(f, |f|)| && Total(f) < 0x1_0000 && |g| == |f|
    ensures TreeSum(Grow(f).lefts, Grow(f).rights, g, Root(f)) == Sum(UsedSymbols(f), g)
  {
    hide Turns, Symbols, Total, Sum, UsedSymbols, Live, TreeSum;
    var t := Grow(f);
    var w := TreeSums(t.lefts, t.rights, g);
    TurnsSum(f, |Symbols(f, |f|)| - 1, g);
    RootOnly(f);
    SumSingle(Root(f), w, |w|);
    assert w[..|w|] == w;
  }

  lemma CountsAre(f: seq<nat>, u: seq<nat>)
    requires Codable(f) && Uncut(f) && |u| == 17
    ensures Worth(Counts(CodeLens(f)), u, 16)
         == Worth(DepthCounts(Grow(f).lefts, Grow(f).rights, |f|, Root(f), 0), u, 16)
  {
    hide Grow, Symbols, CodeLens, LengthCounts, DepthCounts, Uncut;
    UncutCounts(f);
    forall l | 1 <= l <= 16
      ensures Counts(CodeLens(f))[l] == LengthCounts(f)[l]
    {
      CodeLensCounts(f, l);
    }
    WorthAgree(Counts(CodeLens(f)), LengthCounts(f), u, 16);
  }

  /** The lengths cost no more than the paths of the tree. */
  lemma LengthsCheap(f: seq<nat>)
    requires Codable(f) && Uncut(f)
    ensures Cost(UsedSymbols(f), f, CodeLens(f)) <= PathSum(Grow(f).lefts, Grow(f).rights, f, Root(f))
  {
    hide Grow, Symbols, CodeLens, DepthCounts, UsedSymbols, Cost, Sum, GoodLens, Worth, TreeSum, PathSum, Offers,
         PriceList, NoBetter;
    var h, t := CodeLens(f), Grow(f);
    CodeLensGood(f);
    OffersSum(f, h);
    OffersBest(f, h);
    TreeTotal(f, Offers(f, h));
    GrowRepairable(f);
    RootBest(t.lefts, t.rights, f, Offers(f, h), PriceList(f, h), Root(f));
    CountsAre(f, PriceList(f, h));
  }

  // ---- The main result ----

  /** The number of bits that the symbols take with codes of these lengths. */
  function TotalBits(f: seq<nat>, ls: seq<nat>): nat
    requires |f| == |ls|
  {
    if f == [] then 0 else TotalBits(f[..|f| - 1], ls[..|f| - 1]) + f[|f| - 1] * ls[|f| - 1]
  }

  lemma {:induction false} CostIsBits(f: seq<nat>, ls: seq<nat>, i: nat)
    requires |f| == |ls| && i <= |f|
    ensures Sum(UsedSymbols(f), Prices(f, ls)[..i]) == TotalBits(f[..i], ls[..i])
  {
    hide Sum, UsedSymbols, Once;
    if i == 0 {
      UsedOnce(f);
      assert Prices(f, ls)[..0] == [];
      SumZero(UsedSymbols(f), []);
    } else {
      var j, p := i - 1, Prices(f, ls);
      CostIsBits(f, ls, j);
      UsedOnce(f);
      assert p[..i] == p[..j] + [p[j]] && f[..i][..j] == f[..j] && ls[..i][..j] == ls[..j];
      SumSnoc(UsedSymbols(f), p[..j], p[j]);
      SumOne(UsedSymbols(f), p, j);
    }
  }

  lemma BitsAre(f: seq<nat>, ls: seq<nat>)
    requires |f| == |ls|
    ensures Cost(UsedSymbols(f), f, ls) == TotalBits(f, ls)
  {
    CostIsBits(f, ls, |f|);
    assert Prices(f, ls)[..|f|] == Prices(f, ls) && f[..|f|] == f && ls[..|f|] == ls;
  }

  /** A code for every used symbol, none of which begins another. */
  ghost predicate PrefixCode(f: seq<nat>, code: seq<seq<bool>>) {
    && |code| == |f|
    && forall x, y :: 0 <= x < |f| && 0 <= y < |f| && x != y && f[x] != 0 && f[y] != 0 ==> !(code[x] <= code[y])
  }

  lemma {:induction false} Longest(code: seq<seq<bool>>) returns (d: nat)
    ensures forall x :: 0 <= x < |code| ==> |code[x]| <= d
  {
    if code == [] {
      d := 0;
    } else {
      d := Longest(code[1..]);
      assert forall x :: 1 <= x < |code| ==> code[x] == code[1..][x - 1];
      d := if |code[0]| > d then |code[0]| else d;
    }
  }

  /** The lengths of `MakeTree` are optimal: if no leaf of its tree is deeper than 16, no prefix code takes fewer bits
      for the same symbols, however long its codes are. */
  lemma CodeLensOptimal(f: seq<nat>, code: seq<seq<bool>>)
    requires Codable(f) && Uncut(f) && PrefixCode(f, code)
    ensures TotalBits(f, CodeLens(f)) <= TotalBits(f, Lengths(code))
  {
    hide Grow, Symbols, CodeLens, UsedSymbols, Cost, Sum, PathSum, Space, Uncut, Once, TotalBits;
    var m := UsedSymbols(f);
    var d := Longest(code);
    UsedOnce(f);
    Kraft(m, code, d);
    TreeCheapest(f, Lengths(code), d);
    LengthsCheap(f);
    BitsAre(f, CodeLens(f));
    BitsAre(f, Lengths(code));
  }
}
