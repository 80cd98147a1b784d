/** A frequency table whose tree the limit of 16 bits cuts: its lengths are not optimal. */
module CutTree {
  import opened Bits
  import opened CanonicalCode
  import opened HuffmanHeap
  import opened HuffmanTree
  import opened CodeLengths
  import opened Exchange
  import opened PrefixCodes
  import opened Optimality

  // ---- The frequencies ----

  /** Eighteen Fibonacci numbers. */
  ghost predicate Fibonacci(f: seq<nat>) {
    |f| == 18 && f[0] == 1 && f[1] == 2 && forall k :: 0 <= k < 16 ==> f[k + 2] == f[k + 1] + f[k]
  }

  lemma {:induction false} FreqStep(f: seq<nat>, i: nat)
    requires Fibonacci(f) && i < 17
    ensures 1 <= f[i] < f[i + 1]
  {
    if i > 0 {
      FreqStep(f, i - 1);
      assert f[i - 1 + 2] == f[i - 1 + 1] + f[i - 1];
    }
  }

  lemma {:induction false} FreqOrder(f: seq<nat>, i: nat, j: nat)
    requires Fibonacci(f) && i < j < 18
    ensures 1 <= f[i] < f[j]
    decreases j
  {
    hide Fibonacci;
    FreqStep(f, j - 1);
    if i < j - 1 {
      FreqOrder(f, i, j - 1);
    }
  }

  /** The first `k + 1` frequencies together. */
  function Weight(f: seq<nat>, k: nat): nat
    requires k < |f|
  {
    if k == 0 then f[0] else Weight(f, k - 1) + f[k]
  }

  lemma {:induction false} WeightIs(f: seq<nat>, k: nat)
    requires Fibonacci(f) && k < 16
    ensures Weight(f, k) + 2 == f[k + 2]
  {
    assert f[k + 2] == f[k + 1] + f[k];
    if k > 0 {
      WeightIs(f, k - 1);
    }
  }

  lemma {:induction false} AllUsed(f: seq<nat>, i: nat)
    requires |f| == 18 && i <= 18 && forall x :: 0 <= x < 18 ==> f[x] != 0
    ensures |Symbols(f, i)| == i
    ensures i > 0 ==> Total(f[..i]) == Weight(f, i - 1)
  {
    if i > 0 {
      AllUsed(f, i - 1);
      assert f[..i][..i - 1] == f[..i - 1];
      if i == 1 {
        assert f[..0] == [];
      }
    }
  }

  lemma Positive(f: seq<nat>, x: nat)
    requires Fibonacci(f) && x < 18
    ensures f[x] != 0
  {
    hide Fibonacci;
    if x < 17 {
      FreqStep(f, x);
    } else {
      FreqStep(f, 16);
    }
  }

  lemma EveryUsed(f: seq<nat>)
    requires Fibonacci(f)
    ensures |f| == 18 && |Symbols(f, |f|)| == 18 && Total(f) == Weight(f, 17)
    ensures forall x :: 0 <= x < 18 ==> f[x] != 0
  {
    hide Symbols, Total, Weight;
    forall x | 0 <= x < 18
      ensures f[x] != 0
    {
      Positive(f, x);
    }
    AllUsed(f, 18);
    assert f[..18] == f;
  }

  // ---- The tree is a chain ----

  /** The node that joins the symbols 0 to `k`. */
  function Node(k: nat): nat {
    if k == 0 then 0 else 17 + k
  }

  /** The nodes that are left: the one that joins the symbols up to `k`, and the other symbols. */
  ghost function Rest(k: nat): (m: multiset<nat>)
    requires k < 18
    ensures forall x :: m[x] == if x == Node(k) || k < x < 18 then 1 else 0
  {
    multiset{Node(k)} + Above(k)
  }

  /** The symbols above `k`. */
  ghost function Above(k: nat): (m: multiset<nat>)
    ensures forall x :: m[x] == if k < x < 18 then 1 else 0
    decreases 18 - k
  {
    if k >= 17 then multiset{} else Above(k + 1) + multiset{k + 1}
  }

  /** Node `i + 1` joins node `i` and symbol `i + 1`. */
  ghost predicate Chain(lefts: seq<nat>, rights: seq<nat>, k: nat) {
    && |lefts| == |rights| == k
    && forall i :: 0 <= i < k ==>
         (lefts[i] == Node(i) && rights[i] == i + 1) || (lefts[i] == i + 1 && rights[i] == Node(i))
  }

  /** The two rarest of what is left. */
  lemma TwoLeast(f: seq<nat>, freq: seq<nat>, k: nat, a: nat, b: nat)
    requires |f| == 18 && Fibonacci(f) && k < 17 && |freq| == 18 + k && f <= freq && freq[Node(k)] == Weight(f, k)
    requires Least(a, Rest(k), freq) && Least(b, Rest(k) - multiset{a}, freq)
    ensures (a == Node(k) && b == k + 1) || (a == k + 1 && b == Node(k))
  {
    hide Fibonacci, Weight;
    var m := Rest(k);
    assert Node(k) in m && k + 1 in m;
    forall x | x in m && x != Node(k) && x != k + 1
      ensures x < 18 && freq[k + 1] < freq[x] && freq[Node(k)] < freq[x]
    {
      FreqOrder(f, k + 1, x);
      HeavierThan(f, k, x);
      assert freq[k + 1] == f[k + 1] && freq[x] == f[x];
    }
    if a == Node(k) {
      assert k + 1 in m - multiset{a};
      assert b in m;
    } else {
      assert a == k + 1;
      assert Node(k) in m - multiset{a};
      assert b in m;
    }
  }

  lemma HeavierThan(f: seq<nat>, k: nat, x: nat)
    requires Fibonacci(f) && k + 1 < x < 18
    ensures Weight(f, k) < f[x]
  {
    hide Fibonacci, Weight;
    WeightIs(f, k);
    if x > k + 2 {
      FreqOrder(f, k + 2, x);
    }
  }

  lemma RestNext(k: nat)
    requires k < 17
    ensures Joined(Rest(k), Node(k), k + 1, 18 + k) == Rest(k + 1)
    ensures Joined(Rest(k), k + 1, Node(k), 18 + k) == Rest(k + 1)
  {
    var m := Rest(k) - multiset{Node(k)} - multiset{k + 1};
    assert m == Above(k + 1) by { RestWithout(k); }
    assert Rest(k) - multiset{k + 1} - multiset{Node(k)} == m;
    assert Node(k + 1) == 18 + k;
  }

  lemma RestWithout(k: nat)
    requires k < 17
    ensures Rest(k) - multiset{Node(k)} - multiset{k + 1} == Above(k + 1)
  {
    assert Rest(k) - multiset{Node(k)} == Above(k);
  }

  lemma RestFirst(f: seq<nat>)
    requires Fibonacci(f)
    ensures UsedSymbols(f) == Rest(0)
  {
    hide Above, Fibonacci, UsedSymbols;
    EveryUsed(f);
    UsedOnce(f);
  }

  /** What holds after `k` turns: the symbols up to `k` form a chain. */
  ghost predicate Chained(f: seq<nat>, s: Forest, m: multiset<nat>, k: nat)
    requires k < 18 && |f| == 18
  {
    && m == Rest(k) && Chain(s.lefts, s.rights, k)
    && |s.freq| == 18 + k && f <= s.freq && s.freq[Node(k)] == Weight(f, k)
  }

  lemma ChainedNext(f: seq<nat>, s: Forest, m: multiset<nat>, t: Forest, k: nat, a: nat, b: nat)
    requires |f| == 18 && Fibonacci(f) && k < 17 && Chained(f, s, m, k)
    requires Least(a, m, s.freq) && Least(b, m - multiset{a}, s.freq)
    requires t.lefts == s.lefts + [a] && t.rights == s.rights + [b] && t.freq == s.freq + [s.freq[a] + s.freq[b]]
    ensures Chained(f, t, Joined(m, a, b, |s.freq|), k + 1)
  {
    hide Fibonacci, Rest, Weight, Joined;
    TwoLeast(f, s.freq, k, a, b);
    RestNext(k);
    WeightNext(f, k + 1);
    assert s.freq[k + 1] == f[k + 1];
  }

  lemma ChainedFirst(f: seq<nat>)
    requires Fibonacci(f)
    ensures |f| == 18 && |Symbols(f, |f|)| == 18 && Chained(f, Turns(f, 0), Live(Turns(f, 0).heap), 0)
  {
    hide Fibonacci, Live, Rest, Weight, Symbols, UsedSymbols, Turns;
    TotalSmall(f);
    PlantIs(f);
    RestFirst(f);
    WeightFirst(f);
  }

  lemma {:induction false} TurnsChain(f: seq<nat>, k: nat)
    requires Fibonacci(f) && k < 18
    ensures |f| == 18 && |Symbols(f, |f|)| == 18 && Total(f) < 0x1_0000
    ensures Chained(f, Turns(f, k), Live(Turns(f, k).heap), k)
  {
    hide Fibonacci, Symbols, Total, Turns, Live, Chained, Joined, Least, Below;
    TotalSmall(f);
    if k == 0 {
      ChainedFirst(f);
    } else {
      TurnsChain(f, k - 1);
      var a, b := TurnTakes(f, k);
      ChainedNext(f, Turns(f, k - 1), Live(Turns(f, k - 1).heap), Turns(f, k), k - 1, a, b);
    }
  }

  lemma WeightFirst(f: seq<nat>)
    requires |f| == 18
    ensures Weight(f, 0) == f[0]
  {
  }

  lemma WeightNext(f: seq<nat>, k: nat)
    requires |f| == 18 && 0 < k < 18
    ensures Weight(f, k) == Weight(f, k - 1) + f[k]
  {
  }

  lemma TotalSmall(f: seq<nat>)
    requires Fibonacci(f)
    ensures |f| == 18 && |Symbols(f, |f|)| == 18 && Total(f) < 0x1_0000
  {
    hide Weight, Symbols, Total;
    EveryUsed(f);
    WeightIs(f, 15);
    WeightNext(f, 16);
    WeightNext(f, 17);
    FibonacciValues(f);
  }

  lemma Next(f: seq<nat>, k: nat)
    requires Fibonacci(f) && k < 16
    ensures |f| == 18 && f[k + 2] == f[k + 1] + f[k]
  {
  }

  lemma FibonacciValues(f: seq<nat>)
    requires Fibonacci(f)
    ensures f[0] == 1 && f[1] == 2 && f[3] == 5 && f[16] == 2584 && f[17] == 4181
  {
    FirstEight(f);
    hide Fibonacci;
    Next(f, 8);
    Next(f, 9);
    Next(f, 10);
    Next(f, 11);
    Next(f, 12);
    Next(f, 13);
    Next(f, 14);
    Next(f, 15);
  }

  lemma FirstEight(f: seq<nat>)
    requires Fibonacci(f)
    ensures |f| == 18 && f[0] == 1 && f[1] == 2 && f[3] == 5 && f[8] == 55 && f[9] == 89
  {
    assert f[0] == 1 && f[1] == 2;
    hide Fibonacci;
    Next(f, 0);
    Next(f, 1);
    Next(f, 2);
    Next(f, 3);
    Next(f, 4);
    Next(f, 5);
    Next(f, 6);
    Next(f, 7);
  }

  // ---- Its depths ----

  /** The leaves of a chain of `k` nodes, at depth `d`, by their depths. */
  function ChainCounts(k: nat, d: nat): (r: seq<nat>)
    ensures |r| == 17
  {
    if k == 0 then Unit(Clip(d)) else Add(Unit(Clip(d + 1)), ChainCounts(k - 1, d + 1))
  }

  lemma AddSwaps(c: seq<nat>, d: seq<nat>)
    requires |c| == |d| == 17
    ensures Add(c, d) == Add(d, c)
  {
  }

  lemma LeafDepth(lefts: seq<nat>, rights: seq<nat>, x: nat, d: nat)
    requires x < 18
    ensures DepthCounts(lefts, rights, 18, x, d) == Unit(Clip(d)) && (Shallow(lefts, rights, 18, x, d) <==> d <= 16)
  {
  }

  lemma {:induction false} ChainDepths(lefts: seq<nat>, rights: seq<nat>, n: nat, k: nat, d: nat)
    requires Chain(lefts, rights, n) && k <= n <= 17
    ensures DepthCounts(lefts, rights, 18, Node(k), d) == ChainCounts(k, d)
    ensures d + k == 17 ==> !Shallow(lefts, rights, 18, Node(k), d)
    decreases k
  {
    hide Unit, Add, Clip;
    if k == 0 {
      LeafDepth(lefts, rights, 0, d);
    } else {
      ChainDepths(lefts, rights, n, k - 1, d + 1);
      LeafDepth(lefts, rights, k, d + 1);
      AddSwaps(Unit(Clip(d + 1)), ChainCounts(k - 1, d + 1));
      assert Inner(lefts, rights, 18, Node(k));
    }
  }

  lemma {:induction false} ChainCountsAt(k: nat, l: nat)
    requires k <= 17 && 1 <= l <= 16
    ensures ChainCounts(k, 17 - k)[l]
         == if l == 16 then (if k < 2 then k + 1 else 3) else if 17 - k < l then 1 else 0
  {
    if k > 0 {
      ChainCountsAt(k - 1, l);
    }
  }

  /** One leaf at each depth up to 15, and three at 16 and deeper. */
  ghost predicate CutCounts(c: seq<nat>) {
    |c| == 17 && c[16] == 3 && forall l :: 1 <= l <= 15 ==> c[l] == 1
  }

  lemma TreeIsCut(f: seq<nat>)
    requires Fibonacci(f)
    ensures Codable(f) && !Uncut(f) && CutCounts(DepthCounts(Grow(f).lefts, Grow(f).rights, |f|, Root(f), 0))
  {
    hide Fibonacci, Symbols, Total, Turns, Live, ChainCounts, Shallow, Weight;
    TurnsChain(f, 17);
    ChainDepths(Grow(f).lefts, Grow(f).rights, 17, 17, 0);
    forall l | 1 <= l <= 16
      ensures ChainCounts(17, 0)[l] == if l == 16 then 3 else 1
    {
      ChainCountsAt(17, l);
    }
  }

  // ---- Its lengths ----

  lemma {:induction false} CutStart(c: seq<nat>, l: nat)
    requires CutCounts(c) && 1 <= l <= 16
    ensures Start(c, l) + Pow2(17 - l) == Pow2(16)
  {
    if l > 1 {
      CutStart(c, l - 1);
      ShlOne(17 - l);
      assert 18 - l == (17 - l) + 1;
    }
  }

  lemma CutSum(c: seq<nat>)
    requires CutCounts(c)
    ensures Start(c, 17) == 0x1_0001
  {
    CutStart(c, 16);
    Pow2Values();
    assert Start(c, 17) == Start(c, 16) + Shl(3, 0);
  }

  /** The counts after the repair: none at 15 and four at 16. */
  ghost predicate RepairedCounts(c: seq<nat>) {
    |c| == 17 && c[16] == 4 && c[15] == 0 && forall l :: 1 <= l <= 14 ==> c[l] == 1
  }

  lemma OneRepair(c: seq<nat>, n: nat)
    requires CutCounts(c) && Repairable(c, 0x1_0001, n)
    ensures RepairedCounts(Repair(c, 0x1_0001, n))
  {
    hide Start, Codes, Borrow;
    var k := RepairTakes(c, 0x1_0001, n);
    assert c[15] == 1;
    RepairStepKeeps(c, 0x1_0001, n);
    RepairDone(RepairStep(c), n);
  }

  lemma RepairDone(c: seq<nat>, n: nat)
    requires Repairable(c, 0x1_0000, n)
    ensures Repair(c, 0x1_0000, n) == c
  {
  }

  lemma CutLengths(f: seq<nat>)
    requires Fibonacci(f)
    ensures Codable(f) && RepairedCounts(LengthCounts(f))
  {
    hide Fibonacci, Symbols, Total, Grow, DepthCounts, Start, Repair, CutCounts, RepairedCounts, Uncut;
    TreeIsCut(f);
    var t := Grow(f);
    var c := DepthCounts(t.lefts, t.rights, |f|, Root(f), 0);
    CutSum(c);
    GrowRepairable(f);
    RootRepairable(t.lefts, t.rights, |f|, Root(f));
    OneRepair(c, |Symbols(f, |f|)|);
  }

  lemma {:induction false} ShortLengths(c: seq<nat>, l: nat, i: nat)
    requires RepairedCounts(c) && i < l <= 14
    ensures i < |LengthList(c, l)| == l && LengthList(c, l)[i] == l - i
  {
    if i > 0 {
      ShortLengths(c, l - 1, i - 1);
    } else if l > 1 {
      ShortLengths(c, l - 1, 0);
    }
  }

  lemma LongLengths(c: seq<nat>, i: nat)
    requires RepairedCounts(c) && i < 18
    ensures |LengthList(c, 16)| == 18 && LengthList(c, 16)[i] == if i < 4 then 16 else 18 - i
  {
    ShortLengths(c, 14, 0);
    assert LengthList(c, 15) == Repeat(15, 0) + LengthList(c, 14);
    assert LengthList(c, 16) == Repeat(16, 4) + LengthList(c, 15);
    if i >= 4 {
      ShortLengths(c, 14, i - 4);
    }
  }

  lemma {:induction false} Increasing(s: seq<nat>, i: nat)
    requires i < |s| && forall j :: 0 <= j < |s| ==> s[j] < |s|
    requires forall j, k :: 0 <= j < k < |s| ==> s[j] < s[k]
    ensures i <= s[i]
  {
    if i > 0 {
      Increasing(s, i - 1);
    }
  }

  lemma {:induction false} IncreasingAbove(s: seq<nat>, i: nat)
    requires i < |s| && forall j :: 0 <= j < |s| ==> s[j] < |s|
    requires forall j, k :: 0 <= j < k < |s| ==> s[j] < s[k]
    ensures s[i] <= i
    decreases |s| - i
  {
    if i < |s| - 1 {
      IncreasingAbove(s, i + 1);
    }
  }

  /** The symbols leave the heap in their order. */
  lemma SortedIs(f: seq<nat>, i: nat)
    requires Fibonacci(f) && Codable(f) && i < 18
    ensures |f| == 18 && |Grow(f).sorted| == 18 && Grow(f).sorted[i] == i
  {
    hide Fibonacci, Grow, Symbols, Total;
    TotalSmall(f);
    SortedLength(f);
    var s := Grow(f).sorted;
    forall j, k | 0 <= j < k < 18
      ensures s[j] < s[k]
    {
      if s[k] < s[j] {
        FreqOrder(f, s[k], s[j]);
      }
    }
    Increasing(s, i);
    IncreasingAbove(s, i);
  }

  lemma LengthIs(f: seq<nat>, x: nat)
    requires Fibonacci(f) && x < 18
    ensures |f| == 18 && Codable(f) && CodeLens(f)[x] == if x < 4 then 16 else 18 - x
  {
    hide Fibonacci, Grow, Symbols, Total, CodeLens, LengthCounts, LengthList, Codable;
    TotalSmall(f);
    CutLengths(f);
    Positive(f, x);
    var i := LengthOf(f, x);
    SortedIs(f, i);
    LongLengths(LengthCounts(f), x);
  }

  // ---- A better code ----

  /** Ones, and a zero behind them but for symbol 0. */
  function CombCode(x: nat): seq<bool>
    requires x < 18
  {
    if x == 0 then seq(17, _ => true) else seq(17 - x, _ => true) + [false]
  }

  lemma CombFree(x: nat, y: nat)
    requires x < 18 && y < 18 && x != y
    ensures !(CombCode(x) <= CombCode(y))
  {
    var a, b := CombCode(x), CombCode(y);
    if |a| <= |b| {
      var i := if x == 0 then 16 else 17 - x;
      assert a[i] != b[i];
    }
  }

  lemma CombBits(f: seq<nat>, h: seq<nat>, g: seq<nat>, i: nat)
    requires |f| == |h| == |g| == 18 && 4 <= i <= 18
    requires forall x :: 0 <= x < 18 ==> h[x] == if x < 4 then 16 else 18 - x
    requires forall x :: 0 <= x < 18 ==> g[x] == if x == 0 then 17 else 18 - x
    ensures TotalBits(f[..i], h[..i]) + f[0] + f[1] == TotalBits(f[..i], g[..i]) + f[3]
    decreases i
  {
    if i == 4 {
      FourBits(f, h);
      FourBits(f, g);
    } else {
      CombBits(f, h, g, i - 1);
      BitsNext(f, h, i - 1);
      BitsNext(f, g, i - 1);
    }
  }

  lemma BitsNext(f: seq<nat>, h: seq<nat>, i: nat)
    requires |f| == |h| && i < |f|
    ensures TotalBits(f[..i + 1], h[..i + 1]) == TotalBits(f[..i], h[..i]) + f[i] * h[i]
  {
    assert f[..i + 1][..i] == f[..i] && h[..i + 1][..i] == h[..i];
  }

  lemma FourBits(f: seq<nat>, h: seq<nat>)
    requires |f| == |h| == 18
    ensures TotalBits(f[..4], h[..4]) == f[0] * h[0] + f[1] * h[1] + f[2] * h[2] + f[3] * h[3]
  {
    hide TotalBits;
    BitsNext(f, h, 0);
    BitsNext(f, h, 1);
    BitsNext(f, h, 2);
    BitsNext(f, h, 3);
    assert f[..0] == [] && h[..0] == [] && TotalBits([], []) == 0 by { NoBits(); }
  }

  lemma NoBits()
    ensures TotalBits([], []) == 0
  {
  }

  lemma CutCosts(f: seq<nat>, code: seq<seq<bool>>)
    requires Fibonacci(f) && code == seq(18, x requires 0 <= x < 18 => CombCode(x))
    ensures |f| == 18 && Codable(f) && TotalBits(f, CodeLens(f)) == TotalBits(f, Lengths(code)) + 2
  {
    hide CodeLens, TotalBits, CombCode, Codable;
    var h, g := CutLens(f), Lengths(code);
    forall x | 0 <= x < 18
      ensures g[x] == if x == 0 then 17 else 18 - x
    {
      CombLength(x);
    }
    CombBits(f, h, g, 18);
    FibonacciValues(f);
    assert f[..18] == f && h[..18] == h && g[..18] == g;
  }

  ghost function CutLens(f: seq<nat>): (h: seq<nat>)
    requires Fibonacci(f)
    ensures |f| == 18 && Codable(f) && h == CodeLens(f)
    ensures |h| == 18 && forall x :: 0 <= x < 18 ==> h[x] == if x < 4 then 16 else 18 - x
  {
    CutLensAre(f);
    CodeLens(f)
  }

  lemma CutLensAre(f: seq<nat>)
    requires Fibonacci(f)
    ensures |f| == 18 && Codable(f)
    ensures forall x :: 0 <= x < 18 ==> CodeLens(f)[x] == if x < 4 then 16 else 18 - x
  {
    hide CodeLens, Codable;
    CutLengths(f);
    forall x | 0 <= x < 18
      ensures CodeLens(f)[x] == if x < 4 then 16 else 18 - x
    {
      LengthIs(f, x);
    }
  }

  lemma CombLength(x: nat)
    requires x < 18
    ensures |CombCode(x)| == if x == 0 then 17 else 18 - x
  {
  }

  lemma Eighteen() returns (f: seq<nat>)
    ensures |f| == 18 && Fibonacci(f)
  {
    f := [1, 2, 3, 5, 8, 13, 21, 34, 55, 89, 144, 233, 377, 610, 987, 1597, 2584, 4181];
  }

  /** The limit can cost bits: a table whose tree it cuts, and a prefix code that takes two bits fewer. */
  lemma CutIsWorse() returns (f: seq<nat>, code: seq<seq<bool>>)
    ensures Codable(f) && !Uncut(f) && PrefixCode(f, code)
    ensures TotalBits(f, Lengths(code)) + 2 == TotalBits(f, CodeLens(f))
  {
    hide CodeLens, TotalBits, CombCode, Codable, Uncut, Fibonacci;
    f := Eighteen();
    code := seq(18, x requires 0 <= x < 18 => CombCode(x));
    TreeIsCut(f);
    CutCosts(f, code);
    forall x, y | 0 <= x < 18 && 0 <= y < 18 && x != y
      ensures !(code[x] <= code[y])
    {
      CombFree(x, y);
    }
  }
}
