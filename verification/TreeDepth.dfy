/** How deep the tree of `MakeTree` can be: a leaf at depth `h` takes a total that grows like the Fibonacci numbers. */
module TreeDepth {
  import opened HuffmanHeap
  import opened HuffmanTree
  import opened CodeLengths
  import opened Exchange
  import opened Optimality

  /** The least total of a tree with a leaf at depth `h`: the Fibonacci numbers from 1 and 2 on. */
  function Fib(h: nat): nat {
    if h == 0 then 1 else if h == 1 then 2 else Fib(h - 1) + Fib(h - 2)
  }

  /** Every node weighs what its children weigh, children come in ascending order, and none is empty. */
  ghost predicate Ascending(lefts: seq<nat>, rights: seq<nat>, freq: seq<nat>, n: nat) {
    && Rooted(lefts, rights, n) && |freq| == n + |lefts|
    && (forall i :: 0 <= i < |lefts| ==>
          freq[n + i] == freq[lefts[i]] + freq[rights[i]] && 1 <= freq[lefts[i]] && 1 <= freq[rights[i]])
    && (forall i, j :: 0 <= i < j < |lefts| ==> AtMostBoth(freq, lefts[i], rights[i], lefts[j], rights[j]))
  }

  predicate AtMostBoth(freq: seq<nat>, a: nat, b: nat, c: nat, d: nat)
    requires a < |freq| && b < |freq| && c < |freq| && d < |freq|
  {
    freq[a] <= freq[c] && freq[a] <= freq[d] && freq[b] <= freq[c] && freq[b] <= freq[d]
  }

  /** The nodes that are left are not empty and at least as heavy as those that were taken. */
  ghost predicate Heavy(m: multiset<nat>, lefts: seq<nat>, rights: seq<nat>, freq: seq<nat>, n: nat)
    requires Rooted(lefts, rights, n) && |freq| == n + |lefts|
  {
    && Below(m, |freq|) && (forall x :: x in m ==> 1 <= freq[x])
    && forall i, x :: 0 <= i < |lefts| && x in m ==> freq[lefts[i]] <= freq[x] && freq[rights[i]] <= freq[x]
  }

  lemma StepOrder(m: multiset<nat>, lefts: seq<nat>, rights: seq<nat>, freq: seq<nat>, n: nat, a: nat, b: nat, i: nat,
                  j: nat)
    requires Ascending(lefts, rights, freq, n) && Heavy(m, lefts, rights, freq, n) && a in m && b in m
    requires i < j <= |lefts|
    ensures var l, r := lefts + [a], rights + [b]; AtMostBoth(freq + [freq[a] + freq[b]], l[i], r[i], l[j], r[j])
  {
    if j < |lefts| {
      assert AtMostBoth(freq, lefts[i], rights[i], lefts[j], rights[j]);
    }
  }

  lemma AscendingStep(m: multiset<nat>, lefts: seq<nat>, rights: seq<nat>, freq: seq<nat>, n: nat, a: nat, b: nat)
    requires Ascending(lefts, rights, freq, n) && Heavy(m, lefts, rights, freq, n)
    requires Least(a, m, freq) && Least(b, m - multiset{a}, freq)
    ensures Ascending(lefts + [a], rights + [b], freq + [freq[a] + freq[b]], n)
  {
    hide AtMostBoth;
    assert b in m;
    var l, r, g := lefts + [a], rights + [b], freq + [freq[a] + freq[b]];
    forall i, j | 0 <= i < j < |l|
      ensures AtMostBoth(g, l[i], r[i], l[j], r[j])
    {
      StepOrder(m, lefts, rights, freq, n, a, b, i, j);
    }
  }

  lemma HeavyStep(m: multiset<nat>, lefts: seq<nat>, rights: seq<nat>, freq: seq<nat>, n: nat, a: nat, b: nat)
    requires Ascending(lefts, rights, freq, n) && Heavy(m, lefts, rights, freq, n)
    requires Least(a, m, freq) && Least(b, m - multiset{a}, freq)
    ensures Rooted(lefts + [a], rights + [b], n)
    ensures Heavy(Joined(m, a, b, |freq|), lefts + [a], rights + [b], freq + [freq[a] + freq[b]], n)
  {
    assert a in m && b in m;
    var m', l, r, g := Joined(m, a, b, |freq|), lefts + [a], rights + [b], freq + [freq[a] + freq[b]];
    forall i, x | 0 <= i < |l| && x in m'
      ensures g[l[i]] <= g[x] && g[r[i]] <= g[x]
    {
      if x < |freq| {
        assert x in m - multiset{a} - multiset{b};
        assert x in m && x in m - multiset{a};
      }
    }
  }

  /** Both, with the nodes `m` left. */
  ghost predicate Settled(m: multiset<nat>, lefts: seq<nat>, rights: seq<nat>, freq: seq<nat>, n: nat) {
    Ascending(lefts, rights, freq, n) && Heavy(m, lefts, rights, freq, n)
  }

  lemma SettledStep(m: multiset<nat>, lefts: seq<nat>, rights: seq<nat>, freq: seq<nat>, n: nat, a: nat, b: nat)
    requires Settled(m, lefts, rights, freq, n) && Least(a, m, freq) && Least(b, m - multiset{a}, freq)
    ensures Settled(Joined(m, a, b, |freq|), lefts + [a], rights + [b], freq + [freq[a] + freq[b]], n)
  {
    hide Ascending, Heavy, Joined;
    AscendingStep(m, lefts, rights, freq, n, a, b);
    HeavyStep(m, lefts, rights, freq, n, a, b);
  }

  lemma PlantSettled(f: seq<nat>)
    requires 1 <= |Symbols(f, |f|)|
    ensures Settled(UsedSymbols(f), [], [], f, |f|)
  {
    hide UsedSymbols, Once, Symbols;
    UsedOnce(f);
  }

  lemma {:induction false} TurnsSettled(f: seq<nat>, k: nat)
    requires k < |Symbols(f, |f|)| && Total(f) < 0x1_0000
    ensures var s := Turns(f, k); Settled(Live(s.heap), s.lefts, s.rights, s.freq, |f|)
  {
    hide Turns, Symbols, Total, UsedSymbols, Live, Joined, Least, Settled;
    if k == 0 {
      PlantIs(f);
      PlantSettled(f);
    } else {
      TurnsSettled(f, k - 1);
      var a, b := TurnTakes(f, k);
      var s := Turns(f, k - 1);
      SettledStep(Live(s.heap), s.lefts, s.rights, s.freq, |f|, a, b);
    }
  }

  /** There is a leaf `h` levels or more below `v`. */
  predicate Tall(lefts: seq<nat>, rights: seq<nat>, n: nat, v: nat, h: nat)
    decreases v
  {
    h == 0 || (Inner(lefts, rights, n, v)
               && (Tall(lefts, rights, n, lefts[v - n], h - 1) || Tall(lefts, rights, n, rights[v - n], h - 1)))
  }

  lemma {:induction false} DeepIsTall(lefts: seq<nat>, rights: seq<nat>, n: nat, v: nat, d: nat)
    requires !Shallow(lefts, rights, n, v, d) && d <= 17
    ensures Tall(lefts, rights, n, v, 17 - d)
    decreases v
  {
    if Inner(lefts, rights, n, v) && d < 17 {
      if !Shallow(lefts, rights, n, lefts[v - n], d + 1) {
        DeepIsTall(lefts, rights, n, lefts[v - n], d + 1);
      } else {
        DeepIsTall(lefts, rights, n, rights[v - n], d + 1);
      }
    }
  }

  /** A child that is tall makes its sibling heavy. */
  lemma {:induction false} TallIsHeavy(lefts: seq<nat>, rights: seq<nat>, freq: seq<nat>, n: nat, v: nat, h: nat)
    requires Ascending(lefts, rights, freq, n) && v < |freq| && 1 <= freq[v] && Tall(lefts, rights, n, v, h)
    ensures Fib(h) <= freq[v]
    decreases v
  {
    if h > 0 {
      var a, b := lefts[v - n], rights[v - n];
      if Tall(lefts, rights, n, a, h - 1) {
        TallChild(lefts, rights, freq, n, v, a, b, h);
      } else {
        TallChild(lefts, rights, freq, n, v, b, a, h);
      }
    }
  }

  lemma {:induction false} TallChild(lefts: seq<nat>, rights: seq<nat>, freq: seq<nat>, n: nat, v: nat, c: nat, d: nat,
                                     h: nat)
    requires Ascending(lefts, rights, freq, n) && n <= v < |freq| && h > 0
    requires (c == lefts[v - n] && d == rights[v - n]) || (c == rights[v - n] && d == lefts[v - n])
    requires Tall(lefts, rights, n, c, h - 1)
    ensures Fib(h) <= freq[v]
    decreases v, 0
  {
    TallIsHeavy(lefts, rights, freq, n, c, h - 1);
    if h > 1 {
      assert AtMostBoth(freq, lefts[c - n], rights[c - n], lefts[v - n], rights[v - n]);
      var e := if Tall(lefts, rights, n, lefts[c - n], h - 2) then lefts[c - n] else rights[c - n];
      TallIsHeavy(lefts, rights, freq, n, e, h - 2);
    }
  }

  /** A table with a total below 4181, the least that a tree with a leaf at depth 17 has, is not cut. */
  lemma SmallIsUncut(f: seq<nat>)
    requires 2 <= |Symbols(f, |f|)| && Total(f) < 4181
    ensures Uncut(f)
  {
    hide Symbols, Total, Turns, Ascending, Shallow;
    if !Uncut(f) {
      var t, root := Grow(f), Root(f);
      GrowGood(f, root);
      TurnsSettled(f, |Symbols(f, |f|)| - 1);
      DeepIsTall(t.lefts, t.rights, |f|, root, 0);
      RootOnly(f);
      TallIsHeavy(t.lefts, t.rights, t.freq, |f|, root, 17);
      FibSeventeen();
    }
  }

  lemma FibSeventeen()
    ensures Fib(17) == 4181
  {
    assert Fib(5) == 13 && Fib(6) == 21;
    assert Fib(7) == 34 && Fib(8) == 55;
    assert Fib(9) == 89 && Fib(10) == 144;
    assert Fib(11) == 233 && Fib(12) == 377;
    assert Fib(13) == 610 && Fib(14) == 987;
    assert Fib(15) == 1597 && Fib(16) == 2584;
  }
}
