/** Code lengths of a Huffman tree: `CountLen` and `MakeLen` with its limit of 16 bits. */
module CodeLengths {
  import opened Bits
  import opened HuffmanTree
  import opened CanonicalCode

  // ---- Leaves per depth ----

  function Clip(d: nat): (l: nat)
    ensures l <= 16
  {
    if d < 16 then d else 16
  }

  function Unit(l: nat): (r: seq<nat>)
    requires l <= 16
    ensures |r| == 17 && forall i :: 0 <= i <= 16 ==> r[i] == if i == l then 1 else 0
  {
    seq(17, i => if i == l then 1 else 0)
  }

  function Add(c: seq<nat>, d: seq<nat>): (r: seq<nat>)
    requires |c| == |d| == 17
    ensures |r| == 17 && forall i :: 0 <= i <= 16 ==> r[i] == c[i] + d[i]
  {
    seq(17, i requires 0 <= i <= 16 => c[i] + d[i])
  }

  /** How many leaves below `v`, itself at depth `d`, lie at each depth; 16 stands for 16 and deeper. */
  function DepthCounts(lefts: seq<nat>, rights: seq<nat>, n: nat, v: nat, d: nat): (r: seq<nat>)
    ensures |r| == 17
    decreases v
  {
    if Inner(lefts, rights, n, v)
    then Add(DepthCounts(lefts, rights, n, lefts[v - n], d + 1), DepthCounts(lefts, rights, n, rights[v - n], d + 1))
    else Unit(Clip(d))
  }

  /** The number of codes of the lengths 1 to `l`. */
  function Codes(c: seq<nat>, l: nat): nat
    requires |c| == 17 && l <= 16
  {
    if l == 0 then 0 else Codes(c, l - 1) + c[l]
  }

  lemma {:induction false} StartAdd(c: seq<nat>, d: seq<nat>, l: nat)
    requires |c| == |d| == 17 && 1 <= l <= 17
    ensures Start(Add(c, d), l) == Start(c, l) + Start(d, l)
    ensures Codes(Add(c, d), l - 1) == Codes(c, l - 1) + Codes(d, l - 1)
  {
    if l > 1 {
      StartAdd(c, d, l - 1);
      ShlAdd(c[l - 1], d[l - 1], 17 - l);
    }
  }

  lemma {:induction false} StartUnit(k: nat, l: nat)
    requires 1 <= k <= 16 && 1 <= l <= 17
    ensures Start(Unit(k), l) == if k < l then Pow2(16 - k) else 0
    ensures Codes(Unit(k), l - 1) == if k < l then 1 else 0
  {
    if l > 1 {
      StartUnit(k, l - 1);
      ShlOne(17 - l);
      ShlZero(17 - l);
    }
  }

  /** What truncating the depths of a full binary tree does to the Kraft sum: it can only exceed one
      by less than the number of leaves counted at depth 16. */
  lemma {:induction false} TreeKraft(lefts: seq<nat>, rights: seq<nat>, n: nat, v: nat, d: nat)
    requires 1 <= d
    ensures var c := DepthCounts(lefts, rights, n, v, d); var whole := Pow2(16 - Clip(d));
      && Codes(c, 16) == LeafCount(lefts, rights, n, v)
      && whole <= Start(c, 17)
      && (whole < Start(c, 17) ==> Start(c, 17) - whole < c[16])
      && (16 <= d ==> Start(c, 17) == c[16])
    decreases v
  {
    hide Start, Codes, Add;
    var c := DepthCounts(lefts, rights, n, v, d);
    if Inner(lefts, rights, n, v) {
      var a, b := lefts[v - n], rights[v - n];
      TreeKraft(lefts, rights, n, a, d + 1);
      TreeKraft(lefts, rights, n, b, d + 1);
      StartAdd(DepthCounts(lefts, rights, n, a, d + 1), DepthCounts(lefts, rights, n, b, d + 1), 17);
    } else {
      StartUnit(Clip(d), 17);
    }
  }

  lemma {:induction false} DepthCountsBound(lefts: seq<nat>, rights: seq<nat>, n: nat, v: nat, d: nat, k: nat)
    requires k <= 16
    ensures DepthCounts(lefts, rights, n, v, d)[k] <= LeafCount(lefts, rights, n, v)
    decreases v
  {
    if Inner(lefts, rights, n, v) {
      DepthCountsBound(lefts, rights, n, lefts[v - n], d + 1, k);
      DepthCountsBound(lefts, rights, n, rights[v - n], d + 1, k);
    }
  }

  // ---- The repair loop ----

  /** Lengthens one code of the greatest length at most `l` that has any, which frees none and adds one. */
  function Borrow(c: seq<nat>, l: nat): (r: seq<nat>)
    requires |c| == 17 && l <= 15
    ensures |r| == 17
  {
    if l == 0 then c
    else if c[l] != 0 then c[l := c[l] - 1][l + 1 := c[l + 1] + 2]
    else Borrow(c, l - 1)
  }

  /** One turn: drop a code of length 16 and put one in elsewhere. */
  function RepairStep(c: seq<nat>): (r: seq<nat>)
    requires |c| == 17 && c[16] > 0
    ensures |r| == 17
  {
    Borrow(c[16 := c[16] - 1], 15)
  }

  /** What the loop keeps: `n` codes, and fewer surplus units than codes of length 16. */
  ghost predicate Repairable(c: seq<nat>, cum: nat, n: nat)
  {
    && |c| == 17
    && cum == Start(c, 17) && 0x1_0000 <= cum
    && Codes(c, 16) == n < 0x1_0000
    && (0x1_0000 < cum ==> cum - 0x1_0000 < c[16])
  }

  lemma {:induction false} StartUpdate(c: seq<nat>, l: nat, k: nat)
    requires |c| == 17 && 1 <= l <= 17 && 1 <= k <= 16 && c[k] > 0
    ensures Start(c, l) == Start(c[k := c[k] - 1], l) + (if k < l then Pow2(16 - k) else 0)
    ensures Codes(c, l - 1) == Codes(c[k := c[k] - 1], l - 1) + (if k < l then 1 else 0)
  {
    if l > 1 {
      StartUpdate(c, l - 1, k);
      if k == l - 1 {
        ShlAdd(c[k] - 1, 1, 16 - k);
        ShlOne(16 - k);
      }
    }
  }

  /** Lengthening a code: the space stays the same, the number of codes grows by one. */
  lemma BorrowOne(c: seq<nat>, l: nat)
    requires |c| == 17 && 1 <= l <= 15 && c[l] > 0
    ensures var r := c[l := c[l] - 1][l + 1 := c[l + 1] + 2];
      Start(r, 17) == Start(c, 17) && Codes(r, 16) == Codes(c, 16) + 1
  {
    var a := c[l := c[l] - 1];
    var r := a[l + 1 := c[l + 1] + 2];
    var b := a[l + 1 := c[l + 1] + 1];
    StartUpdate(c, 17, l);
    StartUpdate(r, 17, l + 1);
    StartUpdate(b, 17, l + 1);
    assert r[l + 1 := r[l + 1] - 1] == b;
    assert b[l + 1 := b[l + 1] - 1] == a;
  }

  ghost predicate Empty(c: seq<nat>, l: nat, top: nat)
    requires |c| == 17 && top <= 15
  {
    forall i :: l < i <= top ==> c[i] == 0
  }

  lemma {:induction false} StartEmpty(c: seq<nat>, l: nat)
    requires |c| == 17 && 1 <= l <= 16 && Empty(c, 0, 15)
    ensures Start(c, l) == 0 && Codes(c, l - 1) == 0
  {
    if l > 1 {
      StartEmpty(c, l - 1);
      ShlZero(17 - l);
    }
  }

  lemma {:induction false} BorrowKeeps(c: seq<nat>, l: nat)
    requires |c| == 17 && l <= 15 && Empty(c, l, 15)
    requires Codes(c, 16) < Start(c, 17)
    ensures Start(Borrow(c, l), 17) == Start(c, 17) && Codes(Borrow(c, l), 16) == Codes(c, 16) + 1
    ensures c[16] <= Borrow(c, l)[16]
  {
    if l == 0 {
      StartEmpty(c, 16);
      assert false;
    } else if c[l] != 0 {
      BorrowOne(c, l);
    } else {
      BorrowKeeps(c, l - 1);
    }
  }

  /** A turn never runs a count below zero, keeps the number of codes and takes one unit off the sum. */
  lemma RepairStepKeeps(c: seq<nat>, cum: nat, n: nat)
    requires Repairable(c, cum, n) && 0x1_0000 < cum
    ensures Repairable(RepairStep(c), cum - 1, n)
  {
    var a := c[16 := c[16] - 1];
    StartUpdate(c, 17, 16);
    BorrowKeeps(a, 15);
  }

  lemma {:induction false} BorrowTakes(c: seq<nat>, l: nat) returns (k: nat)
    requires |c| == 17 && l <= 15 && Empty(c, l, 15) && Codes(c, 16) < Start(c, 17)
    ensures 1 <= k <= l && c[k] > 0 && Empty(c, k, 15)
    ensures forall i :: 0 <= i <= 16 ==>
      Borrow(c, l)[i] == if i == k then c[k] - 1 else if i == k + 1 then c[k + 1] + 2 else c[i]
  {
    if l == 0 {
      StartEmpty(c, 16);
      assert false;
    } else if c[l] != 0 {
      k := l;
    } else {
      k := BorrowTakes(c, l - 1);
    }
  }

  /** What a turn does: a code of length 16 goes, and the longest of the others becomes two that are one bit longer. */
  lemma RepairTakes(c: seq<nat>, cum: nat, n: nat) returns (k: nat)
    requires Repairable(c, cum, n) && 0x1_0000 < cum
    ensures 1 <= k <= 15 && c[k] > 0 && Empty(c, k, 15)
    ensures forall i :: 0 <= i <= 16 ==>
      RepairStep(c)[i] + (if i == k then 1 else 0) + (if i == 16 then 1 else 0) == c[i] + (if i == k + 1 then 2 else 0)
  {
    hide Start, Codes, Borrow;
    StartUpdate(c, 17, 16);
    var a := c[16 := c[16] - 1];
    k := BorrowTakes(a, 15);
    assert forall i :: 0 <= i <= 15 ==> a[i] == c[i];
  }

  function Repair(c: seq<nat>, cum: nat, ghost n: nat): (r: seq<nat>)
    requires Repairable(c, cum, n)
    ensures Repairable(r, 0x1_0000, n)
    decreases cum
  {
    if cum == 0x1_0000 then c
    else
      RepairStepKeeps(c, cum, n);
      Repair(RepairStep(c), cum - 1, n)
  }

  // ---- Handing the lengths out ----

  /** The lengths in the order in which they are handed out: longest first. */
  function LengthList(c: seq<nat>, l: nat): (r: seq<nat>)
    requires |c| == 17 && l <= 16
    ensures |r| == Codes(c, l)
    ensures forall i :: 0 <= i < |r| ==> 1 <= r[i] <= l
    ensures forall i, j :: 0 <= i < j < |r| ==> r[j] <= r[i]
  {
    if l == 0 then [] else Repeat(l, c[l]) + LengthList(c, l - 1)
  }

  /** The first `k` symbols of the list get their lengths; all others keep zero. */
  function HandOut(n: nat, sorted: seq<nat>, lengths: seq<nat>, k: nat): (r: seq<nat>)
    requires k <= |sorted| && k <= |lengths|
    ensures |r| == n
  {
    if k == 0 then seq(n, _ => 0)
    else
      var r := HandOut(n, sorted, lengths, k - 1);
      if sorted[k - 1] < n then r[sorted[k - 1] := lengths[k - 1]] else r
  }

  ghost predicate Distinct(s: seq<nat>)
  {
    forall i, j :: 0 <= i < j < |s| ==> s[i] != s[j]
  }

  lemma {:induction false} HandOutOne(n: nat, sorted: seq<nat>, lengths: seq<nat>, k: nat, i: nat)
    requires i < k <= |sorted| && k <= |lengths| && Distinct(sorted)
    requires forall j :: 0 <= j < |sorted| ==> sorted[j] < n
    ensures HandOut(n, sorted, lengths, k)[sorted[i]] == lengths[i]
  {
    if i < k - 1 {
      HandOutOne(n, sorted, lengths, k - 1, i);
    }
  }

  lemma {:induction false} HandOutNone(n: nat, sorted: seq<nat>, lengths: seq<nat>, k: nat, x: nat)
    requires k <= |sorted| && k <= |lengths| && x < n && x !in sorted[..k]
    requires forall j :: 0 <= j < |sorted| ==> sorted[j] < n
    ensures HandOut(n, sorted, lengths, k)[x] == 0
  {
    if k > 0 {
      assert sorted[..k] == sorted[..k - 1] + [sorted[k - 1]];
      HandOutNone(n, sorted, lengths, k - 1, x);
    }
  }

  lemma HandOutAt(n: nat, sorted: seq<nat>, lengths: seq<nat>, k: nat)
    requires k <= |sorted| && k <= |lengths| && Distinct(sorted)
    requires forall i :: 0 <= i < |sorted| ==> sorted[i] < n
    ensures forall i :: 0 <= i < k ==> HandOut(n, sorted, lengths, k)[sorted[i]] == lengths[i]
    ensures forall x :: 0 <= x < n && x !in sorted[..k] ==> HandOut(n, sorted, lengths, k)[x] == 0
  {
    hide HandOut, Distinct;
    forall i | 0 <= i < k
      ensures HandOut(n, sorted, lengths, k)[sorted[i]] == lengths[i]
    {
      HandOutOne(n, sorted, lengths, k, i);
    }
    forall x | 0 <= x < n && x !in sorted[..k]
      ensures HandOut(n, sorted, lengths, k)[x] == 0
    {
      HandOutNone(n, sorted, lengths, k, x);
    }
  }

  lemma {:induction false} CountUpdate(s: seq<nat>, i: nat, v: nat, l: nat)
    requires i < |s|
    ensures Count(s[i := v], l) + (if s[i] == l then 1 else 0) == Count(s, l) + (if v == l then 1 else 0)
  {
    var k := |s| - 1;
    if i < k {
      CountUpdate(s[..k], i, v, l);
      assert s[i := v][..k] == s[..k][i := v];
    } else {
      assert s[i := v][..k] == s[..k];
    }
  }

  lemma {:induction false} CountConcat(s: seq<nat>, t: seq<nat>, l: nat)
    ensures Count(s + t, l) == Count(s, l) + Count(t, l)
  {
    if t == [] {
      assert s + t == s;
    } else {
      CountConcat(s, t[..|t| - 1], l);
      assert (s + t)[..|s + t| - 1] == s + t[..|t| - 1];
    }
  }

  lemma {:induction false} CountRepeat(x: nat, k: nat, l: nat)
    ensures Count(Repeat(x, k), l) == if x == l then k else 0
  {
    if k > 0 {
      CountRepeat(x, k - 1, l);
      assert Repeat(x, k)[..k - 1] == Repeat(x, k - 1);
    }
  }

  lemma {:induction false} CountLengthList(c: seq<nat>, top: nat, l: nat)
    requires |c| == 17 && top <= 16 && 1 <= l
    ensures Count(LengthList(c, top), l) == if l <= top then c[l] else 0
  {
    if top > 0 {
      CountLengthList(c, top - 1, l);
      CountRepeat(top, c[top], l);
      CountConcat(Repeat(top, c[top]), LengthList(c, top - 1), l);
    }
  }

  /** Every length is handed out exactly as often as it was counted. */
  lemma {:induction false} CountHandOut(n: nat, sorted: seq<nat>, lengths: seq<nat>, k: nat, l: nat)
    requires k <= |sorted| && k <= |lengths| && Distinct(sorted) && 1 <= l
    requires forall i :: 0 <= i < |sorted| ==> sorted[i] < n
    ensures Count(HandOut(n, sorted, lengths, k), l) == Count(lengths[..k], l)
  {
    hide Count;
    if k == 0 {
      CountRepeat(0, 0, l);
      assert lengths[..0] == Repeat(0, 0);
      CountRepeat(0, n, l);
      assert HandOut(n, sorted, lengths, 0) == Repeat(0, n);
    } else {
      var r, x := HandOut(n, sorted, lengths, k - 1), sorted[k - 1];
      CountHandOut(n, sorted, lengths, k - 1, l);
      HandOutAt(n, sorted, lengths, k - 1);
      assert x !in sorted[..k - 1];
      CountUpdate(r, x, lengths[k - 1], l);
      CountSnoc(lengths, k - 1, l);
    }
  }

  // ---- The lengths of a frequency table ----

  /** A frequency table a tree is built for. */
  ghost predicate Codable(f: seq<nat>)
  {
    2 <= |Symbols(f, |f|)| < 0x1_0000 && Total(f) < 0x1_0000
  }

  /** The root of the tree of a frequency table with at least two symbols. */
  function Root(f: seq<nat>): nat
    requires 2 <= |Symbols(f, |f|)|
  {
    |f| + |Symbols(f, |f|)| - 2
  }

  lemma RootRepairable(lefts: seq<nat>, rights: seq<nat>, n: nat, root: nat)
    requires Inner(lefts, rights, n, root) && LeafCount(lefts, rights, n, root) < 0x1_0000
    ensures var c := DepthCounts(lefts, rights, n, root, 0);
      Repairable(c, Start(c, 17), LeafCount(lefts, rights, n, root))
  {
    var a, b := lefts[root - n], rights[root - n];
    TreeKraft(lefts, rights, n, a, 1);
    TreeKraft(lefts, rights, n, b, 1);
    StartAdd(DepthCounts(lefts, rights, n, a, 1), DepthCounts(lefts, rights, n, b, 1), 17);
    Pow2Values();
  }

  lemma GrowRepairable(f: seq<nat>)
    requires Codable(f)
    ensures var t := Grow(f);
      && Inner(t.lefts, t.rights, |f|, Root(f))
      && LeafCount(t.lefts, t.rights, |f|, Root(f)) == |Symbols(f, |f|)|
  {
    GrowGood(f, Root(f));
  }

  /** `MakeLen`'s length counts for a frequency table with at least two symbols. */
  function LengthCounts(f: seq<nat>): (c: seq<nat>)
    requires Codable(f)
    ensures Repairable(c, 0x1_0000, |Symbols(f, |f|)|)
  {
    var t := Grow(f);
    var c := DepthCounts(t.lefts, t.rights, |f|, Root(f), 0);
    GrowRepairable(f);
    RootRepairable(t.lefts, t.rights, |f|, Root(f));
    Repair(c, Start(c, 17), |Symbols(f, |f|)|)
  }

  /** The code lengths of `MakeTree`: none are needed for fewer than two symbols. */
  function CodeLens(f: seq<nat>): (lens: seq<nat>)
    requires Codable(f)
    ensures |lens| == |f|
  {
    SortedLength(f);
    HandOut(|f|, Grow(f).sorted, LengthList(LengthCounts(f), 16), |Grow(f).sorted|)
  }

  lemma SameSize(s: seq<nat>, t: seq<nat>, n: nat)
    requires forall i :: 0 <= i < |s| ==> s[i] < n
    requires forall i :: 0 <= i < |t| ==> t[i] < n
    requires forall x :: 0 <= x < n ==> multiset(s)[x] == multiset(t)[x]
    ensures |s| == |t|
  {
    assert forall x :: x in multiset(s) ==> x in s;
    assert forall x :: x in multiset(t) ==> x in t;
    assert multiset(s) == multiset(t);
    assert |multiset(s)| == |s|;
  }

  /** As many symbols were noted as occur, and no symbol twice. */
  lemma SortedLength(f: seq<nat>)
    requires Codable(f)
    ensures SortedSymbols(Grow(f).sorted, f) && Distinct(Grow(f).sorted)
    ensures |Grow(f).sorted| == |Symbols(f, |f|)|
  {
    hide Distinct, Inner, Shape, SortedSymbols, Symbols, Total, Grow;
    GrowGood(f, Root(f));
    SymbolsOnce(f, |f|);
    SameSize(Grow(f).sorted, Symbols(f, |f|), |f|);
    OnceDistinct(Grow(f).sorted, |f|);
  }

  lemma CountedTwice(s: seq<nat>, i: nat, j: nat)
    requires i < j < |s| && s[i] == s[j]
    ensures multiset(s)[s[i]] >= 2
  {
    assert s == s[..i] + [s[i]] + s[i + 1..j] + [s[j]] + s[j + 1..];
  }

  lemma OnceDistinct(s: seq<nat>, n: nat)
    requires forall i :: 0 <= i < |s| ==> s[i] < n
    requires forall x :: 0 <= x < n ==> multiset(s)[x] <= 1
    ensures Distinct(s)
  {
    forall i, j | 0 <= i < j < |s|
      ensures s[i] != s[j]
    {
      if s[i] == s[j] {
        CountedTwice(s, i, j);
        assert false;
      }
    }
  }

  /** What the lengths are good for: a complete code of at most 16 bits for exactly the used symbols,
      in which no symbol is longer than a rarer one. */
  ghost predicate GoodLens(lens: seq<nat>, f: seq<nat>)
  {
    && |lens| == |f|
    && ValidLens(lens)
    && Complete(Counts(lens))
    && (forall x :: 0 <= x < |f| ==> (f[x] == 0 <==> lens[x] == 0))
    && (forall x, y :: 0 <= x < |f| && 0 <= y < |f| && f[y] != 0 && f[x] > f[y] ==> lens[x] <= lens[y])
  }

  lemma {:induction false} StartAgree(c: seq<nat>, d: seq<nat>, l: nat)
    requires |c| == |d| == 17 && 1 <= l <= 17
    requires forall i :: 1 <= i <= 16 ==> c[i] == d[i]
    ensures Start(c, l) == Start(d, l)
  {
    if l > 1 {
      StartAgree(c, d, l - 1);
    }
  }

  /** The counts of the lengths handed out are the repaired counts. */
  lemma CodeLensCounts(f: seq<nat>, l: nat)
    requires Codable(f) && 1 <= l <= 16
    ensures Count(CodeLens(f), l) == LengthCounts(f)[l]
  {
    hide Count, DepthCounts, HandOut, LengthCounts, LengthList, Start, Symbols, Grow;
    var s, list := Grow(f).sorted, LengthList(LengthCounts(f), 16);
    SortedLength(f);
    CountHandOut(|f|, s, list, |s|, l);
    assert list[..|s|] == list;
    CountLengthList(LengthCounts(f), 16, l);
  }

  lemma CodeLensComplete(f: seq<nat>)
    requires Codable(f)
    ensures Complete(Counts(CodeLens(f)))
  {
    var c := Counts(CodeLens(f));
    forall l | 1 <= l <= 16
      ensures c[l] == LengthCounts(f)[l]
    {
      CodeLensCounts(f, l);
    }
    StartAgree(c, LengthCounts(f), 17);
  }

  lemma UsedIsSorted(s: seq<nat>, f: seq<nat>, x: nat)
    requires SortedSymbols(s, f) && x < |f|
    ensures f[x] != 0 <==> x in s
  {
    assert x in s <==> multiset(s)[x] > 0;
  }

  /** A position of a used symbol in the ascending list, whose length the symbol gets. */
  lemma LengthOf(f: seq<nat>, x: nat) returns (i: nat)
    requires Codable(f) && x < |f| && f[x] != 0
    ensures i < |Grow(f).sorted| && Grow(f).sorted[i] == x
    ensures i < |LengthList(LengthCounts(f), 16)| && CodeLens(f)[x] == LengthList(LengthCounts(f), 16)[i]
  {
    var s := Grow(f).sorted;
    SortedLength(f);
    UsedIsSorted(s, f, x);
    i :| 0 <= i < |s| && s[i] == x;
    HandOutAt(|f|, s, LengthList(LengthCounts(f), 16), |s|);
  }

  lemma LengthZero(f: seq<nat>, x: nat)
    requires Codable(f) && x < |f| && f[x] == 0
    ensures CodeLens(f)[x] == 0
  {
    var s := Grow(f).sorted;
    SortedLength(f);
    UsedIsSorted(s, f, x);
    HandOutAt(|f|, s, LengthList(LengthCounts(f), 16), |s|);
    assert s[..|s|] == s;
  }

  lemma LengthOrder(f: seq<nat>, x: nat, y: nat)
    requires Codable(f) && x < |f| && y < |f| && f[y] != 0 && f[x] > f[y]
    ensures CodeLens(f)[x] <= CodeLens(f)[y]
  {
    var i := LengthOf(f, x);
    var j := LengthOf(f, y);
    SortedLength(f);
    var s := Grow(f).sorted;
    if i < j {
      assert false;
    }
  }

  /** The main result about `MakeTree`'s lengths. */
  lemma CodeLensGood(f: seq<nat>)
    requires Codable(f)
    ensures GoodLens(CodeLens(f), f)
  {
    var lens := CodeLens(f);
    CodeLensComplete(f);
    forall x | 0 <= x < |f|
      ensures lens[x] <= 16 && (f[x] == 0 <==> lens[x] == 0)
    {
      if f[x] == 0 {
        LengthZero(f, x);
      } else {
        var i := LengthOf(f, x);
      }
    }
    forall x, y | 0 <= x < |f| && 0 <= y < |f| && f[y] != 0 && f[x] > f[y]
      ensures lens[x] <= lens[y]
    {
      LengthOrder(f, x, y);
    }
  }

  // ---- Tables with any number of symbols ----

  /** What `MakeTree` returns: the root, or the only symbol, or 0. */
  function TreeRoot(f: seq<nat>): nat {
    var s := Symbols(f, |f|);
    if |s| == 0 then 0 else if |s| == 1 then s[0] else Root(f)
  }

  /** The lengths `MakeTree` leaves behind; a single symbol needs no bits. */
  function TreeLens(f: seq<nat>): (lens: seq<nat>)
    requires Total(f) < 0x1_0000 && |f| < 0x1_0000
    ensures |lens| == |f|
  {
    SymbolsBound(f, |f|);
    if |Symbols(f, |f|)| < 2 then Repeat(0, |f|) else CodeLens(f)
  }

  lemma {:induction false} TotalFew(f: seq<nat>, i: nat)
    requires i <= |f| && |Symbols(f, i)| < 2
    ensures Total(f[..i]) == if |Symbols(f, i)| == 0 then 0 else f[Symbols(f, i)[0]]
    ensures |Symbols(f, i)| == 0 ==> forall j :: 0 <= j < i ==> f[j] == 0
  {
    if i > 0 {
      TotalFew(f, i - 1);
      assert f[..i][..i - 1] == f[..i - 1];
    }
  }
}
