/** Prefix codes of any lengths satisfy Kraft's inequality. */
module PrefixCodes {
  import opened Bits
  import opened HuffmanTree
  import opened Exchange

  function Lengths(code: seq<seq<bool>>): (ls: seq<nat>)
    ensures |ls| == |code| && forall x :: 0 <= x < |code| ==> ls[x] == |code[x]|
  {
    seq(|code|, x requires 0 <= x < |code| => |code[x]|)
  }

  /** No code of a node in `m` begins that of another. */
  ghost predicate PrefixFreeOn(m: multiset<nat>, code: seq<seq<bool>>)
    requires Below(m, |code|)
  {
    forall x, y :: x in m && y in m && x != y ==> !(code[x] <= code[y])
  }

  function Tail(c: seq<bool>): seq<bool> {
    if c == [] then [] else c[1..]
  }

  function Tails(code: seq<seq<bool>>): (r: seq<seq<bool>>)
    ensures |r| == |code| && forall x :: 0 <= x < |code| ==> r[x] == Tail(code[x])
  {
    seq(|code|, x requires 0 <= x < |code| => Tail(code[x]))
  }

  /** The nodes whose codes begin with `bit`. */
  ghost function Beginning(m: multiset<nat>, code: seq<seq<bool>>, bit: bool): multiset<nat>
    requires Below(m, |code|)
  {
    multiset(set x | x in m && code[x] != [] && code[x][0] == bit)
  }

  lemma {:induction false} TimesAdd(a: nat, b: nat, x: nat)
    ensures Times(a + b, x) == Times(a, x) + Times(b, x)
  {
    if a > 0 {
      TimesAdd(a - 1, b, x);
    }
  }

  lemma {:induction false} SumBoth(m: multiset<nat>, m': multiset<nat>, w: seq<nat>)
    ensures Sum(m + m', w) == Sum(m, w) + Sum(m', w)
  {
    if w != [] {
      var k := |w| - 1;
      SumBoth(m, m', w[..k]);
      TimesAdd(m[k], m'[k], w[k]);
    }
  }

  lemma BeginningIs(m: multiset<nat>, code: seq<seq<bool>>)
    requires Once(m) && Below(m, |code|) && forall x :: x in m ==> code[x] != []
    ensures m == Beginning(m, code, false) + Beginning(m, code, true)
  {
  }

  lemma PrefixTail(a: seq<bool>, b: seq<bool>)
    requires a != [] && b != [] && a[0] == b[0]
    ensures a <= b <==> Tail(a) <= Tail(b)
  {
    assert a == [a[0]] + a[1..] && b == [b[0]] + b[1..];
  }

  lemma TailsFree(m: multiset<nat>, code: seq<seq<bool>>, bit: bool)
    requires Below(m, |code|) && PrefixFreeOn(m, code)
    ensures Below(Beginning(m, code, bit), |code|) && PrefixFreeOn(Beginning(m, code, bit), Tails(code))
  {
    var h, t := Beginning(m, code, bit), Tails(code);
    forall x, y | x in h && y in h && x != y
      ensures !(t[x] <= t[y])
    {
      PrefixTail(code[x], code[y]);
    }
  }

  lemma BeginningOnce(m: multiset<nat>, code: seq<seq<bool>>, bit: bool)
    requires Below(m, |code|)
    ensures var h := Beginning(m, code, bit);
      Once(h) && Below(h, |code|) && forall x :: x in h ==> x in m && code[x] != []
  {
  }

  lemma TailSpace(code: seq<seq<bool>>, x: nat, d: nat)
    requires x < |code| && 1 <= |code[x]| <= d + 1
    ensures Space(Lengths(code), d + 1)[x] == Space(Lengths(Tails(code)), d)[x]
  {
    hide Pow2;
    assert d + 1 - |code[x]| == d - |Tails(code)[x]|;
  }

  lemma HalfSpace(m: multiset<nat>, code: seq<seq<bool>>, bit: bool, d: nat)
    requires Below(m, |code|) && forall x :: x in m ==> |code[x]| <= d + 1
    ensures var h := Beginning(m, code, bit);
      && Once(h) && Below(h, |code|) && (forall x :: x in h ==> |Tails(code)[x]| <= d)
      && Sum(h, Space(Lengths(code), d + 1)) == Sum(h, Space(Lengths(Tails(code)), d))
  {
    hide Beginning, Sum, Space, Lengths, Once;
    BeginningOnce(m, code, bit);
    var h := Beginning(m, code, bit);
    forall x | 0 <= x < |code| && x in h
      ensures Space(Lengths(code), d + 1)[x] == Space(Lengths(Tails(code)), d)[x]
    {
      TailSpace(code, x, d);
    }
    SumAgree(h, Space(Lengths(Tails(code)), d), Space(Lengths(code), d + 1));
  }

  /** Each half of the code space is taken by the codes that begin with its bit. */
  lemma TwoHalves(m: multiset<nat>, code: seq<seq<bool>>, d: nat)
    requires Once(m) && Below(m, |code|) && forall x :: x in m ==> 1 <= |code[x]| <= d + 1
    requires Sum(Beginning(m, code, false), Space(Lengths(Tails(code)), d)) <= Pow2(d)
    requires Sum(Beginning(m, code, true), Space(Lengths(Tails(code)), d)) <= Pow2(d)
    ensures Sum(m, Space(Lengths(code), d + 1)) <= Pow2(d + 1)
  {
    hide Sum, Space, Once, Beginning, Tails, Lengths;
    BeginningIs(m, code);
    SumBoth(Beginning(m, code, false), Beginning(m, code, true), Space(Lengths(code), d + 1));
    HalfSpace(m, code, false, d);
    HalfSpace(m, code, true, d);
  }

  lemma OneCode(m: multiset<nat>, code: seq<seq<bool>>, d: nat, x: nat)
    requires Once(m) && Below(m, |code|) && PrefixFreeOn(m, code) && x in m && code[x] == []
    ensures Sum(m, Space(Lengths(code), d)) == Pow2(d)
  {
    hide Sum, Once, Pow2;
    var w := Space(Lengths(code), d);
    OnlyOne(m, code, x);
    SumSingle(x, w, |w|);
    assert w[..|w|] == w;
  }

  /** Kraft's inequality. */
  lemma {:induction false} Kraft(m: multiset<nat>, code: seq<seq<bool>>, d: nat)
    requires Once(m) && Below(m, |code|) && PrefixFreeOn(m, code) && forall x :: x in m ==> |code[x]| <= d
    ensures Sum(m, Space(Lengths(code), d)) <= Pow2(d)
    decreases d
  {
    hide Sum, Space, Pow2, Once, Beginning, Tails, Lengths, PrefixFreeOn;
    if x :| x in m && code[x] == [] {
      OneCode(m, code, d, x);
    } else if d == 0 {
      assert forall x :: x !in m;
      SumNone(m, Space(Lengths(code), d));
    } else {
      HalfSpace(m, code, false, d - 1);
      HalfSpace(m, code, true, d - 1);
      TailsFree(m, code, false);
      TailsFree(m, code, true);
      Kraft(Beginning(m, code, false), Tails(code), d - 1);
      Kraft(Beginning(m, code, true), Tails(code), d - 1);
      TwoHalves(m, code, d - 1);
    }
  }

  lemma SumNone(m: multiset<nat>, w: seq<nat>)
    requires Once(m) && forall x :: x !in m
    ensures Sum(m, w) == 0
  {
    SumZero(m, w);
  }

  lemma OnlyOne(m: multiset<nat>, code: seq<seq<bool>>, x: nat)
    requires Once(m) && Below(m, |code|) && PrefixFreeOn(m, code) && x in m && code[x] == []
    ensures m == multiset{x}
  {
    assert forall y :: y in m ==> code[x] <= code[y];
    assert forall y :: y in m ==> y == x;
  }
}
