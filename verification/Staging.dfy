/** The staging buffer: tokens in groups of eight, each group after a byte of eight flags. */
module Staging {
  import opened Bits
  import opened Tokens

  // ---- Flag bytes ----

  /** Flag `j` of a flag byte, the most significant first. */
  predicate Flag(b: nat, j: nat)
    requires j < 8
  {
    Shr(b, 7 - j) % 2 == 1
  }

  lemma {:induction false} ShrOr(a: nat, b: nat, n: nat)
    ensures Shr(BitOr(a, b), n) % 2 == 1 <==> Shr(a, n) % 2 == 1 || Shr(b, n) % 2 == 1
    decreases n
  {
    if a == 0 || b == 0 {
      ShrZero(n);
    } else if n > 0 {
      ShrOr(a / 2, b / 2, n - 1);
    }
  }

  lemma {:induction false} ShrPower(m: nat, n: nat)
    ensures Shr(Pow2(m), n) % 2 == 1 <==> m == n
    decreases n
  {
    if n > 0 {
      if m > 0 {
        ShrPower(m - 1, n - 1);
      } else {
        ShrZero(n - 1);
      }
    }
  }

  lemma {:induction false} ShrZero(n: nat)
    ensures Shr(0, n) == 0
  {
    if n > 0 {
      ShrZero(n - 1);
    }
  }

  lemma {:induction false} ShrShl(b: nat, j: nat, n: nat)
    requires j <= n
    ensures Shr(Shl(b, j), n) == Shr(b, n - j)
  {
    if j > 0 {
      ShrShl(b, j - 1, n - 1);
    }
  }

  lemma {:induction false} BitOrBound(a: nat, b: nat, n: nat)
    requires a < Pow2(n) && b < Pow2(n)
    ensures BitOr(a, b) < Pow2(n)
    decreases n
  {
    if n > 0 {
      BitOrBound(a / 2, b / 2, n - 1);
    }
  }

  lemma FlagFits(b: Byte, j: nat)
    requires j < 8
    ensures BitOr(b, Pow2(7 - j)) < 256
  {
    assert Pow2(8) == 256 by { Pow2Values(); }
    Pow2Monotone(8 - j, 8);
    BitOrBound(b, Pow2(7 - j), 8);
  }

  /** Setting flag `j` with the mask of `CompressOutput` changes no other flag. */
  lemma SetFlag(b: Byte, j: nat, k: nat)
    requires j < 8 && k < 8
    ensures Flag(BitOr(b, Pow2(7 - j)), k) <==> k == j || Flag(b, k)
  {
    ShrOr(b, Pow2(7 - j), 7 - k);
    ShrPower(7 - j, 7 - k);
  }

  lemma NoFlags()
    ensures forall k :: 0 <= k < 8 ==> !Flag(0, k)
  {
    forall k | 0 <= k < 8
      ensures !Flag(0, k)
    {
      ShrZero(7 - k);
    }
  }

  // ---- Layout ----

  function TokenSize(t: Token): nat {
    if t.Lit? then 1 else 3
  }

  /** The bytes that tokens take, with the flag byte of every group. */
  function BytesUsed(toks: seq<Token>): nat {
    if toks == [] then 0
    else
      var n := |toks| - 1;
      BytesUsed(toks[..n]) + (if n % 8 == 0 then 1 else 0) + TokenSize(toks[n])
  }

  /** Where token number `i` is. */
  function At(toks: seq<Token>, i: nat): nat
    requires i <= |toks|
  {
    BytesUsed(toks[..i]) + (if i % 8 == 0 then 1 else 0)
  }

  /** The first token of the group of token number `i`. */
  function GroupStart(i: nat): (g: nat)
    ensures g <= i < g + 8 && g % 8 == 0 && (i % 8 == 0 ==> g == i)
  {
    i - i % 8
  }

  lemma GroupOrder(i: nat, n: nat)
    requires i < n
    ensures (GroupStart(i) == GroupStart(n) && i % 8 < n % 8) || i < GroupStart(n)
  {
  }

  /** Where the flag byte of the group of token number `i` is. */
  function FlagPos(toks: seq<Token>, i: nat): nat
    requires i <= |toks|
  {
    BytesUsed(toks[..GroupStart(i)])
  }

  lemma UsedNext(toks: seq<Token>, i: nat)
    requires i < |toks|
    ensures BytesUsed(toks[..i + 1]) == At(toks, i) + TokenSize(toks[i])
  {
    assert toks[..i + 1][..i] == toks[..i];
  }

  lemma {:induction false} UsedGrows(toks: seq<Token>, i: nat, j: nat)
    requires i < j <= |toks|
    ensures BytesUsed(toks[..i]) < BytesUsed(toks[..j])
    ensures i % 8 == 0 ==> BytesUsed(toks[..i]) + 1 < BytesUsed(toks[..j])
    decreases j
  {
    UsedNext(toks, j - 1);
    if i < j - 1 {
      UsedGrows(toks, i, j - 1);
    }
  }

  lemma AtAfterFlags(toks: seq<Token>, g: nat, i: nat)
    requires g <= i <= |toks| && g % 8 == 0
    ensures BytesUsed(toks[..g]) < At(toks, i)
  {
    hide BytesUsed;
    if g < i {
      UsedGrows(toks, g, i);
    }
  }

  lemma {:induction false} UsedAtLeast(toks: seq<Token>)
    ensures |toks| <= BytesUsed(toks)
  {
    if toks != [] {
      UsedAtLeast(toks[..|toks| - 1]);
    }
  }

  /** The bytes of a token: the low byte of its symbol and, for a pointer, its position. */
  predicate TokenAt(buf: seq<Byte>, p: nat, t: Token)
  {
    && p + TokenSize(t) <= |buf|
    && buf[p] == CharSymbol(t) % 256
    && (t.Ptr? ==> buf[p + 1] == t.pos / 256 && buf[p + 2] == t.pos % 256)
  }

  predicate StagedAt(buf: seq<Byte>, toks: seq<Token>, i: nat)
    requires i < |toks|
  {
    && TokenAt(buf, At(toks, i), toks[i])
    && FlagPos(toks, i) < |buf|
    && (Flag(buf[FlagPos(toks, i)], i % 8) <==> toks[i].Ptr?)
  }

  /** The buffer holds these tokens. */
  ghost predicate Staged(buf: seq<Byte>, toks: seq<Token>)
  {
    forall i :: 0 <= i < |toks| ==> StagedAt(buf, toks, i)
  }

  /** `buf'` differs from `buf` only in free bytes and in free flags of the open group. */
  ghost predicate Keeps(buf: seq<Byte>, buf': seq<Byte>, toks: seq<Token>)
  {
    var n, fp := |toks|, FlagPos(toks, |toks|);
    && |buf'| == |buf|
    && BytesUsed(toks) <= |buf|
    && (forall p :: 0 <= p < BytesUsed(toks) && p != fp ==> buf'[p] == buf[p])
    && (n % 8 != 0 ==> fp < |buf| && forall k :: 0 <= k < n % 8 ==> (Flag(buf'[fp], k) <==> Flag(buf[fp], k)))
  }

  /** The bytes of earlier tokens lie below the free space and are not the open flag byte. */
  lemma TokenClear(toks: seq<Token>, i: nat)
    requires i < |toks|
    ensures var fp := FlagPos(toks, |toks|);
      && At(toks, i) + TokenSize(toks[i]) <= BytesUsed(toks)
      && (At(toks, i) + TokenSize(toks[i]) <= fp || fp < At(toks, i))
  {
    hide BytesUsed, At, GroupStart;
    var n, g := |toks|, GroupStart(|toks|);
    UsedNext(toks, i);
    assert toks[..n] == toks;
    if i + 1 < n {
      UsedGrows(toks, i + 1, n);
    }
    if i + 1 < g {
      UsedGrows(toks, i + 1, g);
    } else if g <= i {
      AtAfterFlags(toks, g, i);
    }
  }

  lemma FlagClear(toks: seq<Token>, i: nat)
    requires i < |toks|
    ensures var fp := FlagPos(toks, |toks|);
      && FlagPos(toks, i) < BytesUsed(toks)
      && (FlagPos(toks, i) != fp || i % 8 < |toks| % 8)
  {
    hide BytesUsed, GroupStart;
    var n := |toks|;
    assert toks[..n] == toks;
    UsedGrows(toks, GroupStart(i), n);
    GroupOrder(i, n);
    if i < GroupStart(n) {
      UsedGrows(toks, GroupStart(i), GroupStart(n));
    }
  }

  lemma KeepsStaged(buf: seq<Byte>, buf': seq<Byte>, toks: seq<Token>, i: nat)
    requires i < |toks| && StagedAt(buf, toks, i) && Keeps(buf, buf', toks)
    ensures StagedAt(buf', toks, i)
  {
    hide BytesUsed, Flag;
    TokenClear(toks, i);
    FlagClear(toks, i);
  }

  lemma SamePlace(toks: seq<Token>, t: Token, i: nat)
    requires i <= |toks|
    ensures At(toks + [t], i) == At(toks, i) && FlagPos(toks + [t], i) == FlagPos(toks, i)
  {
    assert (toks + [t])[..i] == toks[..i];
    assert (toks + [t])[..GroupStart(i)] == toks[..GroupStart(i)];
  }

  /** Adding a token: its bytes after the used ones, its flag in the open group. */
  lemma StagedSnoc(buf: seq<Byte>, buf': seq<Byte>, toks: seq<Token>, t: Token)
    requires Staged(buf, toks) && Keeps(buf, buf', toks)
    requires TokenAt(buf', At(toks, |toks|), t)
    requires FlagPos(toks, |toks|) < |buf'| && (Flag(buf'[FlagPos(toks, |toks|)], |toks| % 8) <==> t.Ptr?)
    ensures Staged(buf', toks + [t])
  {
    hide Keeps, Flag, TokenAt, At, FlagPos;
    forall i | 0 <= i < |toks| + 1
      ensures StagedAt(buf', toks + [t], i)
    {
      SamePlace(toks, t, i);
      if i < |toks| {
        KeepsStaged(buf, buf', toks, i);
      }
    }
  }
}
