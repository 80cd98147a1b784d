/** Canonical prefix codes: what `MakeCode` assigns and what a decoder reads back. */
module CanonicalCode {
  import opened Bits

  /** How often `x` occurs in `s`. */
  function Count(s: seq<nat>, x: nat): nat {
    if s == [] then 0 else Count(s[..|s| - 1], x) + (if s[|s| - 1] == x then 1 else 0)
  }

  /** The number of symbols of each code length, 0 to 16. */
  function Counts(lens: seq<nat>): (r: seq<nat>)
    ensures |r| == 17
    ensures forall l :: 0 <= l <= 16 ==> r[l] == Count(lens, l)
  {
    seq(17, l requires 0 <= l => Count(lens, l))
  }

  ghost predicate ValidLens(lens: seq<nat>)
  {
    forall i :: 0 <= i < |lens| ==> lens[i] <= 16
  }

  /** The code space below the codes of length `l`, in units of 2^-16. */
  function Start(c: seq<nat>, l: nat): nat
    requires |c| == 17 && 1 <= l <= 17
  {
    if l == 1 then 0 else Start(c, l - 1) + Shl(c[l - 1], 17 - l)
  }

  /** The Kraft equality: the codes use up the code space exactly. */
  predicate Complete(c: seq<nat>)
    requires |c| == 17
  {
    Start(c, 17) == 0x1_0000
  }

  /** The first code of length `l` before any 16-bit wrap: `Start[]` of `MakeCode`. */
  function FirstCode(c: seq<nat>, l: nat): nat
    requires |c| == 17 && 1 <= l <= 17
  {
    if l == 1 then 0 else 2 * (FirstCode(c, l - 1) + c[l - 1])
  }

  /** The number of earlier symbols with the same length. */
  function Rank(lens: seq<nat>, i: nat): nat
    requires i < |lens|
  {
    Count(lens[..i], lens[i])
  }

  ghost predicate Used(lens: seq<nat>, i: nat)
  {
    i < |lens| && 1 <= lens[i] <= 16
  }

  /** The code of a used symbol. */
  ghost function CodeOf(lens: seq<nat>, i: nat): nat
    requires Used(lens, i)
  {
    FirstCode(Counts(lens), lens[i]) + Rank(lens, i)
  }

  /** The code of a used symbol as bits. */
  ghost function CodeBits(lens: seq<nat>, i: nat): seq<bool>
    requires Used(lens, i)
  {
    Field(lens[i], CodeOf(lens, i))
  }

  // ---- The decoder's view: every symbol owns an interval of 16-bit values ----

  function Low(lens: seq<nat>, i: nat): nat
    requires i < |lens| && 1 <= lens[i] <= 16
  {
    Start(Counts(lens), lens[i]) + Shl(Rank(lens, i), 16 - lens[i])
  }

  predicate Owns(lens: seq<nat>, i: nat, v: nat)
    requires i < |lens|
  {
    1 <= lens[i] <= 16 && Low(lens, i) <= v < Low(lens, i) + Pow2(16 - lens[i])
  }

  /** The first symbol at or after `i` that owns `v`, or |lens|. */
  function Lookup(lens: seq<nat>, v: nat, i: nat): (r: nat)
    requires i <= |lens|
    ensures i <= r <= |lens| && (r < |lens| ==> Owns(lens, r, v))
    ensures forall j :: i <= j < r ==> !Owns(lens, j, v)
    decreases |lens| - i
  {
    if i == |lens| || Owns(lens, i, v) then i else Lookup(lens, v, i + 1)
  }

  /** The next 16 bits, with zeros after the end. */
  function Peek(bits: seq<bool>): nat {
    Value((bits + Zeros(16))[..16])
  }

  datatype Decoded<+T> = None | Some(value: T, rest: seq<bool>)

  /** Section 19.4 of the UEFI Specification: look the next bits up, drop the code's length. */
  function DecodeSymbol(lens: seq<nat>, bits: seq<bool>): Decoded<nat> {
    var i := Lookup(lens, Peek(bits), 0);
    if i < |lens| && lens[i] <= |bits| then Some(i, bits[lens[i]..]) else None
  }

  // ---- Counting ----

  lemma {:induction false} CountPrefix(s: seq<nat>, x: nat, i: nat, j: nat)
    requires i <= j <= |s|
    ensures Count(s[..i], x) <= Count(s[..j], x)
    ensures i < j && s[i] == x ==> Count(s[..i], x) < Count(s[..j], x)
  {
    if i < j {
      CountPrefix(s, x, i, j - 1);
      assert s[..j][..j - 1] == s[..j - 1];
    }
  }

  lemma RankBelowCount(lens: seq<nat>, i: nat)
    requires i < |lens|
    ensures Rank(lens, i) < Count(lens, lens[i])
  {
    CountPrefix(lens, lens[i], i, |lens|);
    assert lens[..|lens|] == lens;
  }

  lemma RankInjective(lens: seq<nat>, i: nat, j: nat)
    requires i < j < |lens| && lens[i] == lens[j]
    ensures Rank(lens, i) < Rank(lens, j)
  {
    CountPrefix(lens, lens[i], i, j);
  }

  /** Every rank below the count is taken by some symbol. */
  lemma {:induction false} SymbolOfRank(lens: seq<nat>, l: nat, k: nat) returns (i: nat)
    requires k < Count(lens, l)
    ensures i < |lens| && lens[i] == l && Rank(lens, i) == k
  {
    var n := |lens| - 1;
    if lens[n] == l && Count(lens[..n], l) == k {
      i := n;
    } else {
      i := SymbolOfRank(lens[..n], l, k);
      assert lens[..n][..i] == lens[..i];
    }
  }

  // ---- The code space ----

  lemma {:induction false} StartMonotone(c: seq<nat>, a: nat, b: nat)
    requires |c| == 17 && 1 <= a <= b <= 17
    ensures Start(c, a) <= Start(c, b)
  {
    if a < b {
      StartMonotone(c, a, b - 1);
    }
  }

  /** The encoder's first codes are the decoder's starts, shifted. */
  lemma {:induction false} FirstCodeIsStart(c: seq<nat>, l: nat)
    requires |c| == 17 && 1 <= l <= 16
    ensures Shl(FirstCode(c, l), 16 - l) == Start(c, l)
  {
    if l == 1 {
      ShlZero(15);
    } else {
      FirstCodeIsStart(c, l - 1);
      ShlAdd(FirstCode(c, l - 1), c[l - 1], 17 - l);
      ShlShl(FirstCode(c, l - 1) + c[l - 1], 1, 16 - l);
    }
  }

  /** A symbol's interval ends no later than the next length begins. */
  lemma IntervalFits(lens: seq<nat>, i: nat)
    requires Used(lens, i)
    ensures Low(lens, i) == Shl(CodeOf(lens, i), 16 - lens[i])
    ensures Start(Counts(lens), lens[i]) <= Low(lens, i)
    ensures Low(lens, i) + Pow2(16 - lens[i]) <= Start(Counts(lens), lens[i] + 1)
  {
    var c, l := Counts(lens), lens[i];
    FirstCodeIsStart(c, l);
    ShlAdd(FirstCode(c, l), Rank(lens, i), 16 - l);
    RankBelowCount(lens, i);
    ShlAdd(Rank(lens, i), 1, 16 - l);
    ShlOne(16 - l);
    ShlMonotone(Rank(lens, i) + 1, c[l], 16 - l);
  }

  /** Shorter codes come first, and codes of one length in the order of their symbols. */
  ghost predicate Earlier(lens: seq<nat>, i: nat, j: nat)
    requires i < |lens| && j < |lens|
  {
    lens[i] < lens[j] || (lens[i] == lens[j] && i < j)
  }

  /** The codes are canonical: read as binary fractions they ascend with length and symbol, and none begins before an
      earlier one ends. */
  lemma CodesAscend(lens: seq<nat>, i: nat, j: nat)
    requires Used(lens, i) && Used(lens, j) && Earlier(lens, i, j)
    ensures Shl(CodeOf(lens, i), 16 - lens[i]) + Pow2(16 - lens[i]) <= Shl(CodeOf(lens, j), 16 - lens[j])
  {
    hide Count, Counts, Pow2, Rank, Shl, Start, CodeOf;
    IntervalFits(lens, i);
    IntervalFits(lens, j);
    if lens[i] < lens[j] {
      StartMonotone(Counts(lens), lens[i] + 1, lens[j]);
    } else {
      var n := 16 - lens[i];
      RankInjective(lens, i, j);
      ShlMonotone(Rank(lens, i) + 1, Rank(lens, j), n);
      ShlAdd(Rank(lens, i), 1, n);
      ShlOne(n);
    }
  }

  /** No code is a prefix of another: the intervals of different symbols are disjoint. */
  lemma CodesDisjoint(lens: seq<nat>, i: nat, j: nat, v: nat)
    requires i < |lens| && j < |lens| && Owns(lens, i, v) && Owns(lens, j, v)
    ensures i == j
  {
    hide Low, CodeOf, Pow2, Shl;
    IntervalFits(lens, i);
    IntervalFits(lens, j);
    if Earlier(lens, i, j) {
      CodesAscend(lens, i, j);
    } else if Earlier(lens, j, i) {
      CodesAscend(lens, j, i);
    }
  }

  lemma {:induction false} FindLength(c: seq<nat>, v: nat, top: nat) returns (l: nat)
    requires |c| == 17 && 2 <= top <= 17 && v < Start(c, top)
    ensures 1 <= l < top && Start(c, l) <= v < Start(c, l + 1)
  {
    if top == 2 || Start(c, top - 1) <= v {
      l := top - 1;
    } else {
      l := FindLength(c, v, top - 1);
    }
  }

  /** A complete code leaves no bit string undecodable. */
  lemma CodesCover(lens: seq<nat>, v: nat) returns (i: nat)
    requires Complete(Counts(lens)) && v < 0x1_0000
    ensures i < |lens| && Owns(lens, i, v)
  {
    var c := Counts(lens);
    var l := FindLength(c, v, 17);
    var d, s := v - Start(c, l), 16 - l;
    var k := Shr(d, s);
    ShrLow(d, s);
    ValueBound(Field(s, d));
    if k >= c[l] {
      ShlMonotone(c[l], k, s);
      assert false;
    }
    i := SymbolOfRank(lens, l, k);
  }

  // ---- Decoding what was encoded ----

  lemma {:induction false} StartBound(c: seq<nat>, l: nat)
    requires |c| == 17 && 1 <= l <= 17 && Complete(c)
    ensures Start(c, l) <= 0x1_0000
  {
    StartMonotone(c, l, 17);
  }

  /** A code fits its length. */
  lemma CodeBound(lens: seq<nat>, i: nat)
    requires Used(lens, i) && Complete(Counts(lens))
    ensures CodeOf(lens, i) < Pow2(lens[i])
  {
    IntervalFits(lens, i);
    StartBound(Counts(lens), lens[i] + 1);
    if CodeOf(lens, i) >= Pow2(lens[i]) {
      ShlMonotone(Pow2(lens[i]), CodeOf(lens, i), 16 - lens[i]);
      Pow2Sum(lens[i], 16 - lens[i]);
      Pow2Values();
      assert false;
    }
  }

  /** Sixteen bits that begin with a code fall into that code's interval. */
  lemma PeekCode(code: seq<bool>, rest: seq<bool>)
    requires |code| <= 16
    ensures Shl(Value(code), 16 - |code|) <= Peek(code + rest)
          < Shl(Value(code), 16 - |code|) + Pow2(16 - |code|)
  {
    hide Pow2;
    var n := 16 - |code|;
    var tail := (rest + Zeros(16))[..n];
    assert (code + rest + Zeros(16))[..16] == code + tail;
    ValueConcat(code, tail);
    ValueBound(tail);
  }

  /** The decoder inverts the code: whatever follows, it reads the symbol and stops behind it. */
  lemma DecodeCode(lens: seq<nat>, i: nat, rest: seq<bool>)
    requires Used(lens, i) && Complete(Counts(lens))
    ensures DecodeSymbol(lens, CodeBits(lens, i) + rest) == Some(i, rest)
  {
    var code := CodeBits(lens, i);
    CodeBound(lens, i);
    ValueField(lens[i], CodeOf(lens, i));
    PeekCode(code, rest);
    IntervalFits(lens, i);
    var v := Peek(code + rest);
    var j := Lookup(lens, v, 0);
    assert Owns(lens, i, v);
    CodesDisjoint(lens, i, j, v);
    assert (code + rest)[lens[i]..] == rest;
  }

  /** No code is a prefix of another. */
  lemma PrefixFree(lens: seq<nat>, i: nat, j: nat)
    requires Used(lens, i) && Used(lens, j) && Complete(Counts(lens)) && CodeBits(lens, i) <= CodeBits(lens, j)
    ensures i == j
  {
    hide DecodeSymbol, CodeBits, Used;
    var rest := CodeBits(lens, j)[|CodeBits(lens, i)|..];
    assert CodeBits(lens, j) == CodeBits(lens, i) + rest && CodeBits(lens, j) + [] == CodeBits(lens, j);
    DecodeCode(lens, i, rest);
    DecodeCode(lens, j, []);
  }

  lemma ShlInterval(x: nat, y: nat, n: nat, v: nat)
    requires Shl(x, n) <= v < Shl(x, n) + Pow2(n) && Shl(y, n) <= v < Shl(y, n) + Pow2(n)
    ensures x == y
  {
    ShlOne(n);
    if x < y {
      ShlAdd(x, 1, n);
      ShlMonotone(x + 1, y, n);
    } else if y < x {
      ShlAdd(y, 1, n);
      ShlMonotone(y + 1, x, n);
    }
  }

  /** Every long enough bit string starts with exactly one code. */
  lemma ExactlyOneCode(lens: seq<nat>, bits: seq<bool>) returns (i: nat)
    requires Complete(Counts(lens)) && |bits| >= 16
    ensures Used(lens, i) && CodeBits(lens, i) <= bits
    ensures forall j: nat :: Used(lens, j) && CodeBits(lens, j) <= bits ==> j == i
  {
    hide Start, Counts, Complete, FirstCode, Rank, Low;
    var v := Peek(bits);
    assert v < 0x1_0000 by {
      ValueBound((bits + Zeros(16))[..16]);
      Pow2Values();
    }
    i := CodesCover(lens, v);
    var code := bits[..lens[i]];
    assert bits == code + bits[lens[i]..];
    PeekCode(code, bits[lens[i]..]);
    IntervalFits(lens, i);
    ShlInterval(Value(code), CodeOf(lens, i), 16 - lens[i], v);
    FieldValue(code);
    forall j: nat | Used(lens, j) && CodeBits(lens, j) <= bits
      ensures j == i
    {
      assert bits == CodeBits(lens, j) + bits[lens[j]..] && bits == CodeBits(lens, i) + bits[lens[i]..];
      DecodeCode(lens, j, bits[lens[j]..]);
      DecodeCode(lens, i, bits[lens[i]..]);
    }
  }

  // ---- MakeCode ----

  lemma WrapShift(x: nat, y: nat, q: int)
    requires x == y + 0x1_0000 * q
    ensures Wrap16(x) == Wrap16(y)
  {
    var r := y % 0x1_0000;
    assert x == 0x1_0000 * (y / 0x1_0000 + q) + r;
  }

  /** Truncating early or late makes no difference. */
  lemma WrapAdd(a: nat, k: nat)
    ensures Wrap16(Wrap16(a) + k) == Wrap16(a + k)
    ensures Wrap16(2 * (Wrap16(a) + k)) == Wrap16(2 * (a + k))
  {
    var q := a / 0x1_0000;
    WrapShift(a + k, Wrap16(a) + k, q);
    WrapShift(2 * (a + k), 2 * (Wrap16(a) + k), 2 * q);
  }

  /** The UINT16 starting codes of `MakeCode`; `start[0]` is left as it happens to be. */
  method MakeStart(lenCnt: array<nat>, ghost c: seq<nat>) returns (start: array<nat>)
    requires lenCnt.Length == |c| == 17 && forall l :: 1 <= l <= 16 ==> lenCnt[l] == c[l]
    ensures fresh(start) && start.Length == 18
    ensures forall l :: 1 <= l <= 17 ==> start[l] == Wrap16(FirstCode(c, l))
  {
    start := new nat[18];
    start[1] := 0;
    for l := 1 to 17
      invariant forall k :: 1 <= k <= l ==> start[k] == Wrap16(FirstCode(c, k))
    {
      WrapAdd(FirstCode(c, l), c[l]);
      start[l + 1] := Wrap16(2 * (start[l] + lenCnt[l]));
    }
  }

  lemma CountSnoc(s: seq<nat>, i: nat, x: nat)
    requires i < |s|
    ensures Count(s[..i + 1], x) == Count(s[..i], x) + (if s[i] == x then 1 else 0)
  {
    assert s[..i + 1][..i] == s[..i];
  }

  /** The running codes after the first `i` symbols. */
  ghost predicate Running(start: seq<nat>, lens: seq<nat>, i: nat)
  {
    && i <= |lens| && |start| == 18
    && forall l :: 1 <= l <= 16 ==> start[l] == Wrap16(FirstCode(Counts(lens), l) + Count(lens[..i], l))
  }

  lemma RunningStep(start: seq<nat>, lens: seq<nat>, i: nat)
    requires Running(start, lens, i) && i < |lens| && lens[i] <= 16
    ensures Running(start[lens[i] := Wrap16(start[lens[i]] + 1)], lens, i + 1)
    ensures Used(lens, i) ==> start[lens[i]] == Wrap16(CodeOf(lens, i))
  {
    forall l | 1 <= l <= 16
      ensures start[lens[i] := Wrap16(start[lens[i]] + 1)][l]
           == Wrap16(FirstCode(Counts(lens), l) + Count(lens[..i + 1], l))
    {
      CountSnoc(lens, i, l);
      WrapAdd(FirstCode(Counts(lens), l) + Count(lens[..i], l), 1);
    }
  }

  /** The first `i` used symbols have their codes. */
  ghost predicate Coded(code: seq<nat>, lens: seq<nat>, i: nat)
  {
    i <= |lens| && i <= |code| && forall j :: 0 <= j < i && Used(lens, j) ==> code[j] == Wrap16(CodeOf(lens, j))
  }

  /** `MakeCode`: UINT16 arithmetic throughout, and nothing promised for symbols of length 0. */
  method MakeCode(n: nat, len: array<nat>, lenCnt: array<nat>, code: array<nat>)
    requires n <= len.Length && n <= code.Length && lenCnt.Length == 17
    requires code != len && code != lenCnt
    requires ValidLens(len[..n])
    requires forall l :: 1 <= l <= 16 ==> lenCnt[l] == Count(len[..n], l)
    modifies code
    ensures Coded(code[..], len[..n], n)
    ensures code[n..] == old(code[n..])
  {
    ghost var lens := len[..n];
    var start := MakeStart(lenCnt, Counts(lens));
    assert lens[..0] == [];
    for i := 0 to n
      invariant Running(start[..], lens, i)
      invariant Coded(code[..], lens, i)
      invariant code[n..] == old(code[n..])
    {
      RunningStep(start[..], lens, i);
      code[i] := start[len[i]];
      start[len[i]] := Wrap16(start[len[i]] + 1);
    }
  }
}
