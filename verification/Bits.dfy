/** Bit strings, most significant bit first, shifts, and packing into bytes. */
module Bits {

  type Byte = x: nat | x < 256

  /** Truncation to UINT16. */
  function Wrap16(x: nat): nat {
    x % 0x1_0000
  }

  /** Truncation to UINT32. */
  function Wrap32(x: nat): nat {
    x % 0x1_0000_0000
  }

  lemma WrapSmall(x: nat)
    ensures x < 0x1_0000 ==> Wrap16(x) == x
    ensures x < 0x1_0000_0000 ==> Wrap32(x) == x
  {
  }

  lemma Wrap32Add(x: nat, k: nat)
    ensures Wrap32(Wrap32(x) + k) == Wrap32(x + k)
  {
    assert x + k == Wrap32(x) + k + 0x1_0000_0000 * (x / 0x1_0000_0000);
  }

  function Pow2(n: nat): (r: nat)
    ensures r > 0
  {
    if n == 0 then 1 else 2 * Pow2(n - 1)
  }

  /** Shift left, without any width. */
  function Shl(x: nat, n: nat): nat {
    if n == 0 then x else 2 * Shl(x, n - 1)
  }

  /** Shift right. */
  function Shr(x: nat, n: nat): nat {
    if n == 0 then x else Shr(x / 2, n - 1)
  }

  /** Bitwise or. */
  function BitOr(a: nat, b: nat): nat {
    if a == 0 then b
    else if b == 0 then a
    else 2 * BitOr(a / 2, b / 2) + (if a % 2 == 1 || b % 2 == 1 then 1 else 0)
  }

  /** The low `n` bits of `x`, most significant first. */
  function Field(n: nat, x: nat): (r: seq<bool>)
    ensures |r| == n
  {
    if n == 0 then [] else Field(n - 1, x / 2) + [x % 2 == 1]
  }

  /** The number a bit string denotes. */
  function Value(b: seq<bool>): nat {
    if b == [] then 0 else 2 * Value(b[..|b| - 1]) + (if b[|b| - 1] then 1 else 0)
  }

  function Zeros(n: nat): (r: seq<bool>)
    ensures |r| == n
  {
    seq(n, _ => false)
  }

  // ---- Shifts and powers ----

  lemma {:induction false} Pow2Monotone(a: nat, b: nat)
    requires a <= b
    ensures Pow2(a) <= Pow2(b)
  {
    if a < b {
      Pow2Monotone(a, b - 1);
    }
  }

  lemma Pow2Values()
    ensures Pow2(3) == 8 && Pow2(4) == 16 && Pow2(5) == 32 && Pow2(8) == 256 && Pow2(9) == 512
    ensures Pow2(13) == 8192 && Pow2(15) == 0x8000 && Pow2(16) == 0x1_0000 && Pow2(24) == 0x100_0000
  {
    Pow2Sum(4, 4);
    Pow2Sum(8, 8);
    Pow2Sum(16, 8);
    Pow2Sum(8, 5);
  }

  lemma {:induction false} Pow2Sum(a: nat, b: nat)
    ensures Pow2(a + b) == Shl(Pow2(a), b)
  {
    if b > 0 {
      Pow2Sum(a, b - 1);
    }
  }

  lemma {:induction false} ShlOne(n: nat)
    ensures Shl(1, n) == Pow2(n)
  {
    if n > 0 {
      ShlOne(n - 1);
    }
  }

  lemma {:induction false} ShlZero(n: nat)
    ensures Shl(0, n) == 0
  {
    if n > 0 {
      ShlZero(n - 1);
    }
  }

  lemma {:induction false} ShlAdd(x: nat, y: nat, n: nat)
    ensures Shl(x + y, n) == Shl(x, n) + Shl(y, n)
  {
    if n > 0 {
      ShlAdd(x, y, n - 1);
    }
  }

  lemma {:induction false} ShlShl(x: nat, m: nat, n: nat)
    ensures Shl(Shl(x, m), n) == Shl(x, m + n)
  {
    if n > 0 {
      ShlShl(x, m, n - 1);
    }
  }

  lemma {:induction false} ShlMonotone(x: nat, y: nat, n: nat)
    requires x <= y
    ensures Shl(x, n) <= Shl(y, n)
  {
    if n > 0 {
      ShlMonotone(x, y, n - 1);
    }
  }

  lemma {:induction false} ShlBound(x: nat, m: nat, n: nat)
    requires x < Pow2(m)
    ensures Shl(x, n) < Pow2(m + n)
  {
    if n > 0 {
      ShlBound(x, m, n - 1);
    }
  }

  lemma {:induction false} ShrBound(x: nat, m: nat, n: nat)
    requires x < Pow2(m + n)
    ensures Shr(x, n) < Pow2(m)
  {
    if n > 0 {
      ShrBound(x / 2, m, n - 1);
    }
  }

  /** A number is its high part shifted back plus its low field. */
  lemma {:induction false} ShrLow(x: nat, n: nat)
    ensures x == Shl(Shr(x, n), n) + Value(Field(n, x))
  {
    if n > 0 {
      ShrLow(x / 2, n - 1);
      assert Field(n, x)[..n - 1] == Field(n - 1, x / 2);
    }
  }

  /** Or is addition when the operands occupy different bits. */
  lemma {:induction false} BitOrDisjoint(a: nat, k: nat, b: nat)
    requires b < Pow2(k)
    ensures BitOr(Shl(a, k), b) == Shl(a, k) + b
  {
    if k > 0 {
      BitOrDisjoint(a, k - 1, b / 2);
    }
  }

  // ---- Fields and values ----

  lemma {:induction false} ValueBound(b: seq<bool>)
    ensures Value(b) < Pow2(|b|)
  {
    if b != [] {
      ValueBound(b[..|b| - 1]);
    }
  }

  lemma {:induction false} ValueField(n: nat, x: nat)
    requires x < Pow2(n)
    ensures Value(Field(n, x)) == x
  {
    if n > 0 {
      ValueField(n - 1, x / 2);
      assert Field(n, x)[..n - 1] == Field(n - 1, x / 2);
    }
  }

  lemma {:induction false} FieldValue(b: seq<bool>)
    ensures Field(|b|, Value(b)) == b
  {
    if b != [] {
      var p := b[..|b| - 1];
      FieldValue(p);
      assert b == p + [b[|b| - 1]];
    }
  }

  lemma {:induction false} ValueConcat(a: seq<bool>, b: seq<bool>)
    ensures Value(a + b) == Shl(Value(a), |b|) + Value(b)
  {
    if b == [] {
      assert a + b == a;
    } else {
      ValueConcat(a, b[..|b| - 1]);
      assert (a + b)[..|a + b| - 1] == a + b[..|b| - 1];
    }
  }

  /** Two fields side by side are one field holding both numbers. */
  lemma {:induction false} FieldConcat(m: nat, p: nat, n: nat, x: nat)
    requires x < Pow2(n)
    ensures Field(m + n, Shl(p, n) + x) == Field(m, p) + Field(n, x)
  {
    if n > 0 {
      FieldConcat(m, p, n - 1, x / 2);
      assert (Shl(p, n) + x) / 2 == Shl(p, n - 1) + x / 2;
    }
  }

  /** A field splits into the field of its high part and the field of its low part. */
  lemma {:induction false} FieldSplit(m: nat, n: nat, x: nat)
    ensures Field(m + n, x) == Field(m, Shr(x, n)) + Field(n, x)
  {
    if n > 0 {
      FieldSplit(m, n - 1, x / 2);
    }
  }

  lemma ShlEight(x: nat)
    ensures Shl(x, 8) == 256 * x
  {
    assert Shl(x, 1) == 2 * x;
    assert Shl(x, 3) == 8 * x;
    assert Shl(x, 5) == 32 * x;
    assert Shl(x, 7) == 128 * x;
  }

  /** A byte cast keeps exactly the bits that an 8-bit field shows. */
  lemma FieldByte(x: nat)
    ensures Field(8, x % 256) == Field(8, x)
  {
    var q, r := x / 256, x % 256;
    FieldConcat(0, q, 8, r);
    ShlEight(q);
    assert [] + Field(8, r) == Field(8, r);
  }

  lemma {:induction false} FieldZero(n: nat)
    ensures Field(n, 0) == Zeros(n)
  {
    if n > 0 {
      FieldZero(n - 1);
    }
  }

  lemma ByteInjective(x: Byte, y: Byte)
    requires Field(8, x) == Field(8, y)
    ensures x == y
  {
    ValueField(8, x);
    ValueField(8, y);
  }

  // ---- Sequences ----

  lemma Associate<T>(a: seq<T>, b: seq<T>, c: seq<T>)
    ensures (a + b) + c == a + (b + c)
  {
  }

  lemma SubSlice<T>(s: seq<T>, i: nat, j: nat, k: nat, l: nat)
    requires i <= j <= |s| && k <= l <= j - i
    ensures s[i..j][k..l] == s[i + k..i + l]
  {
    forall x | 0 <= x < l - k
      ensures s[i..j][k..l][x] == s[i + k..i + l][x]
    {
      assert s[i..j][k + x] == s[i + k + x];
    }
  }

  lemma ConcatInjective<T>(a: seq<T>, b: seq<T>, c: seq<T>, d: seq<T>)
    requires a + b == c + d && |b| == |d|
    ensures a == c && b == d
  {
    assert a == (a + b)[..|a|] && c == (c + d)[..|c|];
    assert b == (a + b)[|a|..] && d == (c + d)[|c|..];
  }

  // ---- Bytes ----

  /** The bits of a byte string. */
  function Unpack(s: seq<Byte>): (r: seq<bool>)
    ensures |r| == 8 * |s|
  {
    if s == [] then [] else Field(8, s[0]) + Unpack(s[1..])
  }

  /** The byte whose bits are the given ones, filled up with zeros. */
  function PadByte(b: seq<bool>): (r: Byte)
    requires |b| <= 8
    ensures Field(8, r) == b + Zeros(8 - |b|)
  {
    var p := b + Zeros(8 - |b|);
    ValueBound(p);
    FieldValue(p);
    assert Pow2(8) == 256;
    Value(p)
  }

  /** The bytes that hold a bit string, the last one filled up with zero bits. */
  function Pack(b: seq<bool>): (r: seq<Byte>)
    ensures |r| == (|b| + 7) / 8
  {
    if b == [] then []
    else if |b| <= 8 then [PadByte(b)]
    else [PadByte(b[..8])] + Pack(b[8..])
  }

  /** Unpacking what was packed gives the bits back, followed only by padding. */
  lemma {:induction false} UnpackPack(b: seq<bool>)
    ensures Unpack(Pack(b)) == b + Zeros(8 * |Pack(b)| - |b|)
  {
    if b == [] {
    } else if |b| <= 8 {
      assert Unpack(Pack(b)) == Field(8, PadByte(b)) + [];
    } else {
      UnpackPack(b[8..]);
      assert Pack(b)[1..] == Pack(b[8..]);
      assert Field(8, PadByte(b[..8])) == b[..8];
      Associate(b[..8], b[8..], Zeros(8 * |Pack(b)| - |b|));
      assert b == b[..8] + b[8..];
    }
  }

  lemma {:induction false} UnpackConcat(s: seq<Byte>, t: seq<Byte>)
    ensures Unpack(s + t) == Unpack(s) + Unpack(t)
  {
    if s == [] {
      assert s + t == t;
    } else {
      UnpackConcat(s[1..], t);
      assert (s + t)[1..] == s[1..] + t;
      Associate(Field(8, s[0]), Unpack(s[1..]), Unpack(t));
    }
  }

  lemma UnpackLast(s: seq<Byte>, x: Byte)
    ensures Unpack(s + [x]) == Unpack(s) + Field(8, x)
  {
    UnpackConcat(s, [x]);
    assert Unpack([x]) == Field(8, x) + [];
  }

  /** A byte string is determined by its bits. */
  lemma {:induction false} UnpackInjective(s: seq<Byte>, t: seq<Byte>)
    requires Unpack(s) == Unpack(t)
    ensures s == t
  {
    assert 8 * |s| == 8 * |t|;
    if s != [] {
      ConcatInjective(Field(8, s[0]), Unpack(s[1..]), Field(8, t[0]), Unpack(t[1..]));
      UnpackInjective(s[1..], t[1..]);
      ByteInjective(s[0], t[0]);
      assert s == [s[0]] + s[1..] && t == [t[0]] + t[1..];
    }
  }

  function Min(a: nat, b: nat): nat {
    if a < b then a else b
  }

  function Repeat(x: nat, k: nat): (r: seq<nat>)
    ensures |r| == k && forall i :: 0 <= i < k ==> r[i] == x
  {
    seq(k, _ => x)
  }

  // ---- Little endian numbers ----

  /** A number as four bytes, the least significant first. */
  function Dword(x: nat): (r: seq<Byte>)
    ensures |r| == 4
  {
    [x % 256, x / 256 % 256, x / 256 / 256 % 256, x / 256 / 256 / 256 % 256]
  }

  function DwordValue(b: seq<Byte>): nat
    requires |b| == 4
  {
    var b0: nat, b1: nat, b2: nat, b3: nat := b[0], b[1], b[2], b[3];
    b0 + 0x100 * b1 + 0x1_0000 * b2 + 0x100_0000 * b3
  }

  lemma DwordBound(b: seq<Byte>)
    requires |b| == 4
    ensures DwordValue(b) <= 0xFFFF_FFFF
  {
  }

  lemma DwordRoundTrip(x: nat)
    requires x < 0x1_0000_0000
    ensures DwordValue(Dword(x)) == x
  {
    var q := x / 256;
    var r := q / 256;
    assert r / 256 < 256;
  }

  /** A number as two bytes, the least significant first. */
  function Word(x: nat): (r: seq<Byte>)
    ensures |r| == 2
  {
    [x % 256, x / 0x100 % 256]
  }

  function WordValue(b: seq<Byte>): nat
    requires |b| == 2
  {
    var b0: nat, b1: nat := b[0], b[1];
    b0 + 0x100 * b1
  }

  lemma WordRoundTrip(x: nat)
    requires x < 0x1_0000
    ensures WordValue(Word(x)) == x
  {
  }

  /** The least significant byte comes first, and the others are those of the number without it. */
  lemma LittleEndian(x: nat)
    ensures Word(x)[0] == Dword(x)[0] == x % 256 && Word(x)[1] == Word(x / 256)[0]
    ensures forall i :: 0 <= i < 3 ==> Dword(x)[i + 1] == Dword(x / 256)[i]
  {
  }
}
