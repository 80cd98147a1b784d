/** The compressor's output side: `PutBits`, `PutDword` and the bounded destination buffer. */
module BitWriter {
  import opened Bits

  /** Shift left on UINT32. */
  function Shl32(x: nat, k: nat): nat {
    Wrap32(Shl(x, k))
  }

  /** A left shift of a field of at most 16 bits by at most 8 never leaves 32 bits. */
  lemma ShiftFits(x: nat, n: nat, k: nat)
    requires n <= 16 && k <= 8 && x < Pow2(n)
    ensures Shl32(x, k) == Shl(x, k)
  {
    ShlBound(x, n, k);
    Pow2Monotone(n + k, 24);
    Pow2Values();
  }

  /** The bits of complete bytes and of an open byte with `count` free bits. */
  function Held(bytes: seq<Byte>, count: nat, acc: nat): seq<bool>
    requires count <= 8
  {
    Unpack(bytes) + Field(8 - count, acc)
  }

  /** A field that still fits the open byte extends the accumulator. */
  lemma PutFits(bytes: seq<Byte>, acc: nat, count: nat, n: nat, x: nat)
    requires n < count <= 8 && x < Pow2(n)
    ensures BitOr(Shl(acc, count), Shl(x, count - n)) == Shl(Shl(acc, n) + x, count - n)
    ensures Held(bytes, count - n, Shl(acc, n) + x) == Held(bytes, count, acc) + Field(n, x)
  {
    hide BitOr, Field, Pow2, Shl, Unpack;
    ShlBound(x, n, count - n);
    BitOrDisjoint(acc, count, Shl(x, count - n));
    ShlShl(acc, n, count - n);
    ShlAdd(Shl(acc, n), x, count - n);
    FieldConcat(8 - count, acc, n, x);
    Associate(Unpack(bytes), Field(8 - count, acc), Field(n, x));
  }

  /** A field that fills the open byte: the byte holds the old bits and the field's first bits. */
  lemma AccumulateByte(acc: nat, count: nat, n: nat, x: nat)
    requires 1 <= count <= 8 && count <= n && x < Pow2(n)
    ensures Field(8, BitOr(Shl(acc, count), Shr(x, n - count)) % 256) + Field(n - count, x)
         == Field(8 - count, acc) + Field(n, x)
  {
    hide BitOr, Field, Pow2, Shl, Shr;
    var y := Shr(x, n - count);
    ShrBound(x, count, n - count);
    BitOrDisjoint(acc, count, y);
    FieldConcat(8 - count, acc, count, y);
    FieldByte(Shl(acc, count) + y);
    FieldSplit(count, n - count, x);
    Associate(Field(8 - count, acc), Field(count, y), Field(n - count, x));
  }

  lemma EmitByte(bytes: seq<Byte>, acc: nat, count: nat, n: nat, x: nat, temp: Byte)
    requires 1 <= count <= 8 && count <= n && x < Pow2(n)
    requires temp == BitOr(Shl(acc, count), Shr(x, n - count)) % 256
    ensures Unpack(bytes + [temp]) + Field(n - count, x) == Held(bytes, count, acc) + Field(n, x)
  {
    AccumulateByte(acc, count, n, x);
    UnpackLast(bytes, temp);
    Associate(Unpack(bytes), Field(8, temp), Field(n - count, x));
    Associate(Unpack(bytes), Field(8 - count, acc), Field(n, x));
  }

  /** A field that fills one byte and opens the next. */
  lemma PutOne(bytes: seq<Byte>, acc: nat, count: nat, n: nat, x: nat, temp: Byte)
    requires 1 <= count <= 8 && count <= n < count + 8 && x < Pow2(n)
    requires temp == BitOr(Shl(acc, count), Shr(x, n - count)) % 256
    ensures Held(bytes + [temp], 8 - (n - count), x) == Held(bytes, count, acc) + Field(n, x)
  {
    EmitByte(bytes, acc, count, n, x, temp);
  }

  /** A field that fills two bytes and opens the next. */
  lemma PutTwo(bytes: seq<Byte>, acc: nat, count: nat, n: nat, x: nat, temp: Byte, temp2: Byte)
    requires 1 <= count <= 8 && count + 8 <= n <= count + 16 && x < Pow2(n)
    requires temp == BitOr(Shl(acc, count), Shr(x, n - count)) % 256
    requires temp2 == Shr(x, n - count - 8) % 256
    ensures Held(bytes + [temp] + [temp2], 16 - (n - count), x) == Held(bytes, count, acc) + Field(n, x)
  {
    var m := n - count;
    EmitByte(bytes, acc, count, n, x, temp);
    FieldSplit(8, m - 8, x);
    FieldByte(Shr(x, m - 8));
    UnpackLast(bytes + [temp], temp2);
    Associate(Unpack(bytes + [temp]), Field(8, temp2), Field(m - 8, x));
  }

  /** What bounded stores of `all` from `start` on make of a buffer. */
  function Overlay(base: seq<Byte>, start: nat, all: seq<Byte>): (r: seq<Byte>)
    requires start <= |base|
    ensures |r| == |base|
  {
    var k := Min(|all|, |base| - start);
    base[..start] + all[..k] + base[start + k..]
  }

  lemma OverlayPut(base: seq<Byte>, start: nat, all: seq<Byte>, x: Byte)
    requires start <= |base|
    ensures Overlay(base, start, all + [x])
         == if start + |all| < |base| then Overlay(base, start, all)[start + |all| := x]
            else Overlay(base, start, all)
  {
  }

  /** The caller's destination: bytes beyond its end are counted but not stored. */
  class Sink {
    const dst: array<Byte>     // the caller's buffer; its length is the destination limit
    var next: nat              // mDst, as an index
    var compSize: nat          // mCompSize, a UINT32
    ghost var base: seq<Byte>  // dst as it was when the bit stream began
    ghost var start: nat       // where the bit stream begins in dst
    ghost var emitted: seq<Byte>  // every byte of the bit stream, stored or not

    ghost predicate Valid()
      reads this, dst
    {
      && compSize == Wrap32(|emitted|)
      && start <= |base| == dst.Length
      && next == Min(start + |emitted|, dst.Length)
      && dst[..] == Overlay(base, start, emitted)
    }

    constructor (buffer: array<Byte>, at: nat)
      requires at <= buffer.Length
      ensures Valid() && dst == buffer && emitted == [] && start == at && base == buffer[..]
    {
      dst := buffer;
      next, compSize := at, 0;
      base, start, emitted := buffer[..], at, [];
    }

    /** The conditional store and the unconditional count of `PutBits`. */
    method PutByte(x: Byte)
      requires Valid()
      modifies this`next, this`compSize, this`emitted, dst
      ensures Valid() && emitted == old(emitted) + [x]
    {
      OverlayPut(base, start, emitted, x);
      emitted := emitted + [x];
      if next < dst.Length {
        dst[next] := x;
        next := next + 1;
      }
      compSize := Wrap32(compSize + 1);
    }

    /** The null byte after the bit stream is stored if it fits and is not counted. */
    method Terminate()
      requires Valid()
      modifies this`next, dst
      ensures dst[..] == Overlay(base, start, emitted + [0])
    {
      OverlayPut(base, start, emitted, 0);
      if next < dst.Length {
        dst[next] := 0;
        next := next + 1;
      }
    }
  }

  /** `PutDword`: each byte is stored only if the limit allows. */
  method PutDword(dst: array<Byte>, next: nat, data: nat) returns (end: nat)
    requires next <= dst.Length
    modifies dst
    ensures dst[..] == Overlay(old(dst[..]), next, Dword(data)) && end == Min(next + 4, dst.Length)
  {
    var bytes := Dword(data);
    end := next;
    for i := 0 to 4
      invariant end == Min(next + i, dst.Length) && dst[..] == Overlay(old(dst[..]), next, bytes[..i])
    {
      OverlayPut(old(dst[..]), next, bytes[..i], bytes[i]);
      assert bytes[..i + 1] == bytes[..i] + [bytes[i]];
      if end < dst.Length {
        dst[end] := bytes[i];
        end := end + 1;
      }
    }
    assert bytes[..4] == bytes;
  }

  lemma OverlayChain(d: seq<Byte>, at: nat, x: seq<Byte>, y: seq<Byte>)
    requires at <= |d|
    ensures Overlay(Overlay(d, at, x), Min(at + |x|, |d|), y) == Overlay(d, at, x + y)
  {
  }

  /** A header rewritten after the rest was stored. */
  lemma OverlayPatch(d: seq<Byte>, zeros: seq<Byte>, rest: seq<Byte>, header: seq<Byte>)
    requires |zeros| == |header|
    ensures Overlay(Overlay(Overlay(d, 0, zeros), Min(|zeros|, |d|), rest), 0, header) == Overlay(d, 0, header + rest)
  {
  }

  class Writer {
    const sink: Sink
    var subBitBuf: nat         // mSubBitBuf
    var bitCount: nat          // mBitCount: bits still free in the open byte
    ghost var acc: nat         // subBitBuf without its free low bits

    ghost predicate Valid()
      reads this, sink, sink.dst
    {
      && sink.Valid()
      && 1 <= bitCount <= 8
      && subBitBuf == Shl(acc, bitCount)
    }

    /** All bits put so far: the complete bytes and the bits waiting in the open byte. */
    ghost function Content(): seq<bool>
      requires bitCount <= 8
      reads this, sink
    {
      Held(sink.emitted, bitCount, acc)
    }

    constructor (s: Sink)
      requires s.Valid() && s.emitted == []
      ensures Valid() && Content() == [] && sink == s
    {
      sink := s;
      subBitBuf, bitCount, acc := 0, 8, 0;
      new;
      ShlZero(8);
    }

    /** Appends the low `n` bits of `x`, most significant first. */
    method PutBits(n: nat, x: nat)
      requires Valid() && n <= 16 && x < Pow2(n)
      modifies this, sink`next, sink`compSize, sink`emitted, sink.dst
      ensures Valid()
      ensures Content() == old(Content()) + Field(n, x)
    {
      if n < bitCount {
        PutFits(sink.emitted, acc, bitCount, n, x);
        ShiftFits(x, n, bitCount - n);
        bitCount := bitCount - n;
        subBitBuf := BitOr(subBitBuf, Shl32(x, bitCount));
        acc := Shl(acc, n) + x;
      } else {
        PutAcross(n, x);
      }
    }

    /** The branch of `PutBits` that completes the open byte. */
    method PutAcross(n: nat, x: nat)
      requires Valid() && bitCount <= n <= 16 && x < Pow2(n)
      modifies this, sink`next, sink`compSize, sink`emitted, sink.dst
      ensures Valid()
      ensures Content() == old(Content()) + Field(n, x)
    {
      hide Held, BitOr, Field, Shr, Pow2;
      var m := n - bitCount;
      var temp := BitOr(subBitBuf, Shr(x, m)) % 256;
      if m < 8 {
        PutOne(sink.emitted, acc, bitCount, n, x, temp);
        sink.PutByte(temp);
        bitCount := 8 - m;
      } else {
        var temp2 := Shr(x, m - 8) % 256;
        PutTwo(sink.emitted, acc, bitCount, n, x, temp, temp2);
        sink.PutByte(temp);
        sink.PutByte(temp2);
        bitCount := 16 - m;
      }
      ShiftFits(x, n, bitCount);
      subBitBuf := Shl32(x, bitCount);
      acc := x;
    }

    /** `HufEncodeEnd`'s flush: seven zero bits push out the open byte and nothing more. */
    method Flush()
      requires Valid()
      modifies this, sink`next, sink`compSize, sink`emitted, sink.dst
      ensures Valid() && sink.emitted == Pack(old(Content()))
    {
      ghost var all := Content();
      PutBits(7, 0);
      FlushPads(all, sink.emitted, Field(8 - bitCount, acc));
    }
  }

  /** After a seven bit flush the complete bytes are exactly the packed bits. */
  lemma FlushPads(all: seq<bool>, bytes: seq<Byte>, open: seq<bool>)
    requires Unpack(bytes) + open == all + Field(7, 0) && |open| <= 7
    ensures bytes == Pack(all)
  {
    var n := 8 * |bytes|;
    FieldZero(7);
    FlushedPrefix(all, Unpack(bytes), open);
    UnpackPack(all);
    assert |bytes| == |Pack(all)|;
    UnpackInjective(bytes, Pack(all));
  }

  lemma FlushedPrefix(all: seq<bool>, whole: seq<bool>, open: seq<bool>)
    requires whole + open == all + Zeros(7) && |open| <= 7
    ensures whole == all + Zeros(|whole| - |all|)
  {
    assert whole == (whole + open)[..|whole|];
  }
}
