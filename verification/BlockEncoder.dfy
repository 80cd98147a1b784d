/** `SendBlock`, `CompressOutput` and the start and end of the Huffman stage. */
module BlockEncoder {
  import opened Bits
  import opened BitWriter
  import opened CanonicalCode
  import opened HuffmanTree
  import opened CodeLengths
  import opened MakeTree
  import opened TableCoding
  import opened Tables
  import opened TableWriter
  import opened Tokens
  import opened Stream
  import opened Staging
  import opened Blocks

  // ---- The tables ----

  /** `MakeTree` leaves arrays that write exactly the table of the frequencies. */
  method MakeTable(tb: TreeBuilder, n: nat, freq: array<nat>, len: array<nat>, code: array<nat>) returns (root: nat)
    requires tb.Valid() && tb.Foreign(freq) && tb.Foreign(len) && tb.Foreign(code)
    requires freq != len && freq != code && len != code
    requires 1 <= n <= 510 && 2 * n - 1 <= freq.Length && n <= len.Length && n <= code.Length
    requires Total(freq[..n]) < 0x1_0000
    modifies tb.heap, tb.left, tb.right, tb.lenCnt, freq, len, code
    ensures tb.Valid()
    ensures var f := old(freq[..n]);
      && freq[..n] == f
      && root == TreeRoot(f) < freq.Length && freq[root] == Total(f)
      && len[..n] == TreeLens(f) && len[n..] == old(len[n..])
      && Ready(TreeTable(f), len[..n], code[..])
  {
    hide TreeLens, Total, Readable, CanonicalCode.Coded;
    ghost var f := freq[..n];
    root := tb.Build(n, freq, len, code);
    TreeTableGood(f);
    RootDecides(f);
  }

  /** The only symbol of a table that needs no code. */
  method PutOnly(w: Writer, nbit: nat, root: nat)
    requires w.Valid() && nbit <= 16 && root < Pow2(nbit)
    modifies w, w.sink`next, w.sink`compSize, w.sink`emitted, w.sink.dst
    ensures w.Valid() && w.Content() == old(w.Content()) + (Field(nbit, 0) + Field(nbit, root))
  {
    ghost var before := w.Content();
    w.PutBits(nbit, 0);
    w.PutBits(nbit, root);
    Associate(before, Field(nbit, 0), Field(nbit, root));
  }

  /** The Extra or Position table, after `MakeTree` returned `root`. */
  method SendPTTable(w: Writer, ptLen: array<nat>, n: nat, nbit: nat, special: int, root: nat, ghost f: seq<nat>)
    requires w.Valid() && 6 <= n == |f| < 0x1_0000 && n <= ptLen.Length && Total(f) < 0x1_0000
    requires root == TreeRoot(f) && ptLen[..n] == TreeLens(f)
    requires nbit <= 16 && n < Pow2(nbit) && (special == 3 || special == -1)
    modifies w, w.sink`next, w.sink`compSize, w.sink`emitted, w.sink.dst
    ensures w.Valid() && w.Content() == old(w.Content()) + PTTableBits(f, nbit, special == 3)
  {
    hide TreeLens, PTBits, Field;
    if root >= n {
      assert ValidLens(ptLen[..n]) by { TreeTableGood(f); }
      WritePTLen(w, ptLen, n, nbit, special);
    } else {
      PutOnly(w, nbit, root);
    }
  }

  // ---- The position code ----

  /** The loop that counts the significant bits. */
  method CountBits(p: nat) returns (k: nat)
    ensures k == BitLen(p)
  {
    k := 0;
    var x := p;
    while x != 0
      invariant BitLen(p) == k + BitLen(x)
    {
      x := x / 2;
      k := k + 1;
    }
  }

  /** `EncodeP`; the mask of the second `PutBits` keeps the bits below the leading one. */
  method EncodeP(w: Writer, ptLen: array<nat>, ptCode: array<nat>, pos: nat, ghost pt: Table)
    requires w.Valid() && ptLen.Length >= 14 && ptCode.Length >= 14 && pos < 8192
    requires Ready(pt, ptLen[..14], ptCode[..]) && Writable(pt, ptLen[..14], BitLen(pos))
    modifies w, w.sink`next, w.sink`compSize, w.sink`emitted, w.sink.dst
    ensures w.Valid() && w.Content() == old(w.Content()) + PosBits(ptLen[..14], pos)
  {
    hide Readable, CanonicalCode.Coded, Writable;
    ghost var before := w.Content();
    ghost var lens := ptLen[..14];
    var k := CountBits(pos);
    PosSymbol(pos);
    PutSymbol(w, ptLen, ptCode, k, 14, pt);
    if k > 1 {
      var low := pos % Pow2(k - 1);
      w.PutBits(k - 1, low);
      Associate(before, SymbolBits(lens, k), Field(k - 1, low));
    } else {
      Associate(before, SymbolBits(lens, k), []);
      assert w.Content() + [] == w.Content();
    }
  }

  // ---- The staging buffer ----

  /** The flags of the open group from the next token on are clear. */
  ghost predicate FlagsClear(b: Byte, n: nat) {
    forall k :: n % 8 <= k < 8 ==> !Flag(b, k)
  }

  function NextMask(n: nat): nat {
    if n % 8 == 0 then 0 else Pow2(7 - n % 8)
  }

  lemma MaskStep(n: nat)
    ensures Pow2(7 - n % 8) / 2 == NextMask(n + 1)
  {
    if n % 8 == 7 {
      assert (n + 1) % 8 == 0;
    } else {
      assert (n + 1) % 8 == n % 8 + 1;
    }
  }

  /** The buffer after a token was written at its place: a literal leaves the flags alone. */
  ghost predicate Written(buf: seq<Byte>, buf': seq<Byte>, toks: seq<Token>, t: Token)
  {
    var at, fp := At(toks, |toks|), FlagPos(toks, |toks|);
    && |buf'| == |buf| && fp < |buf|
    && TokenAt(buf', at, t)
    && (forall p :: 0 <= p < at && p != fp ==> buf'[p] == buf[p])
    && buf'[fp] == if t.Lit? then buf[fp] else BitOr(buf[fp], Pow2(7 - |toks| % 8))
  }

  lemma WrittenFlags(b: Byte, b': Byte, n: nat, t: Token)
    requires FlagsClear(b, n)
    requires b' == if t.Lit? then b else BitOr(b, Pow2(7 - n % 8))
    ensures forall k :: 0 <= k < n % 8 ==> (Flag(b', k) <==> Flag(b, k))
    ensures Flag(b', n % 8) <==> t.Ptr?
    ensures (n + 1) % 8 != 0 ==> FlagsClear(b', n + 1)
  {
    var j := n % 8;
    forall k | 0 <= k < 8
      ensures Flag(b', k) <==> (k == j && t.Ptr?) || Flag(b, k)
    {
      if t.Ptr? {
        SetFlag(b, j, k);
      }
    }
    assert Flag(b', j) <==> t.Ptr?;
    if (n + 1) % 8 != 0 {
      assert (n + 1) % 8 == j + 1;
    }
  }

  lemma WrittenStaged(buf: seq<Byte>, buf': seq<Byte>, toks: seq<Token>, t: Token)
    requires Staged(buf, toks) && Fits(toks) && |buf| == 16384 && Written(buf, buf', toks, t)
    requires FlagsClear(buf[FlagPos(toks, |toks|)], |toks|)
    ensures Staged(buf', toks + [t])
  {
    hide BytesUsed, Flag, Staged, TokenAt, FlagsClear;
    assert toks[..|toks|] == toks;
    var fp := FlagPos(toks, |toks|);
    WrittenFlags(buf[fp], buf'[fp], |toks|, t);
    StagedSnoc(buf, buf', toks, t);
  }

  lemma FlagsFirst(toks: seq<Token>)
    ensures FlagPos(toks, |toks|) < At(toks, |toks|)
  {
    hide BytesUsed;
    AtAfterFlags(toks, GroupStart(|toks|), |toks|);
  }

  class Stage {
    const buf: array<Byte>     // mBuf
    var outputPos: nat         // mOutputPos
    var outputMask: nat        // mOutputMask
    var cPos: nat              // CPos: where the open group's flags are
    const cFreq: array<nat>    // mCFreq
    const pFreq: array<nat>    // mPFreq
    ghost var pending: seq<Token>

    /** The buffer holds the pending tokens, and the frequencies are their tallies. */
    ghost predicate Holds()
      reads this, buf, cFreq, pFreq
    {
      && buf.Length == 16384 && cFreq.Length == 1019 && pFreq.Length == 27 && cFreq != pFreq
      && Fits(pending) && Staged(buf[..], pending)
      && cFreq[..510] == Tally(CharSymbols(pending), 510)
      && pFreq[..14] == Tally(PosSymbols(pending), 14)
    }

    /** Between two calls. */
    ghost predicate Idle()
      reads this, buf, cFreq, pFreq
    {
      var n := |pending|;
      && Holds()
      && outputPos == BytesUsed(pending)
      && outputMask / 2 == NextMask(n)
      && (n % 8 != 0 ==> cPos == FlagPos(pending, n) && cPos < 16384 && FlagsClear(buf[cPos], n))
    }

    /** Inside `CompressOutput`, with the mask at the next flag and the flag byte in place. */
    ghost predicate Poised()
      reads this, buf, cFreq, pFreq
    {
      var n := |pending|;
      && Holds()
      && (n % 8 == 0 ==> BytesUsed(pending) < 16384 - 24)
      && outputPos == At(pending, n)
      && outputMask == Pow2(7 - n % 8)
      && cPos == FlagPos(pending, n) < 16384 - 24 && FlagsClear(buf[cPos], n)
    }

    constructor ()
      ensures Idle() && pending == [] && fresh(buf) && fresh(cFreq) && fresh(pFreq)
    {
      buf := new Byte[16384](_ => 0);
      cFreq, pFreq := new nat[1019](_ => 0), new nat[27](_ => 0);
      outputPos, outputMask, cPos := 0, 0, 0;
      pending := [];
    }

    /** The mask moves on; zero means that the group is full. */
    method ShiftMask() returns (full: bool)
      requires Idle()
      modifies this`outputMask
      ensures Holds() && full == (|pending| % 8 == 0) && (!full ==> Poised())
    {
      hide Tally, Staged, BytesUsed, Flag, CharSymbols, PosSymbols;
      assert pending[..|pending|] == pending;
      outputMask := outputMask / 2;
      full := outputMask == 0;
    }

    /** The first flag byte of a group. */
    method StartGroup()
      requires Holds() && |pending| % 8 == 0 && outputPos == BytesUsed(pending) < 16384 - 24
      modifies this`outputPos, this`outputMask, this`cPos, buf
      ensures Poised()
    {
      hide BytesUsed, Flag, CharSymbols, PosSymbols, Tally;
      ghost var before, n := buf[..], |pending|;
      assert pending[..n] == pending;
      outputMask := 128;
      assert Pow2(7) == 128 by { Pow2Values(); }
      cPos := outputPos;
      outputPos := outputPos + 1;
      buf[cPos] := 0;
      NoFlags();
      assert Keeps(before, buf[..], pending);
      forall i | 0 <= i < n
        ensures StagedAt(buf[..], pending, i)
      {
        KeepsStaged(before, buf[..], pending, i);
      }
    }

    /** The bytes and the flag of a token. */
    method StageToken(c: nat, p: nat, ghost t: Token)
      requires Poised() && c == CharSymbol(t) && (t.Ptr? ==> p == t.pos)
      modifies this`outputPos, buf
      ensures Written(old(buf[..]), buf[..], pending, t)
      ensures outputPos == At(pending, |pending|) + TokenSize(t)
    {
      hide BytesUsed, CharSymbols, PosSymbols, Tally, Staged, Flag, FlagsClear, At, FlagPos, Fits, BitOr;
      RoomForToken(pending, t);
      FlagsFirst(pending);
      ghost var b := buf[cPos];
      buf[outputPos] := c % 256;
      outputPos := outputPos + 1;
      if c >= 256 {
        FlagFits(b, |pending| % 8);
        buf[cPos] := BitOr(buf[cPos], outputMask) % 256;
        buf[outputPos] := p / 256 % 256;
        outputPos := outputPos + 1;
        buf[outputPos] := p % 256;
        outputPos := outputPos + 1;
      }
    }

    /** The frequency of the character symbol. */
    method CountChar(c: nat, ghost t: Token)
      requires c == CharSymbol(t) && cFreq.Length == 1019 && cFreq[..510] == Tally(CharSymbols(pending), 510)
      modifies cFreq
      ensures cFreq[..510] == Tally(CharSymbols(pending + [t]), 510)
    {
      hide Tally, CharSymbols, PosSymbols;
      ghost var f := cFreq[..510];
      CharsSnoc(pending, t);
      TallySnoc(CharSymbols(pending), 510, c);
      cFreq[c] := cFreq[c] + 1;
      assert cFreq[..510] == f[c := f[c] + 1];
    }

    /** The frequency of the position symbol. */
    method CountPos(p: nat, ghost t: Token)
      requires t.Ptr? && p == t.pos && pFreq.Length == 27 && pFreq[..14] == Tally(PosSymbols(pending), 14)
      modifies pFreq
      ensures pFreq[..14] == Tally(PosSymbols(pending + [t]), 14)
    {
      hide Tally, CharSymbols, PosSymbols, BitLen;
      ghost var f := pFreq[..14];
      var k := CountBits(p);
      PosSymbol(p);
      PosSnoc(pending, t);
      TallySnoc(PosSymbols(pending), 14, k);
      pFreq[k] := pFreq[k] + 1;
      assert pFreq[..14] == f[k := f[k] + 1];
    }

    /** The frequencies of a token's symbols. */
    method CountToken(c: nat, p: nat, ghost t: Token)
      requires c == CharSymbol(t) && (t.Ptr? ==> p == t.pos)
      requires cFreq.Length == 1019 && pFreq.Length == 27 && cFreq != pFreq
      requires cFreq[..510] == Tally(CharSymbols(pending), 510) && pFreq[..14] == Tally(PosSymbols(pending), 14)
      modifies cFreq, pFreq
      ensures cFreq[..510] == Tally(CharSymbols(pending + [t]), 510)
      ensures pFreq[..14] == Tally(PosSymbols(pending + [t]), 14)
    {
      hide Tally, CharSymbols, PosSymbols;
      PosSnoc(pending, t);
      CountChar(c, t);
      if c >= 256 {
        CountPos(p, t);
      }
    }

    /** The part of `CompressOutput` after the flag byte is in place. */
    method PutToken(c: nat, p: nat, ghost t: Token)
      requires Poised() && c == CharSymbol(t) && (t.Ptr? ==> p == t.pos)
      modifies this`outputPos, this`pending, buf, cFreq, pFreq
      ensures Idle() && pending == old(pending) + [t]
    {
      hide BytesUsed, Flag, Tally, Staged, CharSymbols, PosSymbols, TokenAt;
      ghost var before, n, fp := buf[..], |pending|, cPos;
      StageToken(c, p, t);
      CountToken(c, p, t);
      WrittenStaged(before, buf[..], pending, t);
      RoomForToken(pending, t);
      WrittenFlags(before[fp], buf[fp], n, t);
      MaskStep(n);
      if (n + 1) % 8 != 0 {
        NextFlagPos(pending, t);
      }
      pending := pending + [t];
    }
  }

  // ---- SendBlock's reader ----

  /** The flags register before token number `i`: the group's flag byte, shifted once per token. */
  ghost predicate Shifted(flags: nat, buf: seq<Byte>, toks: seq<Token>, i: nat)
    requires i <= |toks|
  {
    i % 8 != 0 ==> FlagPos(toks, i) < |buf| && flags == Shl(buf[FlagPos(toks, i)], i % 8 - 1)
  }

  lemma ShiftOn(flags: nat, buf: seq<Byte>, toks: seq<Token>, i: nat)
    requires i < |toks| && FlagPos(toks, i) < |buf| && flags == Shl(buf[FlagPos(toks, i)], i % 8)
    ensures Shifted(flags, buf, toks, i + 1)
    ensures Shr(flags, 7) % 2 == 1 <==> Flag(buf[FlagPos(toks, i)], i % 8)
  {
    hide BytesUsed, GroupStart, Shl;
    ShrShl(buf[FlagPos(toks, i)], i % 8, 7);
    if (i + 1) % 8 != 0 {
      SameGroup(i);
      assert (i + 1) % 8 - 1 == i % 8;
    }
  }

  /** The register moves to the next token's flag. */
  method NextFlag(buf: array<Byte>, i: nat, pos: nat, flags: nat, ghost toks: seq<Token>)
    returns (pos': nat, flags': nat)
    requires i < |toks| && Staged(buf[..], toks) && pos == BytesUsed(toks[..i]) && Shifted(flags, buf[..], toks, i)
    ensures pos' == At(toks, i) && FlagPos(toks, i) < buf.Length
    ensures flags' == Shl(buf[FlagPos(toks, i)], i % 8)
  {
    hide BytesUsed, TokenAt, Flag;
    assert StagedAt(buf[..], toks, i);
    pos', flags' := pos, 0;
    if i % 8 == 0 {
      flags' := buf[pos'];
      pos' := pos' + 1;
    } else {
      flags' := 2 * flags;
    }
  }

  /** What the buffer says about token number `i`. */
  method ReadStaged(buf: array<Byte>, i: nat, pos: nat, flags: nat, ghost toks: seq<Token>)
    returns (c: nat, p: nat, pos': nat, flags': nat)
    requires i < |toks| && Staged(buf[..], toks) && pos == BytesUsed(toks[..i]) && Shifted(flags, buf[..], toks, i)
    ensures c == CharSymbol(toks[i]) && (toks[i].Ptr? ==> p == toks[i].pos)
    ensures pos' == BytesUsed(toks[..i + 1]) && Shifted(flags', buf[..], toks, i + 1)
  {
    hide BytesUsed, Shl, Shr, At, FlagPos, Shifted;
    pos', flags' := NextFlag(buf, i, pos, flags, toks);
    ShiftOn(flags', buf[..], toks, i);
    UsedNext(toks, i);
    assert StagedAt(buf[..], toks, i);
    if Shr(flags', 7) % 2 != 0 {
      c := buf[pos'] as int + 256;
      p := buf[pos' + 1] as int * 256 + buf[pos' + 2];
      pos' := pos' + 3;
    } else {
      c, p := buf[pos'], 0;
      pos' := pos' + 1;
    }
  }

  class Encoder {
    const w: Writer
    const tb: TreeBuilder
    const stage: Stage
    const tFreq: array<nat>    // mTFreq
    const cLen: array<nat>     // mCLen
    const cCode: array<nat>    // mCCode
    const ptLen: array<nat>    // mPTLen
    const ptCode: array<nat>   // mPTCode
    ghost var sent: seq<seq<Token>>

    /** A frequency array of the stage is none of the tables and none of the tree builder's arrays. */
    ghost predicate Own(a: array<nat>)
    {
      a != tFreq && a != cLen && a != cCode && a != ptLen && a != ptCode && tb.Foreign(a)
    }

    /** The arrays have their sizes and are different ones. */
    ghost predicate Apart()
    {
      && tFreq.Length == 37 && cLen.Length == 510 && cCode.Length == 510 && ptLen.Length == 19 && ptCode.Length == 19
      && tFreq != cLen && tFreq != cCode && tFreq != ptLen && tFreq != ptCode
      && cLen != cCode && cLen != ptLen && cLen != ptCode && cCode != ptLen && cCode != ptCode && ptLen != ptCode
      && Own(stage.cFreq) && Own(stage.pFreq) && stage.cFreq != stage.pFreq
      && tb.Foreign(tFreq) && tb.Foreign(cLen) && tb.Foreign(cCode) && tb.Foreign(ptLen) && tb.Foreign(ptCode)
      && stage.buf != w.sink.dst
    }

    ghost predicate Valid()
      reads this, w, w.sink, w.sink.dst, tb, tb.heap, stage, stage.buf, stage.cFreq, stage.pFreq
    {
      && Apart() && w.Valid() && tb.Valid() && stage.Holds()
      && Sized(sent)
      && w.Content() == StreamBits(sent)
    }

    ghost function View(): Queue
      reads this, stage
    {
      Queue(sent, stage.pending)
    }

    constructor (writer: Writer, builder: TreeBuilder, st: Stage)
      requires writer.Valid() && writer.Content() == [] && builder.Valid() && st.Idle() && st.pending == []
      requires builder.Foreign(st.cFreq) && builder.Foreign(st.pFreq) && st.buf != writer.sink.dst
      ensures Valid() && stage.Idle() && View() == Queue([], []) && w == writer && tb == builder && stage == st
      ensures fresh(tFreq) && fresh(cLen) && fresh(cCode) && fresh(ptLen) && fresh(ptCode)
    {
      hide BlockBits, Tally, CharSymbols, PosSymbols, Staged, Fits, NextMask, FlagsClear;
      w, tb, stage := writer, builder, st;
      tFreq, cLen, cCode := new nat[37](_ => 0), new nat[510](_ => 0), new nat[510](_ => 0);
      ptLen, ptCode := new nat[19](_ => 0), new nat[19](_ => 0);
      sent := [];
    }

    /** Both symbols of a token: `EncodeC` and `EncodeP`. */
    method SendToken(c: nat, p: nat, ghost t: Token, ghost ct: Table, ghost pt: Table)
      requires Apart() && w.Valid()
      requires c == CharSymbol(t) && (t.Ptr? ==> p == t.pos)
      requires Ready(ct, cLen[..510], cCode[..]) && Ready(pt, ptLen[..14], ptCode[..])
      requires TokenWritable(ct, cLen[..510], pt, ptLen[..14], t)
      modifies w, w.sink`next, w.sink`compSize, w.sink`emitted, w.sink.dst
      ensures w.Valid() && w.Content() == old(w.Content()) + TokenBits(cLen[..510], ptLen[..14], t)
    {
      hide Readable, CanonicalCode.Coded, Writable, SymbolBits, PosBits, BitLen;
      ghost var before := w.Content();
      ghost var head := SymbolBits(cLen[..510], c);
      PutSymbol(w, cLen, cCode, c, 510, ct);
      if c >= 256 {
        EncodeP(w, ptLen, ptCode, p, pt);
        Associate(before, head, PosBits(ptLen[..14], p));
      } else {
        assert before + (head + []) == before + head;
      }
    }

    /** The loop over the staged tokens. */
    method SendTokens(size: nat, ghost ct: Table, ghost pt: Table)
      requires Apart() && w.Valid() && Staged(stage.buf[..], stage.pending) && size == |stage.pending|
      requires Ready(ct, cLen[..510], cCode[..]) && Ready(pt, ptLen[..14], ptCode[..])
      requires AllWritableTokens(ct, cLen[..510], pt, ptLen[..14], stage.pending)
      modifies w, w.sink`next, w.sink`compSize, w.sink`emitted, w.sink.dst
      ensures w.Valid() && w.Content() == old(w.Content()) + TokensBits(cLen[..510], ptLen[..14], stage.pending)
    {
      hide Readable, CanonicalCode.Coded, BytesUsed, TokenBits, TokenWritable, Flag, StagedAt, FlagPos, Shl;
      ghost var toks, cl, pl := stage.pending, cLen[..510], ptLen[..14];
      ghost var goal := w.Content() + TokensBits(cl, pl, toks);
      var i: nat, pos: nat, flags: nat := 0, 0, 0;
      assert toks[0..] == toks && BytesUsed(toks[..0]) == 0 by { NothingUsed(toks); }
      while i < size
        invariant 0 <= i <= size && w.Valid()
        invariant pos == BytesUsed(toks[..i]) && Shifted(flags, stage.buf[..], toks, i)
        invariant w.Content() + TokensBits(cl, pl, toks[i..]) == goal
      {
        var c, p;
        c, p, pos, flags := ReadStaged(stage.buf, i, pos, flags, toks);
        ghost var before := w.Content();
        SendToken(c, p, toks[i], ct, pt);
        assert toks[i..][1..] == toks[i + 1..];
        Associate(before, TokenBits(cl, pl, toks[i]), TokensBits(cl, pl, toks[i + 1..]));
        i := i + 1;
      }
      assert w.Content() + [] == w.Content();
    }

    /** The Extra table for the lengths in `cLen`. */
    method SendExtraTable(ghost tf: seq<nat>)
      requires Apart() && w.Valid() && tb.Valid() && ValidLens(cLen[..]) && tf == ExtraTally(cLen[..])
      modifies w, w.sink`next, w.sink`compSize, w.sink`emitted, w.sink.dst
      modifies tb.heap, tb.left, tb.right, tb.lenCnt, tFreq, ptLen, ptCode
      ensures w.Valid() && tb.Valid() && Total(tf) < 0x1_0000
      ensures w.Content() == old(w.Content()) + PTTableBits(tf, 5, true)
      ensures ptLen[..19] == TreeLens(tf) && Ready(TreeTable(tf), ptLen[..19], ptCode[..])
    {
      hide TreeLens, TreeTable, Total, PTTableBits, Ready, Items, Trim, Tally;
      CountTFreq(cLen, tFreq);
      ExtraTable(cLen[..]);
      var root := MakeTable(tb, 19, tFreq, ptLen, ptCode);
      assert 19 < Pow2(5) by { Pow2Values(); }
      SendPTTable(w, ptLen, 19, 5, 3, root, tf);
    }

    /** The Extra and Char&Len tables, after `MakeTree` returned `root`. */
    method SendCharTables(root: nat, ghost f: seq<nat>)
      requires Apart() && w.Valid() && tb.Valid()
      requires |f| == 510 && Total(f) < 0x1_0000 && root == TreeRoot(f) && cLen[..510] == TreeLens(f)
      modifies w, w.sink`next, w.sink`compSize, w.sink`emitted, w.sink.dst
      modifies tb.heap, tb.left, tb.right, tb.lenCnt, tFreq, ptLen, ptCode
      ensures w.Valid() && tb.Valid() && w.Content() == old(w.Content()) + CTableBits(f)
    {
      hide TreeLens, TreeTable, Total, PTTableBits, CBits, Field, Ready, ExtraTally, TreeRoot, Own, Sink.Valid,
           Writer.Content, TreeBuilder.Valid;
      ghost var before := w.Content();
      assert cLen[..] == cLen[..510];
      if root >= 510 {
        ghost var clens := cLen[..];
        assert ValidLens(clens) by { TreeTableGood(f); }
        ghost var tf := ExtraTally(clens);
        ExtraTable(clens);
        SendExtraTable(tf);
        WriteCLen(w, cLen, ptLen, ptCode, TreeTable(tf));
        Associate(before, PTTableBits(tf, 5, true), CBits(clens, TreeLens(tf)));
      } else {
        PutSingleC(w, root);
      }
    }

    /** The Position table. */
    method SendPosTable(ghost f: seq<nat>)
      requires Apart() && w.Valid() && tb.Valid()
      requires stage.pFreq.Length == 27 && f == stage.pFreq[..14] && Total(f) < 0x1_0000
      modifies w, w.sink`next, w.sink`compSize, w.sink`emitted, w.sink.dst
      modifies tb.heap, tb.left, tb.right, tb.lenCnt, stage.pFreq, ptLen, ptCode
      ensures w.Valid() && tb.Valid() && w.Content() == old(w.Content()) + PTTableBits(f, 4, false)
      ensures ptLen[..14] == TreeLens(f) && Ready(TreeTable(f), ptLen[..14], ptCode[..])
    {
      hide TreeLens, TreeTable, Total, PTTableBits, Ready;
      var root := MakeTable(tb, 14, stage.pFreq, ptLen, ptCode);
      assert 14 < Pow2(4) by { Pow2Values(); }
      SendPTTable(w, ptLen, 14, 4, -1, root, f);
    }

    /** The code of the characters and the size of the block. */
    method SendSize(ghost cf: seq<nat>) returns (root: nat, size: nat)
      requires Apart() && w.Valid() && tb.Valid()
      requires stage.cFreq.Length == 1019 && cf == stage.cFreq[..510] && Total(cf) < 0x1_0000
      modifies w, w.sink`next, w.sink`compSize, w.sink`emitted, w.sink.dst
      modifies tb.heap, tb.left, tb.right, tb.lenCnt, stage.cFreq, cLen, cCode
      ensures w.Valid() && tb.Valid() && root == TreeRoot(cf) && size == Total(cf)
      ensures w.Content() == old(w.Content()) + Field(16, size)
      ensures cLen[..510] == TreeLens(cf) && Ready(TreeTable(cf), cLen[..510], cCode[..])
    {
      hide TreeLens, TreeTable, TreeRoot, Total, Ready, Field, Sink.Valid, Writer.Content, TreeBuilder.Valid;
      root := MakeTable(tb, 510, stage.cFreq, cLen, cCode);
      size := stage.cFreq[root];
      assert Pow2(16) == 0x1_0000 by { Pow2Values(); }
      w.PutBits(16, size);
    }

    /** The size and the tables. */
    method SendHeader(ghost cf: seq<nat>, ghost pf: seq<nat>) returns (size: nat)
      requires Apart() && w.Valid() && tb.Valid()
      requires stage.cFreq.Length == 1019 && cf == stage.cFreq[..510] && Total(cf) < 0x1_0000
      requires stage.pFreq.Length == 27 && pf == stage.pFreq[..14] && Total(pf) < 0x1_0000
      modifies w, w.sink`next, w.sink`compSize, w.sink`emitted, w.sink.dst
      modifies tb.heap, tb.left, tb.right, tb.lenCnt, stage.cFreq, stage.pFreq, tFreq, cLen, cCode, ptLen, ptCode
      ensures w.Valid() && tb.Valid() && size == Total(cf)
      ensures w.Content() == old(w.Content()) + Field(16, size) + CTableBits(cf) + PTTableBits(pf, 4, false)
      ensures cLen[..510] == TreeLens(cf) && Ready(TreeTable(cf), cLen[..510], cCode[..])
      ensures ptLen[..14] == TreeLens(pf) && Ready(TreeTable(pf), ptLen[..14], ptCode[..])
    {
      hide TreeLens, TreeTable, TreeRoot, Total, PTTableBits, Ready, CTableBits, Field, Sink.Valid, Writer.Content,
           TreeBuilder.Valid;
      var root;
      root, size := SendSize(cf);
      SendCharTables(root, cf);
      SendPosTable(pf);
    }

    /** The frequencies start again from zero. */
    method ClearFrequencies()
      requires Apart() && stage.buf.Length == 16384 && stage.cFreq.Length == 1019 && stage.pFreq.Length == 27
      modifies stage`pending, stage.cFreq, stage.pFreq
      ensures stage.Holds() && stage.pending == []
    {
      for k := 0 to 510
        invariant forall j :: 0 <= j < k ==> stage.cFreq[j] == 0
      {
        stage.cFreq[k] := 0;
      }
      for k := 0 to 14
        invariant forall j :: 0 <= j < 510 ==> stage.cFreq[j] == 0
        invariant forall j :: 0 <= j < k ==> stage.pFreq[j] == 0
      {
        stage.pFreq[k] := 0;
      }
      stage.pending := [];
    }

    /** The whole block of the staged tokens. */
    method SendContents(ghost toks: seq<Token>)
      requires Apart() && w.Valid() && tb.Valid() && stage.Holds() && toks == stage.pending && |toks| < 0x1_0000
      modifies w, w.sink`next, w.sink`compSize, w.sink`emitted, w.sink.dst
      modifies tb.heap, tb.left, tb.right, tb.lenCnt, stage.cFreq, stage.pFreq, tFreq, cLen, cCode, ptLen, ptCode
      ensures w.Valid() && tb.Valid() && w.Content() == old(w.Content()) + BlockBits(toks)
    {
      hide TreeLens, TreeTable, Total, Ready, Staged, Tally, CharSymbols, PosSymbols, BlockBits, TokensBits, Field,
           Sink.Valid, Writer.Content, TreeBuilder.Valid;
      ghost var before := w.Content();
      ghost var cf, pf := CharTally(toks), PosTally(toks);
      BlockTables(toks);
      var size := SendHeader(cf, pf);
      SendTokens(size, TreeTable(cf), TreeTable(pf));
      BlockParts(before, toks);
    }

    /** Huffman codes the staged tokens. */
    method SendBlock()
      requires Valid()
      modifies w, w.sink`next, w.sink`compSize, w.sink`emitted, w.sink.dst, this`sent
      modifies tb.heap, tb.left, tb.right, tb.lenCnt, tFreq, cLen, cCode, ptLen, ptCode
      modifies stage`pending, stage.cFreq, stage.pFreq
      ensures Valid() && View() == Queue(old(sent) + [old(stage.pending)], [])
    {
      hide BlockBits, Staged, Fits, Tally, Sink.Valid, Writer.Content, TreeBuilder.Valid;
      FitsSized(stage.pending);
      SendContents(stage.pending);
      sent := sent + [stage.pending];
      assert sent[..|sent| - 1] == old(sent);
      ClearFrequencies();
    }

    /** The staged tokens are sent as a block, and the buffer starts again. */
    method StartBlock()
      requires Valid()
      modifies w, w.sink`next, w.sink`compSize, w.sink`emitted, w.sink.dst, this`sent
      modifies tb.heap, tb.left, tb.right, tb.lenCnt, tFreq, cLen, cCode, ptLen, ptCode
      modifies stage`pending, stage`outputPos, stage.cFreq, stage.pFreq
      ensures Valid() && stage.pending == [] && sent == old(sent) + [old(stage.pending)]
      ensures stage.outputPos == BytesUsed(stage.pending) == 0
    {
      hide StreamBits, Tally, Staged, BytesUsed, CharSymbols, PosSymbols, Fits, Sized, Sink.Valid, Writer.Content,
           TreeBuilder.Valid;
      SendBlock();
      stage.outputPos := 0;
      NothingUsed([]);
    }

    /** A new group, in a new block if the buffer may not hold a whole one. */
    method OpenGroup()
      requires Valid() && |stage.pending| % 8 == 0 && stage.outputPos == BytesUsed(stage.pending)
      modifies w, w.sink`next, w.sink`compSize, w.sink`emitted, w.sink.dst, this`sent
      modifies tb.heap, tb.left, tb.right, tb.lenCnt, tFreq, cLen, cCode, ptLen, ptCode
      modifies stage, stage.buf, stage.cFreq, stage.pFreq
      ensures Valid() && stage.Poised()
      ensures View() == if BytesUsed(old(stage.pending)) >= 16384 - 24
                        then Queue(old(sent) + [old(stage.pending)], []) else old(View())
    {
      hide StreamBits, Tally, Staged, BytesUsed, FlagsClear, CharSymbols, PosSymbols, Fits, Sized, Own, Sink.Valid,
           Writer.Content, TreeBuilder.Valid;
      if stage.outputPos >= 16384 - 24 {
        StartBlock();
      }
      stage.StartGroup();
    }

    /** Outputs an original character `c`, or a pointer with the length symbol `c` and the position `p`. */
    method CompressOutput(c: nat, p: nat, ghost t: Token)
      requires Valid() && stage.Idle() && c == CharSymbol(t) && (t.Ptr? ==> p == t.pos)
      modifies w, w.sink`next, w.sink`compSize, w.sink`emitted, w.sink.dst, this`sent
      modifies tb.heap, tb.left, tb.right, tb.lenCnt, tFreq, cLen, cCode, ptLen, ptCode
      modifies stage, stage.buf, stage.cFreq, stage.pFreq
      ensures Valid() && stage.Idle() && View() == Enqueue(old(View()), t)
    {
      hide StreamBits, Tally, Staged, BytesUsed, FlagsClear, CharSymbols, PosSymbols, Fits, Sized, Sink.Valid,
           Writer.Content, TreeBuilder.Valid;
      var full := stage.ShiftMask();
      if full {
        OpenGroup();
      }
      stage.PutToken(c, p, t);
    }

    /** Sends what is staged and flushes the last byte. */
    method HufEncodeEnd()
      requires Valid() && stage.Idle()
      modifies w, w.sink`next, w.sink`compSize, w.sink`emitted, w.sink.dst, this`sent
      modifies tb.heap, tb.left, tb.right, tb.lenCnt, tFreq, cLen, cCode, ptLen, ptCode
      modifies stage`pending, stage.cFreq, stage.pFreq
      ensures w.Valid() && Sized(old(sent) + [old(stage.pending)])
      ensures w.sink.emitted == Pack(StreamBits(old(sent) + [old(stage.pending)]))
    {
      hide StreamBits;
      SendBlock();
      w.Flush();
    }
  }

  lemma BlockParts(before: seq<bool>, toks: seq<Token>)
    requires |toks| < 0x1_0000
    ensures var cf, pf := CharTally(toks), PosTally(toks);
      && ValidLens(TreeLens(cf)) && ValidLens(TreeLens(pf))
      && before + Field(16, |toks|) + CTableBits(cf) + PTTableBits(pf, 4, false)
        + TokensBits(TreeLens(cf), TreeLens(pf), toks)
         == before + BlockBits(toks)
  {
    hide CTableBits, PTTableBits, TokensBits, Field, TreeLens, TreeTable, CharTally, PosTally;
    BlockTables(toks);
    var cf, pf := CharTally(toks), PosTally(toks);
    Associate5(before, Field(16, |toks|), CTableBits(cf), PTTableBits(pf, 4, false),
               TokensBits(TreeLens(cf), TreeLens(pf), toks));
  }

  lemma Associate5<T>(a: seq<T>, b: seq<T>, c: seq<T>, d: seq<T>, e: seq<T>)
    ensures a + b + c + d + e == a + (b + (c + (d + e)))
  {
  }

  /** The header of a block whose characters are all the same. */
  method PutSingleC(w: Writer, root: nat)
    requires w.Valid() && root < 512
    modifies w, w.sink`next, w.sink`compSize, w.sink`emitted, w.sink.dst
    ensures w.Valid()
    ensures w.Content() == old(w.Content()) + (Field(5, 0) + Field(5, 0) + Field(9, 0) + Field(9, root))
  {
    hide Field, Sink.Valid, Writer.Content;
    ghost var before, a, b, c := w.Content(), Field(5, 0), Field(9, 0), Field(9, root);
    assert root < Pow2(9) by { Pow2Values(); }
    w.PutBits(5, 0);
    w.PutBits(5, 0);
    w.PutBits(9, 0);
    w.PutBits(9, root);
    Associate5(before, a, a, b, c);
    Associate5([], a, a, b, c);
  }

  lemma CharsSnoc(toks: seq<Token>, t: Token)
    ensures CharSymbols(toks + [t]) == CharSymbols(toks) + [CharSymbol(t)]
  {
    assert (toks + [t])[..|toks|] == toks;
  }

  lemma PosSnoc(toks: seq<Token>, t: Token)
    ensures PosSymbols(toks + [t]) == if t.Ptr? then PosSymbols(toks) + [BitLen(t.pos)] else PosSymbols(toks)
  {
    assert (toks + [t])[..|toks|] == toks;
  }

  lemma NothingUsed(toks: seq<Token>)
    ensures BytesUsed(toks[..0]) == 0
  {
  }
}
