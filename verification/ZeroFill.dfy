/** The decompressor of section 19.4 goes on with zero bits when its data is used up. It still does not give a source
    back whose compressed data was cut short by 4 GiB: what it makes of zero bits is a tail of zero bytes, and a tail
    of zero bytes compresses too well to have taken what was cut off. */
module ZeroFill {
  import opened Wrappers
  import opened Bits
  import opened CanonicalCode
  import opened CodeLengths
  import opened TableCoding
  import opened Tables
  import opened Tokens
  import opened Stream
  import opened Extension
  import opened Staging
  import opened Blocks
  import opened Lz77
  import opened SuffixTree
  import opened SearchSteps
  import opened MatchFinder
  import opened SlidingWindow
  import opened Compressor
  import opened Decompressor
  import opened PayloadSize

  // ---- Zero bits ----

  lemma {:induction false} ZeroValue(n: nat)
    ensures Value(Zeros(n)) == 0
  {
    if n > 0 {
      ZeroValue(n - 1);
      assert Zeros(n)[..n - 1] == Zeros(n - 1);
    }
  }

  lemma GetZeros(n: nat, k: nat)
    ensures GetBits(n, Zeros(k)) == if n <= k then Some(0, Zeros(k - n)) else None
  {
    if n <= k {
      ZeroValue(n);
      assert Zeros(k)[..n] == Zeros(n) && Zeros(k)[n..] == Zeros(k - n);
    }
  }

  /** Two fields of zeros stand for the table with the one symbol zero. */
  lemma ZeroTable(n: nat, nbit: nat, special: bool, k: nat)
    ensures ReadPT(n, nbit, special, Zeros(k)) == if 2 * nbit <= k then Some(Single(0), Zeros(k - 2 * nbit)) else None
  {
    hide GetBits, Zeros;
    GetZeros(nbit, k);
    if nbit <= k {
      GetZeros(nbit, k - nbit);
    }
  }

  lemma ZeroCTable(k: nat)
    ensures ReadCTable(Zeros(k)) == if 28 <= k then Some(Single(0), Zeros(k - 28)) else None
  {
    hide GetBits, Zeros, ReadPT;
    ZeroTable(19, 5, true, k);
    if 10 <= k {
      GetZeros(9, k - 10);
      if 19 <= k {
        GetZeros(9, k - 19);
      }
    }
  }

  /** A block of zero bits announces the literal zero, without any bits for it, 65536 times. */
  lemma OpenZeros(k: nat)
    ensures OpenBlock(Zeros(k))
         == if 52 <= k then Just(Reader(0x1_0000, Single(0), Single(0), Zeros(k - 52))) else Nothing
  {
    hide GetBits, Zeros, ReadPT, ReadCTable;
    GetZeros(16, k);
    if 16 <= k {
      ZeroCTable(k - 16);
      if 44 <= k {
        ZeroTable(14, 4, false, k - 44);
      }
    }
  }

  /** The decoder has nothing but zero bits left. */
  predicate OnZeros(r: Reader) {
    r.bits == Zeros(|r.bits|)
  }

  lemma StaysOnZeros(r: Reader)
    requires OnZeros(r) && NextToken(r).Just?
    ensures OnZeros(NextToken(r).value.1)
  {
    hide NextToken;
    NextUses(r, []);
  }

  /** A new block of zero bits, or the rest of one: the next token is the literal zero. */
  lemma ZeroToken(r: Reader)
    requires OnZeros(r) && (r.left == 0 || r.ct == Single(0)) && NextToken(r).Just?
    ensures var (t, r') := NextToken(r).value; t == Lit(0) && OnZeros(r') && r'.ct == Single(0)
  {
    hide OpenBlock, Zeros;
    OpenZeros(|r.bits|);
  }

  // ---- Zero bytes ----

  ghost predicate ZeroFrom(s: seq<Byte>, n: nat) {
    forall i :: n <= i < |s| ==> s[i] == 0
  }

  /** From a block of zero bits on there are zero bytes only. */
  lemma {:induction false} ZeroRun(r: Reader, out: seq<Byte>, size: nat)
    requires OnZeros(r) && (r.left == 0 || r.ct == Single(0)) && |out| <= size && Decompress(r, out, size).Just?
    ensures ZeroFrom(Decompress(r, out, size).value, |out|)
    decreases size - |out|
  {
    hide NextToken, OnZeros;
    DecompressSize(r, out, size);
    if |out| < size {
      ZeroToken(r);
      var r' := NextToken(r).value.1;
      ZeroRun(r', out + [0], size);
      DecompressSize(r', out + [0], size);
    }
  }

  /** On zero bits, the rest of the current block is all there is but zero bytes. */
  lemma {:induction false} ZeroTail(r: Reader, out: seq<Byte>, size: nat)
    requires OnZeros(r) && |out| <= size && Decompress(r, out, size).Just?
    ensures ZeroFrom(Decompress(r, out, size).value, |out| + 256 * r.left)
    decreases size - |out|
  {
    hide NextToken, OnZeros;
    DecompressSize(r, out, size);
    if |out| < size && r.left == 0 {
      ZeroRun(r, out, size);
    } else if |out| < size {
      StaysOnZeros(r);
      CountsDown(r);
      var t, r' := NextToken(r).value.0, NextToken(r).value.1;
      var more := if t.Lit? then out + [t.b] else CopyBack(out, t.pos + 1, Min(t.len, size - |out|));
      ZeroTail(r', more, size);
    }
  }

  lemma CountsDown(r: Reader)
    requires NextToken(r).Just?
    ensures var r' := NextToken(r).value.1; if r.left > 0 then r'.left == r.left - 1 else r'.left < 0x1_0000
  {
    hide ReadToken, ReadCTable, ReadPT;
    if r.left == 0 {
      ValueBound(r.bits[..16]);
      assert Pow2(16) == 0x1_0000 by { Pow2Values(); }
    }
  }

  // ---- A tail of zero bytes compresses well ----

  lemma ZerosAgree(src: seq<Byte>, a: nat, n: nat)
    requires 1 <= a && a + n <= |src| && ZeroFrom(src, a - 1)
    ensures Agree(TextOf(src), a - 1, a, n) && WindowStart(a + 1) <= a - 1
  {
    var p := a - 1;
    forall i: nat | i < n
      ensures Char(TextOf(src), p, i) == Char(TextOf(src), a, i)
    {
      assert TextAt(src, p + i) == src[p + i] == 0 == src[a + i] == TextAt(src, a + i);
    }
  }

  /** In a tail of zero bytes the longest match is as long as can be. */
  lemma LongInZeros(src: seq<Byte>, m: Matcher, a: nat)
    requires Genuine(src, m) && Longest(src, m) && 1 <= a < |src| && ZeroFrom(src, a - 1)
    ensures Usable(src, m, a) == Min(256, |src| - a)
  {
    hide Genuine, Agree, WindowStart, ZeroFrom;
    GenuineIs(src, m, a);
    assert LongestAt(src, m(a), a);
    if m(a).len < 256 && a + m(a).len + 1 <= |src| {
      ZerosAgree(src, a, m(a).len + 1);
      assert false;
    }
  }

  lemma GenuineIs(src: seq<Byte>, m: Matcher, a: nat)
    requires Genuine(src, m) && a < |src|
    ensures GenuineAt(src, m, a)
  {
  }

  /** So it takes one token for 256 bytes, and at most two at the end. */
  lemma {:induction false} TokensOfZeros(src: seq<Byte>, m: Matcher, a: nat)
    requires Genuine(src, m) && Longest(src, m) && 1 <= a <= |src| && ZeroFrom(src, a - 1)
    ensures 256 * |Parse(src, m, a)| <= |src| - a + 512
    decreases |src| - a
  {
    hide Genuine, Longest, TokenFor, Usable;
    if a < |src| {
      LongInZeros(src, m, a);
      if a + 1 < |src| {
        LongInZeros(src, m, a + 1);
      } else {
        assert Usable(src, m, a + 1) == 0 by { NothingUsable(src, m); }
      }
      TokenChoice(src, m, a);
      var t := TokenFor(src, m, a);
      TokenExpands(src, m, a);
      TokensOfZeros(src, m, a + Span(t));
      if |src| - a <= 2 {
        FewTokens(src, m, a);
      }
    }
  }

  lemma NothingUsable(src: seq<Byte>, m: Matcher)
    ensures Usable(src, m, |src|) == 0
  {
  }

  /** There are no more tokens than bytes. */
  lemma {:induction false} FewTokens(src: seq<Byte>, m: Matcher, a: nat)
    requires Genuine(src, m) && a <= |src|
    ensures |Parse(src, m, a)| <= |src| - a
    decreases |src| - a
  {
    hide Genuine, TokenFor;
    if a < |src| {
      TokenExpands(src, m, a);
      FewTokens(src, m, a + Span(TokenFor(src, m, a)));
    }
  }

  /** The tokens from `a` on, if there are only zero bytes from `b` on. */
  lemma {:induction false} TokensBefore(src: seq<Byte>, m: Matcher, a: nat, b: nat)
    requires Genuine(src, m) && Longest(src, m) && a <= |src| && 1 <= b && ZeroFrom(src, b - 1)
    ensures 256 * |Parse(src, m, a)| <= 256 * (if a < b then b - a else 0) + (|src| - a) + 512
    decreases |src| - a
  {
    hide Genuine, Longest, TokenFor;
    if b <= a {
      TokensOfZeros(src, m, a);
    } else if a < |src| {
      TokenExpands(src, m, a);
      TokensBefore(src, m, a + Span(TokenFor(src, m, a)), b);
    }
  }

  // ---- What tokens and blocks cost ----

  lemma TokenAtMost(clens: seq<nat>, plens: seq<nat>, t: Token)
    requires |clens| == 510 && ValidLens(clens) && |plens| == 14 && ValidLens(plens)
    ensures |TokenBits(clens, plens, t)| <= 44
  {
    hide SymbolBits, PosBits;
    SymbolSize(clens, CharSymbol(t));
    if t.Ptr? {
      PosSize(plens, t.pos);
    }
  }

  lemma {:induction false} TokensAtMost(clens: seq<nat>, plens: seq<nat>, toks: seq<Token>)
    requires |clens| == 510 && ValidLens(clens) && |plens| == 14 && ValidLens(plens)
    ensures |TokensBits(clens, plens, toks)| <= 44 * |toks|
  {
    hide TokenBits;
    if toks != [] {
      TokenAtMost(clens, plens, toks[0]);
      TokensAtMost(clens, plens, toks[1..]);
    }
  }

  lemma BlockAtMost(toks: seq<Token>)
    requires |toks| < 0x1_0000
    ensures |BlockBits(toks)| <= 13280 + 44 * |toks|
  {
    hide TreeLens, Field, CTableBits, PTTableBits, TokensBits, CharTally, PosTally;
    var cf, pf := CharTally(toks), PosTally(toks);
    TreeTableGood(cf);
    TreeTableGood(pf);
    CTableCost(cf);
    PTTableCost(pf, 4, false);
    TokensAtMost(TreeLens(cf), TreeLens(pf), toks);
  }

  /** Full blocks have many tokens, so their tables cost little for each. */
  lemma {:induction false} FullAtMost(blocks: seq<seq<Token>>)
    requires Stream.Sized(blocks) && Full(blocks)
    ensures |StreamBits(blocks)| <= 48 * |Flatten(blocks)|
  {
    hide BlockBits;
    if blocks != [] {
      var n := |blocks| - 1;
      FullAtMost(blocks[..n]);
      BlockAtMost(blocks[n]);
      UsedAtMost(blocks[n]);
    }
  }

  /** All blocks but the last one were sent because the buffer was full. */
  ghost predicate FullFront(blocks: seq<seq<Token>>) {
    forall i :: 0 <= i < |blocks| - 1 ==> BytesUsed(blocks[i]) >= 16384 - 24
  }

  lemma StreamAtMost(blocks: seq<seq<Token>>)
    requires Stream.Sized(blocks) && FullFront(blocks)
    ensures |StreamBits(blocks)| <= 48 * |Flatten(blocks)| + 13280
  {
    hide BlockBits, BytesUsed;
    if blocks != [] {
      var n := |blocks| - 1;
      FullAtMost(blocks[..n]);
      BlockAtMost(blocks[n]);
    }
  }

  // ---- The decoder in the stream ----

  lemma OneBlock(blocks: seq<seq<Token>>)
    requires Stream.Sized(blocks) && |blocks| == 1
    ensures StreamBits(blocks) == BlockBits(blocks[0]) + StreamBits(blocks[1..])
    ensures Flatten(blocks) == blocks[0] + Flatten(blocks[1..])
  {
    hide BlockBits;
    assert blocks[..0] == [] == blocks[1..];
    assert [] + BlockBits(blocks[0]) == BlockBits(blocks[0]) + [];
    assert [] + blocks[0] == blocks[0] + [];
  }

  lemma {:induction false} StreamFirst(blocks: seq<seq<Token>>)
    requires Stream.Sized(blocks) && blocks != []
    ensures StreamBits(blocks) == BlockBits(blocks[0]) + StreamBits(blocks[1..])
    ensures Flatten(blocks) == blocks[0] + Flatten(blocks[1..])
  {
    hide BlockBits;
    var n := |blocks| - 1;
    if n == 0 {
      OneBlock(blocks);
    } else {
      StreamFirst(blocks[..n]);
      assert blocks[..n][1..] == blocks[1..][..n - 1] && blocks[1..][n - 1] == blocks[n];
      Associate(BlockBits(blocks[0]), StreamBits(blocks[1..n]), BlockBits(blocks[n]));
      Associate(blocks[0], Flatten(blocks[1..n]), blocks[n]);
    }
  }

  /** The tables of the block the decoder is in, its tokens that are left, the blocks behind it and what follows. */
  datatype Place = Place(clens: seq<nat>, plens: seq<nat>, cur: seq<Token>, blocks: seq<seq<Token>>, rest: seq<bool>)

  ghost predicate PlaceOk(p: Place) {
    && |p.clens| == 510 && ValidLens(p.clens) && |p.plens| == 14 && ValidLens(p.plens) && |p.cur| < 0x1_0000
    && Stream.Sized(p.blocks) && NonEmpty(p.blocks) && FullFront(p.blocks)
  }

  ghost predicate At(r: Reader, p: Place) {
    && PlaceOk(p) && r.left == |p.cur| && Tabled(r.ct, p.clens, r.pt, p.plens)
    && AllWritableTokens(r.ct, p.clens, r.pt, p.plens, p.cur)
    && r.bits == TokensBits(p.clens, p.plens, p.cur) + (StreamBits(p.blocks) + p.rest)
  }

  function Coming(p: Place): seq<Token> {
    p.cur + Flatten(p.blocks)
  }

  /** The decoder opens the next block. */
  lemma OpenNext(r: Reader, p: Place) returns (r': Reader, p': Place)
    requires At(r, p) && p.cur == [] && p.blocks != []
    ensures At(r', p') && p'.cur != [] && Coming(p') == Coming(p) && p'.rest == p.rest
    ensures NextToken(r) == NextToken(r')
  {
    hide OpenBlock, BlockBits, TokensBits, Readable, ValidLens, TokenWritable, TreeTable, TreeLens, ReadInBlock;
    var b := p.blocks[0];
    assert |b| < 0x1_0000 && b != [];
    var cf, pf := CharTally(b), PosTally(b);
    StreamFirst(p.blocks);
    BlockTables(b);
    var more := StreamBits(p.blocks[1..]) + p.rest;
    Associate(BlockBits(b), StreamBits(p.blocks[1..]), p.rest);
    assert r.bits == BlockBits(b) + more by { NoBits(p.clens, p.plens, StreamBits(p.blocks) + p.rest); }
    OpenBlockBits(b, more);
    p' := Place(TreeLens(cf), TreeLens(pf), b, p.blocks[1..], p.rest);
    r' := Reader(|b|, TreeTable(cf), TreeTable(pf), TokensBits(TreeLens(cf), TreeLens(pf), b) + more);
  }

  lemma NoBits(clens: seq<nat>, plens: seq<nat>, more: seq<bool>)
    requires |clens| == 510 && ValidLens(clens) && |plens| == 14 && ValidLens(plens)
    ensures TokensBits(clens, plens, []) + more == more
  {
  }

  /** The decoder reads the next token of the block. */
  lemma ReadNext(r: Reader, p: Place) returns (r': Reader, p': Place)
    requires At(r, p) && p.cur != []
    ensures NextToken(r) == Just((p.cur[0], r')) && At(r', p') && p' == p.(cur := p.cur[1..])
  {
    hide ReadToken, TokenBits, Readable, ValidLens, TokenWritable, StreamBits;
    var t, ts := p.cur[0], p.cur[1..];
    var more := TokensBits(p.clens, p.plens, ts) + (StreamBits(p.blocks) + p.rest);
    Associate(TokenBits(p.clens, p.plens, t), TokensBits(p.clens, p.plens, ts), StreamBits(p.blocks) + p.rest);
    ReadTokenBits(r.ct, p.clens, r.pt, p.plens, t, more);
    p' := p.(cur := ts);
    r' := Reader(r.left - 1, r.ct, r.pt, more);
  }

  /** The next token is the next one of the stream. */
  lemma StepAt(r: Reader, p: Place) returns (r': Reader, p': Place)
    requires At(r, p) && Coming(p) != []
    ensures NextToken(r) == Just((Coming(p)[0], r')) && At(r', p') && Coming(p') == Coming(p)[1..] && p'.rest == p.rest
  {
    hide At, NextToken;
    if p.cur == [] {
      assert p.blocks != [];
      var o, q := OpenNext(r, p);
      r', p' := ReadNext(o, q);
    } else {
      r', p' := ReadNext(r, p);
    }
  }

  /** What is left of the stream costs at most 48 bits for a token, and one set of tables. */
  lemma LeftAtMost(r: Reader, p: Place)
    requires At(r, p)
    ensures |r.bits| <= 48 * |Coming(p)| + 13280 + |p.rest|
  {
    hide TokensBits, StreamBits, Flatten, ValidLens, Readable;
    TokensAtMost(p.clens, p.plens, p.cur);
    StreamAtMost(p.blocks);
  }

  // ---- Where the data was cut ----

  lemma EndOfZeros(bits: seq<bool>, k: nat, rest: seq<bool>)
    requires Behind(bits + Zeros(k), rest) && |rest| <= k
    ensures rest == Zeros(|rest|)
  {
  }

  lemma ZeroLater(s: seq<Byte>, n: nat, n': nat)
    requires ZeroFrom(s, n) && n <= n'
    ensures ZeroFrom(s, n')
  {
  }

  /** The token at the cut is made of the last bits and of zeros, and leaves zeros. */
  lemma AfterCut(r: Reader, k: nat)
    requires NextToken(r).Nothing? && r.left < 0x1_0000 && NextToken(Longer(r, Zeros(k))).Just?
    ensures var s := NextToken(Longer(r, Zeros(k))).value.1; OnZeros(s) && s.left < 0x1_0000
  {
    hide NextToken, Zeros;
    var l := Longer(r, Zeros(k));
    var s := NextToken(l).value.1;
    if |s.bits| >= k {
      NextFewer(r, Zeros(k));
      assert false;
    }
    NextUses(l, []);
    EndOfZeros(r.bits, k, s.bits);
    CountsDown(l);
  }

  /** One step of a decompression that ends well. */
  lemma DecompressStep(r: Reader, out: seq<Byte>, size: nat) returns (more: seq<Byte>)
    requires |out| < size && Decompress(r, out, size).Just?
    ensures NextToken(r).Just? && |more| <= size && |more| <= |out| + 256
    ensures Decompress(NextToken(r).value.1, more, size) == Decompress(r, out, size)
  {
    hide NextToken;
    var t := NextToken(r).value.0;
    more := if t.Lit? then out + [t.b] else CopyBack(out, t.pos + 1, Min(t.len, size - |out|));
  }

  /** That token and the rest of its block are all there is but zero bytes. */
  lemma CutToken(r: Reader, k: nat, src: seq<Byte>, a: nat)
    requires NextToken(r).Nothing? && r.left < 0x1_0000 && a < |src|
    requires Decompress(Longer(r, Zeros(k)), src[..a], |src|) == Just(src)
    ensures ZeroFrom(src, a + 0x100_0000)
  {
    hide NextToken, Decompress, Zeros, ZeroFrom, OnZeros, Longer;
    var l := Longer(r, Zeros(k));
    var more := DecompressStep(l, src[..a], |src|);
    AfterCut(r, k);
    var s := NextToken(l).value.1;
    ZeroTail(s, more, |src|);
    ZeroLater(src, |more| + 256 * s.left, a + 0x100_0000);
  }

  /** Up to the cut both decoders read the same tokens. Behind it there are only zero bytes, but for 16 MiB, while what
      was cut off, `z`, holds the tokens of these bytes. */
  lemma {:induction false} Follow(r: Reader, z: seq<bool>, k: nat, p: Place, src: seq<Byte>, m: Matcher, a: nat)
    returns (b: nat)
    requires Genuine(src, m) && a <= |src| && At(Longer(r, z), p) && Coming(p) == Parse(src, m, a)
    requires Decompress(Longer(r, Zeros(k)), src[..a], |src|) == Just(src)
    ensures b <= |src| && |z| <= 48 * |Parse(src, m, b)| + 13280 + |p.rest| && ZeroFrom(src, b + 0x100_0000)
    decreases |src| - a
  {
    hide NextToken, Decompress, Genuine, TokenFor, At, Zeros, Coming, ExpandToken, Expandable;
    if NextToken(r).Just? && a < |src| {
      NextMore(r, z);
      NextMore(r, Zeros(k));
      var r' := NextToken(r).value.1;
      var f, p' := StepAt(Longer(r, z), p);
      var t := TokenFor(src, m, a);
      TokenExpands(src, m, a);
      DecompressOne(Longer(r, Zeros(k)), t, Longer(r', Zeros(k)), src[..a], |src|);
      assert Parse(src, m, a)[1..] == Parse(src, m, a + Span(t));
      b := Follow(r', z, k, p', src, m, a + Span(t));
    } else {
      b := a;
      LeftAtMost(Longer(r, z), p);
      if a < |src| {
        AtLeft(Longer(r, z), p);
        CutToken(r, k, src, a);
      }
    }
  }

  lemma AtLeft(r: Reader, p: Place)
    requires At(r, p)
    ensures r.left < 0x1_0000
  {
  }

  // ---- The whole image ----

  /** As `DecodeImage`, with `k` zero bits behind the data. */
  function DecodeFilled(image: seq<Byte>, k: nat): Option<seq<Byte>> {
    if |image| < 8 then Nothing
    else
      var comp, orig := DwordValue(image[..4]), DwordValue(image[4..8]);
      if 8 + comp > |image| then Nothing
      else Decompress(Longer(StartReader(image[8..8 + comp]), Zeros(k)), [], orig)
  }

  lemma FilledParts(comp: nat, orig: nat, data: seq<Byte>, k: nat)
    requires comp <= |data| && comp < 0x1_0000_0000 && orig < 0x1_0000_0000
    ensures DecodeFilled(Dword(comp) + Dword(orig) + data, k)
         == Decompress(Longer(StartReader(data[..comp]), Zeros(k)), [], orig)
  {
    hide Decompress, StartReader, Dword, DwordValue;
    var image := Dword(comp) + Dword(orig) + data;
    DwordRoundTrip(comp);
    DwordRoundTrip(orig);
    assert image[..4] == Dword(comp) && image[4..8] == Dword(orig) && image[8..8 + comp] == data[..comp];
  }

  lemma FrontFull(toks: seq<Token>)
    ensures FullFront(BlocksOf(toks))
  {
    hide EnqueueAll, BytesUsed;
    SentFull(toks);
  }

  /** The decoder before the first block. */
  lemma StartAt(src: seq<Byte>, m: Matcher) returns (p: Place)
    requires Genuine(src, m) && src != []
    ensures At(StartReader(Payload(src, m) + [0]), p) && Coming(p) == Parse(src, m, 0) && |p.rest| < 16
  {
    hide Unpack, Pack, StreamBits, Genuine, BlocksOf, TokensBits, Flatten;
    var toks := Parse(src, m, 0);
    BlocksGood(toks);
    FrontFull(toks);
    var rest := PayloadBits(StreamBits(BlocksOf(toks)));
    p := Place(Repeat(0, 510), Repeat(0, 14), [], BlocksOf(toks), rest);
    NoBits(p.clens, p.plens, StreamBits(p.blocks) + rest);
    assert [] + toks == toks;
  }

  /** A payload that lacks its last 4 GiB does not decompress to its source, however many zero bits follow. */
  lemma CutFilled(src: seq<Byte>, m: Matcher, n: nat, k: nat)
    requires Genuine(src, m) && Longest(src, m) && 0 < |src| < 0x1_0000_0000
    requires n + 0x1_0000_0000 <= |Payload(src, m) + [0]|
    ensures Decompress(Longer(StartReader((Payload(src, m) + [0])[..n]), Zeros(k)), [], |src|) != Just(src)
  {
    hide Decompress, Payload, Genuine, Longest, Unpack, At, Coming, Parse, ZeroFrom;
    var data := Payload(src, m) + [0];
    var p := StartAt(src, m);
    var r, z := StartReader(data[..n]), Unpack(data[n..]);
    UnpackConcat(data[..n], data[n..]);
    assert data == data[..n] + data[n..] && src[..0] == [];
    if Decompress(Longer(r, Zeros(k)), [], |src|) == Just(src) {
      var b := Follow(r, z, k, p, src, m, 0);
      TokensBefore(src, m, b, b + 0x100_0001);
      assert false;
    }
  }

  /** More bits do not matter to a decoder that has enough. */
  lemma {:induction false} DecompressMore(r: Reader, more: seq<bool>, out: seq<Byte>, size: nat)
    requires Decompress(r, out, size).Just?
    ensures Decompress(Longer(r, more), out, size) == Decompress(r, out, size)
    decreases size - |out|
  {
    hide NextToken, Longer;
    if |out| < size {
      NextMore(r, more);
      var t, r' := NextToken(r).value.0, NextToken(r).value.1;
      var next := if t.Lit? then out + [t.b] else CopyBack(out, t.pos + 1, Min(t.len, size - |out|));
      DecompressMore(r', more, next, size);
    }
  }

  lemma FilledSize(image: seq<Byte>, k: nat)
    requires DecodeFilled(image, k).Just?
    ensures |DecodeFilled(image, k).value| < 0x1_0000_0000
  {
    hide Decompress, StartReader, DwordValue, Longer, Zeros;
    DwordBound(image[4..8]);
    var comp := DwordValue(image[..4]);
    DecompressSize(Longer(StartReader(image[8..8 + comp]), Zeros(k)), [], DwordValue(image[4..8]));
  }

  /** The main result: with zero bits behind the data, however many, an image decompresses to its source if and only if
      both sizes fit their fields. */
  lemma FilledExactly(src: seq<Byte>, m: Matcher, k: nat)
    requires Genuine(src, m) && Longest(src, m)
    ensures DecodeFilled(Image(src, m), k) == Just(src)
       <==> |src| < 0x1_0000_0000 && |Payload(src, m)| + 1 < 0x1_0000_0000
  {
    hide Payload, Dword, DecodeFilled, Decompress, StartReader, Genuine, Longest, Zeros, Longer;
    var data := Payload(src, m) + [0];
    if |src| >= 0x1_0000_0000 {
      if DecodeFilled(Image(src, m), k).Just? {
        FilledSize(Image(src, m), k);
      }
    } else {
      WrapSmall(|src|);
      var n := Wrap32(|data|);
      FilledParts(n, |src|, data, k);
      if |data| < 0x1_0000_0000 {
        WrapSmall(|data|);
        assert data[..n] == data;
        DecompressPayload(src, m);
        DecompressMore(StartReader(data), Zeros(k), [], |src|);
      } else {
        PayloadBound(src, m);
        CutFilled(src, m, n, k);
      }
    }
  }
}
