/** Reading tokens across blocks. */
module Stream {
  import opened Wrappers
  import opened Bits
  import opened CanonicalCode
  import opened CodeLengths
  import opened TableCoding
  import opened Tables
  import opened Tokens

  /** The decoder between two tokens: tokens left in the block, its tables, the bits to come. */
  datatype Reader = Reader(left: nat, ct: Table, pt: Table, bits: seq<bool>)

  /** Section 19.4: the start of a block. The size counts down in 16 bits, so 0 stands for 65536. */
  function OpenBlock(bits: seq<bool>): Option<Reader> {
    match GetBits(16, bits)
    case None => Nothing
    case Some(size, rest) =>
      match ReadCTable(rest)
      case None => Nothing
      case Some(ct, rest') =>
        match ReadPT(14, 4, false, rest')
        case None => Nothing
        case Some(pt, rest'') => Just(Reader(if size == 0 then 0x1_0000 else size, ct, pt, rest''))
  }

  function ReadInBlock(r: Reader): Option<(Token, Reader)>
    requires r.left > 0
  {
    match ReadToken(r.ct, r.pt, r.bits)
    case None => Nothing
    case Some(t, rest) => Just((t, Reader(r.left - 1, r.ct, r.pt, rest)))
  }

  /** Section 19.4, DecodeC and DecodeP: the next token, from a new block if the last one is used up. */
  function NextToken(r: Reader): Option<(Token, Reader)> {
    if r.left > 0 then ReadInBlock(r)
    else
      match OpenBlock(r.bits)
      case Nothing => Nothing
      case Just(r') => if r'.left > 0 then ReadInBlock(r') else Nothing
  }

  /** The next `k` tokens, and the decoder behind them. */
  function ReadTokens(r: Reader, k: nat): Option<(seq<Token>, Reader)>
    decreases k
  {
    if k == 0 then Just(([], r))
    else
      match NextToken(r)
      case Nothing => Nothing
      case Just((t, r')) =>
        match ReadTokens(r', k - 1)
        case Nothing => Nothing
        case Just((ts, e)) => Just(([t] + ts, e))
  }

  /** From `r` the tokens `toks` are read and the bits `end` are left. */
  predicate Gives(r: Reader, toks: seq<Token>, end: seq<bool>) {
    var d := ReadTokens(r, |toks|);
    d.Just? && d.value.0 == toks && d.value.1.bits == end
  }

  ghost predicate AllWritableTokens(ct: Table, clens: seq<nat>, pt: Table, plens: seq<nat>, toks: seq<Token>)
  {
    forall i :: 0 <= i < |toks| ==> TokenWritable(ct, clens, pt, plens, toks[i])
  }

  /** `toks` are read from `bits` at the start of a block, whatever the last tables were, and `end` is left. */
  ghost predicate Reads(bits: seq<bool>, toks: seq<Token>, end: seq<bool>) {
    forall ct, pt :: Gives(Reader(0, ct, pt, bits), toks, end)
  }

  lemma ReadOne(ct: Table, clens: seq<nat>, pt: Table, plens: seq<nat>, left: nat, t: Token, rest: seq<bool>,
                more: seq<Token>, end: seq<bool>)
    requires Tabled(ct, clens, pt, plens) && TokenWritable(ct, clens, pt, plens, t)
    requires Gives(Reader(left, ct, pt, rest), more, end)
    ensures Gives(Reader(left + 1, ct, pt, TokenBits(clens, plens, t) + rest), [t] + more, end)
  {
    hide ReadToken, TokenBits, TokenWritable, Readable;
    ReadTokenBits(ct, clens, pt, plens, t, rest);
  }

  lemma {:induction false} ReadBlockTokens(ct: Table, clens: seq<nat>, pt: Table, plens: seq<nat>, toks: seq<Token>,
                                           rest: seq<bool>, more: seq<Token>, end: seq<bool>)
    requires Tabled(ct, clens, pt, plens) && AllWritableTokens(ct, clens, pt, plens, toks)
    requires Reads(rest, more, end)
    ensures Gives(Reader(|toks|, ct, pt, TokensBits(clens, plens, toks) + rest), toks + more, end)
    decreases |toks|
  {
    hide Gives, TokenBits, TokenWritable, Readable;
    if toks == [] {
      assert [] + rest == rest && toks + more == more;
    } else {
      var t, ts := toks[0], toks[1..];
      var tail := TokensBits(clens, plens, ts);
      ReadBlockTokens(ct, clens, pt, plens, ts, rest, more, end);
      ReadOne(ct, clens, pt, plens, |ts|, t, tail + rest, ts + more, end);
      Associate(TokenBits(clens, plens, t), tail, rest);
      assert [t] + (ts + more) == toks + more;
    }
  }

  lemma {:induction false} CharOccurs(toks: seq<Token>, i: nat)
    requires i < |toks|
    ensures CharSymbols(toks)[i] == CharSymbol(toks[i])
  {
    if i < |toks| - 1 {
      CharOccurs(toks[..|toks| - 1], i);
    }
  }

  lemma {:induction false} PosOccurs(toks: seq<Token>, i: nat) returns (j: nat)
    requires i < |toks| && toks[i].Ptr?
    ensures j < |PosSymbols(toks)| && PosSymbols(toks)[j] == BitLen(toks[i].pos)
  {
    if i < |toks| - 1 {
      j := PosOccurs(toks[..|toks| - 1], i);
    } else {
      j := |PosSymbols(toks)| - 1;
    }
  }

  /** The tables of a block write every one of its tokens. */
  lemma BlockTables(toks: seq<Token>)
    requires |toks| < 0x1_0000
    ensures var cf, pf := CharTally(toks), PosTally(toks);
      && Tabled(TreeTable(cf), TreeLens(cf), TreeTable(pf), TreeLens(pf))
      && AllWritableTokens(TreeTable(cf), TreeLens(cf), TreeTable(pf), TreeLens(pf), toks)
  {
    TallyTable(CharSymbols(toks), 510);
    TallyTable(PosSymbols(toks), 14);
    var cf, pf := CharTally(toks), PosTally(toks);
    forall i | 0 <= i < |toks|
      ensures TokenWritable(TreeTable(cf), TreeLens(cf), TreeTable(pf), TreeLens(pf), toks[i])
    {
      CharOccurs(toks, i);
      if toks[i].Ptr? {
        var j := PosOccurs(toks, i);
      }
    }
  }

  /** The size, the two tables and the tokens of a block, one behind the other. */
  lemma OpenParts(n: nat, cb: seq<bool>, ct: Table, pb: seq<bool>, pt: Table, tb: seq<bool>, rest: seq<bool>)
    requires 0 < n < 0x1_0000
    requires ReadCTable(cb + (pb + (tb + rest))) == Some(ct, pb + (tb + rest))
    requires ReadPT(14, 4, false, pb + (tb + rest)) == Some(pt, tb + rest)
    ensures OpenBlock(Field(16, n) + (cb + (pb + tb)) + rest) == Just(Reader(n, ct, pt, tb + rest))
  {
    hide ReadCTable, ReadPT, GetBits, Field, Pow2;
    Associate(Field(16, n), cb + (pb + tb), rest);
    Associate(cb, pb + tb, rest);
    Associate(pb, tb, rest);
    assert n < Pow2(16) by { Pow2Values(); }
    GetField(16, n, cb + (pb + (tb + rest)));
  }

  /** The decoder opens a block with its own tables. */
  lemma OpenBlockBits(toks: seq<Token>, rest: seq<bool>)
    requires 0 < |toks| < 0x1_0000
    ensures var cf, pf := CharTally(toks), PosTally(toks);
      && ValidLens(TreeLens(cf)) && ValidLens(TreeLens(pf))
      && OpenBlock(BlockBits(toks) + rest)
         == Just(Reader(|toks|, TreeTable(cf), TreeTable(pf), TokensBits(TreeLens(cf), TreeLens(pf), toks) + rest))
  {
    hide OpenBlock, ReadCTable, ReadPT, CTableBits, PTTableBits, TokensBits, Field, TreeTable, TreeLens, Pow2,
         CharTally, PosTally, Readable;
    var cf, pf := CharTally(toks), PosTally(toks);
    TreeTableGood(cf);
    TreeTableGood(pf);
    var cb, pb, tb := CTableBits(cf), PTTableBits(pf, 4, false), TokensBits(TreeLens(cf), TreeLens(pf), toks);
    assert 14 < Pow2(4) by { Pow2Values(); }
    ReadCTableBits(cf, pb + (tb + rest));
    ReadPTTable(pf, 4, false, tb + rest);
    OpenParts(|toks|, cb, TreeTable(cf), pb, TreeTable(pf), tb, rest);
  }

  /** The bits of a sequence of blocks. */
  ghost function StreamBits(blocks: seq<seq<Token>>): seq<bool>
    requires Sized(blocks)
  {
    if blocks == [] then [] else StreamBits(blocks[..|blocks| - 1]) + BlockBits(blocks[|blocks| - 1])
  }

  ghost predicate Sized(blocks: seq<seq<Token>>) {
    forall i :: 0 <= i < |blocks| ==> |blocks[i]| < 0x1_0000
  }

  ghost predicate NonEmpty(blocks: seq<seq<Token>>) {
    forall i :: 0 <= i < |blocks| ==> blocks[i] != []
  }

  function Flatten(blocks: seq<seq<Token>>): seq<Token> {
    if blocks == [] then [] else Flatten(blocks[..|blocks| - 1]) + blocks[|blocks| - 1]
  }

  /** A decoder at the start of a block reads what it reads once the block is open. */
  lemma ReadOpened(r: Reader, toks: seq<Token>, end: seq<bool>)
    requires r.left == 0 && OpenBlock(r.bits).Just? && OpenBlock(r.bits).value.left > 0
    requires toks != [] && Gives(OpenBlock(r.bits).value, toks, end)
    ensures Gives(r, toks, end)
  {
    hide OpenBlock, ReadInBlock;
  }

  /** Reading on from the start of a block. */
  lemma ReadBlock(toks: seq<Token>, rest: seq<bool>, more: seq<Token>, end: seq<bool>)
    requires 0 < |toks| < 0x1_0000 && Reads(rest, more, end)
    ensures Reads(BlockBits(toks) + rest, toks + more, end)
  {
    hide Gives, OpenBlock, BlockBits, TokenWritable, Readable, TokensBits;
    var cf, pf := CharTally(toks), PosTally(toks);
    BlockTables(toks);
    OpenBlockBits(toks, rest);
    ReadBlockTokens(TreeTable(cf), TreeLens(cf), TreeTable(pf), TreeLens(pf), toks, rest, more, end);
    forall ct, pt
      ensures Gives(Reader(0, ct, pt, BlockBits(toks) + rest), toks + more, end)
    {
      ReadOpened(Reader(0, ct, pt, BlockBits(toks) + rest), toks + more, end);
    }
  }

  /** Every sequence of tokens, in however many blocks, is read back as it was written, whatever bits follow, and
      no bit behind them is used. */
  lemma {:induction false} ReadStream(blocks: seq<seq<Token>>, rest: seq<bool>, more: seq<Token>, end: seq<bool>)
    requires Sized(blocks) && NonEmpty(blocks) && Reads(rest, more, end)
    ensures Reads(StreamBits(blocks) + rest, Flatten(blocks) + more, end)
    decreases |blocks|
  {
    hide Gives, BlockBits;
    if blocks == [] {
      assert [] + rest == rest && [] + more == more;
    } else {
      var n := |blocks| - 1;
      var last := blocks[n];
      ReadBlock(last, rest, more, end);
      ReadStream(blocks[..n], BlockBits(last) + rest, last + more, end);
      Associate(StreamBits(blocks[..n]), BlockBits(last), rest);
      Associate(Flatten(blocks[..n]), last, more);
    }
  }
}
