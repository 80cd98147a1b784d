/** A bound on the size of the compressed payload: what the worst codes and tables can cost. */
module PayloadSize {
  import opened Bits
  import opened CanonicalCode
  import opened HuffmanTree
  import opened CodeLengths
  import opened TableCoding
  import opened Tables
  import opened Tokens
  import opened Stream
  import opened Staging
  import opened Blocks
  import opened Lz77
  import opened Compressor

  // ---- Tokens ----

  lemma SymbolSize(lens: seq<nat>, i: nat)
    requires i < |lens| && lens[i] <= 16
    ensures |SymbolBits(lens, i)| <= 16
  {
  }

  lemma PosSize(plens: seq<nat>, pos: nat)
    requires |plens| == 14 && ValidLens(plens) && pos < 8192
    ensures |PosBits(plens, pos)| <= 28
  {
    hide SymbolBits, Field;
    PosSymbol(pos);
    SymbolSize(plens, BitLen(pos));
  }

  /** A token costs at most sixteen bits for every byte it stands for. */
  lemma TokenCost(clens: seq<nat>, plens: seq<nat>, t: Token)
    requires |clens| == 510 && ValidLens(clens) && |plens| == 14 && ValidLens(plens)
    ensures |TokenBits(clens, plens, t)| <= 16 * Span(t)
  {
    hide SymbolBits, PosBits;
    SymbolSize(clens, CharSymbol(t));
    if t.Ptr? {
      PosSize(plens, t.pos);
    }
  }

  lemma {:induction false} TokensCost(clens: seq<nat>, plens: seq<nat>, toks: seq<Token>)
    requires |clens| == 510 && ValidLens(clens) && |plens| == 14 && ValidLens(plens)
    ensures |TokensBits(clens, plens, toks)| <= 16 * TotalSpan(toks)
  {
    hide TokenBits, Span;
    if toks != [] {
      TokenCost(clens, plens, toks[0]);
      TokensCost(clens, plens, toks[1..]);
    }
  }

  // ---- Tables ----

  lemma LengthCost(l: nat)
    requires l <= 16
    ensures |LengthBits(l)| <= 13
  {
    hide Field;
  }

  lemma {:induction false} PTBodyCost(lens: seq<nat>, n: nat, i: nat, special: bool)
    requires n <= |lens| && 6 <= |lens| && ValidLens(lens) && i <= |lens|
    ensures |PTBody(lens, n, i, special)| <= 15 * (|lens| - i)
    decreases |lens| - i
  {
    hide LengthBits, Field;
    if i < n {
      LengthCost(lens[i]);
      PTBodyCost(lens, n, if special && i == 2 then SkipZeros(lens, 3) else i + 1, special);
    }
  }

  lemma PTTableCost(f: seq<nat>, nbit: nat, special: bool)
    requires Total(f) < 0x1_0000 && 6 <= |f| < 0x1_0000 && nbit <= 5
    ensures |PTTableBits(f, nbit, special)| <= 5 + 15 * |f|
  {
    hide TreeLens, Field, PTBody;
    TreeTableGood(f);
    PTBodyCost(TreeLens(f), |Trim(TreeLens(f))|, 0, special);
  }

  lemma ItemCost(tlens: seq<nat>, it: Item)
    requires ValidLens(tlens) && 19 <= |tlens|
    ensures |ItemBits(tlens, it)| <= 25
  {
    hide SymbolBits, Field;
    SymbolSize(tlens, ItemSymbol(it));
  }

  lemma {:induction false} ItemsCost(tlens: seq<nat>, items: seq<Item>)
    requires ValidLens(tlens) && 19 <= |tlens|
    ensures |ItemsBits(tlens, items)| <= 25 * |items|
  {
    hide ItemBits;
    if items != [] {
      ItemCost(tlens, items[0]);
      ItemsCost(tlens, items[1..]);
    }
  }

  lemma CCost(clens: seq<nat>, tlens: seq<nat>)
    requires |clens| == 510 && ValidLens(clens) && ValidLens(tlens) && 19 <= |tlens|
    ensures |CBits(clens, tlens)| <= 12759
  {
    hide ItemsBits, Field, Meaning, Items;
    var items := Items(Trim(clens));
    ItemsMeaning(Trim(clens));
    ItemsShort(items);
    ItemsCost(tlens, items);
  }

  lemma CTableCost(f: seq<nat>)
    requires Total(f) < 0x1_0000 && |f| == 510
    ensures |CTableBits(f)| <= 13049
  {
    hide TreeLens, Field, PTTableBits, CBits;
    TreeTableGood(f);
    if TreeRoot(f) >= 510 {
      var clens := TreeLens(f);
      ExtraTable(clens);
      PTTableCost(ExtraTally(clens), 5, true);
      CCost(clens, TreeLens(ExtraTally(clens)));
    }
  }

  // ---- Blocks ----

  lemma BlockCost(toks: seq<Token>)
    requires |toks| < 0x1_0000
    ensures |BlockBits(toks)| <= 13280 + 16 * TotalSpan(toks)
  {
    hide TreeLens, Field, CTableBits, PTTableBits, TokensBits, TotalSpan, CharTally, PosTally;
    var cf, pf := CharTally(toks), PosTally(toks);
    TreeTableGood(cf);
    TreeTableGood(pf);
    CTableCost(cf);
    PTTableCost(pf, 4, false);
    TokensCost(TreeLens(cf), TreeLens(pf), toks);
  }

  lemma {:induction false} SpanConcat(a: seq<Token>, b: seq<Token>)
    ensures TotalSpan(a + b) == TotalSpan(a) + TotalSpan(b)
  {
    if a == [] {
      assert a + b == b;
    } else {
      SpanConcat(a[1..], b);
      assert (a + b)[1..] == a[1..] + b;
    }
  }

  lemma {:induction false} SpanAtLeast(toks: seq<Token>)
    ensures |toks| <= TotalSpan(toks)
  {
    if toks != [] {
      SpanAtLeast(toks[1..]);
    }
  }

  lemma {:induction false} UsedAtMost(toks: seq<Token>)
    ensures BytesUsed(toks) <= 4 * |toks|
  {
    if toks != [] {
      UsedAtMost(toks[..|toks| - 1]);
    }
  }

  /** Blocks that were sent because the buffer was full. */
  ghost predicate Full(blocks: seq<seq<Token>>) {
    forall i :: 0 <= i < |blocks| ==> BytesUsed(blocks[i]) >= 16384 - 24
  }

  lemma {:induction false} SentFull(toks: seq<Token>)
    ensures Full(EnqueueAll(toks).sent)
  {
    if toks != [] {
      SentFull(toks[..|toks| - 1]);
    }
  }

  /** The tables of a full block cost less than four bits for every byte of the block. */
  lemma {:induction false} FullCost(blocks: seq<seq<Token>>)
    requires Sized(blocks) && Full(blocks)
    ensures |StreamBits(blocks)| <= 20 * TotalSpan(Flatten(blocks))
  {
    hide BlockBits, TotalSpan;
    if blocks == [] {
      assert StreamBits(blocks) == [];
    } else {
      var n := |blocks| - 1;
      FullCost(blocks[..n]);
      BlockCost(blocks[n]);
      UsedAtMost(blocks[n]);
      SpanAtLeast(blocks[n]);
      SpanConcat(Flatten(blocks[..n]), blocks[n]);
    }
  }

  /** The payload is at most two and a half times the source, plus one set of tables. */
  lemma PayloadBound(src: seq<Byte>, m: Matcher)
    requires Genuine(src, m)
    ensures 8 * |Payload(src, m)| <= 20 * |src| + 13287
  {
    hide StreamBits, BlockBits, TotalSpan, Flatten, Parse, EnqueueAll, Genuine, Pack;
    var toks := Parse(src, m, 0);
    var q := EnqueueAll(toks);
    ParseExpands(src, m, 0);
    assert src[..0] == [];
    ExpandedSize([], toks, src);
    EnqueueAllGood(toks);
    FitsSized(q.pending);
    SentFull(toks);
    FullCost(q.sent);
    BlockCost(q.pending);
    SpanConcat(Flatten(q.sent), q.pending);
    BlocksGood(toks);
    LastBlock(q.sent, q.pending);
  }

  lemma LastBlock(sent: seq<seq<Token>>, last: seq<Token>)
    requires Sized(sent) && Sized(sent + [last]) && |last| < 0x1_0000
    ensures StreamBits(sent + [last]) == StreamBits(sent) + BlockBits(last)
  {
    hide BlockBits;
    assert (sent + [last])[..|sent|] == sent;
  }
}
