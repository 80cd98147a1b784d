/** Literals and pointers, the bits of a block of them, and a decoder after section 19.4 of the
    UEFI Specification. */
module Tokens {
  import opened Bits
  import opened CanonicalCode
  import opened HuffmanTree
  import opened CodeLengths
  import opened TableCoding
  import opened Tables

  /** An original character, or a pointer: copy `len` bytes from `pos + 1` bytes back. */
  datatype RawToken = Lit(b: Byte) | Ptr(len: nat, pos: nat)

  type Token = t: RawToken | t.Lit? || (3 <= t.len <= 256 && t.pos < 8192) witness Lit(0)

  /** The number of significant bits. */
  function BitLen(x: nat): (k: nat)
    ensures k == 0 <==> x == 0
  {
    if x == 0 then 0 else 1 + BitLen(x / 2)
  }

  lemma {:induction false} BitLenRange(x: nat)
    requires x > 0
    ensures Pow2(BitLen(x) - 1) <= x < Pow2(BitLen(x))
  {
    if x > 1 {
      BitLenRange(x / 2);
    }
  }

  lemma PosSymbol(pos: nat)
    requires pos < 8192
    ensures BitLen(pos) < 14
  {
    if BitLen(pos) >= 14 {
      BitLenRange(pos);
      Pow2Monotone(13, BitLen(pos) - 1);
      Pow2Values();
      assert false;
    }
  }

  /** The Char&Len symbol of a token. */
  function CharSymbol(t: Token): (c: nat)
    ensures c < 510 && (c < 256 <==> t.Lit?)
  {
    if t.Lit? then t.b else t.len + 253
  }

  function CharSymbols(toks: seq<Token>): (r: seq<nat>)
    ensures |r| == |toks| && AllBelow(r, 510)
  {
    if toks == [] then [] else CharSymbols(toks[..|toks| - 1]) + [CharSymbol(toks[|toks| - 1])]
  }

  /** The Position symbols of the pointers. */
  function PosSymbols(toks: seq<Token>): (r: seq<nat>)
    ensures |r| <= |toks| && AllBelow(r, 14)
  {
    if toks == [] then []
    else
      var t := toks[|toks| - 1];
      if t.Lit? then PosSymbols(toks[..|toks| - 1])
      else
        PosSymbol(t.pos);
        PosSymbols(toks[..|toks| - 1]) + [BitLen(t.pos)]
  }

  // ---- Writing ----

  /** A position: the symbol for its size, then the bits below the leading one. */
  ghost function PosBits(plens: seq<nat>, pos: nat): seq<bool>
    requires |plens| == 14 && ValidLens(plens) && pos < 8192
  {
    PosSymbol(pos);
    var k := BitLen(pos);
    SymbolBits(plens, k) + (if k > 1 then Field(k - 1, pos % Pow2(k - 1)) else [])
  }

  ghost function TokenBits(clens: seq<nat>, plens: seq<nat>, t: Token): seq<bool>
    requires |clens| == 510 && ValidLens(clens) && |plens| == 14 && ValidLens(plens)
  {
    SymbolBits(clens, CharSymbol(t)) + (if t.Lit? then [] else PosBits(plens, t.pos))
  }

  ghost function TokensBits(clens: seq<nat>, plens: seq<nat>, toks: seq<Token>): seq<bool>
    requires |clens| == 510 && ValidLens(clens) && |plens| == 14 && ValidLens(plens)
  {
    if toks == [] then [] else TokenBits(clens, plens, toks[0]) + TokensBits(clens, plens, toks[1..])
  }

  function CharTally(toks: seq<Token>): (f: seq<nat>)
    requires |toks| < 0x1_0000
    ensures |f| == 510 && Total(f) == |toks|
  {
    TallyTotal(CharSymbols(toks), 510);
    Tally(CharSymbols(toks), 510)
  }

  function PosTally(toks: seq<Token>): (f: seq<nat>)
    requires |toks| < 0x1_0000
    ensures |f| == 14 && Total(f) < 0x1_0000
  {
    TallyTotal(PosSymbols(toks), 14);
    Tally(PosSymbols(toks), 14)
  }

  /** A whole block: its size, its three tables and its tokens. */
  ghost function BlockBits(toks: seq<Token>): seq<bool>
    requires |toks| < 0x1_0000
  {
    var cf, pf := CharTally(toks), PosTally(toks);
    TreeTableGood(cf);
    TreeTableGood(pf);
    Field(16, |toks|) + (CTableBits(cf) + (PTTableBits(pf, 4, false) + TokensBits(TreeLens(cf), TreeLens(pf), toks)))
  }

  // ---- Reading ----

  /** Section 19.4, DecodeP. */
  function ReadPos(pt: Table, bits: seq<bool>): Decoded<nat> {
    match ReadSymbol(pt, bits)
    case None => None
    case Some(k, rest) =>
      if k <= 1 then Some(k, rest)
      else
        match GetBits(k - 1, rest)
        case None => None
        case Some(v, rest') => Some(Pow2(k - 1) + v, rest')
  }

  /** One token of a block with the tables `ct` and `pt`; what is no token is an error. */
  function ReadToken(ct: Table, pt: Table, bits: seq<bool>): Decoded<Token> {
    match ReadSymbol(ct, bits)
    case None => None
    case Some(c, rest) =>
      if c < 256 then Some(Lit(c), rest)
      else
        match ReadPos(pt, rest)
        case None => None
        case Some(pos, rest') => if c < 510 && pos < 8192 then Some(Ptr(c - 253, pos), rest') else None
  }

  lemma ModOnce(x: nat, m: nat)
    requires 0 < m <= x < 2 * m
    ensures x % m == x - m
  {
    assert x / m == 1;
  }

  lemma PosLow(pos: nat, k: nat)
    requires k == BitLen(pos) && 1 < k
    ensures pos % Pow2(k - 1) == pos - Pow2(k - 1) < Pow2(k - 1)
  {
    BitLenRange(pos);
    ModOnce(pos, Pow2(k - 1));
  }

  /** A symbol of at most one says the position itself. */
  lemma ReadPosShort(pt: Table, sym: seq<bool>, k: nat, rest: seq<bool>)
    requires ReadSymbol(pt, sym + rest) == Some(k, rest) && k <= 1
    ensures ReadPos(pt, sym + [] + rest) == Some(k, rest)
  {
    hide ReadSymbol;
    assert sym + [] + rest == sym + rest;
  }

  /** A larger one is followed by the bits below the leading one. */
  lemma ReadPosLong(pt: Table, sym: seq<bool>, k: nat, v: nat, rest: seq<bool>)
    requires k > 1 && v < Pow2(k - 1)
    requires ReadSymbol(pt, sym + (Field(k - 1, v) + rest)) == Some(k, Field(k - 1, v) + rest)
    ensures ReadPos(pt, sym + Field(k - 1, v) + rest) == Some(Pow2(k - 1) + v, rest)
  {
    hide ReadSymbol, GetBits, Field, Pow2;
    Associate(sym, Field(k - 1, v), rest);
    GetField(k - 1, v, rest);
  }

  lemma ReadPosBits(pt: Table, plens: seq<nat>, pos: nat, rest: seq<bool>)
    requires |plens| == 14 && ValidLens(plens) && Readable(pt, plens) && pos < 8192
    requires Writable(pt, plens, BitLen(pos))
    ensures ReadPos(pt, PosBits(plens, pos) + rest) == Some(pos, rest)
  {
    hide ReadPos, ReadSymbol, SymbolBits, Readable, Writable, Field, Pow2, BitLen;
    var k := BitLen(pos);
    PosSymbol(pos);
    if k > 1 {
      PosLow(pos, k);
      ReadSymbolBits(pt, plens, k, Field(k - 1, pos % Pow2(k - 1)) + rest);
      ReadPosLong(pt, SymbolBits(plens, k), k, pos % Pow2(k - 1), rest);
    } else {
      ShortPos(pos);
      ReadSymbolBits(pt, plens, k, rest);
      ReadPosShort(pt, SymbolBits(plens, k), k, rest);
    }
  }

  lemma ShortPos(pos: nat)
    requires BitLen(pos) <= 1
    ensures BitLen(pos) == pos
  {
    if pos > 0 {
      BitLenRange(pos);
    }
  }

  /** The symbols of a token can be written with the tables. */
  ghost predicate TokenWritable(ct: Table, clens: seq<nat>, pt: Table, plens: seq<nat>, t: Token)
  {
    Writable(ct, clens, CharSymbol(t)) && (t.Ptr? ==> Writable(pt, plens, BitLen(t.pos)))
  }

  /** The length arrays `clens` and `plens` go with the tables `ct` and `pt`. */
  ghost predicate Tabled(ct: Table, clens: seq<nat>, pt: Table, plens: seq<nat>)
  {
    && |clens| == 510 && ValidLens(clens) && Readable(ct, clens)
    && |plens| == 14 && ValidLens(plens) && Readable(pt, plens)
  }

  lemma ReadTokenBits(ct: Table, clens: seq<nat>, pt: Table, plens: seq<nat>, t: Token, rest: seq<bool>)
    requires Tabled(ct, clens, pt, plens) && TokenWritable(ct, clens, pt, plens, t)
    ensures ReadToken(ct, pt, TokenBits(clens, plens, t) + rest) == Some(t, rest)
  {
    hide ReadSymbol, ReadPos, ValidLens, Complete, CodeBits;
    var c := CharSymbol(t);
    var p := if t.Lit? then [] else PosBits(plens, t.pos);
    Associate(SymbolBits(clens, c), p, rest);
    ReadSymbolBits(ct, clens, c, p + rest);
    if t.Lit? {
      assert [] + rest == rest;
    } else {
      ReadPosBits(pt, plens, t.pos, rest);
    }
  }
}
