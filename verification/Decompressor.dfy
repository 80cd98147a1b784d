/** The decompressor of section 19.4 of the UEFI Specification as a function, and the proof that it
    undoes `Compress`. */
module Decompressor {
  import opened Wrappers
  import opened Bits
  import opened TableCoding
  import opened Tokens
  import opened Stream
  import opened Extension
  import opened Blocks
  import opened Lz77
  import opened Compressor

  /** Section 19.4, Decode: token by token until `size` bytes are there; a pointer before the beginning
      is an error. */
  function Decompress(r: Reader, out: seq<Byte>, size: nat): Option<seq<Byte>>
    decreases size - |out|
  {
    if |out| >= size then Just(out)
    else
      match NextToken(r)
      case Nothing => Nothing
      case Just((t, r')) =>
        if t.Lit? then Decompress(r', out + [t.b], size)
        else if t.pos < |out| then Decompress(r', CopyBack(out, t.pos + 1, Min(t.len, size - |out|)), size)
        else Nothing
  }

  /** The decompressor appends to what is there, and returns as many bytes as the size field says. */
  lemma {:induction false} DecompressSize(r: Reader, out: seq<Byte>, size: nat)
    requires |out| <= size && Decompress(r, out, size).Just?
    ensures |Decompress(r, out, size).value| == size && out <= Decompress(r, out, size).value
    decreases size - |out|
  {
    hide NextToken;
    if |out| < size {
      var t, r' := NextToken(r).value.0, NextToken(r).value.1;
      var more := if t.Lit? then out + [t.b] else CopyBack(out, t.pos + 1, Min(t.len, size - |out|));
      DecompressSize(r', more, size);
    }
  }

  lemma DecompressOne(r: Reader, t: Token, r': Reader, out: seq<Byte>, size: nat)
    requires NextToken(r) == Just((t, r')) && Expandable(out, t) && |out| + Span(t) <= size
    ensures Decompress(r, out, size) == Decompress(r', ExpandToken(out, t), size)
  {
    hide NextToken, CopyBack, Span;
  }

  /** Reading the tokens of a source gives the source. */
  lemma {:induction false} DecompressTokens(r: Reader, toks: seq<Token>, end: seq<bool>, out: seq<Byte>, all: seq<Byte>)
    requires Gives(r, toks, end) && ExpandsTo(out, toks, all)
    ensures Decompress(r, out, |all|) == Just(all)
    decreases |toks|
  {
    hide NextToken, Decompress, Gives;
    if toks == [] {
      DecompressDone(r, all);
    } else {
      ExpandedSize(out, toks, all);
      var r' := FirstToken(r, toks, end);
      DecompressOne(r, toks[0], r', out, |all|);
      DecompressTokens(r', toks[1..], end, ExpandToken(out, toks[0]), all);
    }
  }

  lemma DecompressDone(r: Reader, all: seq<Byte>)
    ensures Decompress(r, all, |all|) == Just(all)
  {
  }

  lemma FirstToken(r: Reader, toks: seq<Token>, end: seq<bool>) returns (r': Reader)
    requires toks != [] && Gives(r, toks, end)
    ensures NextToken(r) == Just((toks[0], r')) && Gives(r', toks[1..], end)
  {
    hide NextToken;
    r' := NextToken(r).value.1;
    var ts := ReadTokens(r', |toks| - 1).value.0;
    assert ([NextToken(r).value.0] + ts)[1..] == ts;
  }

  /** A decoder that reads all tokens of a source from the first part of their bits has left the second part. */
  lemma {:induction false} DecompressPrefix(r: Reader, more: seq<bool>, toks: seq<Token>, end: seq<bool>,
                                            out: seq<Byte>, all: seq<Byte>)
    requires Gives(Longer(r, more), toks, end) && ExpandsTo(out, toks, all)
    requires Decompress(r, out, |all|).Just?
    ensures |more| <= |end|
    decreases |toks|
  {
    hide NextToken, Decompress, Gives;
    if toks == [] {
      NoTokens(Longer(r, more), end);
    } else {
      ExpandedSize(out, toks, all);
      StillReads(r, out, |all|);
      NextMore(r, more);
      var t, r' := NextToken(r).value.0, NextToken(r).value.1;
      var e := FirstToken(Longer(r, more), toks, end);
      DecompressOne(r, t, r', out, |all|);
      DecompressPrefix(r', more, toks[1..], end, ExpandToken(out, t), all);
    }
  }

  lemma NoTokens(r: Reader, end: seq<bool>)
    requires Gives(r, [], end)
    ensures r.bits == end
  {
  }

  lemma StillReads(r: Reader, out: seq<Byte>, size: nat)
    requires |out| < size && Decompress(r, out, size).Just?
    ensures NextToken(r).Just?
  {
    hide NextToken;
  }

  /** The decoder before the first block. */
  function StartReader(data: seq<Byte>): Reader {
    Reader(0, Single(0), Single(0), Unpack(data))
  }

  /** Section 19.2: the sizes and then the data. */
  function DecodeImage(image: seq<Byte>): Option<seq<Byte>> {
    if |image| < 8 then Nothing
    else
      var comp, orig := DwordValue(image[..4]), DwordValue(image[4..8]);
      if 8 + comp > |image| then Nothing
      else Decompress(StartReader(image[8..8 + comp]), [], orig)
  }

  /** The bits of the payload and the null byte are the bits of the blocks and less than 16 more. */
  lemma PayloadBits(b: seq<bool>) returns (rest: seq<bool>)
    ensures Unpack(Pack(b) + [0]) == b + rest && |rest| < 16
  {
    UnpackConcat(Pack(b), [0]);
    UnpackPack(b);
    var pad := Zeros(8 * |Pack(b)| - |b|);
    rest := pad + Unpack([0]);
    Associate(b, pad, Unpack([0]));
  }

  /** The tokens of a source are read from its payload, and less than 16 bits are left. */
  lemma PayloadTokens(src: seq<Byte>, m: Matcher) returns (end: seq<bool>)
    requires Genuine(src, m) && src != []
    ensures var toks := Parse(src, m, 0);
      ExpandsTo([], toks, src) && Gives(StartReader(Payload(src, m) + [0]), toks, end) && |end| < 16
  {
    hide Unpack, Pack, StreamBits, Genuine, Gives, BlocksOf;
    var toks := Parse(src, m, 0);
    ParseExpands(src, m, 0);
    assert src[..0] == [];
    BlocksGood(toks);
    end := PayloadBits(StreamBits(BlocksOf(toks)));
    ReadBlocks(toks, end);
  }

  lemma DecompressPayload(src: seq<Byte>, m: Matcher)
    requires Genuine(src, m)
    ensures Decompress(StartReader(Payload(src, m) + [0]), [], |src|) == Just(src)
  {
    hide Decompress, Payload, Genuine, Gives, StartReader, ExpandsTo;
    if src == [] {
      DecompressDone(StartReader(Payload(src, m) + [0]), src);
    } else {
      var end := PayloadTokens(src, m);
      DecompressTokens(StartReader(Payload(src, m) + [0]), Parse(src, m, 0), end, [], src);
    }
  }

  /** A payload that lacks its last two bytes or more does not decompress to a source of the full size. */
  lemma CutPayload(src: seq<Byte>, m: Matcher, n: nat)
    requires Genuine(src, m) && src != [] && n + 2 <= |Payload(src, m) + [0]|
    ensures Decompress(StartReader((Payload(src, m) + [0])[..n]), [], |src|).Nothing?
  {
    hide Decompress, Payload, Genuine, Gives, Unpack, ExpandsTo;
    var data := Payload(src, m) + [0];
    var end := PayloadTokens(src, m);
    UnpackConcat(data[..n], data[n..]);
    assert data == data[..n] + data[n..];
    assert StartReader(data) == Longer(StartReader(data[..n]), Unpack(data[n..]));
    if Decompress(StartReader(data[..n]), [], |src|).Just? {
      DecompressPrefix(StartReader(data[..n]), Unpack(data[n..]), Parse(src, m, 0), end, [], src);
      assert false;
    }
  }

  lemma ImageParts(comp: nat, orig: nat, data: seq<Byte>)
    requires comp <= |data| && comp < 0x1_0000_0000 && orig < 0x1_0000_0000
    ensures DecodeImage(Dword(comp) + Dword(orig) + data) == Decompress(StartReader(data[..comp]), [], orig)
  {
    hide Decompress, StartReader, Dword, DwordValue;
    var image := Dword(comp) + Dword(orig) + data;
    DwordRoundTrip(comp);
    DwordRoundTrip(orig);
    assert image[..4] == Dword(comp) && image[4..8] == Dword(orig) && image[8..8 + comp] == data[..comp];
  }

  /** The end to end result: whatever the source and whatever the matcher finds, the image of `Compress`
      decompresses to the source, as long as both sizes fit their 32-bit fields. */
  lemma DecodeCompressed(src: seq<Byte>, m: Matcher)
    requires Genuine(src, m) && |src| < 0x1_0000_0000 && |Payload(src, m)| + 1 < 0x1_0000_0000
    ensures DecodeImage(Image(src, m)) == Just(src)
  {
    hide Decompress, Payload, Dword, DecodeImage, Genuine, StartReader;
    var data := Payload(src, m) + [0];
    WrapSmall(|data|);
    WrapSmall(|src|);
    ImageParts(|data|, |src|, data);
    assert data[..|data|] == data;
    DecompressPayload(src, m);
  }
}
