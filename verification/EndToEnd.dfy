/** What `Compress` is for: its image decompresses to the source, and when that is so. */
module EndToEnd {
  import opened Wrappers
  import opened Bits
  import opened BitWriter
  import opened Lz77
  import opened Compressor
  import opened Decompressor
  import opened PayloadSize
  import opened SearchSteps
  import opened SlidingWindow
  import opened ZeroFill
  import opened Incompressible

  /** A source whose size does not fit the 32-bit field does not come back. */
  lemma WrappedSizeLoses(src: seq<Byte>, m: Matcher)
    requires Genuine(src, m) && |src| >= 0x1_0000_0000
    ensures DecodeImage(Image(src, m)) != Just(src)
  {
    hide Payload, Dword, DwordValue, Decompress, StartReader, Genuine;
    var image := Image(src, m);
    if DecodeImage(image).Just? {
      DwordBound(image[4..8]);
      DecompressSize(StartReader(image[8..8 + DwordValue(image[..4])]), [], DwordValue(image[4..8]));
    }
  }

  lemma WrapLarge(x: nat)
    requires x >= 0x1_0000_0000
    ensures Wrap32(x) < 0x1_0000_0000 && Wrap32(x) <= x - 0x1_0000_0000
  {
  }

  /** Nor does one whose compressed size does not fit: the data is cut short. */
  lemma WrappedPayloadLoses(src: seq<Byte>, m: Matcher)
    requires Genuine(src, m) && |src| < 0x1_0000_0000 && |Payload(src, m)| + 1 >= 0x1_0000_0000
    ensures DecodeImage(Image(src, m)).Nothing?
  {
    hide Payload, Dword, DecodeImage, Decompress, StartReader, Genuine;
    var data := Payload(src, m) + [0];
    PayloadBound(src, m);
    WrapSmall(|src|);
    WrapLarge(|data|);
    ImageParts(Wrap32(|data|), |src|, data);
    CutPayload(src, m, Wrap32(|data|));
  }

  /** There are such sources: whatever matches `f` finds, some source of one byte less than 4 GiB is lost. If the
      matches are the longest ones, zero bits behind the data do not help. */
  lemma SomePayloadWraps(f: seq<Byte> -> Matcher) returns (src: seq<Byte>)
    requires forall s :: Genuine(s, f(s))
    ensures |src| == 0xFFFF_FFFF && |Payload(src, f(src))| + 1 >= 0x1_0000_0000
    ensures DecodeImage(Image(src, f(src))).Nothing?
    ensures Longest(src, f(src)) ==> forall k :: DecodeFilled(Image(src, f(src)), k) != Just(src)
  {
    hide Payload, Genuine, Longest, Image, DecodeImage, DecodeFilled;
    src := SomeDoNotShrink(f, 0xFFFF_FFFF);
    WrappedPayloadLoses(src, f(src));
    if Longest(src, f(src)) {
      forall k
        ensures DecodeFilled(Image(src, f(src)), k) != Just(src)
      {
        FilledExactly(src, f(src), k);
      }
    }
  }

  /** For one, if no matches are found at all. */
  lemma SomeSourceWraps() returns (src: seq<Byte>, m: Matcher)
    ensures Genuine(src, m) && |src| < 0x1_0000_0000 && |Payload(src, m)| + 1 >= 0x1_0000_0000
  {
    hide Payload;
    m := a => Match(0, 0);
    src := SomeDoNotShrink(s => m, 0xFFFF_FFFF);
  }

  /** The main result: the image of a source decompresses to it if and only if the sizes of the source and of the
      compressed data fit their 32-bit fields, whatever the source and whatever matches are found. */
  lemma DecodesExactly(src: seq<Byte>, m: Matcher)
    requires Genuine(src, m)
    ensures DecodeImage(Image(src, m)) == Just(src) <==> |src| < 0x1_0000_0000 && |Payload(src, m)| + 1 < 0x1_0000_0000
  {
    hide Image, Payload, DecodeImage, Genuine;
    if |src| >= 0x1_0000_0000 {
      WrappedSizeLoses(src, m);
    } else if |Payload(src, m)| + 1 >= 0x1_0000_0000 {
      WrappedPayloadLoses(src, m);
    } else {
      DecodeCompressed(src, m);
    }
  }

  /** What a caller can tell before the call: every source of up to 1.5 GiB comes back exactly, and the size that
      `Compress` returns has not wrapped. */
  lemma CompressInverts(src: seq<Byte>, m: Matcher)
    requires Genuine(src, m) && |src| <= 0x6000_0000
    ensures DecodeImage(Image(src, m)) == Just(src) && Wrap32(|Image(src, m)|) == |Image(src, m)|
  {
    hide Image, Payload, DecodeImage, Genuine;
    PayloadBound(src, m);
    DecodeCompressed(src, m);
    WrapSmall(|Image(src, m)|);
  }

  // ---- A buffer of the size that Compress asks for ----

  /** A part of an image decompresses to what the image does, or not at all. */
  lemma PrefixDecodes(image: seq<Byte>, n: nat)
    requires n <= |image| && DecodeImage(image[..n]).Just?
    ensures n >= 8 && DecodeImage(image[..n]) == DecodeImage(image)
  {
    hide Decompress, StartReader, DwordValue;
    assert n >= 8;
    assert image[..n][..4] == image[..4] && image[..n][4..8] == image[4..8];
    var comp := DwordValue(image[..4]);
    assert image[..n][8..8 + comp] == image[8..8 + comp];
  }

  /** The image cut at the size that `Compress` returns decompresses to the source exactly when that size has not
      wrapped and the source fits its field. */
  lemma CutImage(src: seq<Byte>, m: Matcher)
    requires Genuine(src, m)
    ensures Wrap32(|Image(src, m)|) <= |Image(src, m)|
    ensures DecodeImage(Image(src, m)[..Wrap32(|Image(src, m)|)]) == Just(src)
       <==> |src| < 0x1_0000_0000 && |Image(src, m)| < 0x1_0000_0000
  {
    hide Payload, DecodeImage, Genuine, Dword;
    var image, need := Image(src, m), Wrap32(|Image(src, m)|);
    DecodesExactly(src, m);
    if |image| < 0x1_0000_0000 {
      WrapSmall(|image|);
      assert image[..need] == image;
    } else {
      WrapLarge(|image|);
      if DecodeImage(image[..need]) == Just(src) {
        PrefixDecodes(image, need);
        assert false;
      }
    }
  }

  lemma PrefixFilled(image: seq<Byte>, n: nat, k: nat)
    requires n <= |image| && DecodeFilled(image[..n], k).Just?
    ensures n >= 8 && DecodeFilled(image[..n], k) == DecodeFilled(image, k)
  {
    hide Decompress, StartReader, DwordValue, Zeros;
    assert n >= 8;
    assert image[..n][..4] == image[..4] && image[..n][4..8] == image[4..8];
    var comp := DwordValue(image[..4]);
    assert image[..n][8..8 + comp] == image[8..8 + comp];
  }

  /** So it does with zero bits behind the data. */
  lemma CutImageFilled(src: seq<Byte>, m: Matcher, k: nat)
    requires Genuine(src, m) && Longest(src, m)
    ensures Wrap32(|Image(src, m)|) <= |Image(src, m)|
    ensures DecodeFilled(Image(src, m)[..Wrap32(|Image(src, m)|)], k) == Just(src)
       <==> |src| < 0x1_0000_0000 && |Image(src, m)| < 0x1_0000_0000
  {
    hide Payload, DecodeFilled, Genuine, Longest, Dword;
    var image, need := Image(src, m), Wrap32(|Image(src, m)|);
    FilledExactly(src, m, k);
    if |image| < 0x1_0000_0000 {
      WrapSmall(|image|);
      assert image[..need] == image;
    } else {
      WrapLarge(|image|);
      if DecodeFilled(image[..need], k) == Just(src) {
        PrefixFilled(image, need, k);
        assert false;
      }
    }
  }

  /** The two calls of `EnrollInDfci`: one for the size, one for the image. The first is refused for want of room
      and the second succeeds with the same size, unless the size has wrapped to zero. Every source of up to 1.5 GiB
      comes back from the image. */
  method CompressToFit(src: seq<Byte>)
    returns (first: Status, need: nat, image: array?<Byte>, second: Status, size: nat)
    ensures Genuine(src, MatchesOf(src)) && Longest(src, MatchesOf(src))
    ensures need == Wrap32(|Image(src, MatchesOf(src))|)
    ensures (first == BufferTooSmall <==> need > 0) && (image != null <==> need > 0)
    ensures image != null ==>
      second == Success && size == need == image.Length && image[..] <= Image(src, MatchesOf(src))
    ensures image != null ==>
      (DecodeImage(image[..]) == Just(src) <==> |src| < 0x1_0000_0000 && |Image(src, MatchesOf(src))| < 0x1_0000_0000)
    ensures image != null ==> forall k ::
      (DecodeFilled(image[..], k) == Just(src)
       <==> |src| < 0x1_0000_0000 && |Image(src, MatchesOf(src))| < 0x1_0000_0000)
    ensures |src| <= 0x6000_0000 ==>
      image != null && image[..] == Image(src, MatchesOf(src)) && DecodeImage(image[..]) == Just(src)
  {
    hide Payload, Genuine, Longest, Dword, Image, DecodeImage, DecodeFilled, Wrap32, MatchesOf;
    image, second, size := null, Success, 0;
    var none := new Byte[0];
    first, need := Compress(src, none);
    ghost var m := MatchesOf(src);
    CutImage(src, m);
    if first == BufferTooSmall {
      var room := new Byte[need](_ => 0);
      ghost var before := room[..];
      second, size := Compress(src, room);
      assert Overlay(before, 0, Image(src, m)) == Image(src, m)[..need];
      image := room;
      forall k
        ensures DecodeFilled(room[..], k) == Just(src) <==> |src| < 0x1_0000_0000 && |Image(src, m)| < 0x1_0000_0000
      {
        CutImageFilled(src, m, k);
      }
    }
    if |src| <= 0x6000_0000 {
      CompressInverts(src, m);
    }
  }
}
