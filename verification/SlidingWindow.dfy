/** The text window that slides over the source, and the search for matches in it. */
module SlidingWindow {
  import opened Bits
  import opened Lz77
  import opened SuffixTree
  import opened StringLog
  import opened SearchSteps
  import opened MatchFinder

  /** All matches that are worth a pointer are real ones in the window. */
  ghost predicate AllReal(src: seq<Byte>, ms: seq<Match>) {
    forall a :: 0 <= a < |ms| ==> Real(src, ms[a], a)
  }

  /** No position in the window has a longer match than `x`. */
  ghost predicate LongestAt(src: seq<Byte>, x: Match, a: nat) {
    x.len < 256 ==> NoneAgrees(TextOf(src), WindowStart(a + 1), a, x.len + 1)
  }

  ghost predicate AllLongest(src: seq<Byte>, ms: seq<Match>) {
    forall a :: 0 <= a < |ms| ==> LongestAt(src, ms[a], a)
  }

  /** Every match of a source is the longest in the window. */
  ghost predicate Longest(src: seq<Byte>, m: Matcher) {
    forall a: nat :: a < |src| ==> LongestAt(src, m(a), a)
  }

  /** One more match, at the position `at`. */
  lemma NewMatch(src: seq<Byte>, ms: seq<Match>, x: Match, at: nat)
    requires AllReal(src, ms) && AllLongest(src, ms) && LongestAt(src, x, |ms|) && x.len <= 256
    requires 2 <= x.len ==>
      at < |ms| && WindowStart(|ms| + 1) <= at && x.dist == |ms| - at && Agree(TextOf(src), at, |ms|, x.len)
    ensures AllReal(src, ms + [x]) && AllLongest(src, ms + [x])
  {
    hide Agree, NoneAgrees, LongestAt;
    if 3 <= x.len {
      MatchIsReal(TextOf(src), src, at, |ms|, x.len);
    }
  }

  /** The window begins at a multiple of 8192. */
  lemma SlotOfPos(base: int, pos: nat)
    requires base % 8192 == 0 && 8192 <= pos < 16384 && 0 <= base + pos
    ensures Slot(base + pos) == pos
  {
  }

  class Window {
    const src: seq<Byte>         // the caller's source
    const text: array<Byte>      // mText
    const finder: Finder         // mMatchLen, mMatchPos and the string log
    var srcNext: nat             // mSrc, as an index
    var pos: nat                 // mPos
    var remainder: nat           // mRemainder
    var origSize: nat            // mOrigSize, a UINT32
    ghost var base: int          // text[j] stands for the position base + j
    ghost var found: seq<Match>  // what the searches have found

    /** The first fill and the first search, before which there is nothing to delete. */
    constructor (source: seq<Byte>)
      ensures src == source && fresh(text) && fresh(finder) && Valid() && Searched() && Matched() && Here() == 0
    {
      var buf := new Byte[16640](_ => 0);
      var f := new Finder(TextOf(source), buf);
      src, text, finder := source, buf, f;
      srcNext, pos, remainder, origSize := 0, 8192, 0, 0;
      base, found := -8192, [];
      new;
      remainder := Fread(8192, 8448);
      FindMatch();
    }

    /** The source position of `pos`. */
    ghost function Here(): int
      reads this`base, this`pos
    {
      base + pos
    }

    /** The window holds the source from where it begins to the end of what was read, and behind the end of the source
        what was there before. */
    ghost predicate Mirror()
      reads this`base, this`pos, this`remainder, this`srcNext, text
    {
      && text.Length == 16640 && pos + remainder <= 16640 && -8192 <= base && base % 8192 == 0
      && 0 <= Here() && Here() + remainder == srcNext <= |src|
      && (pos + remainder == 16640 || srcNext == |src|)
      && forall j: nat :: j < 16640 && 0 <= base + j ==> text[j] == TextAt(src, base + j)
    }

    /** Between two positions: at least a longest match is ahead unless the source has been read to its end. */
    ghost predicate Valid()
      reads this`base, this`pos, this`remainder, this`srcNext, this`origSize, text
    {
      && Mirror() && 8192 <= pos < 16384 && origSize == Wrap32(srcNext)
      && finder.buf == text && finder.text == TextOf(src)
    }

    /** All positions up to the current one have been searched for. */
    ghost predicate Searched()
      reads this, finder
    {
      && 0 <= Here() <= |src| && found == TrailTo(src, Here() + 1).found && finder.Before(Here() + 1)
      && AllReal(src, found) && AllLongest(src, found)
    }

    ghost function Scanned(): Scan
      reads finder
    {
      Scan(finder.log, finder.matchLen, finder.matchAt)
    }

    /** The match of the current position, or as much as is left of it, is in place. */
    ghost predicate Placed()
      reads this, finder
    {
      0 <= Here() < |found| && (2 <= finder.matchLen ==> finder.matchPos == pos - found[Here()].dist)
    }

    /** The match is as the search found it. */
    ghost predicate Matched()
      reads this, finder
    {
      && Placed() && Here() <= |src| && finder.matchLen == found[Here()].len <= 256
      && Scanned() == Search(TextOf(src), TrailTo(src, Here()).scan, Here())
      && (2 <= finder.matchLen ==>
            && WindowStart(Here() + 1) <= finder.matchAt < Here()
            && Agree(finder.text, finder.matchAt, Here(), finder.matchLen))
    }

    /** The match has been cut if it has to be. */
    ghost predicate Settled()
      reads this, finder
    {
      Placed() && Here() <= |src| && Scanned() == TrailTo(src, Here() + 1).scan
    }

    /** Reads up to `n` bytes of the source into the window at `off`. */
    method Fread(off: nat, n: nat) returns (k: nat)
      requires srcNext <= |src| && off + n <= text.Length && origSize == Wrap32(srcNext)
      modifies this`srcNext, this`origSize, text
      ensures k == Min(n, |src| - old(srcNext)) && srcNext == old(srcNext) + k
      ensures forall j :: 0 <= j < text.Length && !(off <= j < off + k) ==> text[j] == old(text[j])
      ensures forall j :: off <= j < off + k ==> text[j] == src[old(srcNext) + j - off]
      ensures origSize == Wrap32(srcNext)
    {
      k := 0;
      ghost var from := srcNext;
      while srcNext < |src| && k < n
        invariant 0 <= k <= n && srcNext == from + k <= |src| && origSize == Wrap32(from)
        invariant forall j :: 0 <= j < text.Length && !(off <= j < off + k) ==> text[j] == old(text[j])
        invariant forall j :: off <= j < off + k ==> text[j] == src[from + j - off]
      {
        text[off + k] := src[srcNext];
        srcNext := srcNext + 1;
        k := k + 1;
      }
      Wrap32Add(from, k);
      origSize := Wrap32(origSize + k);
    }

    /** The two copies through a temporary buffer. */
    method MoveDown()
      requires text.Length == 16640
      modifies text
      ensures forall j :: 0 <= j < 8448 ==> text[j] == old(text[8192 + j])
      ensures forall j :: 8448 <= j < 16640 ==> text[j] == old(text[j])
    {
      var temp := new Byte[8448];
      forall j | 0 <= j < 8448 {
        temp[j] := text[8192 + j];
      }
      forall j | 0 <= j < 8448 {
        text[j] := temp[j];
      }
    }

    /** Moves the upper half of the window down and reads on: what was in it, within the source or behind its end,
        stands for the same position. */
    method Slide()
      requires Mirror() && pos == 16384 && origSize == Wrap32(srcNext)
      modifies this`srcNext, this`origSize, this`pos, this`remainder, this`base, text
      ensures Mirror() && pos == 8192 && Here() == old(Here()) && origSize == Wrap32(srcNext)
      ensures base == old(base) + 8192 && forall j :: 0 <= j < 8448 ==> text[j] == old(text[8192 + j])
    {
      ghost var b := base;
      MoveDown();
      var n := Fread(8448, 8192);
      remainder := remainder + n;
      pos := 8192;
      base := base + 8192;
      forall j: nat | j < 16640 && 0 <= base + j
        ensures text[j] == TextAt(src, base + j)
      {
        if 8448 + n <= j {
          assert text[j] == old(text[j]) == TextAt(src, b + j);
        } else if j < 8448 {
          assert text[j] == old(text[8192 + j]);
        }
      }
    }

    /** Advances by one position and finds its match. */
    method GetNextMatch()
      requires Valid() && Searched() && Settled() && remainder > 0
      modifies this, text, finder
      ensures Valid() && Searched() && Matched() && Here() == old(Here()) + 1
      ensures old(found) <= found
      ensures pos == old(pos) + 1 || pos == old(pos) + 1 - 8192
    {
      hide AllReal, AllLongest, TrailTo, Search;
      remainder := remainder - 1;
      pos := pos + 1;
      if pos == 16384 {
        Slide();
      }
      FindMatch();
    }

    /** `DeleteNode` and `InsertNode` for the current position. */
    method FindMatch()
      requires Valid() && 0 <= Here() <= |src| && |found| == Here() && found == TrailTo(src, Here()).found
      requires finder.Before(Here()) && Scanned() == TrailTo(src, Here()).scan
      requires AllReal(src, found) && AllLongest(src, found)
      modifies this`found, finder
      ensures Valid() && Searched() && Matched() && old(found) <= found
    {
      hide AllReal, AllLongest, TrailTo, Search, Mirror, NoneAgrees, Agree, Finder.Before, Finder.Shows;
      ghost var a := Here();
      Shown();
      finder.Search(pos, a);
      TrailFound(src, a);
      ghost var x := MatchOf(Scanned(), a);
      NewMatch(src, found, x, finder.matchAt);
      found := found + [x];
    }

    /** The buffer shows the text around the current position. */
    lemma Shown()
      requires Valid()
      ensures finder.Shows(Here(), pos)
    {
      hide TextAt, Slot;
      SlotOfPos(base, pos);
      var a := Here();
      forall j: nat | j < pos + 256 && pos <= a + j
        ensures text[j] == finder.text(a + j - pos)
      {
        assert text[j] == TextAt(src, base + j);
      }
    }
  }
}
