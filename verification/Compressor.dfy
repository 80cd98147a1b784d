/** `Encode` and `Compress`. */
module Compressor {
  import opened Bits
  import opened BitWriter
  import opened MakeTree
  import opened Tokens
  import opened Stream
  import opened Staging
  import opened Blocks
  import opened BlockEncoder
  import opened Lz77
  import opened SearchSteps
  import opened MatchFinder
  import opened SlidingWindow

  /** The clamp after each search: the match of the current position, not beyond the end of the source. */
  ghost predicate Clamped(win: Window)
    reads win, win.finder
  {
    win.Searched() && win.Settled() && win.finder.matchLen == Usable(win.src, Listed(win.found), win.Here())
  }

  /** How many positions of a pointer are still to pass. */
  ghost function Left(win: Window): nat
    requires 0 <= win.Here() <= |win.src|
    reads win
  {
    TrailTo(win.src, win.Here() + 1).left
  }

  method Clamp(win: Window)
    requires win.Valid() && win.Searched() && win.Matched() && TrailTo(win.src, win.Here()).left <= 1
    modifies win.finder`matchLen
    ensures win.Valid() && Clamped(win)
  {
    hide TrailTo, Search, AllReal, AllLongest, Window.Mirror, Finder.Before, TextOf, SuffixTree.Agree;
    WindowBounds(win);
    TrailNext(win.src, win.Here());
    win.finder.CutTo(win.remainder, win.Here());
  }

  /** The searches for the positions a pointer covers. */
  method SkipMatch(win: Window, n: nat)
    requires win.Valid() && Clamped(win) && 0 < n == Left(win) && win.Here() + n <= |win.src|
    modifies win, win.text, win.finder
    ensures win.Valid() && Clamped(win) && Left(win) == 0 && win.Here() == old(win.Here()) + n
    ensures old(win.found) <= win.found
  {
    hide TrailTo, Search, AllReal, AllLongest, Window.Mirror, Finder.Before, Usable;
    var k: nat := n;
    while k > 0
      invariant k <= n && win.Valid() && win.Searched() && win.Here() + k == old(win.Here()) + n
      invariant k > 0 ==> win.Settled() && Left(win) == k
      invariant k == 0 ==> win.Matched() && TrailTo(win.src, win.Here()).left == 1 && Left(win) == 0
      invariant old(win.found) <= win.found
    {
      WindowBounds(win);
      win.GetNextMatch();
      TrailNext(win.src, win.Here());
      k := k - 1;
    }
    Clamp(win);
  }

  /** The search at the next position. */
  method Advance(win: Window)
    requires win.Valid() && Clamped(win) && Left(win) == 0 && win.remainder > 0
    modifies win, win.text, win.finder
    ensures win.Valid() && Clamped(win) && win.Here() == old(win.Here()) + 1 && old(win.found) <= win.found
    ensures var last := old(win.finder.matchLen);
      Left(win) == if win.finder.matchLen > last || last < 3 then 0 else last - 1
    ensures win.text[win.pos - 1] == win.src[old(win.Here())]
    ensures win.pos == old(win.pos) + 1 || win.pos == old(win.pos) + 1 - 8192
  {
    hide TrailTo, Search, AllReal, AllLongest, Finder.Before, Usable;
    win.GetNextMatch();
    TrailNext(win.src, win.Here());
    Clamp(win);
  }

  /** The encoder between two tokens. */
  ghost predicate Running(enc: Encoder)
    reads enc, enc.w, enc.w.sink, enc.w.sink.dst, enc.tb, enc.tb.heap, enc.stage, enc.stage.buf, enc.stage.cFreq,
      enc.stage.pFreq
  {
    enc.Valid() && enc.stage.Idle()
  }

  /** The window's buffer is none of the encoder's. */
  ghost predicate Separate(enc: Encoder, win: Window)
  {
    win.text != enc.stage.buf && win.text != enc.w.sink.dst
  }

  /** The position of a pointer is right even if the window slid after its match was found. */
  lemma MaskedPosition(pos: nat, before: nat, dist: nat)
    requires 1 <= dist <= 8192 && (pos == before + 1 || pos == before + 1 - 8192)
    ensures (pos - (before - dist) - 2) % 8192 == dist - 1
  {
  }

  method Output(enc: Encoder, c: nat, p: nat, ghost t: Token)
    requires Running(enc) && c == CharSymbol(t) && (t.Ptr? ==> p == t.pos)
    modifies enc.w, enc.w.sink`next, enc.w.sink`compSize, enc.w.sink`emitted, enc.w.sink.dst, enc`sent
    modifies enc.tb.heap, enc.tb.left, enc.tb.right, enc.tb.lenCnt, enc.tFreq, enc.cLen, enc.cCode, enc.ptLen,
      enc.ptCode
    modifies enc.stage, enc.stage.buf, enc.stage.cFreq, enc.stage.pFreq
    ensures Running(enc) && enc.View() == Enqueue(old(enc.View()), t)
  {
    enc.CompressOutput(c, p, t);
  }

  lemma WindowBounds(win: Window)
    requires win.Valid()
    ensures win.text.Length == 16640 && 0 <= win.Here() && win.Here() + win.remainder <= |win.src|
    ensures win.srcNext == |win.src| || win.remainder > 255
    ensures win.Here() + win.remainder == win.srcNext
  {
  }

  /** The matches found so far can be used. */
  lemma FoundGenuine(win: Window)
    requires win.Searched()
    ensures Genuine(win.src, Listed(win.found)) && |win.found| == win.Here() + 1
  {
    hide TrailTo, AllLongest, Finder.Before;
    forall a: nat | a < |win.src|
      ensures GenuineAt(win.src, Listed(win.found), a)
    {
      if a < |win.found| {
        assert Real(win.src, win.found[a], a);
      }
    }
  }

  /** The window between two tokens. */
  ghost predicate AtToken(win: Window)
    reads win, win.text, win.finder
  {
    win.Valid() && Clamped(win) && Left(win) == 0
  }

  lemma TokenBounds(win: Window)
    requires AtToken(win)
    ensures 0 <= win.Here() && win.Here() + win.remainder <= |win.src| && |win.found| == win.Here() + 1
    ensures win.remainder == 0 ==> win.Here() == |win.src|
    ensures Genuine(win.src, Listed(win.found))
  {
    hide TrailTo, Window.Mirror, Genuine, AllReal, AllLongest, Finder.Before;
    WindowBounds(win);
    FoundGenuine(win);
  }

  /** A token depends on the matches of its first two positions only. */
  lemma TokenStays(src: seq<Byte>, ms: seq<Match>, ms': seq<Match>, a: nat)
    requires Genuine(src, Listed(ms)) && Genuine(src, Listed(ms')) && ms <= ms' && a < |src| && a + 1 < |ms|
    ensures TokenFor(src, Listed(ms'), a) == TokenFor(src, Listed(ms), a)
  {
    hide Genuine;
    assert Listed(ms')(a) == Listed(ms)(a) && Listed(ms')(a + 1) == Listed(ms)(a + 1);
  }

  /** The search at the next position decides between a literal and a pointer: the character or length, the position,
      and how many further positions a pointer covers. */
  method ChooseToken(win: Window) returns (c: nat, p: nat, skip: nat, ghost t: Token)
    requires AtToken(win) && win.remainder > 0
    modifies win, win.text, win.finder
    ensures win.Valid() && Clamped(win) && Left(win) == skip && old(win.found) <= win.found
    ensures win.Here() == old(win.Here()) + 1 && win.Here() + skip <= |win.src| && |win.found| == win.Here() + 1
    ensures Genuine(win.src, Listed(win.found)) && t == TokenFor(win.src, Listed(win.found), old(win.Here()))
    ensures c == CharSymbol(t) && (t.Ptr? ==> p == t.pos) && skip == Span(t) - 1
  {
    hide Genuine, TokenFor, Expandable, ExpandToken, Window.Mirror, TrailTo, AllReal, AllLongest, Finder.Before;
    ghost var a := win.Here();
    WindowBounds(win);
    var lastLen, lastPos := win.finder.matchLen, win.finder.matchPos;
    Advance(win);
    WindowBounds(win);
    FoundGenuine(win);
    ghost var m := Listed(win.found);
    t := TokenFor(win.src, m, a);
    TokenExpands(win.src, m, a);
    TokenChoice(win.src, m, a);
    if win.finder.matchLen > lastLen || lastLen < 3 {
      c, p, skip := win.text[win.pos - 1], 0, 0;
    } else {
      MaskedPosition(win.pos, old(win.pos), win.found[a].dist);
      c, p, skip := lastLen + 253, (win.pos - lastPos - 2) % 8192, lastLen - 1;
    }
  }

  /** The searches for the other positions of a pointer, if any. */
  method PassToken(win: Window, skip: nat)
    requires win.Valid() && Clamped(win) && Left(win) == skip && win.Here() + skip <= |win.src|
    modifies win, win.text, win.finder
    ensures AtToken(win) && win.Here() == old(win.Here()) + skip && old(win.found) <= win.found
  {
    hide TrailTo, Clamped, Window.Mirror;
    if skip > 0 {
      SkipMatch(win, skip);
    }
  }

  /** One turn of `Encode`: the token for the current position. */
  method EncodeToken(enc: Encoder, win: Window) returns (ghost t: Token)
    requires Running(enc) && Separate(enc, win) && AtToken(win) && win.remainder > 0
    modifies win, win.text, win.finder
    modifies enc.w, enc.w.sink`next, enc.w.sink`compSize, enc.w.sink`emitted, enc.w.sink.dst, enc`sent
    modifies enc.tb.heap, enc.tb.left, enc.tb.right, enc.tb.lenCnt, enc.tFreq, enc.cLen, enc.cCode, enc.ptLen
    modifies enc.ptCode, enc.stage, enc.stage.buf, enc.stage.cFreq, enc.stage.pFreq
    ensures Running(enc) && AtToken(win) && old(win.found) <= win.found
    ensures Genuine(win.src, Listed(win.found)) && t == TokenFor(win.src, Listed(win.found), old(win.Here()))
    ensures win.Here() == old(win.Here()) + Span(t) && enc.View() == Enqueue(old(enc.View()), t)
  {
    hide Running, Enqueue, Genuine, TokenFor, AtToken, Clamped, Left, Listed, Window.Valid;
    TokenBounds(win);
    ghost var a := win.Here();
    var c, p, skip;
    c, p, skip, t := ChooseToken(win);
    ghost var ms := win.found;
    Output(enc, c, p, t);
    PassToken(win, skip);
    TokenBounds(win);
    TokenStays(win.src, ms, win.found, a);
  }

  /** `HufEncodeEnd` for a run of tokens. */
  method Finish(enc: Encoder, ghost toks: seq<Token>)
    requires Running(enc) && enc.View() == EnqueueAll(toks)
    modifies enc.w, enc.w.sink`next, enc.w.sink`compSize, enc.w.sink`emitted, enc.w.sink.dst, enc`sent
    modifies enc.tb.heap, enc.tb.left, enc.tb.right, enc.tb.lenCnt, enc.tFreq, enc.cLen, enc.cCode, enc.ptLen,
      enc.ptCode
    modifies enc.stage`pending, enc.stage.cFreq, enc.stage.pFreq
    ensures enc.w.sink.Valid() && Sized(BlocksOf(toks)) && enc.w.sink.emitted == Pack(StreamBits(BlocksOf(toks)))
  {
    hide StreamBits, EnqueueAll;
    enc.HufEncodeEnd();
  }

  /** The bit stream of a source, as bytes. */
  ghost function Payload(src: seq<Byte>, m: Matcher): seq<Byte>
    requires Genuine(src, m)
  {
    var toks := Parse(src, m, 0);
    BlocksGood(toks);
    Pack(StreamBits(BlocksOf(toks)))
  }

  /** The tokens up to the position `a`. */
  ghost predicate Led(src: seq<Byte>, m: Matcher, done: seq<Token>, a: nat)
    requires Genuine(src, m)
  {
    if done == [] then a == 0
    else
      var n := |done| - 1;
      var b := a - Span(done[n]);
      0 <= b < |src| && done[n] == TokenFor(src, m, b) && Led(src, m, done[..n], b)
  }

  /** They begin the parse. */
  lemma {:induction false} LedParse(src: seq<Byte>, m: Matcher, done: seq<Token>, a: nat)
    requires Genuine(src, m) && Led(src, m, done, a) && a <= |src|
    ensures Parse(src, m, 0) == done + Parse(src, m, a)
    decreases |done|
  {
    hide Genuine, TokenFor;
    if done != [] {
      var n := |done| - 1;
      var b := a - Span(done[n]);
      LedParse(src, m, done[..n], b);
      assert done == done[..n] + [done[n]];
      Associate(done[..n], [done[n]], Parse(src, m, a));
    }
  }

  lemma {:induction false} LedStays(src: seq<Byte>, ms: seq<Match>, ms': seq<Match>, done: seq<Token>, a: nat)
    requires Genuine(src, Listed(ms)) && Genuine(src, Listed(ms')) && ms <= ms' && a < |ms|
    requires Led(src, Listed(ms), done, a)
    ensures Led(src, Listed(ms'), done, a)
    decreases |done|
  {
    hide Genuine, TokenFor, Listed;
    if done != [] {
      var n := |done| - 1;
      var b := a - Span(done[n]);
      TokenStays(src, ms, ms', b);
      LedStays(src, ms, ms', done[..n], b);
    }
  }

  /** One turn of the loop: one more token of the parse is done. */
  method EncodeNext(enc: Encoder, win: Window, ghost done: seq<Token>) returns (ghost next: seq<Token>)
    requires Running(enc) && Separate(enc, win) && AtToken(win) && win.remainder > 0
    requires Genuine(win.src, Listed(win.found)) && 0 <= win.Here() && Led(win.src, Listed(win.found), done, win.Here())
    requires enc.View() == EnqueueAll(done)
    modifies win, win.text, win.finder
    modifies enc.w, enc.w.sink`next, enc.w.sink`compSize, enc.w.sink`emitted, enc.w.sink.dst, enc`sent
    modifies enc.tb.heap, enc.tb.left, enc.tb.right, enc.tb.lenCnt, enc.tFreq, enc.cLen, enc.cCode, enc.ptLen
    modifies enc.ptCode, enc.stage, enc.stage.buf, enc.stage.cFreq, enc.stage.pFreq
    ensures Running(enc) && AtToken(win) && old(win.Here()) < win.Here() <= |win.src|
    ensures Genuine(win.src, Listed(win.found)) && Led(win.src, Listed(win.found), next, win.Here())
    ensures enc.View() == EnqueueAll(next)
  {
    hide Running, Genuine, TokenFor, Enqueue, EnqueueAll, Separate, AtToken, Listed;
    ghost var a, ms := win.Here(), win.found;
    TokenBounds(win);
    ghost var t := EncodeToken(enc, win);
    TokenBounds(win);
    LedStays(win.src, ms, win.found, done, a);
    EnqueueSnoc(done, t);
    next := done + [t];
    assert next[..|done|] == done;
  }

  /** Before the first token. */
  method Start(win: Window) returns (ghost done: seq<Token>)
    requires win.Valid() && win.Searched() && win.Matched() && win.Here() == 0
    modifies win.finder`matchLen
    ensures AtToken(win) && done == [] && EnqueueAll(done) == Queue([], [])
    ensures Genuine(win.src, Listed(win.found)) && Led(win.src, Listed(win.found), done, 0)
  {
    hide TrailTo, Search, Genuine, AllReal, AllLongest, Finder.Before, Window.Mirror, TextOf;
    StartTrail(win.src);
    Clamp(win);
    FoundGenuine(win);
    done := [];
  }

  lemma StartTrail(src: seq<Byte>)
    ensures TrailTo(src, 0).left == 0 && TrailTo(src, 1).left == 0
  {
    hide Search;
    TrailNext(src, 0);
  }

  lemma NoTokens(src: seq<Byte>, m: Matcher, done: seq<Token>)
    requires Genuine(src, m)
    ensures done + Parse(src, m, |src|) == done
  {
    assert Parse(src, m, |src|) == [];
  }

  /** At the end of the source, all its matches have been found and its tokens are done. */
  lemma AllDone(win: Window, done: seq<Token>)
    requires AtToken(win) && win.remainder == 0 && Genuine(win.src, Listed(win.found)) && 0 <= win.Here()
    requires Led(win.src, Listed(win.found), done, win.Here())
    ensures win.Here() == |win.src| && win.origSize == Wrap32(|win.src|)
    ensures Listed(win.found) == MatchesOf(win.src) && Longest(win.src, MatchesOf(win.src))
    ensures Parse(win.src, Listed(win.found), 0) == done
  {
    hide TrailTo, LongestAt, Finder.Before, AllReal, Genuine, Led, Window.Mirror, Parse;
    TokenBounds(win);
    WindowBounds(win);
    forall a: nat | a < |win.src|
      ensures LongestAt(win.src, Listed(win.found)(a), a)
    {
      assert LongestAt(win.src, win.found[a], a);
    }
    LedParse(win.src, Listed(win.found), done, |win.src|);
    NoTokens(win.src, Listed(win.found), done);
  }

  /** The main loop: it ends, and what it has emitted is the payload. The matches it has found are real, and none is
      longer. */
  method Encode(enc: Encoder, win: Window)
    requires Running(enc) && Separate(enc, win) && enc.View() == Queue([], [])
    requires win.Valid() && win.Searched() && win.Matched() && win.Here() == 0
    modifies win, win.text, win.finder
    modifies enc.w, enc.w.sink`next, enc.w.sink`compSize, enc.w.sink`emitted, enc.w.sink.dst, enc`sent
    modifies enc.tb.heap, enc.tb.left, enc.tb.right, enc.tb.lenCnt, enc.tFreq, enc.cLen, enc.cCode, enc.ptLen
    modifies enc.ptCode, enc.stage, enc.stage.buf, enc.stage.cFreq, enc.stage.pFreq
    ensures Genuine(win.src, MatchesOf(win.src)) && Longest(win.src, MatchesOf(win.src))
    ensures enc.w.sink.Valid() && enc.w.sink.emitted == Payload(win.src, MatchesOf(win.src))
    ensures win.origSize == Wrap32(|win.src|)
  {
    hide Running, Genuine, TokenFor, Enqueue, Parse, EnqueueAll, BlocksOf, StreamBits, Pack, Wrap32, Listed, Longest,
         AtToken, MatchesOf, Led, Window.Valid, Window.Searched, Window.Matched;
    ghost var done := Start(win);
    while win.remainder > 0
      invariant Running(enc) && AtToken(win) && 0 <= win.Here() <= |win.src|
      invariant Genuine(win.src, Listed(win.found)) && Led(win.src, Listed(win.found), done, win.Here())
      invariant enc.View() == EnqueueAll(done)
      decreases |win.src| - win.Here()
    {
      done := EncodeNext(enc, win, done);
    }
    AllDone(win, done);
    Finish(enc, done);
  }

  // ---- Compress ----

  /** The whole compressed image: both sizes, the payload and a null byte. */
  ghost function Image(src: seq<Byte>, m: Matcher): (image: seq<Byte>)
    requires Genuine(src, m)
    ensures |image| == |Payload(src, m)| + 9
  {
    var data := Payload(src, m);
    Dword(Wrap32(|data| + 1)) + Dword(Wrap32(|src|)) + (data + [0])
  }

  datatype Status = Success | BufferTooSmall

  /** Runs the encoder on a sink with nothing in it. */
  method EncodeTo(sink: Sink, src: seq<Byte>) returns (origSize: nat)
    requires sink.Valid() && sink.emitted == []
    modifies sink`next, sink`compSize, sink`emitted, sink.dst
    ensures Genuine(src, MatchesOf(src)) && Longest(src, MatchesOf(src))
    ensures sink.Valid() && sink.emitted == Payload(src, MatchesOf(src)) && origSize == Wrap32(|src|)
  {
    hide Payload, Genuine, Longest, Staged, StreamBits, Fits, TrailTo, AllReal, AllLongest, MatchesOf,
         Window.Valid, Window.Searched, Window.Matched;
    var w := new Writer(sink);
    var tb := new TreeBuilder();
    var stage := new Stage();
    var enc := new Encoder(w, tb, stage);
    var win := new Window(src);
    Encode(enc, win);
    origSize := win.origSize;
  }

  /** The sizes are filled in over the eight bytes kept free for them. */
  method PutSizes(dst: array<Byte>, comp: nat, orig: nat)
    modifies dst
    ensures dst[..] == Overlay(old(dst[..]), 0, Dword(comp) + Dword(orig))
  {
    hide Dword;
    var n := PutDword(dst, 0, comp);
    OverlayChain(old(dst[..]), 0, Dword(comp), Dword(orig));
    n := PutDword(dst, n, orig);
  }

  /** The whole call, for any source: the matches are those that the searches find. */
  method Compress(src: seq<Byte>, dst: array<Byte>) returns (status: Status, size: nat)
    modifies dst
    ensures Genuine(src, MatchesOf(src)) && Longest(src, MatchesOf(src))
    ensures dst[..] == Overlay(old(dst[..]), 0, Image(src, MatchesOf(src)))
    ensures size == Wrap32(|Image(src, MatchesOf(src))|)
    ensures status == if size > dst.Length then BufferTooSmall else Success
  {
    hide Payload, Genuine, Longest, Dword, Overlay, MatchesOf;
    ghost var d := dst[..];
    PutSizes(dst, 0, 0);
    var sink := new Sink(dst, Min(8, dst.Length));
    var origSize := EncodeTo(sink, src);
    ghost var m := MatchesOf(src);
    ghost var data := Payload(src, m) + [0];
    var compSize := sink.compSize;
    sink.Terminate();
    Wrap32Add(|Payload(src, m)|, 1);
    Wrap32Add(|Payload(src, m)|, 9);
    ghost var header := Dword(Wrap32(compSize + 1)) + Dword(origSize);
    OverlayPatch(d, Dword(0) + Dword(0), data, header);
    PutSizes(dst, Wrap32(compSize + 1), origSize);
    size := Wrap32(compSize + 1 + 8);
    status := if size > dst.Length then BufferTooSmall else Success;
  }
}
