/** Which tokens go into which block, and that a decoder reads all blocks back. */
module Blocks {
  import opened Tokens
  import opened Stream
  import opened Staging

  /** The blocks already sent and the tokens in the staging buffer. */
  datatype Queue = Queue(sent: seq<seq<Token>>, pending: seq<Token>)

  /** A block is sent when a group is full and another may not fit. */
  function Enqueue(q: Queue, t: Token): Queue {
    if |q.pending| % 8 == 0 && BytesUsed(q.pending) >= 16384 - 24 then Queue(q.sent + [q.pending], [t])
    else Queue(q.sent, q.pending + [t])
  }

  function EnqueueAll(toks: seq<Token>): Queue {
    if toks == [] then Queue([], []) else Enqueue(EnqueueAll(toks[..|toks| - 1]), toks[|toks| - 1])
  }

  lemma EnqueueSnoc(toks: seq<Token>, t: Token)
    ensures EnqueueAll(toks + [t]) == Enqueue(EnqueueAll(toks), t)
  {
    assert (toks + [t])[..|toks|] == toks;
  }

  /** All blocks of a run: `HufEncodeEnd` sends what is left. */
  function BlocksOf(toks: seq<Token>): seq<seq<Token>> {
    var q := EnqueueAll(toks);
    q.sent + [q.pending]
  }

  /** The tokens fit the buffer; an open group began where a whole one fits. */
  ghost predicate Fits(toks: seq<Token>) {
    && BytesUsed(toks) <= 16384
    && (|toks| % 8 != 0 ==> FlagPos(toks, |toks|) < 16384 - 24)
  }

  lemma {:induction false} GroupRoom(toks: seq<Token>, g: nat, j: nat)
    requires g % 8 == 0 && g < j <= |toks| && j <= g + 8
    ensures BytesUsed(toks[..j]) <= BytesUsed(toks[..g]) + 1 + 3 * (j - g)
    decreases j
  {
    hide BytesUsed;
    UsedNext(toks, j - 1);
    if g < j - 1 {
      GroupRoom(toks, g, j - 1);
    }
  }

  lemma SameGroup(n: nat)
    requires (n + 1) % 8 != 0
    ensures GroupStart(n + 1) == GroupStart(n)
  {
  }

  lemma UsedAfter(toks: seq<Token>, t: Token)
    ensures BytesUsed(toks + [t]) == At(toks, |toks|) + TokenSize(t)
  {
    hide BytesUsed;
    var more := toks + [t];
    UsedNext(more, |toks|);
    SamePlace(toks, t, |toks|);
    assert more[..|toks| + 1] == more;
  }

  lemma NextFlagPos(toks: seq<Token>, t: Token)
    requires (|toks| + 1) % 8 != 0
    ensures FlagPos(toks + [t], |toks| + 1) == FlagPos(toks, |toks|)
  {
    hide BytesUsed;
    SameGroup(|toks|);
    var g := GroupStart(|toks|);
    assert (toks + [t])[..g] == toks[..g];
  }

  lemma RoomInGroup(toks: seq<Token>, t: Token)
    requires Fits(toks) && (|toks| % 8 == 0 ==> BytesUsed(toks) < 16384 - 24)
    ensures FlagPos(toks, |toks|) < 16384 - 24 && BytesUsed(toks + [t]) <= 16384
  {
    hide BytesUsed, GroupStart;
    var n, more := |toks|, toks + [t];
    var g := GroupStart(n);
    assert toks[..n] == toks && more[..g] == toks[..g] && more[..n + 1] == more;
    GroupRoom(more, g, n + 1);
  }

  /** There is room for every token that `Enqueue` adds. */
  lemma RoomForToken(toks: seq<Token>, t: Token)
    requires Fits(toks) && (|toks| % 8 == 0 ==> BytesUsed(toks) < 16384 - 24)
    ensures BytesUsed(toks + [t]) == At(toks, |toks|) + TokenSize(t) <= 16384
    ensures FlagPos(toks, |toks|) < 16384 - 24
    ensures Fits(toks + [t])
  {
    hide BytesUsed, FlagPos, At;
    RoomInGroup(toks, t);
    UsedAfter(toks, t);
    if (|toks| + 1) % 8 != 0 {
      NextFlagPos(toks, t);
    }
  }

  lemma EnqueueFits(q: Queue, t: Token)
    requires Fits(q.pending)
    ensures Fits(Enqueue(q, t).pending)
  {
    if |q.pending| % 8 == 0 && BytesUsed(q.pending) >= 16384 - 24 {
      RoomForToken([], t);
      assert [] + [t] == [t];
    } else {
      RoomForToken(q.pending, t);
    }
  }

  ghost predicate GoodQueue(q: Queue) {
    Fits(q.pending) && Sized(q.sent) && NonEmpty(q.sent)
  }

  lemma FitsSized(toks: seq<Token>)
    requires Fits(toks)
    ensures |toks| < 0x1_0000
  {
    UsedAtLeast(toks);
  }

  lemma EnqueueKeeps(q: Queue, t: Token)
    requires GoodQueue(q)
    ensures GoodQueue(Enqueue(q, t))
    ensures Flatten(Enqueue(q, t).sent) + Enqueue(q, t).pending == Flatten(q.sent) + q.pending + [t]
    ensures Enqueue(q, t).pending != []
  {
    EnqueueFits(q, t);
    FitsSized(q.pending);
    assert (q.sent + [q.pending])[..|q.sent|] == q.sent;
  }

  lemma EmptyQueue()
    ensures GoodQueue(Queue([], [])) && Flatten([]) + [] == []
  {
  }

  lemma {:induction false} EnqueueAllGood(toks: seq<Token>)
    ensures GoodQueue(EnqueueAll(toks))
    ensures Flatten(EnqueueAll(toks).sent) + EnqueueAll(toks).pending == toks
    ensures toks != [] ==> EnqueueAll(toks).pending != []
  {
    hide Enqueue, GoodQueue, Flatten;
    if toks == [] {
      EmptyQueue();
    } else {
      var p, t := toks[..|toks| - 1], toks[|toks| - 1];
      EnqueueAllGood(p);
      EnqueueKeeps(EnqueueAll(p), t);
      assert toks == p + [t];
    }
  }

  /** The blocks hold the tokens of the run in order; each has a size that fits 16 bits, and none is
      empty unless the run is. */
  lemma BlocksGood(toks: seq<Token>)
    ensures Sized(BlocksOf(toks)) && Flatten(BlocksOf(toks)) == toks
    ensures toks != [] ==> NonEmpty(BlocksOf(toks))
  {
    hide EnqueueAll;
    EnqueueAllGood(toks);
    var q := EnqueueAll(toks);
    FitsSized(q.pending);
    assert BlocksOf(toks)[..|q.sent|] == q.sent;
  }

  // ---- Where the blocks end ----

  /** No group of the tokens, but perhaps the last token's, begins where another might not fit. */
  ghost predicate Roomy(toks: seq<Token>) {
    forall j :: 0 < j < |toks| && j % 8 == 0 ==> BytesUsed(toks[..j]) < 16360
  }

  /** A block that was sent for want of room: whole groups, and none but the last reaches the limit. */
  ghost predicate FullBlock(toks: seq<Token>) {
    |toks| % 8 == 0 && 16360 <= BytesUsed(toks) <= 16384 && Roomy(toks)
  }

  ghost predicate CutQueue(q: Queue) {
    (forall i :: 0 <= i < |q.sent| ==> FullBlock(q.sent[i])) && Roomy(q.pending)
  }

  lemma RoomySnoc(toks: seq<Token>, t: Token)
    requires Roomy(toks) && (|toks| % 8 == 0 && |toks| > 0 ==> BytesUsed(toks) < 16360)
    ensures Roomy(toks + [t])
  {
    hide BytesUsed;
    forall j | 0 < j < |toks + [t]| && j % 8 == 0
      ensures BytesUsed((toks + [t])[..j]) < 16360
    {
      if j < |toks| {
        assert (toks + [t])[..j] == toks[..j];
      } else {
        assert (toks + [t])[..j] == toks;
      }
    }
  }

  lemma EnqueueCuts(q: Queue, t: Token)
    requires CutQueue(q) && Fits(q.pending)
    ensures CutQueue(Enqueue(q, t))
  {
    hide BytesUsed, FlagPos;
    if !(|q.pending| % 8 == 0 && BytesUsed(q.pending) >= 16384 - 24) {
      RoomySnoc(q.pending, t);
    }
  }

  lemma {:induction false} EnqueueAllCuts(toks: seq<Token>)
    ensures CutQueue(EnqueueAll(toks))
  {
    hide Enqueue, GoodQueue, Flatten, CutQueue;
    if toks == [] {
      EmptyCut();
    } else {
      var p, t := toks[..|toks| - 1], toks[|toks| - 1];
      EnqueueAllCuts(p);
      EnqueueAllGood(p);
      PendingFits(EnqueueAll(p));
      EnqueueCuts(EnqueueAll(p), t);
    }
  }

  lemma EmptyCut()
    ensures CutQueue(Queue([], []))
  {
  }

  lemma PendingFits(q: Queue)
    requires GoodQueue(q)
    ensures Fits(q.pending)
  {
  }

  /** Where every block ends: each but the last is the shortest run of whole groups of eight tokens that takes 16360
      bytes or more of the buffer, and the last one has no such run before its last token. */
  lemma BlocksExactly(toks: seq<Token>)
    ensures var blocks := BlocksOf(toks);
      |blocks| > 0 && (forall i :: 0 <= i < |blocks| - 1 ==> FullBlock(blocks[i])) && Roomy(blocks[|blocks| - 1])
  {
    hide FullBlock, Roomy;
    EnqueueAllCuts(toks);
  }

  /** The main result of the Huffman stage: whatever the tokens, the bits of the blocks they are sent in
      are read back as exactly these tokens, whatever bits follow, and these are left. */
  lemma ReadBlocks(toks: seq<Token>, rest: seq<bool>)
    requires toks != []
    ensures Sized(BlocksOf(toks)) && Reads(StreamBits(BlocksOf(toks)) + rest, toks, rest)
  {
    hide BlocksOf, StreamBits;
    BlocksGood(toks);
    assert Reads(rest, [], rest);
    ReadStream(BlocksOf(toks), rest, [], rest);
    assert toks + [] == toks;
  }
}
