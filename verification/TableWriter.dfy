/** The loops that count and write the code length tables. */
module TableWriter {
  import opened Bits
  import opened BitWriter
  import opened CanonicalCode
  import opened TableCoding
  import opened Tables

  /** The length and code arrays after `MakeTree`: they write the symbols of table `t`. */
  ghost predicate Ready(t: Table, len: seq<nat>, code: seq<nat>)
  {
    && |len| <= |code|
    && Readable(t, len) && ValidLens(len)
    && (t.Single? ==> code[t.sym] == 0)
    && (t.Coded? ==> CanonicalCode.Coded(code, len, |len|))
  }

  /** What `PutBits(len[i], code[i])` appends. */
  lemma SymbolField(t: Table, len: seq<nat>, code: seq<nat>, i: nat)
    requires Ready(t, len, code) && Writable(t, len, i)
    ensures len[i] <= 16 && code[i] < Pow2(len[i])
    ensures Field(len[i], code[i]) == SymbolBits(len, i)
  {
    if t.Coded? {
      CodeBound(len, i);
      Pow2Monotone(len[i], 16);
      assert Pow2(16) == 0x1_0000 by { Pow2Values(); }
      WrapSmall(CodeOf(len, i));
    }
  }

  method PutSymbol(w: Writer, len: array<nat>, code: array<nat>, i: nat, ghost n: nat, ghost t: Table)
    requires w.Valid() && n <= len.Length && n <= code.Length
    requires Ready(t, len[..n], code[..]) && Writable(t, len[..n], i)
    modifies w, w.sink`next, w.sink`compSize, w.sink`emitted, w.sink.dst
    ensures w.Valid() && w.Content() == old(w.Content()) + SymbolBits(len[..n], i)
  {
    SymbolField(t, len[..n], code[..], i);
    w.PutBits(len[i], code[i]);
  }

  /** Drops the trailing zeros of the first `n` lengths. */
  method TrimmedLength(len: array<nat>, n: nat) returns (m: nat)
    requires n <= len.Length
    ensures m <= n && len[..m] == Trim(len[..n])
  {
    m := n;
    while m > 0 && len[m - 1] == 0
      invariant m <= n && Trim(len[..n]) == Trim(len[..m])
    {
      assert len[..m][..m - 1] == len[..m - 1];
      m := m - 1;
    }
  }

  lemma RunStep(s: seq<nat>, k: nat)
    requires k < |s|
    ensures ZeroRun(s[k..]) == if s[k] == 0 then 1 + ZeroRun(s[k + 1..]) else 0
  {
    assert s[k..][1..] == s[k + 1..];
  }

  /** The end of the zero run that starts at `i`. */
  method SkipRun(len: array<nat>, i: nat, n: nat) returns (j: nat, count: nat)
    requires i < n <= len.Length && len[i] == 0
    ensures count == ZeroRun(len[i..n]) && j == i + count
  {
    hide ZeroRun;
    ghost var s := len[i..n];
    assert s[0..] == s;
    RunStep(s, 0);
    j, count := i + 1, 1;
    while j < n && len[j] == 0
      invariant i < j <= n && count == j - i
      invariant ZeroRun(s) == count + ZeroRun(s[count..])
    {
      RunStep(s, count);
      j, count := j + 1, count + 1;
    }
    if j < n {
      RunStep(s, count);
    } else {
      EmptyRun();
      assert s[count..] == [];
    }
  }

  lemma EmptyRun()
    ensures ZeroRun([]) == 0
  {
  }

  // ---- CountTFreq ----

  lemma ItemSymbolsConcat(a: seq<Item>, b: seq<Item>)
    ensures ItemSymbols(a + b) == ItemSymbols(a) + ItemSymbols(b)
  {
  }

  /** The increments for one zero run of `count` lengths. */
  method CountRun(tFreq: array<nat>, count: nat, ghost done: seq<nat>)
    requires tFreq.Length >= 19 && 1 <= count < 532
    requires tFreq[..19] == Tally(done, 19)
    modifies tFreq
    ensures tFreq[..19] == Tally(done + ItemSymbols(RunItems(count)), 19)
  {
    if count <= 2 {
      tFreq[0] := tFreq[0] + count;
      TallySnoc(done, 19, 0);
      if count == 2 {
        TallySnoc(done + [0], 19, 0);
        assert done + [0] + [0] == done + ItemSymbols(RunItems(2));
      } else {
        assert [0] == ItemSymbols(RunItems(1));
      }
    } else if count <= 18 {
      tFreq[1] := tFreq[1] + 1;
      TallySnoc(done, 19, 1);
      assert [1] == ItemSymbols(RunItems(count));
    } else if count == 19 {
      tFreq[0] := tFreq[0] + 1;
      tFreq[1] := tFreq[1] + 1;
      TallySnoc(done, 19, 0);
      TallySnoc(done + [0], 19, 1);
      assert done + [0] + [1] == done + ItemSymbols(RunItems(19));
    } else {
      tFreq[2] := tFreq[2] + 1;
      TallySnoc(done, 19, 2);
      assert [2] == ItemSymbols(RunItems(count));
    }
  }

  /** Counts the items of the next length or zero run. */
  method CountNext(cLen: array<nat>, tFreq: array<nat>, i: nat, n: nat, ghost done: seq<nat>)
    returns (j: nat, ghost more: seq<nat>)
    requires i < n <= cLen.Length < 532 && tFreq.Length >= 19 && cLen != tFreq
    requires ValidLens(cLen[i..n]) && tFreq[..19] == Tally(done, 19)
    modifies tFreq
    ensures i < j <= n && ValidLens(cLen[j..n]) && tFreq[..19] == Tally(done + more, 19)
    ensures ItemSymbols(Items(cLen[i..n])) == more + ItemSymbols(Items(cLen[j..n]))
  {
    ghost var rest := cLen[i..n];
    if cLen[i] == 0 {
      var count;
      j, count := SkipRun(cLen, i, n);
      more := ItemSymbols(RunItems(count));
      CountRun(tFreq, count, done);
      assert rest[count..] == cLen[j..n];
      ItemSymbolsConcat(RunItems(count), Items(rest[count..]));
    } else {
      var c := cLen[i] + 2;
      assert rest[0] == cLen[i] && c < 19;
      TallySnoc(done, 19, c);
      tFreq[c] := tFreq[c] + 1;
      j, more := i + 1, [c];
      assert rest[1..] == cLen[j..n];
      ItemSymbolsConcat([Length(rest[0])], Items(rest[1..]));
      assert ItemSymbols([Length(rest[0])]) == more;
    }
  }

  method CountTFreq(cLen: array<nat>, tFreq: array<nat>)
    requires cLen.Length == 510 && tFreq.Length >= 19 && cLen != tFreq
    requires ValidLens(cLen[..])
    modifies tFreq
    ensures tFreq[..19] == ExtraTally(cLen[..])
  {
    for k := 0 to 19
      invariant forall j :: 0 <= j < k ==> tFreq[j] == 0
    {
      tFreq[k] := 0;
    }
    var n := TrimmedLength(cLen, 510);
    assert cLen[..510] == cLen[..];
    var i := 0;
    ghost var done: seq<nat> := [];
    ghost var all := ItemSymbols(Items(cLen[..n]));
    assert cLen[0..n] == cLen[..n];
    while i < n
      invariant i <= n && ValidLens(cLen[i..n])
      invariant tFreq[..19] == Tally(done, 19)
      invariant done + ItemSymbols(Items(cLen[i..n])) == all
    {
      ghost var more;
      i, more := CountNext(cLen, tFreq, i, n, done);
      Associate(done, more, ItemSymbols(Items(cLen[i..n])));
      done := done + more;
    }
    assert ItemSymbols(Items(cLen[n..n])) == [];
    assert done == all;
  }

  // ---- WritePTLen ----

  /** One length: three bits, or the unary form. */
  method PutLength(w: Writer, l: nat)
    requires w.Valid() && l <= 16
    modifies w, w.sink`next, w.sink`compSize, w.sink`emitted, w.sink.dst
    ensures w.Valid() && w.Content() == old(w.Content()) + LengthBits(l)
  {
    hide Sink.Valid, Writer.Content, Field, Shl;
    if l <= 6 {
      assert Pow2(3) == 8 by { Pow2Values(); }
      w.PutBits(3, l);
    } else {
      var k := l - 3;
      assert 2 <= Pow2(k) by { Pow2Monotone(1, k); }
      w.PutBits(k, Pow2(k) - 2);
    }
  }

  /** The skip of the zeros from index `i` on; the two bits say how many there are. */
  method PutSkip(w: Writer, ptLen: array<nat>, ghost n: nat, i: nat) returns (j: nat)
    requires w.Valid() && i == 3 && 6 <= n <= ptLen.Length
    modifies w, w.sink`next, w.sink`compSize, w.sink`emitted, w.sink.dst
    ensures j == SkipZeros(ptLen[..n], 3)
    ensures w.Valid() && w.Content() == old(w.Content()) + Field(2, j - 3)
  {
    j := i;
    ghost var lens := ptLen[..n];
    while j < 6 && ptLen[j] == 0
      invariant 3 <= j <= 6 && SkipZeros(lens, 3) == SkipZeros(lens, j)
    {
      j := j + 1;
    }
    var z := j - 3;
    assert z % 4 == z < Pow2(2);
    w.PutBits(2, z % 4);
  }

  /** The body of the loop: one length and, after the third, the skip. */
  method PutNextLength(w: Writer, ptLen: array<nat>, n: nat, ghost m: nat, special: int, i: nat) returns (j: nat)
    requires w.Valid() && i < m <= n && 6 <= n <= ptLen.Length && ValidLens(ptLen[..n])
    requires special == 3 || special == -1
    modifies w, w.sink`next, w.sink`compSize, w.sink`emitted, w.sink.dst
    ensures i < j <= n && w.Valid()
    ensures w.Content() + PTBody(ptLen[..n], m, j, special == 3)
         == old(w.Content()) + PTBody(ptLen[..n], m, i, special == 3)
  {
    hide Sink.Valid, Writer.Content, Field, LengthBits, Shl;
    ghost var lens := ptLen[..n];
    ghost var before := w.Content();
    assert lens[i] == ptLen[i];
    PutLength(w, ptLen[i]);
    j := i + 1;
    if j == special {
      ghost var middle := w.Content();
      j := PutSkip(w, ptLen, n, j);
      ghost var body := PTBody(lens, m, j, true);
      Associate(middle, Field(2, j - 3), body);
      Associate(before, LengthBits(lens[i]), Field(2, j - 3) + body);
    } else {
      Associate(before, LengthBits(lens[i]), PTBody(lens, m, j, special == 3));
    }
  }

  method WritePTLen(w: Writer, ptLen: array<nat>, n: nat, nbit: nat, special: int)
    requires w.Valid() && 6 <= n <= ptLen.Length && ValidLens(ptLen[..n])
    requires nbit <= 16 && n < Pow2(nbit) && (special == 3 || special == -1)
    modifies w, w.sink`next, w.sink`compSize, w.sink`emitted, w.sink.dst
    ensures w.Valid() && w.Content() == old(w.Content()) + PTBits(ptLen[..n], nbit, special == 3)
  {
    ghost var before := w.Content();
    ghost var lens := ptLen[..n];
    var m := TrimmedLength(ptLen, n);
    w.PutBits(nbit, m);
    ghost var all := PTBody(lens, m, 0, special == 3);
    Associate(before, Field(nbit, m), all);
    var i := 0;
    while i < m
      invariant i <= n && w.Valid() && ptLen[..n] == lens
      invariant w.Content() + PTBody(lens, m, i, special == 3) == before + PTBits(lens, nbit, special == 3)
    {
      i := PutNextLength(w, ptLen, n, m, special, i);
    }
    assert w.Content() + [] == w.Content();
  }

  // ---- WriteCLen ----

  lemma {:induction false} ItemsBitsConcat(tlens: seq<nat>, a: seq<Item>, b: seq<Item>)
    requires ValidLens(tlens) && 19 <= |tlens|
    ensures ItemsBits(tlens, a + b) == ItemsBits(tlens, a) + ItemsBits(tlens, b)
  {
    if a == [] {
      assert a + b == b;
    } else {
      ghost var c, head := a + b, ItemBits(tlens, a[0]);
      assert c[0] == a[0] && c[1..] == a[1..] + b;
      assert ItemsBits(tlens, c) == head + ItemsBits(tlens, c[1..]);
      ItemsBitsConcat(tlens, a[1..], b);
      Associate(head, ItemsBits(tlens, a[1..]), ItemsBits(tlens, b));
    }
  }

  lemma OneItem(tlens: seq<nat>, it: Item)
    requires ValidLens(tlens) && 19 <= |tlens|
    ensures ItemsBits(tlens, [it]) == ItemBits(tlens, it)
  {
    assert [it][1..] == [];
  }

  lemma TwoItems(tlens: seq<nat>, a: Item, b: Item)
    requires ValidLens(tlens) && 19 <= |tlens|
    ensures ItemsBits(tlens, [a, b]) == ItemBits(tlens, a) + ItemBits(tlens, b)
  {
    OneItem(tlens, a);
    OneItem(tlens, b);
    ItemsBitsConcat(tlens, [a], [b]);
    assert [a] + [b] == [a, b];
  }

  /** A symbol of the Extra set and the bits after it: `size` bits of `value`. */
  method PutItem(w: Writer, ptLen: array<nat>, ptCode: array<nat>, c: nat, size: nat, value: nat, ghost it: Item,
                 ghost t: Table)
    requires w.Valid() && ptLen.Length >= 19 && ptCode.Length >= 19
    requires Ready(t, ptLen[..19], ptCode[..])
    requires Writable(t, ptLen[..19], ItemSymbol(it))
    requires c == ItemSymbol(it) && size == ExtraSize(c) && value == ItemExtra(it)
    modifies w, w.sink`next, w.sink`compSize, w.sink`emitted, w.sink.dst
    ensures w.Valid() && w.Content() == old(w.Content()) + ItemBits(ptLen[..19], it)
  {
    ghost var before := w.Content();
    PutSymbol(w, ptLen, ptCode, c, 19, t);
    Associate(before, SymbolBits(ptLen[..19], c), Field(size, value));
    if size > 0 {
      w.PutBits(size, value);
    } else {
      assert w.Content() + [] == w.Content();
    }
  }

  /** One zero run of `count` lengths. */
  method PutRun(w: Writer, ptLen: array<nat>, ptCode: array<nat>, count: nat, ghost t: Table)
    requires w.Valid() && ptLen.Length >= 19 && ptCode.Length >= 19 && 1 <= count < 532
    requires Ready(t, ptLen[..19], ptCode[..]) && AllWritable(t, ptLen[..19], RunItems(count))
    modifies w, w.sink`next, w.sink`compSize, w.sink`emitted, w.sink.dst
    ensures w.Valid() && w.Content() == old(w.Content()) + ItemsBits(ptLen[..19], RunItems(count))
  {
    hide Sink.Valid, Writer.Content, ItemBits, Readable, Used, Shl;
    ghost var before := w.Content();
    ghost var lens := ptLen[..19];
    ghost var items := RunItems(count);
    assert Writable(t, lens, ItemSymbol(items[0]));
    if count == 1 {
      PutItem(w, ptLen, ptCode, 0, 0, 0, Zero, t);
      OneItem(lens, Zero);
    } else if count == 2 {
      PutItem(w, ptLen, ptCode, 0, 0, 0, Zero, t);
      PutItem(w, ptLen, ptCode, 0, 0, 0, Zero, t);
      TwoItems(lens, Zero, Zero);
      Associate(before, ItemBits(lens, Zero), ItemBits(lens, Zero));
    } else if count <= 18 {
      PutItem(w, ptLen, ptCode, 1, 4, count - 3, items[0], t);
      OneItem(lens, items[0]);
    } else if count == 19 {
      assert Writable(t, lens, ItemSymbol(items[1]));
      PutItem(w, ptLen, ptCode, 0, 0, 0, Zero, t);
      PutItem(w, ptLen, ptCode, 1, 4, 15, ShortRun(18), t);
      TwoItems(lens, Zero, ShortRun(18));
      Associate(before, ItemBits(lens, Zero), ItemBits(lens, ShortRun(18)));
    } else {
      PutItem(w, ptLen, ptCode, 2, 9, count - 20, items[0], t);
      OneItem(lens, items[0]);
    }
  }

  lemma WritableParts(t: Table, tlens: seq<nat>, a: seq<Item>, b: seq<Item>)
    requires AllWritable(t, tlens, a + b)
    ensures AllWritable(t, tlens, a) && AllWritable(t, tlens, b)
  {
    forall i | 0 <= i < |a|
      ensures Writable(t, tlens, ItemSymbol(a[i]))
    {
      assert (a + b)[i] == a[i];
    }
    forall i | 0 <= i < |b|
      ensures Writable(t, tlens, ItemSymbol(b[i]))
    {
      assert (a + b)[|a| + i] == b[i];
    }
  }

  /** Writes the items of the next length or zero run. */
  method PutNextItems(w: Writer, cLen: array<nat>, ptLen: array<nat>, ptCode: array<nat>, i: nat, n: nat,
                      ghost t: Table)
    returns (j: nat)
    requires w.Valid() && ptLen.Length >= 19 && ptCode.Length >= 19
    requires Ready(t, ptLen[..19], ptCode[..])
    requires i < n <= cLen.Length < 532 && ValidLens(cLen[i..n]) && AllWritable(t, ptLen[..19], Items(cLen[i..n]))
    modifies w, w.sink`next, w.sink`compSize, w.sink`emitted, w.sink.dst
    ensures w.Valid() && i < j <= n && ValidLens(cLen[j..n]) && AllWritable(t, ptLen[..19], Items(cLen[j..n]))
    ensures w.Content() + ItemsBits(ptLen[..19], Items(cLen[j..n]))
         == old(w.Content()) + ItemsBits(ptLen[..19], Items(cLen[i..n]))
  {
    hide Sink.Valid, Writer.Content, ItemBits, ItemsBits, Used, Shl;
    ghost var before := w.Content();
    ghost var lens := ptLen[..19];
    ghost var s := cLen[i..n];
    ghost var head, tail: seq<Item>;
    if cLen[i] == 0 {
      var count;
      j, count := SkipRun(cLen, i, n);
      assert s[count..] == cLen[j..n];
      head, tail := RunItems(count), Items(cLen[j..n]);
      WritableParts(t, lens, head, tail);
      PutRun(w, ptLen, ptCode, count, t);
    } else {
      j := i + 1;
      assert s[1..] == cLen[j..n] && s[0] == cLen[i];
      head, tail := [Length(s[0])], Items(cLen[j..n]);
      WritableParts(t, lens, head, tail);
      assert Writable(t, lens, ItemSymbol(head[0]));
      PutItem(w, ptLen, ptCode, cLen[i] + 2, 0, 0, Length(cLen[i]), t);
      OneItem(lens, head[0]);
    }
    ItemsBitsConcat(lens, head, tail);
    Associate(before, ItemsBits(lens, head), ItemsBits(lens, tail));
  }

  method WriteCLen(w: Writer, cLen: array<nat>, ptLen: array<nat>, ptCode: array<nat>, ghost t: Table)
    requires w.Valid() && ptLen.Length >= 19 && ptCode.Length >= 19
    requires Ready(t, ptLen[..19], ptCode[..])
    requires cLen.Length == 510 && ValidLens(cLen[..]) && AllWritable(t, ptLen[..19], Items(Trim(cLen[..])))
    modifies w, w.sink`next, w.sink`compSize, w.sink`emitted, w.sink.dst
    ensures w.Valid() && w.Content() == old(w.Content()) + CBits(cLen[..], ptLen[..19])
  {
    hide Sink.Valid, Writer.Content, ItemBits, Used, Shl, Field;
    ghost var before := w.Content();
    ghost var lens := ptLen[..19];
    var n := TrimmedLength(cLen, 510);
    assert cLen[..510] == cLen[..];
    assert n < Pow2(9) by { Pow2Values(); }
    w.PutBits(9, n);
    assert cLen[0..n] == cLen[..n];
    ghost var goal := before + CBits(cLen[..], lens);
    Associate(before, Field(9, n), ItemsBits(lens, Items(cLen[..n])));
    var i := 0;
    while i < n
      invariant i <= n && w.Valid() && ValidLens(cLen[i..n]) && AllWritable(t, lens, Items(cLen[i..n]))
      invariant w.Content() + ItemsBits(lens, Items(cLen[i..n])) == goal
    {
      i := PutNextItems(w, cLen, ptLen, ptCode, i, n, t);
    }
    assert cLen[n..n] == [];
    assert w.Content() + [] == w.Content();
  }
}
