/** From symbols to their transmitted code tables: tallies, the tables `MakeTree` makes of them,
    and the bits that carry a table to the decoder. */
module Tables {
  import opened Bits
  import opened CanonicalCode
  import opened HuffmanTree
  import opened CodeLengths
  import opened TableCoding

  // ---- Tallies ----

  /** How often each of the symbols below `n` occurs: a frequency array. */
  function Tally(s: seq<nat>, n: nat): (f: seq<nat>)
    ensures |f| == n && forall x :: 0 <= x < n ==> f[x] == Count(s, x)
  {
    seq(n, x requires 0 <= x => Count(s, x))
  }

  lemma TallySnoc(s: seq<nat>, n: nat, x: nat)
    requires x < n
    ensures Tally(s + [x], n) == Tally(s, n)[x := Tally(s, n)[x] + 1]
  {
    assert (s + [x])[..|s|] == s;
  }

  lemma {:induction false} TotalIncrement(f: seq<nat>, x: nat)
    requires x < |f|
    ensures Total(f[x := f[x] + 1]) == Total(f) + 1
  {
    var g := f[x := f[x] + 1];
    var n := |f| - 1;
    if x == n {
      assert g[..n] == f[..n];
    } else {
      TotalIncrement(f[..n], x);
      assert g[..n] == f[..n][x := f[x] + 1];
    }
  }

  lemma {:induction false} TotalZeros(f: seq<nat>)
    requires forall i :: 0 <= i < |f| ==> f[i] == 0
    ensures Total(f) == 0
  {
    if f != [] {
      TotalZeros(f[..|f| - 1]);
    }
  }

  ghost predicate AllBelow(s: seq<nat>, n: nat) {
    forall i :: 0 <= i < |s| ==> s[i] < n
  }

  /** Every symbol is counted exactly once. */
  lemma {:induction false} TallyTotal(s: seq<nat>, n: nat)
    requires AllBelow(s, n)
    ensures Total(Tally(s, n)) == |s|
  {
    if s == [] {
      TotalZeros(Tally(s, n));
    } else {
      var p, x := s[..|s| - 1], s[|s| - 1];
      TallyTotal(p, n);
      TallySnoc(p, n, x);
      TotalIncrement(Tally(p, n), x);
      assert s == p + [x];
    }
  }

  lemma {:induction false} Occurs(s: seq<nat>, i: nat)
    requires i < |s|
    ensures Count(s, s[i]) > 0
  {
    if i < |s| - 1 {
      Occurs(s[..|s| - 1], i);
    }
  }

  // ---- The table of a frequency array ----

  /** The table a decoder ends up with. */
  function TreeTable(f: seq<nat>): Table
    requires Total(f) < 0x1_0000 && |f| < 0x1_0000
  {
    if |Symbols(f, |f|)| < 2 then Single(TreeRoot(f)) else Coded(TreeLens(f))
  }

  lemma OnlySymbol(f: seq<nat>, x: nat)
    requires |Symbols(f, |f|)| < 2 && x < |f| && f[x] != 0
    ensures x == TreeRoot(f)
  {
    SymbolsOnce(f, |f|);
    assert multiset(Symbols(f, |f|))[x] == 1;
    assert x in Symbols(f, |f|);
  }

  /** Every symbol that occurs can be written and read with the table. */
  lemma TreeTableGood(f: seq<nat>)
    requires Total(f) < 0x1_0000 && 1 <= |f| < 0x1_0000
    ensures Readable(TreeTable(f), TreeLens(f)) && ValidLens(TreeLens(f))
    ensures forall x :: 0 <= x < |f| && f[x] != 0 ==> Writable(TreeTable(f), TreeLens(f), x)
  {
    hide CodeLens, Counts, Repeat, Symbols, Total;
    if |Symbols(f, |f|)| < 2 {
      assert TreeRoot(f) < |f|;
      forall x | 0 <= x < |f| && f[x] != 0
        ensures x == TreeRoot(f)
      {
        OnlySymbol(f, x);
      }
    } else {
      SymbolsBound(f, |f|);
      CodeLensGood(f);
    }
  }

  /** The table of a tally: it writes every symbol that was counted. */
  lemma TallyTable(s: seq<nat>, n: nat)
    requires AllBelow(s, n) && |s| < 0x1_0000 && 1 <= n < 0x1_0000
    ensures var f := Tally(s, n);
      && Total(f) == |s|
      && Readable(TreeTable(f), TreeLens(f)) && ValidLens(TreeLens(f))
      && forall i :: 0 <= i < |s| ==> Writable(TreeTable(f), TreeLens(f), s[i])
  {
    var f := Tally(s, n);
    TallyTotal(s, n);
    TreeTableGood(f);
    forall i | 0 <= i < |s|
      ensures Writable(TreeTable(f), TreeLens(f), s[i])
    {
      Occurs(s, i);
    }
  }

  lemma CodedNotEmpty(f: seq<nat>)
    requires Total(f) < 0x1_0000 && |f| < 0x1_0000 && 2 <= |Symbols(f, |f|)|
    ensures Trim(TreeLens(f)) != []
  {
    hide CodeLens, Complete, Trim, Symbols;
    SymbolsBound(f, |f|);
    CodeLensGood(f);
    SymbolsOnce(f, |f|);
    var x := Symbols(f, |f|)[0];
    assert x in Symbols(f, |f|);
  }

  // ---- Transmission ----

  /** A Position or Extra set table: lengths, or the only symbol. */
  ghost function PTTableBits(f: seq<nat>, nbit: nat, special: bool): seq<bool>
    requires Total(f) < 0x1_0000 && 6 <= |f| < 0x1_0000
  {
    if TreeRoot(f) >= |f| then PTBits(TreeLens(f), nbit, special)
    else Field(nbit, 0) + Field(nbit, TreeRoot(f))
  }

  lemma RootDecides(f: seq<nat>)
    requires f != []
    ensures TreeRoot(f) >= |f| <==> 2 <= |Symbols(f, |f|)|
  {
  }

  lemma ReadPTTable(f: seq<nat>, nbit: nat, special: bool, rest: seq<bool>)
    requires Total(f) < 0x1_0000 && 6 <= |f| < Pow2(nbit) && |f| < 0x1_0000
    ensures ReadPT(|f|, nbit, special, PTTableBits(f, nbit, special) + rest) == Some(TreeTable(f), rest)
  {
    RootDecides(f);
    if TreeRoot(f) >= |f| {
      CodedNotEmpty(f);
      ReadPTBits(TreeLens(f), nbit, special, rest);
    } else {
      var root := TreeRoot(f);
      Associate(Field(nbit, 0), Field(nbit, root), rest);
      GetField(nbit, 0, Field(nbit, root) + rest);
      GetField(nbit, root, rest);
    }
  }

  function ItemSymbols(items: seq<Item>): (r: seq<nat>)
    ensures |r| == |items| && forall i :: 0 <= i < |r| ==> r[i] == ItemSymbol(items[i])
  {
    seq(|items|, i requires 0 <= i < |items| => ItemSymbol(items[i]))
  }

  /** The frequencies `CountTFreq` computes. */
  function ExtraTally(clens: seq<nat>): (f: seq<nat>)
    requires |clens| < 512 && ValidLens(clens)
    ensures |f| == 19
  {
    Tally(ItemSymbols(Items(Trim(clens))), 19)
  }

  lemma {:induction false} ItemsShort(items: seq<Item>)
    ensures |items| <= |Meaning(items)|
  {
    if items != [] {
      ItemsShort(items[1..]);
    }
  }

  /** The Extra set has a code for every item of the length table. */
  lemma ExtraTable(clens: seq<nat>)
    requires |clens| < 512 && ValidLens(clens)
    ensures var f := ExtraTally(clens);
      && Total(f) < 512
      && Readable(TreeTable(f), TreeLens(f)) && ValidLens(TreeLens(f))
      && AllWritable(TreeTable(f), TreeLens(f), Items(Trim(clens)))
  {
    var items := Items(Trim(clens));
    ItemsMeaning(Trim(clens));
    ItemsShort(items);
    var s := ItemSymbols(items);
    TallyTable(s, 19);
    var f := Tally(s, 19);
    forall i | 0 <= i < |items|
      ensures Writable(TreeTable(f), TreeLens(f), ItemSymbol(items[i]))
    {
      assert s[i] == ItemSymbol(items[i]);
    }
  }

  /** The Extra and Char&Len tables of a block with the character frequencies `f`. */
  ghost function CTableBits(f: seq<nat>): seq<bool>
    requires Total(f) < 0x1_0000 && |f| == 510
  {
    TreeTableGood(f);
    if TreeRoot(f) >= 510 then
      var clens := TreeLens(f);
      var tf := ExtraTally(clens);
      ExtraTable(clens);
      PTTableBits(tf, 5, true) + CBits(clens, TreeLens(tf))
    else
      Field(5, 0) + Field(5, 0) + Field(9, 0) + Field(9, TreeRoot(f))
  }

  /** Section 19.4: the Extra table and then the Char&Len table. */
  function ReadCTable(bits: seq<bool>): Decoded<Table> {
    match ReadPT(19, 5, true, bits)
    case None => None
    case Some(t, rest) => ReadC(t, rest)
  }

  lemma ReadSingleC(root: nat, rest: seq<bool>)
    requires root < 512
    ensures ReadCTable(Field(5, 0) + Field(5, 0) + Field(9, 0) + Field(9, root) + rest) == Some(Single(root), rest)
  {
    var b5, b9, r9 := Field(5, 0), Field(9, 0), Field(9, root);
    var tail := b9 + (r9 + rest);
    assert b5 + b5 + b9 + r9 + rest == b5 + (b5 + tail);
    GetField(5, 0, b5 + tail);
    GetField(5, 0, tail);
    GetField(9, 0, r9 + rest);
    assert Pow2(9) == 512 by { Pow2Values(); }
    GetField(9, root, rest);
  }

  lemma ReadCTableBits(f: seq<nat>, rest: seq<bool>)
    requires Total(f) < 0x1_0000 && |f| == 510
    ensures ReadCTable(CTableBits(f) + rest) == Some(TreeTable(f), rest)
  {
    RootDecides(f);
    if TreeRoot(f) >= 510 {
      TreeTableGood(f);
      CodedNotEmpty(f);
      var clens := TreeLens(f);
      var tf := ExtraTally(clens);
      ExtraTable(clens);
      var tbits, cbits := PTTableBits(tf, 5, true), CBits(clens, TreeLens(tf));
      Associate(tbits, cbits, rest);
      assert 19 < Pow2(5) by { Pow2Values(); }
      ReadPTTable(tf, 5, true, cbits + rest);
      ReadCBits(TreeTable(tf), clens, TreeLens(tf), rest);
    } else {
      ReadSingleC(TreeRoot(f), rest);
    }
  }
}
