/** What the decoder uses of its bits: every reader that succeeds takes some bits from the front, and gives the same
    value whatever follows them. */
module Extension {
  import opened Wrappers
  import opened Bits
  import opened CanonicalCode
  import opened TableCoding
  import opened Tables
  import opened Tokens
  import opened Stream

  // ---- Bits that are taken ----

  /** `rest` is the end of `bits`. */
  predicate Behind(bits: seq<bool>, rest: seq<bool>) {
    |rest| <= |bits| && bits[|bits| - |rest|..] == rest
  }

  /** The bits before the rest. */
  function Taken(bits: seq<bool>, rest: seq<bool>): (p: seq<bool>)
    requires Behind(bits, rest)
    ensures p + rest == bits
  {
    bits[..|bits| - |rest|]
  }

  lemma TakenFirst(bits: seq<bool>, n: nat)
    requires n <= |bits|
    ensures Behind(bits, bits[n..]) && Taken(bits, bits[n..]) == bits[..n]
  {
  }

  /** One reader after the other. */
  lemma TakenOn(bits: seq<bool>, mid: seq<bool>, rest: seq<bool>, more: seq<bool>)
    requires Behind(bits, mid) && Behind(mid, rest)
    ensures Behind(bits, rest) && Taken(bits, rest) + more == Taken(bits, mid) + (Taken(mid, rest) + more)
  {
    assert bits == Taken(bits, mid) + (Taken(mid, rest) + rest);
  }

  // ---- Fields and symbols ----

  lemma GetBitsUses(n: nat, bits: seq<bool>, more: seq<bool>)
    requires GetBits(n, bits).Some?
    ensures var d := GetBits(n, bits);
      Behind(bits, d.rest) && GetBits(n, Taken(bits, d.rest) + more) == Some(d.value, more)
  {
    TakenFirst(bits, n);
    var p := bits[..n];
    assert (p + more)[..n] == p && (p + more)[n..] == more;
  }

  /** The interval of a symbol holds every 16-bit value that begins with its code. */
  lemma OwnsCode(lens: seq<nat>, i: nat, code: seq<bool>, rest: seq<bool>, more: seq<bool>)
    requires i < |lens| && Owns(lens, i, Peek(code + rest)) && |code| == lens[i]
    ensures Owns(lens, i, Peek(code + more))
  {
    hide Low, Peek, CodeOf, Start, Counts;
    IntervalFits(lens, i);
    PeekCode(code, rest);
    PeekCode(code, more);
    ShlInterval(CodeOf(lens, i), Value(code), 16 - lens[i], Peek(code + rest));
  }

  lemma DecodeUses(lens: seq<nat>, bits: seq<bool>, more: seq<bool>)
    requires DecodeSymbol(lens, bits).Some?
    ensures var d := DecodeSymbol(lens, bits);
      Behind(bits, d.rest) && DecodeSymbol(lens, Taken(bits, d.rest) + more) == Some(d.value, more)
  {
    hide Peek, Owns, Low;
    var i := Lookup(lens, Peek(bits), 0);
    OwnsLength(lens, i, Peek(bits));
    var l := lens[i];
    var code, rest := bits[..l], bits[l..];
    TakenFirst(bits, l);
    assert bits == code + rest;
    OwnsCode(lens, i, code, rest, more);
    CodesDisjoint(lens, i, Lookup(lens, Peek(code + more), 0), Peek(code + more));
    assert (code + more)[l..] == more;
  }

  lemma OwnsLength(lens: seq<nat>, i: nat, v: nat)
    requires i < |lens| && Owns(lens, i, v)
    ensures 1 <= lens[i] <= 16
  {
  }

  lemma SymbolUses(t: Table, bits: seq<bool>, more: seq<bool>)
    requires ReadSymbol(t, bits).Some?
    ensures var d := ReadSymbol(t, bits);
      Behind(bits, d.rest) && ReadSymbol(t, Taken(bits, d.rest) + more) == Some(d.value, more)
  {
    hide DecodeSymbol;
    if t.Coded? {
      DecodeUses(t.lens, bits, more);
    } else {
      assert [] + more == more;
    }
  }

  // ---- Tables ----

  lemma {:induction false} OnesUse(bits: seq<bool>, more: seq<bool>)
    requires LeadingOnes(bits) < |bits|
    ensures var k := LeadingOnes(bits); LeadingOnes(bits[..k + 1] + more) == k
  {
    if bits[0] {
      OnesUse(bits[1..], more);
      var k := LeadingOnes(bits[1..]);
      assert (bits[..k + 2] + more)[1..] == bits[1..][..k + 1] + more;
    }
  }

  lemma LengthUses(bits: seq<bool>, more: seq<bool>)
    requires ReadLength(bits).Some?
    ensures var d := ReadLength(bits);
      Behind(bits, d.rest) && ReadLength(Taken(bits, d.rest) + more) == Some(d.value, more)
  {
    hide LeadingOnes, GetBits, Taken, Behind;
    var mid := GetBits(3, bits).rest;
    if GetBits(3, bits).value != 7 {
      GetBitsUses(3, bits, more);
    } else {
      var k := LeadingOnes(mid);
      var p, end := mid[..k + 1], mid[k + 1..];
      TakenFirst(mid, k + 1);
      OnesUse(mid, more);
      GetBitsUses(3, bits, p + more);
      TakenOn(bits, mid, end, more);
      assert (p + more)[k + 1..] == more;
    }
  }

  lemma {:induction false} PTBodyUses(number: nat, special: bool, lens: seq<nat>, bits: seq<bool>, more: seq<bool>)
    requires ReadPTBody(number, special, lens, bits).Some?
    ensures var d := ReadPTBody(number, special, lens, bits);
      Behind(bits, d.rest) && ReadPTBody(number, special, lens, Taken(bits, d.rest) + more) == Some(d.value, more)
    decreases number - |lens|
  {
    hide ReadLength, GetBits;
    if |lens| >= number {
      assert [] + more == more;
    } else {
      var l, mid := ReadLength(bits).value, ReadLength(bits).rest;
      var end := ReadPTBody(number, special, lens, bits).rest;
      if special && |lens| == 2 {
        var mid' := GetBits(2, mid).rest;
        PTBodyUses(number, special, lens + [l] + Repeat(0, GetBits(2, mid).value), mid', more);
        GetBitsUses(2, mid, Taken(mid', end) + more);
        TakenOn(mid, mid', end, more);
      } else {
        PTBodyUses(number, special, lens + [l], mid, more);
      }
      LengthUses(bits, Taken(mid, end) + more);
      TakenOn(bits, mid, end, more);
    }
  }

  lemma PTUses(n: nat, nbit: nat, special: bool, bits: seq<bool>, more: seq<bool>)
    requires ReadPT(n, nbit, special, bits).Some?
    ensures var d := ReadPT(n, nbit, special, bits);
      Behind(bits, d.rest) && ReadPT(n, nbit, special, Taken(bits, d.rest) + more) == Some(d.value, more)
  {
    hide ReadPTBody, GetBits;
    var number, mid := GetBits(nbit, bits).value, GetBits(nbit, bits).rest;
    var end := ReadPT(n, nbit, special, bits).rest;
    if number == 0 {
      GetBitsUses(nbit, mid, more);
    } else {
      PTBodyUses(number, special, [], mid, more);
    }
    GetBitsUses(nbit, bits, Taken(mid, end) + more);
    TakenOn(bits, mid, end, more);
  }

  lemma RunUses(n: nat, least: nat, bits: seq<bool>, more: seq<bool>)
    requires least > 0 && ReadRun(n, least, bits).Some?
    ensures var d := ReadRun(n, least, bits);
      && d.value != [] && Behind(bits, d.rest)
      && ReadRun(n, least, Taken(bits, d.rest) + more) == Some(d.value, more)
  {
    hide GetBits;
    GetBitsUses(n, bits, more);
  }

  lemma ItemUses(t: Table, bits: seq<bool>, more: seq<bool>)
    requires ReadItem(t, bits).Some?
    ensures var d := ReadItem(t, bits);
      Behind(bits, d.rest) && ReadItem(t, Taken(bits, d.rest) + more) == Some(d.value, more)
    ensures ReadItem(t, bits).value != []
  {
    hide ReadSymbol, ReadRun, Taken, Behind;
    var c, mid := ReadSymbol(t, bits).value, ReadSymbol(t, bits).rest;
    if c == 1 || c == 2 {
      var end := ReadItem(t, bits).rest;
      RunUses(if c == 1 then 4 else 9, if c == 1 then 3 else 20, mid, more);
      SymbolUses(t, bits, Taken(mid, end) + more);
      TakenOn(bits, mid, end, more);
    } else {
      SymbolUses(t, bits, more);
    }
  }

  lemma {:induction false} CBodyUses(number: nat, t: Table, lens: seq<nat>, bits: seq<bool>, more: seq<bool>)
    requires ReadCBody(number, t, lens, bits).Some?
    ensures var d := ReadCBody(number, t, lens, bits);
      Behind(bits, d.rest) && ReadCBody(number, t, lens, Taken(bits, d.rest) + more) == Some(d.value, more)
    decreases number - |lens|
  {
    hide ReadItem;
    if |lens| >= number {
      assert [] + more == more;
    } else {
      var ls, mid := ReadItem(t, bits).value, ReadItem(t, bits).rest;
      var end := ReadCBody(number, t, lens, bits).rest;
      ItemUses(t, bits, []);
      CBodyUses(number, t, lens + ls, mid, more);
      ItemUses(t, bits, Taken(mid, end) + more);
      TakenOn(bits, mid, end, more);
    }
  }

  lemma CUses(t: Table, bits: seq<bool>, more: seq<bool>)
    requires ReadC(t, bits).Some?
    ensures var d := ReadC(t, bits); Behind(bits, d.rest) && ReadC(t, Taken(bits, d.rest) + more) == Some(d.value, more)
  {
    hide ReadCBody, GetBits;
    var number, mid := GetBits(9, bits).value, GetBits(9, bits).rest;
    var end := ReadC(t, bits).rest;
    if number == 0 {
      GetBitsUses(9, mid, more);
    } else {
      CBodyUses(number, t, [], mid, more);
    }
    GetBitsUses(9, bits, Taken(mid, end) + more);
    TakenOn(bits, mid, end, more);
  }

  lemma CTableUses(bits: seq<bool>, more: seq<bool>)
    requires ReadCTable(bits).Some?
    ensures var d := ReadCTable(bits);
      Behind(bits, d.rest) && ReadCTable(Taken(bits, d.rest) + more) == Some(d.value, more)
  {
    hide ReadPT, ReadC;
    var t, mid := ReadPT(19, 5, true, bits).value, ReadPT(19, 5, true, bits).rest;
    var end := ReadC(t, mid).rest;
    CUses(t, mid, more);
    PTUses(19, 5, true, bits, Taken(mid, end) + more);
    TakenOn(bits, mid, end, more);
  }

  // ---- Tokens ----

  lemma PosUses(pt: Table, bits: seq<bool>, more: seq<bool>)
    requires ReadPos(pt, bits).Some?
    ensures var d := ReadPos(pt, bits);
      Behind(bits, d.rest) && ReadPos(pt, Taken(bits, d.rest) + more) == Some(d.value, more)
  {
    hide ReadSymbol, GetBits, Pow2;
    var k, mid := ReadSymbol(pt, bits).value, ReadSymbol(pt, bits).rest;
    if k <= 1 {
      SymbolUses(pt, bits, more);
    } else {
      var end := GetBits(k - 1, mid).rest;
      GetBitsUses(k - 1, mid, more);
      SymbolUses(pt, bits, Taken(mid, end) + more);
      TakenOn(bits, mid, end, more);
    }
  }

  lemma TokenUses(ct: Table, pt: Table, bits: seq<bool>, more: seq<bool>)
    requires ReadToken(ct, pt, bits).Some?
    ensures var d := ReadToken(ct, pt, bits);
      Behind(bits, d.rest) && ReadToken(ct, pt, Taken(bits, d.rest) + more) == Some(d.value, more)
  {
    hide ReadSymbol, ReadPos;
    var c, mid := ReadSymbol(ct, bits).value, ReadSymbol(ct, bits).rest;
    if c < 256 {
      SymbolUses(ct, bits, more);
    } else {
      var end := ReadPos(pt, mid).rest;
      PosUses(pt, mid, more);
      SymbolUses(ct, bits, Taken(mid, end) + more);
      TakenOn(bits, mid, end, more);
    }
  }

  // ---- Blocks ----

  lemma OpenUses(bits: seq<bool>, more: seq<bool>)
    requires OpenBlock(bits).Just?
    ensures var r := OpenBlock(bits).value;
      Behind(bits, r.bits) && OpenBlock(Taken(bits, r.bits) + more) == Just(r.(bits := more))
  {
    hide GetBits, ReadCTable, ReadPT;
    var mid := GetBits(16, bits).rest;
    var mid' := ReadCTable(mid).rest;
    var end := OpenBlock(bits).value.bits;
    PTUses(14, 4, false, mid', more);
    CTableUses(mid, Taken(mid', end) + more);
    TakenOn(mid, mid', end, more);
    GetBitsUses(16, bits, Taken(mid, end) + more);
    TakenOn(bits, mid, end, more);
  }

  lemma InBlockUses(r: Reader, more: seq<bool>)
    requires r.left > 0 && ReadInBlock(r).Just?
    ensures var (t, r') := ReadInBlock(r).value;
      && Behind(r.bits, r'.bits)
      && ReadInBlock(r.(bits := Taken(r.bits, r'.bits) + more)) == Just((t, r'.(bits := more)))
  {
    hide ReadToken;
    TokenUses(r.ct, r.pt, r.bits, more);
  }

  /** The next token takes some bits, and is the same whatever follows them. */
  lemma NextUses(r: Reader, more: seq<bool>)
    requires NextToken(r).Just?
    ensures var (t, r') := NextToken(r).value;
      && Behind(r.bits, r'.bits)
      && NextToken(r.(bits := Taken(r.bits, r'.bits) + more)) == Just((t, r'.(bits := more)))
  {
    hide ReadInBlock, OpenBlock;
    if r.left > 0 {
      InBlockUses(r, more);
    } else {
      var o := OpenBlock(r.bits).value;
      var end := ReadInBlock(o).value.1.bits;
      InBlockUses(o, more);
      OpenUses(r.bits, Taken(o.bits, end) + more);
      TakenOn(r.bits, o.bits, end, more);
    }
  }

  /** A reader with more bits behind its own. */
  function Longer(r: Reader, more: seq<bool>): Reader {
    r.(bits := r.bits + more)
  }

  lemma NextMore(r: Reader, more: seq<bool>)
    requires NextToken(r).Just?
    ensures NextToken(Longer(r, more)) == Just((NextToken(r).value.0, Longer(NextToken(r).value.1, more)))
  {
    hide NextToken;
    var r' := NextToken(r).value.1;
    NextUses(r, r'.bits + more);
    Associate(Taken(r.bits, r'.bits), r'.bits, more);
  }

  /** If the next token leaves all the bits behind those of `r`, it can be read without them. */
  lemma NextFewer(r: Reader, more: seq<bool>)
    requires NextToken(Longer(r, more)).Just? && |NextToken(Longer(r, more)).value.1.bits| >= |more|
    ensures NextToken(r).Just?
  {
    hide NextToken;
    var e := NextToken(Longer(r, more)).value.1.bits;
    var n := |r.bits| + |more| - |e|;
    NextUses(Longer(r, more), []);
    assert Taken(r.bits + more, e) == r.bits[..n];
    NextUses(Longer(r, more), r.bits[n..]);
    assert r.bits[..n] + r.bits[n..] == r.bits;
  }
}
