/** How a block transmits its code length tables, and how a decoder reads them back. */
module TableCoding {
  import opened Bits
  import opened CanonicalCode

  // There are three sets of symbols: 510 for characters and match lengths (counted in 9 bits), 14 for the sizes
  // of positions (4 bits), and the Extra set of 19 for code lengths and zero runs (5 bits).

  // ---- Reading ----

  /** Section 19.4 of the UEFI Specification, GetBits. */
  function GetBits(n: nat, bits: seq<bool>): Decoded<nat> {
    if n <= |bits| then Some(Value(bits[..n]), bits[n..]) else None
  }

  lemma GetField(n: nat, x: nat, rest: seq<bool>)
    requires x < Pow2(n)
    ensures GetBits(n, Field(n, x) + rest) == Some(x, rest)
  {
    ValueField(n, x);
    assert (Field(n, x) + rest)[..n] == Field(n, x);
  }

  /** A table with one symbol costs no bits per symbol. */
  datatype Table = Single(sym: nat) | Coded(lens: seq<nat>)

  function ReadSymbol(t: Table, bits: seq<bool>): Decoded<nat> {
    match t
    case Single(s) => Some(s, bits)
    case Coded(lens) => DecodeSymbol(lens, bits)
  }

  /** A length table as a table of codes: all zero stands for the single symbol. */
  ghost predicate Readable(t: Table, lens: seq<nat>)
  {
    match t
    case Single(s) => s < |lens| && lens[s] == 0
    case Coded(ls) => ls == lens && ValidLens(lens) && Complete(Counts(lens))
  }

  /** The symbols that can be written with a table. */
  ghost predicate Writable(t: Table, lens: seq<nat>, i: nat)
  {
    i < |lens| && if t.Single? then i == t.sym else Used(lens, i)
  }

  ghost function SymbolBits(lens: seq<nat>, i: nat): seq<bool>
    requires i < |lens| && lens[i] <= 16
  {
    if lens[i] == 0 then [] else CodeBits(lens, i)
  }

  lemma ReadSymbolBits(t: Table, lens: seq<nat>, i: nat, rest: seq<bool>)
    requires Readable(t, lens) && Writable(t, lens, i)
    ensures lens[i] <= 16 && ReadSymbol(t, SymbolBits(lens, i) + rest) == Some(i, rest)
  {
    if t.Coded? {
      DecodeCode(lens, i, rest);
    } else {
      assert [] + rest == rest;
    }
  }

  // ---- Trailing zeros are not transmitted ----

  function Trim(s: seq<nat>): (r: seq<nat>)
    ensures r <= s && forall i :: |r| <= i < |s| ==> s[i] == 0
    ensures r != [] ==> r[|r| - 1] != 0
  {
    if s != [] && s[|s| - 1] == 0 then Trim(s[..|s| - 1]) else s
  }

  function PadTo(s: seq<nat>, n: nat): (r: seq<nat>)
    requires |s| <= n
    ensures |r| == n && s <= r && forall i :: |s| <= i < n ==> r[i] == 0
  {
    s + Repeat(0, n - |s|)
  }

  // ---- Position and extra set: WritePTLen ----

  /** One code length: three bits, or ones and a closing zero from seven on. */
  function LengthBits(l: nat): seq<bool> {
    if l <= 6 then Field(3, l) else Field(l - 3, Pow2(l - 3) - 2)
  }

  /** The end of the zeros from `i` on that the special skip covers: at most up to index 6. */
  function SkipZeros(lens: seq<nat>, i: nat): (j: nat)
    requires i <= 6 <= |lens|
    ensures i <= j <= 6 && forall k :: i <= k < j ==> lens[k] == 0
    decreases 6 - i
  {
    if i < 6 && lens[i] == 0 then SkipZeros(lens, i + 1) else i
  }

  /** The lengths from `i` to below `n`; after the third one a skip if `special`. */
  function PTBody(lens: seq<nat>, n: nat, i: nat, special: bool): seq<bool>
    requires n <= |lens| && 6 <= |lens|
    decreases |lens| - i
  {
    if i >= n then []
    else if special && i == 2 then
      var j := SkipZeros(lens, 3);
      LengthBits(lens[i]) + (Field(2, j - 3) + PTBody(lens, n, j, special))
    else
      LengthBits(lens[i]) + PTBody(lens, n, i + 1, special)
  }

  function PTBits(lens: seq<nat>, nbit: nat, special: bool): seq<bool>
    requires 6 <= |lens|
  {
    Field(nbit, |Trim(lens)|) + PTBody(lens, |Trim(lens)|, 0, special)
  }

  function LeadingOnes(bits: seq<bool>): (k: nat)
    ensures k <= |bits|
  {
    if bits != [] && bits[0] then 1 + LeadingOnes(bits[1..]) else 0
  }

  /** Section 19.4, ReadPTLen, one length. */
  function ReadLength(bits: seq<bool>): Decoded<nat> {
    match GetBits(3, bits)
    case None => None
    case Some(c, rest) =>
      if c != 7 then Some(c, rest)
      else
        var k := LeadingOnes(rest);
        if k < |rest| then Some(7 + k, rest[k + 1..]) else None
  }

  /** Section 19.4, ReadPTLen, the loop: `lens` holds what has been read. */
  function ReadPTBody(number: nat, special: bool, lens: seq<nat>, bits: seq<bool>): Decoded<seq<nat>>
    decreases number - |lens|
  {
    if |lens| >= number then Some(lens, bits)
    else
      match ReadLength(bits)
      case None => None
      case Some(l, rest) =>
        if special && |lens| == 2 then
          match GetBits(2, rest)
          case None => None
          case Some(z, rest') => ReadPTBody(number, special, lens + [l] + Repeat(0, z), rest')
        else ReadPTBody(number, special, lens + [l], rest)
  }

  /** Section 19.4, ReadPTLen. */
  function ReadPT(n: nat, nbit: nat, special: bool, bits: seq<bool>): Decoded<Table> {
    match GetBits(nbit, bits)
    case None => None
    case Some(number, rest) =>
      if number == 0 then
        match GetBits(nbit, rest)
        case None => None
        case Some(s, rest') => Some(Single(s), rest')
      else
        match ReadPTBody(number, special, [], rest)
        case None => None
        case Some(lens, rest') => if |lens| <= n then Some(Coded(PadTo(lens, n)), rest') else None
  }

  // ---- Reading back what WritePTLen wrote ----

  function Ones(n: nat): (r: seq<bool>)
    ensures |r| == n
  {
    seq(n, _ => true)
  }

  lemma {:induction false} FieldOnes(n: nat)
    ensures Field(n, Pow2(n) - 1) == Ones(n)
  {
    if n > 0 {
      assert (Pow2(n) - 1) / 2 == Pow2(n - 1) - 1;
      FieldOnes(n - 1);
    }
  }

  lemma LengthBitsUnary(l: nat)
    requires 7 <= l
    ensures LengthBits(l) == Ones(l - 4) + [false]
  {
    var n := l - 3;
    assert Pow2(n) == 2 * Pow2(n - 1);
    assert (Pow2(n) - 2) / 2 == Pow2(n - 1) - 1 && (Pow2(n) - 2) % 2 == 0;
    FieldOnes(n - 1);
  }

  lemma {:induction false} LeadingOnesOf(k: nat, rest: seq<bool>)
    ensures LeadingOnes(Ones(k) + [false] + rest) == k
  {
    if k > 0 {
      LeadingOnesOf(k - 1, rest);
      assert (Ones(k) + [false] + rest)[1..] == Ones(k - 1) + [false] + rest;
    }
  }

  lemma ReadLengthBits(l: nat, rest: seq<bool>)
    ensures ReadLength(LengthBits(l) + rest) == Some(l, rest)
  {
    if l <= 6 {
      Pow2Values();
      GetField(3, l, rest);
    } else {
      var k := l - 7;
      LengthBitsUnary(l);
      var tail := Ones(k) + [false] + rest;
      assert Ones(l - 4) + [false] + rest == Ones(3) + tail;
      Pow2Values();
      FieldOnes(3);
      GetField(3, 7, tail);
      LeadingOnesOf(k, rest);
      assert tail[k + 1..] == rest;
    }
  }

  lemma ReadPTStep(lens: seq<nat>, n: nat, i: nat, special: bool, rest: seq<bool>)
    requires i < n <= |lens| && 6 <= |lens| && !(special && i == 2)
    ensures ReadPTBody(n, special, lens[..i], PTBody(lens, n, i, special) + rest)
         == ReadPTBody(n, special, lens[..i + 1], PTBody(lens, n, i + 1, special) + rest)
  {
    var body := PTBody(lens, n, i + 1, special);
    Associate(LengthBits(lens[i]), body, rest);
    ReadLengthBits(lens[i], body + rest);
    assert lens[..i] + [lens[i]] == lens[..i + 1];
  }

  lemma ReadPTSkip(lens: seq<nat>, n: nat, rest: seq<bool>)
    requires 2 < n <= |lens| && 6 <= |lens|
    ensures var s := SkipZeros(lens, 3);
      ReadPTBody(n, true, lens[..2], PTBody(lens, n, 2, true) + rest)
      == ReadPTBody(n, true, lens[..s], PTBody(lens, n, s, true) + rest)
  {
    hide Field, GetBits, LeadingOnes, LengthBits, ReadLength, Repeat, SkipZeros, Value;
    var s := SkipZeros(lens, 3);
    var body := PTBody(lens, n, s, true);
    var skip := Field(2, s - 3);
    Associate(LengthBits(lens[2]), skip + body, rest);
    Associate(skip, body, rest);
    ReadLengthBits(lens[2], skip + (body + rest));
    assert Pow2(2) == 4;
    GetField(2, s - 3, body + rest);
    assert lens[..2] + [lens[2]] + Repeat(0, s - 3) == lens[..s];
  }

  lemma {:induction false} ReadPTBodyBits(lens: seq<nat>, n: nat, i: nat, special: bool, rest: seq<bool>)
    returns (j: nat)
    requires n <= |lens| && 6 <= |lens| && i <= |lens|
    ensures n <= j <= |lens|
    ensures ReadPTBody(n, special, lens[..i], PTBody(lens, n, i, special) + rest) == Some(lens[..j], rest)
    decreases |lens| - i
  {
    hide Field, GetBits, LeadingOnes, LengthBits, Pow2, ReadLength, Repeat, SkipZeros, Value;
    if i >= n {
      j := i;
      assert [] + rest == rest;
    } else if special && i == 2 {
      ReadPTSkip(lens, n, rest);
      j := ReadPTBodyBits(lens, n, SkipZeros(lens, 3), special, rest);
    } else {
      ReadPTStep(lens, n, i, special, rest);
      j := ReadPTBodyBits(lens, n, i + 1, special, rest);
    }
  }

  /** The decoder reads a length table back exactly as it was. */
  lemma ReadPTBits(lens: seq<nat>, nbit: nat, special: bool, rest: seq<bool>)
    requires 6 <= |lens| < Pow2(nbit) && Trim(lens) != []
    ensures ReadPT(|lens|, nbit, special, PTBits(lens, nbit, special) + rest) == Some(Coded(lens), rest)
  {
    var n := |Trim(lens)|;
    var body := PTBody(lens, n, 0, special);
    Associate(Field(nbit, n), body, rest);
    GetField(nbit, n, body + rest);
    var j := ReadPTBodyBits(lens, n, 0, special, rest);
    assert lens[..0] == [];
    assert PadTo(lens[..j], |lens|) == lens;
  }

  // ---- Character and length set: WriteCLen ----

  /** The elements the length table of the Char&Len set is transmitted as. */
  datatype RawItem = Zero | ShortRun(k: nat) | LongRun(k: nat) | Length(l: nat)

  predicate ItemFits(it: RawItem) {
    match it
    case Zero => true
    case ShortRun(k) => 3 <= k <= 18
    case LongRun(k) => 20 <= k < 532
    case Length(l) => 1 <= l <= 16
  }

  type Item = it: RawItem | ItemFits(it) witness Zero

  /** The symbol of the Extra set that announces an item. */
  function ItemSymbol(it: Item): (r: nat)
    ensures r < 19
  {
    match it
    case Zero => 0
    case ShortRun(_) => 1
    case LongRun(_) => 2
    case Length(l) => l + 2
  }

  /** How many bits `WriteCLen` sends behind a symbol of the Extra set. */
  function ExtraSize(c: nat): nat {
    if c == 1 then 4 else if c == 2 then 9 else 0
  }

  function ItemExtra(it: Item): (r: nat)
    ensures r < Pow2(ExtraSize(ItemSymbol(it)))
  {
    Pow2Values();
    match it
    case Zero => 0
    case ShortRun(k) => k - 3
    case LongRun(k) => k - 20
    case Length(_) => 0
  }

  /** The lengths an item stands for. */
  function ItemMeaning(it: Item): (r: seq<nat>)
    ensures r != []
  {
    match it
    case Zero => [0]
    case ShortRun(k) => Repeat(0, k)
    case LongRun(k) => Repeat(0, k)
    case Length(l) => [l]
  }

  function Meaning(items: seq<Item>): seq<nat> {
    if items == [] then [] else ItemMeaning(items[0]) + Meaning(items[1..])
  }

  /** A run of `k` zeros: a run of 19 is cheaper as one zero and a run of 18. */
  function RunItems(k: nat): (r: seq<Item>)
    requires k < 532
    ensures Meaning(r) == Repeat(0, k)
  {
    if k == 0 then []
    else if k == 1 then [Zero]
    else if k == 2 then [Zero, Zero]
    else if k <= 18 then [ShortRun(k)]
    else if k == 19 then [Zero, ShortRun(18)]
    else [LongRun(k)]
  }

  function ZeroRun(s: seq<nat>): (k: nat)
    ensures k <= |s| && s[..k] == Repeat(0, k) && (k < |s| ==> s[k] != 0)
  {
    if s == [] || s[0] != 0 then 0
    else
      var k := ZeroRun(s[1..]);
      assert s[..k + 1] == [s[0]] + s[1..][..k];
      1 + k
  }

  /** The items of a length table: maximal zero runs, and the lengths between them. */
  function Items(s: seq<nat>): (r: seq<Item>)
    requires |s| < 532 && ValidLens(s)
    decreases |s|
  {
    if s == [] then []
    else if s[0] != 0 then [Length(s[0])] + Items(s[1..])
    else RunItems(ZeroRun(s)) + Items(s[ZeroRun(s)..])
  }

  lemma {:induction false} MeaningConcat(a: seq<Item>, b: seq<Item>)
    ensures Meaning(a + b) == Meaning(a) + Meaning(b)
  {
    if a == [] {
      assert a + b == b;
    } else {
      MeaningConcat(a[1..], b);
      assert (a + b)[1..] == a[1..] + b;
      Associate(ItemMeaning(a[0]), Meaning(a[1..]), Meaning(b));
    }
  }

  lemma NoMeaning()
    ensures Meaning([]) == []
  {
  }

  lemma OneMeaning(l: nat)
    requires 1 <= l <= 16
    ensures Meaning([Length(l)]) == [l]
  {
    assert [Length(l)][1..] == [];
  }

  /** The items stand for exactly the lengths they were made from. */
  lemma {:induction false} ItemsMeaning(s: seq<nat>)
    requires |s| < 532 && ValidLens(s)
    ensures Meaning(Items(s)) == s
    decreases |s|
  {
    hide Meaning, RunItems, ZeroRun;
    if s == [] {
      NoMeaning();
    } else {
      if s[0] != 0 {
        ItemsMeaning(s[1..]);
        MeaningConcat([Length(s[0])], Items(s[1..]));
        OneMeaning(s[0]);
        assert [s[0]] + s[1..] == s;
      } else {
        var k := ZeroRun(s);
        ItemsMeaning(s[k..]);
        MeaningConcat(RunItems(k), Items(s[k..]));
        assert s == s[..k] + s[k..];
      }
    }
  }

  ghost function ItemBits(tlens: seq<nat>, it: Item): seq<bool>
    requires ValidLens(tlens) && 19 <= |tlens|
  {
    SymbolBits(tlens, ItemSymbol(it)) + Field(ExtraSize(ItemSymbol(it)), ItemExtra(it))
  }

  ghost function ItemsBits(tlens: seq<nat>, items: seq<Item>): seq<bool>
    requires ValidLens(tlens) && 19 <= |tlens|
  {
    if items == [] then [] else ItemBits(tlens, items[0]) + ItemsBits(tlens, items[1..])
  }

  /** What `WriteCLen` sends for the lengths `clens` with the Extra set's lengths `tlens`. */
  ghost function CBits(clens: seq<nat>, tlens: seq<nat>): seq<bool>
    requires |clens| < 512 && ValidLens(clens) && ValidLens(tlens) && 19 <= |tlens|
  {
    Field(9, |Trim(clens)|) + ItemsBits(tlens, Items(Trim(clens)))
  }

  /** A run of zeros: `n` bits say how many there are beyond `least`. */
  function ReadRun(n: nat, least: nat, bits: seq<bool>): Decoded<seq<nat>> {
    match GetBits(n, bits)
    case None => None
    case Some(v, rest) => Some(Repeat(0, v + least), rest)
  }

  /** Section 19.4, ReadCLen, one element: the lengths it stands for. */
  function ReadItem(t: Table, bits: seq<bool>): Decoded<seq<nat>> {
    match ReadSymbol(t, bits)
    case None => None
    case Some(c, rest) =>
      if c == 1 then ReadRun(4, 3, rest)
      else if c == 2 then ReadRun(9, 20, rest)
      else Some(if c == 0 then [0] else [c - 2], rest)
  }

  /** What a symbol of the Extra set stands for and how many bits follow it: a zero, 3 to 18 zeros with four bits, 20 to
      531 zeros with nine bits, or a length. */
  lemma ReadItemTakes(t: Table, bits: seq<bool>)
    requires ReadItem(t, bits).Some?
    ensures ReadSymbol(t, bits).Some?
    ensures var c, rest := ReadSymbol(t, bits).value, ReadSymbol(t, bits).rest;
      var ls, taken := ReadItem(t, bits).value, |rest| - |ReadItem(t, bits).rest|;
      && (forall i :: 0 <= i < |ls| && c <= 2 ==> ls[i] == 0)
      && (c == 0 ==> taken == 0 && |ls| == 1)
      && (c == 1 ==> taken == 4 && 3 <= |ls| <= 18 && |ls| == Value(rest[..4]) + 3)
      && (c == 2 ==> taken == 9 && 20 <= |ls| <= 531 && |ls| == Value(rest[..9]) + 20)
      && (c > 2 ==> taken == 0 && ls == [c - 2])
  {
    hide ReadSymbol, Value;
    var c, rest := ReadSymbol(t, bits).value, ReadSymbol(t, bits).rest;
    Pow2Values();
    if c == 1 {
      ValueBound(rest[..4]);
    } else if c == 2 {
      ValueBound(rest[..9]);
    }
  }

  /** Section 19.4, ReadCLen, the loop. */
  function ReadCBody(number: nat, t: Table, lens: seq<nat>, bits: seq<bool>): Decoded<seq<nat>>
    decreases number - |lens|
  {
    if |lens| >= number then Some(lens, bits)
    else
      match ReadItem(t, bits)
      case None => None
      case Some(ls, rest) => ReadCBody(number, t, lens + ls, rest)
  }

  /** Section 19.4, ReadCLen: `t` is the Extra set's table. */
  function ReadC(t: Table, bits: seq<bool>): Decoded<Table> {
    match GetBits(9, bits)
    case None => None
    case Some(number, rest) =>
      if number == 0 then
        match GetBits(9, rest)
        case None => None
        case Some(s, rest') => Some(Single(s), rest')
      else
        match ReadCBody(number, t, [], rest)
        case None => None
        case Some(lens, rest') => if |lens| <= 510 then Some(Coded(PadTo(lens, 510)), rest') else None
  }

  lemma NoField(rest: seq<bool>)
    ensures Field(0, 0) + rest == rest
  {
  }

  lemma ReadItemBits(t: Table, tlens: seq<nat>, it: Item, rest: seq<bool>)
    requires Readable(t, tlens) && ValidLens(tlens) && 19 <= |tlens|
    requires Writable(t, tlens, ItemSymbol(it))
    ensures ReadItem(t, ItemBits(tlens, it) + rest) == Some(ItemMeaning(it), rest)
  {
    hide ReadSymbol, SymbolBits, Field, GetBits, Readable, Pow2;
    var c := ItemSymbol(it);
    var extra := Field(ExtraSize(c), ItemExtra(it));
    Associate(SymbolBits(tlens, c), extra, rest);
    ReadSymbolBits(t, tlens, c, extra + rest);
    GetField(ExtraSize(c), ItemExtra(it), rest);
    if ExtraSize(c) == 0 {
      NoField(rest);
    }
  }

  ghost predicate AllWritable(t: Table, tlens: seq<nat>, items: seq<Item>) {
    forall i :: 0 <= i < |items| ==> Writable(t, tlens, ItemSymbol(items[i]))
  }

  lemma {:induction false} ReadCBodyBits(number: nat, t: Table, tlens: seq<nat>, items: seq<Item>, lens: seq<nat>,
                                         rest: seq<bool>)
    requires Readable(t, tlens) && ValidLens(tlens) && 19 <= |tlens|
    requires AllWritable(t, tlens, items)
    requires |lens| + |Meaning(items)| == number
    ensures ReadCBody(number, t, lens, ItemsBits(tlens, items) + rest) == Some(lens + Meaning(items), rest)
    decreases |items|
  {
    if items == [] {
      assert [] + rest == rest && lens + [] == lens;
    } else {
      var tail := ItemsBits(tlens, items[1..]);
      var first := ItemMeaning(items[0]);
      Associate(ItemBits(tlens, items[0]), tail, rest);
      ReadItemBits(t, tlens, items[0], tail + rest);
      ReadCBodyBits(number, t, tlens, items[1..], lens + first, rest);
      Associate(lens, first, Meaning(items[1..]));
    }
  }

  lemma ReadCCoded(t: Table, s: seq<nat>, body: seq<bool>, rest: seq<bool>)
    requires 0 < |s| <= 510 && ReadCBody(|s|, t, [], body + rest) == Some(s, rest)
    ensures ReadC(t, Field(9, |s|) + body + rest) == Some(Coded(PadTo(s, 510)), rest)
  {
    Associate(Field(9, |s|), body, rest);
    assert |s| < Pow2(9) by { Pow2Values(); }
    GetField(9, |s|, body + rest);
  }

  /** The decoder reads the Char&Len table back exactly as it was. */
  lemma ReadCBits(t: Table, clens: seq<nat>, tlens: seq<nat>, rest: seq<bool>)
    requires |clens| == 510 && ValidLens(clens) && Trim(clens) != []
    requires Readable(t, tlens) && ValidLens(tlens) && 19 <= |tlens|
    requires AllWritable(t, tlens, Items(Trim(clens)))
    ensures ReadC(t, CBits(clens, tlens) + rest) == Some(Coded(clens), rest)
  {
    hide ReadC, ReadCBody, Items, ItemsBits, Meaning;
    var s := Trim(clens);
    var items := Items(s);
    ItemsMeaning(s);
    ReadCBodyBits(|s|, t, tlens, items, [], rest);
    assert [] + Meaning(items) == s;
    ReadCCoded(t, s, ItemsBits(tlens, items), rest);
    assert PadTo(s, 510) == clens;
  }
}
