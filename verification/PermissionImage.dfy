/** The permission store as a byte image in a variable: packing, unpacking and the older formats. */
module PermissionImage {
  import opened Wrappers
  import opened Bits
  import opened Permissions

  function MaskByte(m: Mask): Byte {
    m as nat
  }

  function ByteMask(b: Byte): Mask {
    b as bv8
  }

  lemma MaskRoundTrip(m: Mask)
    ensures ByteMask(MaskByte(m)) == m
  {
  }

  const OWNER: Mask := 0x80

  // ---- Packing ----

  /** Masks, the size of the id with its terminator, and the id. */
  function EntryBytes(e: Entry): seq<Byte>
    requires |e.id| <= 96
  {
    [MaskByte(e.pmask), MaskByte(e.dmask), |e.id| + 1] + e.id + [0]
  }

  function EntriesBytes(es: seq<Entry>): seq<Byte>
    requires ShortIds(es)
  {
    if es == [] then [] else EntriesBytes(es[..|es| - 1]) + EntryBytes(es[|es| - 1])
  }

  /** The bytes before the table of entries; the two times are sixteen bytes each. */
  function Header(format: Byte, s: Store, created: seq<Byte>, saved: seq<Byte>): seq<Byte>
  {
    [0x53, 0x42, 0x43, 0x5A, format] + Dword(s.version) + Dword(s.lsv) + created + saved
    + [MaskByte(s.pmask), MaskByte(s.dmask)] + Word(|s.entries|)
  }

  /** An image of format 3 or 4. */
  function Image(format: Byte, s: Store, created: seq<Byte>, saved: seq<Byte>): seq<Byte>
    requires ShortIds(s.entries)
  {
    Header(format, s, created, saved) + EntriesBytes(s.entries)
  }

  // ---- Unpacking ----

  /** The string that begins at `p`: up to a null byte, or to the end of the image. */
  function CString(b: seq<Byte>, p: nat): Id
    decreases |b| - p
  {
    if p < |b| && b[p] != 0 then [b[p]] + CString(b, p + 1) else []
  }

  /** Entries that cannot be added are passed over. */
  function AddOrKeep(es: seq<Entry>, id: Id, pmask: Mask, dmask: Mask): seq<Entry> {
    match Add(es, id, pmask, dmask)
    case Ok(r) => r
    case Err => es
  }

  /** `n` entries from `p` on, behind `es`; format 2 has no delegation masks, so they become the owner's. */
  function Read(b: seq<Byte>, p: nat, n: nat, v2: bool, es: seq<Entry>): Result<seq<Entry>>
    decreases n
  {
    if n == 0 then Ok(es)
    else
      var h := if v2 then 2 else 3;
      if p + h > |b| then Err
      else
        var q := p + h + b[p + h - 1];
        if q > |b| then Err
        else Read(b, q, n - 1, v2,
                  AddOrKeep(es, CString(b, p + h), ByteMask(b[p]), if v2 then OWNER else ByteMask(b[p + 1])))
  }

  datatype Loaded = Loaded(format: Byte, store: Store)

  /** An image of any format. Format 1 has numbers for ids, and `DfciV1TranslateEnum` knows none of them, so only
      an image without entries can be read. */
  function Parse(b: seq<Byte>): Result<Loaded> {
    if |b| > 2048 || |b| < 48 || b[..4] != [0x53, 0x42, 0x43, 0x5A] then Err
    else
      var format, version, lsv := b[4], DwordValue(b[5..9]), DwordValue(b[9..13]);
      if version < lsv then Err
      else if format == 1 then
        if |b| == 48 && WordValue(b[46..48]) == 0
        then Ok(Loaded(format, Store(version, lsv, ByteMask(b[45]), OWNER, [])))
        else Err
      else if format == 2 then
        match Read(b, 48, WordValue(b[46..48]), true, [])
        case Err => Err
        case Ok(es) => Ok(Loaded(format, Store(version, lsv, ByteMask(b[45]), OWNER, es)))
      else if (format == 3 || format == 4) && |b| >= 49 then
        match Read(b, 49, WordValue(b[47..49]), false, [])
        case Err => Err
        case Ok(es) => Ok(Loaded(format, Store(version, lsv, ByteMask(b[45]), ByteMask(b[46]), es)))
      else Err
  }

  // ---- Round trip ----

  /** What `AddPermissionEntry` lets into a store. */
  ghost predicate Added(es: seq<Entry>) {
    forall i :: 0 <= i < |es| ==> |es[i].id| <= 96 && !IsNumber(es[i].id) && !es[i].marked
  }

  lemma {:induction false} CStringOf(b: seq<Byte>, p: nat, id: Id)
    requires p + |id| < |b| && b[p..p + |id|] == id && b[p + |id|] == 0
    ensures CString(b, p) == id
    decreases |id|
  {
    if id != [] {
      assert b[p] == b[p..p + |id|][0];
      assert b[p + 1..p + 1 + |id[1..]|] == b[p..p + |id|][1..];
      CStringOf(b, p + 1, id[1..]);
      assert id == [id[0]] + id[1..];
    }
  }

  lemma EntrySize(e: Entry)
    requires |e.id| <= 96
    ensures |EntryBytes(e)| == |e.id| + 4
  {
  }

  lemma EntryParts(e: Entry)
    requires |e.id| <= 96
    ensures var c, k := EntryBytes(e), |e.id|;
      && |c| == k + 4 && c[0] == MaskByte(e.pmask) && c[1] == MaskByte(e.dmask) && c[2] == k + 1
      && c[3..3 + k] == e.id && c[3 + k] == 0
  {
    hide MaskByte;
  }

  lemma SliceAt(b: seq<Byte>, p: nat, n: nat, i: nat)
    requires p + n <= |b| && i < n
    ensures b[p..p + n][i] == b[p + i]
  {
  }

  /** Where the parts of a packed entry are in the image. */
  lemma EntryThere(b: seq<Byte>, p: nat, e: Entry)
    requires |e.id| <= 96 && p + |e.id| + 4 <= |b| && b[p..p + |e.id| + 4] == EntryBytes(e)
    ensures var k := |e.id|;
      && b[p] == MaskByte(e.pmask) && b[p + 1] == MaskByte(e.dmask) && b[p + 2] == k + 1
      && b[p + 3..p + 3 + k] == e.id && b[p + 3 + k] == 0
  {
    hide EntryBytes, MaskByte;
    var k := |e.id|;
    EntryParts(e);
    SliceAt(b, p, k + 4, 0);
    SliceAt(b, p, k + 4, 1);
    SliceAt(b, p, k + 4, 2);
    SliceAt(b, p, k + 4, 3 + k);
    SubSlice(b, p, p + k + 4, 3, 3 + k);
  }

  /** Reading one packed entry. */
  lemma ReadEntry(b: seq<Byte>, p: nat, n: nat, es: seq<Entry>, e: Entry)
    requires n > 0 && |e.id| <= 96 && !IsNumber(e.id) && !e.marked
    requires p + |e.id| + 4 <= |b| && b[p..p + |e.id| + 4] == EntryBytes(e)
    ensures Read(b, p, n, false, es) == Read(b, p + |e.id| + 4, n - 1, false, es + [e])
  {
    hide EntryBytes, MaskByte, ByteMask, CString, IsNumber;
    EntryThere(b, p, e);
    CStringOf(b, p + 3, e.id);
    MaskRoundTrip(e.pmask);
    MaskRoundTrip(e.dmask);
  }

  lemma {:induction false} EntriesPrefix(es: seq<Entry>, i: nat)
    requires ShortIds(es) && i <= |es|
    ensures EntriesBytes(es[..i]) <= EntriesBytes(es)
    decreases |es| - i
  {
    if i == |es| {
      assert es[..i] == es;
    } else {
      assert es[..|es| - 1][..i] == es[..i];
      EntriesPrefix(es[..|es| - 1], i);
    }
  }

  /** Where entry `i` is in the table. */
  lemma EntryPlace(es: seq<Entry>, i: nat)
    requires ShortIds(es) && i < |es|
    ensures var p := |EntriesBytes(es[..i])|;
      && |EntriesBytes(es[..i + 1])| == p + |es[i].id| + 4 <= |EntriesBytes(es)|
      && EntriesBytes(es)[p..p + |es[i].id| + 4] == EntryBytes(es[i])
  {
    assert es[..i + 1][..i] == es[..i];
    EntriesPrefix(es, i + 1);
    EntrySize(es[i]);
    var p := |EntriesBytes(es[..i])|;
    assert EntriesBytes(es)[..p + |es[i].id| + 4] == EntriesBytes(es[..i]) + EntryBytes(es[i]);
  }

  lemma {:induction false} ReadEntries(head: seq<Byte>, es: seq<Entry>, i: nat)
    requires Added(es) && i <= |es|
    ensures Read(head + EntriesBytes(es), |head| + |EntriesBytes(es[..i])|, |es| - i, false, es[..i]) == Ok(es)
    decreases |es| - i
  {
    hide Read, EntryBytes, EntriesBytes;
    var b := head + EntriesBytes(es);
    var p := |head| + |EntriesBytes(es[..i])|;
    if i == |es| {
      assert es[..i] == es;
      ReadNone(b, p, es);
    } else {
      EntryPlace(es, i);
      var k := |es[i].id| + 4;
      assert b[p..p + k] == EntriesBytes(es)[p - |head|..p - |head| + k];
      ReadEntry(b, p, |es| - i, es[..i], es[i]);
      assert es[..i] + [es[i]] == es[..i + 1];
      ReadEntries(head, es, i + 1);
    }
  }

  lemma ReadNone(b: seq<Byte>, p: nat, es: seq<Entry>)
    ensures Read(b, p, 0, false, es) == Ok(es)
  {
  }

  /** The size of an image: at least four bytes per entry, so the count fits sixteen bits below 2048 bytes. */
  lemma {:induction false} EntriesSize(es: seq<Entry>)
    requires ShortIds(es)
    ensures 4 * |es| <= |EntriesBytes(es)|
  {
    if es != [] {
      EntriesSize(es[..|es| - 1]);
      EntrySize(es[|es| - 1]);
    }
  }

  /** The header fields are where the reader looks for them. */
  lemma HeaderFields(format: Byte, s: Store, created: seq<Byte>, saved: seq<Byte>)
    requires |created| == |saved| == 16
    ensures var h := Header(format, s, created, saved);
      && |h| == 49 && h[..4] == [0x53, 0x42, 0x43, 0x5A] && h[4] == format
      && h[5..9] == Dword(s.version) && h[9..13] == Dword(s.lsv) && h[13..29] == created && h[29..45] == saved
      && h[45] == MaskByte(s.pmask) && h[46] == MaskByte(s.dmask) && h[47..49] == Word(|s.entries|)
  {
    hide Dword, Word, MaskByte;
  }

  /** A store that can be saved. */
  ghost predicate Storable(s: Store) {
    Added(s.entries) && s.lsv <= s.version <= 0xFFFF_FFFF
  }

  /** Packing and unpacking gives the same entries in order and the same masks, version and LSV. */
  lemma ImageRoundTrip(format: Byte, s: Store, created: seq<Byte>, saved: seq<Byte>)
    requires Storable(s) && |created| == |saved| == 16 && (format == 3 || format == 4)
    requires |Image(format, s, created, saved)| <= 2048
    ensures Parse(Image(format, s, created, saved)) == Ok(Loaded(format, s))
  {
    hide Header, Read, Dword, DwordValue, Word, WordValue, EntriesBytes, MaskByte, ByteMask;
    var h, b := Header(format, s, created, saved), Image(format, s, created, saved);
    HeaderFields(format, s, created, saved);
    assert b[..4] == h[..4] && b[5..9] == h[5..9] && b[9..13] == h[9..13] && b[47..49] == h[47..49];
    assert b[4] == h[4] && b[45] == h[45] && b[46] == h[46];
    EntriesSize(s.entries);
    DwordRoundTrip(s.version);
    DwordRoundTrip(s.lsv);
    WordRoundTrip(|s.entries|);
    MaskRoundTrip(s.pmask);
    MaskRoundTrip(s.dmask);
    ReadEntries(h, s.entries, 0);
    assert s.entries[..0] == [] && EntriesBytes([]) == [] by { NoEntries(); }
  }

  lemma NoEntries()
    ensures EntriesBytes([]) == []
  {
  }

  // ---- What is refused ----

  /** Images of a wrong size, without the signature, of an unknown format or with an LSV above the version. */
  lemma ParseRefuses(b: seq<Byte>)
    requires || |b| < 48 || |b| > 2048 || b[..4] != [0x53, 0x42, 0x43, 0x5A] || b[4] == 0 || b[4] > 4
             || DwordValue(b[5..9]) < DwordValue(b[9..13])
    ensures Parse(b) == Err
  {
    hide Read, WordValue, DwordValue;
  }

  /** An entry that is cut. */
  lemma ReadCutEntry(b: seq<Byte>, p: nat, n: nat, es: seq<Entry>, e: Entry)
    requires n > 0 && |e.id| <= 96 && p <= |b| < p + |e.id| + 4 && b[p..] <= EntryBytes(e)
    ensures Read(b, p, n, false, es) == Err
  {
    hide MaskByte, ByteMask, CString, AddOrKeep;
    if p + 3 <= |b| {
      EntryParts(e);
      assert b[p + 2] == b[p..][2] == EntryBytes(e)[2];
    }
  }

  lemma {:induction false} ReadCut(head: seq<Byte>, es: seq<Entry>, i: nat, k: nat)
    requires Added(es) && i <= |es| && |head| + |EntriesBytes(es[..i])| <= k < |head| + |EntriesBytes(es)|
    ensures Read((head + EntriesBytes(es))[..k], |head| + |EntriesBytes(es[..i])|, |es| - i, false, es[..i]) == Err
    decreases |es| - i
  {
    hide Read, EntryBytes, EntriesBytes, IsNumber;
    assert es[..|es|] == es;
    var b, p := (head + EntriesBytes(es))[..k], |head| + |EntriesBytes(es[..i])|;
    EntryPlace(es, i);
    var n := |es[i].id| + 4;
    assert (head + EntriesBytes(es))[p..p + n] == EntriesBytes(es)[p - |head|..p - |head| + n] == EntryBytes(es[i]);
    if p + n <= k {
      assert b[p..p + n] == (head + EntriesBytes(es))[p..p + n];
      ReadEntry(b, p, |es| - i, es[..i], es[i]);
      assert es[..i] + [es[i]] == es[..i + 1];
      ReadCut(head, es, i + 1, k);
    } else {
      EntrySize(es[i]);
      assert b[p..] == EntryBytes(es[i])[..k - p];
      ReadCutEntry(b, p, |es| - i, es[..i], es[i]);
    }
  }

  /** An image that lacks its end, by however little, is refused. */
  lemma CutImageRefused(format: Byte, s: Store, created: seq<Byte>, saved: seq<Byte>, k: nat)
    requires Storable(s) && |created| == |saved| == 16 && (format == 3 || format == 4)
    requires k < |Image(format, s, created, saved)| <= 2048
    ensures Parse(Image(format, s, created, saved)[..k]) == Err
  {
    hide Header, Read, Dword, DwordValue, Word, WordValue, EntriesBytes, MaskByte, ByteMask;
    HeaderFields(format, s, created, saved);
    var h, b := Header(format, s, created, saved), Image(format, s, created, saved)[..k];
    if k >= 49 {
      assert b[47..49] == h[47..49] && b[4] == h[4];
      EntriesSize(s.entries);
      WordRoundTrip(|s.entries|);
      assert s.entries[..0] == [] && EntriesBytes([]) == [] by { NoEntries(); }
      ReadCut(h, s.entries, 0, k);
    } else if k == 48 {
      assert b[4] == h[4];
    }
  }
}
