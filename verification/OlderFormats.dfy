/** The older formats of the permission image, as they were written, and what loading them gives. */
module OlderFormats {
  import opened Wrappers
  import opened Bits
  import opened Permissions
  import opened PermissionImage
  import opened PermissionFlash

  // ---- Packing ----

  /** The header of formats 1 and 2: no default delegation mask. */
  function OldHeader(format: Byte, s: Store, created: seq<Byte>, saved: seq<Byte>): seq<Byte> {
    [0x53, 0x42, 0x43, 0x5A, format] + Dword(s.version) + Dword(s.lsv) + created + saved
    + [MaskByte(s.pmask)] + Word(|s.entries|)
  }

  /** An entry of format 2: no delegation mask. */
  function OldEntry(e: Entry): seq<Byte>
    requires |e.id| <= 96
  {
    [MaskByte(e.pmask), |e.id| + 1] + e.id + [0]
  }

  function OldEntries(es: seq<Entry>): seq<Byte>
    requires ShortIds(es)
  {
    if es == [] then [] else OldEntry(es[0]) + OldEntries(es[1..])
  }

  function OldImage(s: Store, created: seq<Byte>, saved: seq<Byte>): seq<Byte>
    requires ShortIds(s.entries)
  {
    OldHeader(2, s, created, saved) + OldEntries(s.entries)
  }

  // ---- Loading ----

  /** The same entry, delegated to the owner. */
  function Owned(e: Entry): Entry {
    e.(dmask := 0x80)
  }

  function AllOwned(es: seq<Entry>): (r: seq<Entry>)
    ensures |r| == |es| && forall i :: 0 <= i < |es| ==> r[i] == Entry(es[i].id, es[i].pmask, 0x80, es[i].marked)
  {
    seq(|es|, i requires 0 <= i < |es| => Owned(es[i]))
  }

  lemma OldHeaderFields(format: Byte, s: Store, created: seq<Byte>, saved: seq<Byte>)
    requires |created| == |saved| == 16
    ensures var h := OldHeader(format, s, created, saved);
      && |h| == 48 && h[..4] == [0x53, 0x42, 0x43, 0x5A] && h[4] == format
      && h[5..9] == Dword(s.version) && h[9..13] == Dword(s.lsv)
      && h[45] == MaskByte(s.pmask) && h[46..48] == Word(|s.entries|)
  {
    hide Dword, Word, MaskByte;
  }

  /** Where the parts of a packed entry are. */
  lemma OldEntryThere(head: seq<Byte>, e: Entry, tail: seq<Byte>)
    requires |e.id| <= 96
    ensures var b, p, k := head + (OldEntry(e) + tail), |head|, |e.id|;
      && |b| >= p + k + 3 && b[p] == MaskByte(e.pmask) && b[p + 1] == k + 1
      && b[p + 2..p + 2 + k] == e.id && b[p + 2 + k] == 0
  {
    hide MaskByte;
  }

  lemma ReadOldEntry(head: seq<Byte>, e: Entry, tail: seq<Byte>, n: nat, es: seq<Entry>)
    requires n > 0 && |e.id| <= 96 && !IsNumber(e.id) && !e.marked
    ensures var b := head + (OldEntry(e) + tail);
      Read(b, |head|, n, true, es) == Read(b, |head| + |OldEntry(e)|, n - 1, true, es + [Owned(e)])
  {
    hide MaskByte, ByteMask, CString, IsNumber;
    OldEntryThere(head, e, tail);
    CStringOf(head + (OldEntry(e) + tail), |head| + 2, e.id);
    MaskRoundTrip(e.pmask);
  }

  lemma {:induction false} ReadOldEntries(head: seq<Byte>, es: seq<Entry>, done: seq<Entry>)
    requires Added(es)
    ensures Read(head + OldEntries(es), |head|, |es|, true, done) == Ok(done + AllOwned(es))
    decreases |es|
  {
    hide OldEntry, Read, IsNumber;
    if es == [] {
      assert done + AllOwned(es) == done;
      NothingLeft(head + OldEntries(es), |head|, done);
    } else {
      var e, rest := es[0], OldEntries(es[1..]);
      ReadOldEntry(head, e, rest, |es|, done);
      ReadOldEntries(head + OldEntry(e), es[1..], done + [Owned(e)]);
      assert head + (OldEntry(e) + rest) == head + OldEntry(e) + rest;
      assert done + [Owned(e)] + AllOwned(es[1..]) == done + AllOwned(es);
    }
  }

  lemma NothingLeft(b: seq<Byte>, p: nat, done: seq<Entry>)
    ensures Read(b, p, 0, true, done) == Ok(done)
  {
  }

  lemma {:induction false} OldEntriesSize(es: seq<Entry>)
    requires ShortIds(es)
    ensures 3 * |es| <= |OldEntries(es)|
  {
    if es != [] {
      OldEntriesSize(es[1..]);
    }
  }

  /** A format 2 image holds its entries in order, the default permission, the version and the LSV; all entries and
      the default are delegated to the owner. */
  lemma OldImageParses(s: Store, created: seq<Byte>, saved: seq<Byte>)
    requires Storable(s) && |created| == |saved| == 16 && |OldImage(s, created, saved)| <= 2048
    ensures Parse(OldImage(s, created, saved))
         == Ok(Loaded(2, Store(s.version, s.lsv, s.pmask, 0x80, AllOwned(s.entries))))
  {
    hide OldHeader, Read, Dword, DwordValue, Word, WordValue, OldEntries, MaskByte, ByteMask;
    var h, b := OldHeader(2, s, created, saved), OldImage(s, created, saved);
    OldHeaderFields(2, s, created, saved);
    assert b[..4] == h[..4] && b[5..9] == h[5..9] && b[9..13] == h[9..13] && b[46..48] == h[46..48];
    assert b[4] == h[4] && b[45] == h[45];
    OldEntriesSize(s.entries);
    DwordRoundTrip(s.version);
    DwordRoundTrip(s.lsv);
    WordRoundTrip(|s.entries|);
    MaskRoundTrip(s.pmask);
    ReadOldEntries(h, s.entries, []);
    assert [] + AllOwned(s.entries) == AllOwned(s.entries);
  }

  /** A format 1 image can be loaded if and only if it has no entries; it then holds the default permission, the
      version and the LSV, delegated to the owner. */
  lemma FirstFormatParses(s: Store, created: seq<Byte>, saved: seq<Byte>, table: seq<Byte>)
    requires s.lsv <= s.version <= 0xFFFF_FFFF && |created| == |saved| == 16 && |s.entries| < 0x1_0000
    ensures var b := OldHeader(1, s, created, saved) + table;
      Parse(b)
      == if s.entries == [] && table == [] then Ok(Loaded(1, Store(s.version, s.lsv, s.pmask, 0x80, []))) else Err
  {
    hide OldHeader, Read, Dword, DwordValue, Word, WordValue, MaskByte, ByteMask;
    var h := OldHeader(1, s, created, saved);
    var b := h + table;
    OldHeaderFields(1, s, created, saved);
    assert b[..4] == h[..4] && b[5..9] == h[5..9] && b[9..13] == h[9..13] && b[46..48] == h[46..48];
    assert b[4] == h[4] && b[45] == h[45];
    DwordRoundTrip(s.version);
    DwordRoundTrip(s.lsv);
    WordRoundTrip(|s.entries|);
    MaskRoundTrip(s.pmask);
  }

  /** The store that an image of each format stands for. */
  function Meant(format: Byte, s: Store): Store {
    if format == 2 then Store(s.version, s.lsv, s.pmask, 0x80, AllOwned(s.entries))
    else if format == 3 && s.dmask == 0 then s.(dmask := 0xF0)
    else s
  }

  /** The image of a store in format 2, 3 or 4. */
  function ImageOf(format: Byte, s: Store, created: seq<Byte>, saved: seq<Byte>): seq<Byte>
    requires ShortIds(s.entries)
  {
    if format == 2 then OldImage(s, created, saved) else Image(format, s, created, saved)
  }

  lemma MeantStorable(format: Byte, s: Store)
    requires Storable(s)
    ensures Storable(Meant(format, s)) && ShortIds(Meant(format, s).entries)
  {
    hide IsNumber;
  }

  lemma CurrentSize(s: Store, created: seq<Byte>, now: seq<Byte>)
    requires ShortIds(s.entries) && |created| == |now| == 16
    ensures |Image(4, s, created, now)| == 49 + |EntriesBytes(s.entries)|
  {
    hide Header, EntriesBytes;
    HeaderFields(4, s, created, now);
  }

  /** Loading an image of format 2, 3 or 4 gives the store it stands for, now and at every later load: format 2
      delegates everything to the owner, and format 3 without a default delegation gets one to all users. The variable
      is in the current format afterwards if that has room for it. */
  lemma OldImageLoads(format: Byte, s: Store, created: seq<Byte>, saved: seq<Byte>, now: seq<Byte>, later: seq<Byte>)
    requires 2 <= format <= 4 && Storable(s) && |created| == |saved| == |now| == |later| == 16
    requires |ImageOf(format, s, created, saved)| <= 2048
    ensures ShortIds(Meant(format, s).entries)
    ensures var r, t := Load(Just(ImageOf(format, s, created, saved)), now), Meant(format, s);
      && r.store == Ok(t) && Load(r.nv, later).store == Ok(t)
      && (49 + |EntriesBytes(t.entries)| <= 2048 ==> r.nv.Just? && Parse(r.nv.value) == Ok(Loaded(4, t)))
  {
    hide Parse, OldImage, Image, Save, Meant, EntriesBytes;
    var b, t := ImageOf(format, s, created, saved), Meant(format, s);
    MeantStorable(format, s);
    LoadsMeant(format, s, created, saved, now);
    MigratedReloads(Just(b), now, later);
    CurrentSize(t, b[13..29], now);
    if 49 + |EntriesBytes(t.entries)| <= 2048 {
      SaveThenParse(Just(b), t, b[13..29], now);
    }
  }

  lemma LoadsMeant(format: Byte, s: Store, created: seq<Byte>, saved: seq<Byte>, now: seq<Byte>)
    requires 2 <= format <= 4 && Storable(s) && |created| == |saved| == |now| == 16
    requires |ImageOf(format, s, created, saved)| <= 2048
    ensures var b, t := ImageOf(format, s, created, saved), Meant(format, s);
      && |b| >= 48 && ShortIds(t.entries) && Parse(b).Ok? && (format == 4 ==> Parse(b) == Ok(Loaded(4, t)))
      && Load(Just(b), now)
         == if format == 4 then LoadResult(Ok(t), Just(b), false)
            else LoadResult(Ok(t), Save(Just(b), t, true, b[13..29], now).nv,
                            Save(Just(b), t, true, b[13..29], now).modified)
  {
    hide Parse, OldImage, Image, Save, EntriesBytes;
    MeantStorable(format, s);
    ParseStorable(ImageOf(format, s, created, saved));
    if format == 2 {
      OldImageParses(s, created, saved);
    } else {
      ImageRoundTrip(format, s, created, saved);
    }
  }
}
