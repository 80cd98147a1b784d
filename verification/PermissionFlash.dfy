/** `SaveToFlash` and `LoadFromFlash`: the permission store and its variable. */
module PermissionFlash {
  import opened Wrappers
  import opened Bits
  import opened Memory
  import opened Permissions
  import opened PermissionStore
  import opened PermissionImage

  /** The contents of the variable, if it exists. */
  type Variable = Option<seq<Byte>>

  // ---- What saving and loading do ----

  /** Equal except for the two times. */
  predicate SameButTimes(a: seq<Byte>, b: seq<Byte>) {
    |a| == |b| && |a| >= 45 && a[..13] == b[..13] && a[45..] == b[45..]
  }

  datatype SaveResult = SaveResult(ok: bool, nv: Variable, modified: bool)

  /** Nothing is written if nothing was modified, if the image is too big, or if only the times would differ;
      in the last case the store stays marked as modified. */
  function Save(nv: Variable, s: Store, modified: bool, created: seq<Byte>, now: seq<Byte>): SaveResult
    requires ShortIds(s.entries)
  {
    var image := Image(4, s, created, now);
    if !modified then SaveResult(true, nv, false)
    else if |image| > 2048 then SaveResult(false, nv, true)
    else if nv.Just? && SameButTimes(nv.value, image) then SaveResult(true, nv, true)
    else SaveResult(true, Just(image), false)
  }

  /** An older format is repaired: format 3 may have lost the default delegation mask. */
  function Migrate(l: Loaded): Store {
    if l.format == 3 && l.store.dmask == 0 then l.store.(dmask := USERS) else l.store
  }

  datatype LoadResult = LoadResult(store: Result<Store>, nv: Variable, modified: bool)

  /** A store of an older format is saved in the current one, and a failure to do so is ignored. */
  function Load(nv: Variable, now: seq<Byte>): LoadResult {
    match nv
    case Nothing => LoadResult(Err, nv, false)
    case Just(b) =>
      match Parse(b)
      case Err => LoadResult(Err, nv, false)
      case Ok(l) =>
        ParseStorable(b);
        if l.format == 4 then LoadResult(Ok(l.store), nv, false)
        else
          var r := Save(nv, Migrate(l), true, b[13..29], now);
          LoadResult(Ok(Migrate(l)), r.nv, r.modified)
  }

  // ---- Loaded stores can be saved ----

  lemma AddAdded(es: seq<Entry>, id: Id, pmask: Mask, dmask: Mask)
    requires Added(es)
    ensures Added(AddOrKeep(es, id, pmask, dmask))
  {
    hide IsNumber;
  }

  lemma {:induction false} ReadAdded(b: seq<Byte>, p: nat, n: nat, v2: bool, es: seq<Entry>)
    requires Added(es) && Read(b, p, n, v2, es).Ok?
    ensures Added(Read(b, p, n, v2, es).value)
    decreases n
  {
    hide ByteMask, CString, Added, AddOrKeep;
    if n > 0 {
      var h := if v2 then 2 else 3;
      var id, pmask, dmask := CString(b, p + h), ByteMask(b[p]), if v2 then OWNER else ByteMask(b[p + 1]);
      AddAdded(es, id, pmask, dmask);
      ReadAdded(b, p + h + b[p + h - 1], n - 1, v2, AddOrKeep(es, id, pmask, dmask));
    }
  }

  lemma ParseStorable(b: seq<Byte>)
    ensures Parse(b).Ok? ==> Storable(Parse(b).value.store) && |b| >= 48 && Parse(b).value.format in {1, 2, 3, 4}
  {
    if Parse(b).Ok? {
      hide Read, DwordValue, WordValue;
      DwordBound(b[5..9]);
      if b[4] == 1 {
      } else if b[4] == 2 {
        ReadAdded(b, 48, WordValue(b[46..48]), true, []);
      } else {
        ReadAdded(b, 49, WordValue(b[47..49]), false, []);
      }
    }
  }

  // ---- Times do not matter ----

  lemma {:induction false} CStringAgree(a: seq<Byte>, b: seq<Byte>, p: nat)
    requires |a| == |b| && |a| >= 45 && a[45..] == b[45..] && p >= 45
    ensures CString(a, p) == CString(b, p)
    decreases |a| - p
  {
    if p < |a| {
      assert a[p] == a[45..][p - 45] == b[45..][p - 45] == b[p];
      CStringAgree(a, b, p + 1);
    }
  }

  lemma SameByte(a: seq<Byte>, b: seq<Byte>, i: nat)
    requires |a| == |b| && 45 <= i < |a| && a[45..] == b[45..]
    ensures a[i] == b[i]
  {
    assert a[i] == a[45..][i - 45] && b[i] == b[45..][i - 45];
  }

  lemma {:induction false} ReadAgree(a: seq<Byte>, b: seq<Byte>, p: nat, n: nat, v2: bool, es: seq<Entry>)
    requires |a| == |b| && |a| >= 45 && a[45..] == b[45..] && p >= 45
    ensures Read(a, p, n, v2, es) == Read(b, p, n, v2, es)
    decreases n
  {
    hide AddOrKeep, CString, ByteMask;
    var h := if v2 then 2 else 3;
    if n > 0 && p + h <= |a| {
      SameByte(a, b, p);
      SameByte(a, b, p + 1);
      SameByte(a, b, p + h - 1);
      CStringAgree(a, b, p + h);
      var q := p + h + a[p + h - 1];
      if q <= |a| {
        ReadAgree(a, b, q, n - 1, v2,
                  AddOrKeep(es, CString(a, p + h), ByteMask(a[p]), if v2 then OWNER else ByteMask(a[p + 1])));
      }
    }
  }

  lemma HeadAgree(a: seq<Byte>, b: seq<Byte>, i: nat, j: nat)
    requires SameButTimes(a, b) && i <= j <= 13
    ensures a[i..j] == b[i..j]
  {
    SubSlice(a, 0, 13, i, j);
    SubSlice(b, 0, 13, i, j);
  }

  lemma TailAgree(a: seq<Byte>, b: seq<Byte>, i: nat, j: nat)
    requires SameButTimes(a, b) && 45 <= i <= j <= |a|
    ensures a[i..j] == b[i..j]
  {
    SubSlice(a, 45, |a|, i - 45, j - 45);
    SubSlice(b, 45, |a|, i - 45, j - 45);
  }

  lemma ParseAgree(a: seq<Byte>, b: seq<Byte>)
    requires SameButTimes(a, b)
    ensures Parse(a) == Parse(b)
  {
    hide Read, DwordValue, WordValue;
    if |a| >= 48 {
      HeadAgree(a, b, 0, 4);
      HeadAgree(a, b, 4, 5);
      HeadAgree(a, b, 5, 9);
      HeadAgree(a, b, 9, 13);
      assert a[4] == a[4..5][0] && b[4] == b[4..5][0];
      SameByte(a, b, 45);
      SameByte(a, b, 46);
      TailAgree(a, b, 46, 48);
      ReadAgree(a, b, 48, WordValue(a[46..48]), true, []);
      if |a| >= 49 {
        TailAgree(a, b, 47, 49);
        ReadAgree(a, b, 49, WordValue(a[47..49]), false, []);
      }
    }
  }

  // ---- Round trips ----

  /** After a save the variable holds the store, whether it was written or already did. */
  lemma SaveThenParse(nv: Variable, s: Store, created: seq<Byte>, now: seq<Byte>)
    requires Storable(s) && |created| == |now| == 16 && |Image(4, s, created, now)| <= 2048
    ensures var r := Save(nv, s, true, created, now);
      r.ok && r.nv.Just? && Parse(r.nv.value) == Ok(Loaded(4, s))
  {
    hide Parse, Image;
    var image := Image(4, s, created, now);
    ImageRoundTrip(4, s, created, now);
    if nv.Just? && SameButTimes(nv.value, image) {
      ParseAgree(nv.value, image);
    }
  }

  /** What was saved is what is loaded. */
  lemma SaveThenLoad(nv: Variable, s: Store, created: seq<Byte>, now: seq<Byte>, later: seq<Byte>)
    requires Storable(s) && |created| == |now| == 16 && |Image(4, s, created, now)| <= 2048
    ensures var r := Save(nv, s, true, created, now);
      r.ok && Load(r.nv, later) == LoadResult(Ok(s), r.nv, false)
  {
    hide Parse, Save;
    SaveThenParse(nv, s, created, now);
  }

  /** A store that is saved again, at any time, is not written again; it only stays marked as modified. */
  lemma SaveTwice(nv: Variable, s: Store, created: seq<Byte>, now: seq<Byte>, created': seq<Byte>, now': seq<Byte>)
    requires ShortIds(s.entries) && |created| == |now| == |created'| == |now'| == 16
    requires |Image(4, s, created, now)| <= 2048
    ensures var r := Save(nv, s, true, created, now);
      r.nv.Just? && Save(r.nv, s, true, created', now') == SaveResult(true, r.nv, true)
  {
    hide Image;
    ImagesSame(s, created, now, created', now');
    var r := Save(nv, s, true, created, now);
    assert SameButTimes(r.nv.value, Image(4, s, created', now'));
  }

  lemma ImagesSame(s: Store, created: seq<Byte>, now: seq<Byte>, created': seq<Byte>, now': seq<Byte>)
    requires ShortIds(s.entries) && |created| == |now| == |created'| == |now'| == 16
    ensures SameButTimes(Image(4, s, created, now), Image(4, s, created', now'))
  {
    hide EntriesBytes, Dword, Word, MaskByte;
    var a, b, es := Image(4, s, created, now), Image(4, s, created', now'), EntriesBytes(s.entries);
    var tail := [MaskByte(s.pmask), MaskByte(s.dmask)] + Word(|s.entries|) + es;
    assert a[45..] == tail && b[45..] == tail;
  }

  /** A migrated store loads again as what the migration made of it, even if its new image was too big to save. */
  lemma MigratedReloads(nv: Variable, now: seq<Byte>, later: seq<Byte>)
    requires Load(nv, now).store.Ok? && |now| == 16 && |later| == 16
    ensures Load(Load(nv, now).nv, later).store == Load(nv, now).store
  {
    hide Parse, Image;
    var b := nv.value;
    ParseStorable(b);
    var l := Parse(b).value;
    if l.format != 4 && |Image(4, Migrate(l), b[13..29], now)| <= 2048 {
      SaveThenLoad(nv, Migrate(l), b[13..29], now, later);
    }
  }

  // ---- The loops ----

  lemma {:induction false} TableSize(es: seq<Entry>)
    requires ShortIds(es)
    ensures |EntriesBytes(es)| == 3 * |es| + IdBytes(es)
  {
    if es != [] {
      TableSize(es[..|es| - 1]);
      EntrySize(es[|es| - 1]);
    }
  }

  /** The fields before the table. */
  method PutHeader(image: array<Byte>, s: Store, created: seq<Byte>, now: seq<Byte>)
    requires image.Length >= 49 && |created| == |now| == 16
    modifies image
    ensures image[..49] == Header(4, s, created, now)
  {
    hide Patch, Dword, Word, MaskByte;
    Copy(image, 0, [0x53, 0x42, 0x43, 0x5A, 4]);
    Copy(image, 5, Dword(s.version));
    Copy(image, 9, Dword(s.lsv));
    Copy(image, 13, created);
    Copy(image, 29, now);
    Copy(image, 45, [MaskByte(s.pmask), MaskByte(s.dmask)]);
    Copy(image, 47, Word(|s.entries|));
  }

  /** The loop over the entries. */
  method PutEntries(image: array<Byte>, es: seq<Entry>, ghost head: seq<Byte>)
    requires ShortIds(es) && |head| == 49 && image.Length == 49 + |EntriesBytes(es)| && image[..49] == head
    modifies image
    ensures image[..] == head + EntriesBytes(es)
  {
    hide EntriesBytes, EntryBytes;
    var p := 49;
    var i := 0;
    NoEntries();
    assert es[..0] == [];
    while i < |es|
      invariant 0 <= i <= |es| && p == 49 + |EntriesBytes(es[..i])| <= image.Length
      invariant image[..p] == head + EntriesBytes(es[..i])
    {
      EntryPlace(es, i);
      ghost var done := EntriesBytes(es[..i]);
      Copy(image, p, EntryBytes(es[i]));
      EntrySize(es[i]);
      TableSnoc(es, i);
      Associate(head, done, EntryBytes(es[i]));
      p := p + 3 + |es[i].id| + 1;
      i := i + 1;
    }
    assert es[..i] == es && image[..p] == image[..];
  }

  lemma TableSnoc(es: seq<Entry>, i: nat)
    requires ShortIds(es) && i < |es|
    ensures EntriesBytes(es[..i + 1]) == EntriesBytes(es[..i]) + EntryBytes(es[i])
  {
    assert es[..i + 1][..i] == es[..i];
  }

  /** The loop that walks the table of entries. */
  method ReadTable(b: seq<Byte>, start: nat, n: nat, v2: bool) returns (r: Result<seq<Entry>>)
    requires start <= |b|
    ensures r == Read(b, start, n, v2, [])
  {
    hide AddOrKeep, CString, ByteMask;
    var es: seq<Entry> := [];
    var p: nat, count: nat := start, 0;
    while count < n && p < |b|
      invariant count <= n && p <= |b| && Read(b, start, n, v2, []) == Read(b, p, n - count, v2, es)
    {
      count := count + 1;
      var h := if v2 then 2 else 3;
      if p + h > |b| {
        return Err;
      }
      var q := p + h + b[p + h - 1];
      if q > |b| {
        return Err;
      }
      es := AddOrKeep(es, CString(b, p + h), ByteMask(b[p]), if v2 then OWNER else ByteMask(b[p + 1]));
      p := q;
    }
    if count != n {
      return Err;
    }
    return Ok(es);
  }

  class Flash {
    var nv: Variable           // the variable _SPP

    constructor (contents: Variable)
      ensures nv == contents
    {
      nv := contents;
    }

    /** The image of a store, in an array of its size. */
    method Pack(store: PermStore, size: nat, created: seq<Byte>, now: seq<Byte>) returns (image: array<Byte>)
      requires ShortIds(store.entries) && |created| == |now| == 16
      requires size == 49 + 3 * |store.entries| + IdBytes(store.entries)
      ensures fresh(image) && image[..] == Image(4, store.Value(), created, now)
    {
      hide Header, EntriesBytes, EntryBytes;
      image := new Byte[size](_ => 0);
      var s := Store(store.version, store.lsv, store.defaultPMask, store.defaultDMask, store.entries);
      HeaderFields(4, s, created, now);
      TableSize(s.entries);
      PutHeader(image, s, created, now);
      PutEntries(image, s.entries, Header(4, s, created, now));
    }

    method SaveToFlash(store: PermStore, created: seq<Byte>, now: seq<Byte>) returns (ok: bool)
      requires ShortIds(store.entries) && |created| == |now| == 16
      modifies this, store`modified
      ensures SaveResult(ok, nv, store.modified) == Save(old(nv), store.Value(), old(store.modified), created, now)
    {
      hide Header, EntriesBytes, EntryBytes;
      if !store.modified {
        return true;
      }
      var count, idSize := store.CountEntries();
      // For no entries the UINTN product wraps around, and the sum wraps back.
      var n: int := count;
      var size: int := 52 + ((n - 1) * 3 + idSize);
      HeaderFields(4, store.Value(), created, now);
      TableSize(store.entries);
      if size > 2048 {
        return false;
      }
      var image := Pack(store, size, created, now);
      if nv.Just? && SameButTimes(nv.value, image[..]) {
        return true;
      }
      nv := Just(image[..]);
      store.modified := false;
      return true;
    }

    /** The checks on the header, then the entries. */
    method Unpack(b: seq<Byte>) returns (r: Result<Loaded>)
      ensures r == Parse(b)
    {
      hide Read, DwordValue, WordValue;
      if |b| > 2048 || |b| < 48 || b[..4] != [0x53, 0x42, 0x43, 0x5A] {
        return Err;
      }
      var format, version, lsv := b[4], DwordValue(b[5..9]), DwordValue(b[9..13]);
      if version < lsv {
        return Err;
      }
      var table;
      if format == 1 {
        var count := WordValue(b[46..48]);
        if |b| == 48 + 5 * count && count == 0 {
          return Ok(Loaded(format, Store(version, lsv, ByteMask(b[45]), OWNER, [])));
        }
      } else if format == 2 {
        table := ReadTable(b, 48, WordValue(b[46..48]), true);
        if table.Ok? {
          return Ok(Loaded(format, Store(version, lsv, ByteMask(b[45]), OWNER, table.value)));
        }
      } else if (format == 3 || format == 4) && |b| >= 49 {
        table := ReadTable(b, 49, WordValue(b[47..49]), false);
        if table.Ok? {
          return Ok(Loaded(format, Store(version, lsv, ByteMask(b[45]), ByteMask(b[46]), table.value)));
        }
      }
      return Err;
    }

    method LoadFromFlash(now: seq<Byte>) returns (store: PermStore?)
      requires |now| == 16
      modifies this
      ensures var r := Load(old(nv), now);
        && nv == r.nv && (store != null <==> r.store.Ok?)
        && (store != null ==> fresh(store) && store.Value() == r.store.value && store.modified == r.modified)
    {
      hide Parse, Image;
      if nv.Nothing? {
        return null;
      }
      var b := nv.value;
      var l := Unpack(b);
      if l.Err? {
        return null;
      }
      ParseStorable(b);
      store := new PermStore(l.value.store);
      if l.value.format == 4 {
        store.modified := false;
      } else {
        if l.value.format == 3 && store.defaultDMask == 0 {
          store.defaultDMask := USERS;
        }
        var ok := SaveToFlash(store, b[13..29], now);
      }
    }
  }
}
