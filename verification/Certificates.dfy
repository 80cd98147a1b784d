/** The table of certificates and its image in a variable. */
module Certificates {
  import opened Wrappers
  import opened Bits
  import opened Permissions

  /** A certificate and its size; the two can disagree only for a certificate that was dropped. */
  datatype Slot = Slot(cert: Option<seq<Byte>>, size: nat)

  /** An empty slot has size 0, and sizes fit sixteen bits. */
  predicate SlotOk(s: Slot) {
    s.size < 0x1_0000 && if s.cert.Just? then |s.cert.value| == s.size && s.size > 0 else s.size == 0
  }

  predicate SlotWhole(s: Slot) {
    s.cert.Just? ==> |s.cert.value| == s.size
  }

  /** The slots of USER, USER1, USER2, OWNER, ZTD and two that are reserved; `populated` is a mask of identities. */
  datatype Certs = Certs(version: nat, lsv: nat, populated: Mask, slots: seq<Slot>)

  /** Every certificate has the size its slot says. */
  ghost predicate CertsWhole(c: Certs) {
    |c.slots| == 7 && forall i :: 0 <= i < 7 ==> SlotWhole(c.slots[i])
  }

  ghost predicate CertsOk(c: Certs) {
    && c.version <= 0xFFFF_FFFF && c.lsv <= 0xFFFF_FFFF
    && |c.slots| == 7 && forall i :: 0 <= i < 7 ==> SlotOk(c.slots[i])
  }

  const USER_KEYS: Mask := 0x70
  const OWNER_KEY: Mask := 0x80

  /** `CertIndexToDfciIdentity`. */
  function IndexIdentity(i: nat): Mask {
    if i == 0 then 0x40 else if i == 1 then 0x20 else if i == 2 then 0x10
    else if i == 3 then 0x80 else if i == 4 then 0x08 else 0
  }

  /** `DfciIdentityToCertIndex`. */
  function IdentityIndex(id: Mask): Option<nat> {
    if id == 0x08 then Just(4) else if id == 0x40 then Just(0) else if id == 0x20 then Just(1)
    else if id == 0x10 then Just(2) else if id == 0x80 then Just(3) else Nothing
  }

  // ---- Packing ----

  function Sizes(slots: seq<Slot>): (r: seq<Byte>)
    ensures |r| == 2 * |slots|
  {
    if slots == [] then [] else Sizes(slots[..|slots| - 1]) + Word(slots[|slots| - 1].size % 0x1_0000)
  }

  function SlotData(s: Slot): seq<Byte> {
    if s.cert.Just? && s.size > 0 then s.cert.value else []
  }

  function Data(slots: seq<Slot>): seq<Byte> {
    if slots == [] then [] else Data(slots[..|slots| - 1]) + SlotData(slots[|slots| - 1])
  }

  const SIGNATURE: seq<Byte> := [0x49, 0x50, 0x43, 0x56, 0, 0, 0, 0]

  /** `SaveProvisionedData`: the current format holds seven slots. */
  function CertImage(c: Certs): seq<Byte> {
    SIGNATURE + [2, 7] + Sizes(c.slots) + Dword(c.version) + Dword(c.lsv) + Data(c.slots)
  }

  // ---- Unpacking ----

  datatype LoadStatus = LoadOk | NotFound | Compromised | Incompatible | Unsupported | NoOwner

  function SizeAt(b: seq<Byte>, i: nat): nat
    requires 12 + 2 * i <= |b|
  {
    WordValue(b[10 + 2 * i..12 + 2 * i])
  }

  /** The loop over the slots: `p` is where the next certificate begins. */
  datatype Walked = Walked(ok: bool, populated: Mask, slots: seq<Slot>, p: nat)

  function WalkSlots(b: seq<Byte>, n: nat, i: nat, w: Walked): Walked
    requires 10 + 2 * n <= |b| && |w.slots| == 7 && n <= 7 && w.p <= |b|
    decreases n - i
  {
    if !w.ok || i >= n then w
    else
      var size := SizeAt(b, i);
      if size == 0 then WalkSlots(b, n, i + 1, w.(slots := w.slots[i := Slot(Nothing, 0)]))
      else if |b| - w.p < size then w.(ok := false, slots := w.slots[i := Slot(Nothing, size)])
      else
        WalkSlots(b, n, i + 1, Walked(true, w.populated | IndexIdentity(i),
                                      w.slots[i := Slot(Just(b[w.p..w.p + size]), size)], w.p + size))
  }

  /** User keys are allowed only beside an owner key. */
  predicate RuleBroken(populated: Mask) {
    populated & USER_KEYS != 0 && populated & OWNER_KEY == 0
  }

  function DropCert(s: Slot): Slot {
    s.(cert := Nothing)
  }

  /** User keys without an owner are dropped, together with the versions. */
  function DropUsers(c: Certs): Certs
    requires |c.slots| == 7
  {
    var any := c.slots[0].cert.Just? || c.slots[1].cert.Just? || c.slots[2].cert.Just?;
    var slots := c.slots[0 := DropCert(c.slots[0])][1 := DropCert(c.slots[1])][2 := DropCert(c.slots[2])];
    if any then Certs(0, 0, c.populated, slots) else c
  }

  datatype LoadedCerts = LoadedCerts(status: LoadStatus, certs: Certs)

  /** The part of `LoadProvisionedData` after the header: `n` slots, data from `p` on. */
  function LoadTable(b: seq<Byte>, n: nat, p: nat, c: Certs): LoadedCerts
    requires |c.slots| == 7 && n <= 7 && 10 + 2 * n <= p <= |b|
  {
    if b[9] != n then LoadedCerts(Unsupported, c)
    else
      var w := WalkSlots(b, n, 0, Walked(true, c.populated, c.slots, p));
      WalkLength(b, n, 0, Walked(true, c.populated, c.slots, p));
      var d := c.(populated := w.populated, slots := w.slots);
      if !w.ok then LoadedCerts(Compromised, d)
      else if RuleBroken(w.populated) then LoadedCerts(NoOwner, DropUsers(d))
      else LoadedCerts(LoadOk, d)
  }

  /** `LoadProvisionedData` into the table `c`: the first format holds four slots and no versions. */
  function LoadCerts(b: seq<Byte>, c: Certs): LoadedCerts
    requires |c.slots| == 7
  {
    if |b| < 18 || b[..8] != SIGNATURE then LoadedCerts(Compromised, c)
    else if b[8] == 1 then LoadTable(b, 4, 18, c.(version := 0, lsv := 0))
    else if b[8] != 2 then LoadedCerts(Incompatible, c)
    else if |b| < 32 then LoadedCerts(Compromised, c)
    else LoadTable(b, 7, 32, c.(version := DwordValue(b[24..28]), lsv := DwordValue(b[28..32])))
  }

  /** `LoadProvisionedData` from the variable, if it exists. */
  function LoadVariable(nv: Option<seq<Byte>>, c: Certs): LoadedCerts
    requires |c.slots| == 7
  {
    if nv.Nothing? then LoadedCerts(NotFound, c) else LoadCerts(nv.value, c)
  }

  lemma {:induction false} WalkLength(b: seq<Byte>, n: nat, i: nat, w: Walked)
    requires 10 + 2 * n <= |b| && |w.slots| == 7 && n <= 7 && w.p <= |b|
    ensures |WalkSlots(b, n, i, w).slots| == 7
    decreases n - i
  {
    if w.ok && i < n {
      var size := SizeAt(b, i);
      if size == 0 {
        WalkLength(b, n, i + 1, w.(slots := w.slots[i := Slot(Nothing, 0)]));
      } else if |b| - w.p >= size {
        WalkLength(b, n, i + 1, Walked(true, w.populated | IndexIdentity(i),
                                       w.slots[i := Slot(Just(b[w.p..w.p + size]), size)], w.p + size));
      }
    }
  }

  lemma {:induction false} WalkWholeSlots(b: seq<Byte>, n: nat, i: nat, w: Walked)
    requires 10 + 2 * n <= |b| && |w.slots| == 7 && n <= 7 && w.p <= |b|
    requires forall j :: 0 <= j < 7 ==> SlotWhole(w.slots[j])
    ensures |WalkSlots(b, n, i, w).slots| == 7
    ensures forall j :: 0 <= j < 7 ==> SlotWhole(WalkSlots(b, n, i, w).slots[j])
    decreases n - i
  {
    hide SizeAt, IndexIdentity;
    if w.ok && i < n {
      var size := SizeAt(b, i);
      if size == 0 {
        WalkWholeSlots(b, n, i + 1, w.(slots := w.slots[i := Slot(Nothing, 0)]));
      } else if |b| - w.p >= size {
        WalkWholeSlots(b, n, i + 1, Walked(true, w.populated | IndexIdentity(i),
                                           w.slots[i := Slot(Just(b[w.p..w.p + size]), size)], w.p + size));
      }
    }
  }

  lemma TableWhole(b: seq<Byte>, n: nat, p: nat, c: Certs)
    requires CertsWhole(c) && n <= 7 && 10 + 2 * n <= p <= |b|
    ensures CertsWhole(LoadTable(b, n, p, c).certs)
  {
    hide WalkSlots;
    WalkWholeSlots(b, n, 0, Walked(true, c.populated, c.slots, p));
  }

  /** Whatever is loaded, no certificate and its size disagree. */
  lemma LoadWhole(nv: Option<seq<Byte>>, c: Certs)
    requires CertsWhole(c)
    ensures CertsWhole(LoadVariable(nv, c).certs)
  {
    hide LoadTable, SlotWhole, DwordValue;
    if nv.Just? {
      var b := nv.value;
      if |b| >= 18 {
        TableWhole(b, 4, 18, c.(version := 0, lsv := 0));
      }
      if |b| >= 32 {
        TableWhole(b, 7, 32, c.(version := DwordValue(b[24..28]), lsv := DwordValue(b[28..32])));
      }
    }
  }

  // ---- Round trip ----

  /** The identities of the filled slots below `i`. */
  function Filled(slots: seq<Slot>, i: nat): Mask
    requires i <= |slots|
  {
    if i == 0 then 0 else Filled(slots, i - 1) | (if slots[i - 1].size > 0 then IndexIdentity(i - 1) else 0)
  }

  lemma {:induction false} SizesPrefix(slots: seq<Slot>, i: nat)
    requires i <= |slots|
    ensures Sizes(slots[..i]) <= Sizes(slots) && Data(slots[..i]) <= Data(slots)
    decreases |slots| - i
  {
    if i == |slots| {
      assert slots[..i] == slots;
    } else {
      assert slots[..|slots| - 1][..i] == slots[..i];
      SizesPrefix(slots[..|slots| - 1], i);
    }
  }

  lemma SizesSnoc(slots: seq<Slot>, i: nat)
    requires i < |slots|
    ensures Sizes(slots[..i + 1]) == Sizes(slots[..i]) + Word(slots[i].size % 0x1_0000)
    ensures Data(slots[..i + 1]) == Data(slots[..i]) + SlotData(slots[i])
  {
    assert slots[..i + 1][..i] == slots[..i];
  }

  lemma MiddlePart(head: seq<Byte>, part: seq<Byte>, whole: seq<Byte>)
    requires head + part <= whole
    ensures whole[|head|..|head| + |part|] == part
  {
    assert whole[..|head| + |part|] == head + part;
  }

  lemma SizePlace(slots: seq<Slot>, i: nat)
    requires i < |slots| && slots[i].size < 0x1_0000
    ensures Sizes(slots)[2 * i..2 * i + 2] == Word(slots[i].size)
  {
    hide Word, Sizes;
    var size := slots[i].size % 0x1_0000;
    assert size == slots[i].size;
    SizesSnoc(slots, i);
    SizesPrefix(slots, i + 1);
    MiddlePart(Sizes(slots[..i]), Word(size), Sizes(slots));
  }

  lemma DataPlace(slots: seq<Slot>, i: nat)
    requires i < |slots|
    ensures var p, d := |Data(slots[..i])|, SlotData(slots[i]);
      && |Data(slots[..i + 1])| == p + |d| <= |Data(slots)|
      && Data(slots)[p..p + |d|] == d
  {
    hide SlotData, Data;
    SizesSnoc(slots, i);
    SizesPrefix(slots, i + 1);
    MiddlePart(Data(slots[..i]), SlotData(slots[i]), Data(slots));
  }

  /** Where the size and the data of slot `i` are. */
  lemma SlotPlace(slots: seq<Slot>, i: nat)
    requires i < |slots| && SlotOk(slots[i])
    ensures Sizes(slots)[2 * i..2 * i + 2] == Word(slots[i].size)
    ensures |Data(slots[..i + 1])| == |Data(slots[..i])| + slots[i].size <= |Data(slots)|
    ensures slots[i].size > 0 ==>
      slots[i].cert == Just(Data(slots)[|Data(slots[..i])|..|Data(slots[..i])| + slots[i].size])
  {
    hide Word, Sizes, Data;
    SizePlace(slots, i);
    DataPlace(slots, i);
  }

  /** The fields of an image are where the reader looks for them. */
  lemma ImageFields(c: Certs)
    requires |c.slots| == 7
    ensures var b := CertImage(c);
      && |b| == 32 + |Data(c.slots)| && b[..8] == [0x49, 0x50, 0x43, 0x56, 0, 0, 0, 0] && b[8] == 2 && b[9] == 7
      && b[10..24] == Sizes(c.slots) && b[24..28] == Dword(c.version) && b[28..32] == Dword(c.lsv)
      && b[32..] == Data(c.slots)
  {
    hide Sizes, Dword, Data;
  }

  /** An image with a table of `slots` whose certificates begin at `at`. */
  ghost predicate Holds(b: seq<Byte>, slots: seq<Slot>, at: nat) {
    && |slots| <= 7 && 10 + 2 * |slots| <= at <= |b| && (forall i :: 0 <= i < |slots| ==> SlotOk(slots[i]))
    && b[10..10 + 2 * |slots|] == Sizes(slots) && b[at..] == Data(slots)
  }

  /** The loop before slot `i` when it reads such an image into the table `m`. */
  ghost function Middle(slots: seq<Slot>, at: nat, m: Certs, i: nat): Walked
    requires |slots| <= |m.slots| && i <= |slots|
  {
    Walked(true, m.populated | Filled(slots, i), slots[..i] + m.slots[i..], at + |Data(slots[..i])|)
  }

  lemma MaskOr(a: Mask, b: Mask, x: Mask)
    ensures (a | b) | x == a | (b | x) && a | 0 == a
  {
  }

  lemma SameSlice(b: seq<Byte>, part: seq<Byte>, at: nat, i: nat, j: nat)
    requires at + j <= |b| && i <= j <= |part| && at + |part| <= |b| && b[at..at + |part|] == part
    ensures b[at + i..at + j] == part[i..j]
  {
    SubSlice(b, at, at + |part|, i, j);
  }

  lemma MiddleFits(b: seq<Byte>, slots: seq<Slot>, at: nat, i: nat)
    requires Holds(b, slots, at) && i <= |slots|
    ensures at + |Data(slots[..i])| <= |b|
  {
    hide Data, Sizes, SlotOk;
    SizesPrefix(slots, i);
  }

  /** What the reader finds for slot `i`. */
  lemma SlotRead(b: seq<Byte>, slots: seq<Slot>, at: nat, i: nat)
    requires Holds(b, slots, at) && i < |slots|
    ensures var p, slot := at + |Data(slots[..i])|, slots[i];
      && SizeAt(b, i) == slot.size && at + |Data(slots[..i + 1])| == p + slot.size <= |b|
      && slot == if slot.size > 0 then Slot(Just(b[p..p + slot.size]), slot.size) else Slot(Nothing, 0)
  {
    hide Sizes, Data, Word, WordValue;
    var p, size := |Data(slots[..i])|, slots[i].size;
    assert SlotOk(slots[i]);
    SlotPlace(slots, i);
    SameSlice(b, Sizes(slots), 10, 2 * i, 2 * i + 2);
    WordRoundTrip(size);
    if size > 0 {
      SameSlice(b, Data(slots), at, p, p + size);
    }
  }

  lemma WalkStep(b: seq<Byte>, slots: seq<Slot>, at: nat, m: Certs, i: nat)
    requires Holds(b, slots, at) && |m.slots| == 7 && i < |slots|
    requires at + |Data(slots[..i])| <= |b| && at + |Data(slots[..i + 1])| <= |b|
    ensures WalkSlots(b, |slots|, i, Middle(slots, at, m, i))
         == WalkSlots(b, |slots|, i + 1, Middle(slots, at, m, i + 1))
  {
    hide Data, Sizes, SizeAt, IndexIdentity, SlotOk;
    SlotRead(b, slots, at, i);
    MaskOr(m.populated, Filled(slots, i), IndexIdentity(i));
    MaskOr(Filled(slots, i), 0, 0);
    assert (slots[..i] + m.slots[i..])[i := slots[i]] == slots[..i + 1] + m.slots[i + 1..];
  }

  lemma {:induction false} WalkImage(b: seq<Byte>, slots: seq<Slot>, at: nat, m: Certs, i: nat)
    requires Holds(b, slots, at) && |m.slots| == 7 && i <= |slots|
    ensures at + |Data(slots[..i])| <= |b|
    ensures WalkSlots(b, |slots|, i, Middle(slots, at, m, i))
         == Walked(true, m.populated | Filled(slots, |slots|), slots + m.slots[|slots|..], |b|)
    decreases |slots| - i
  {
    hide WalkSlots, Filled, Data, Sizes, SlotOk;
    MiddleFits(b, slots, at, i);
    if i == |slots| {
      assert slots[..i] == slots;
      WalkDone(b, |slots|, Middle(slots, at, m, i));
    } else {
      MiddleFits(b, slots, at, i + 1);
      WalkStep(b, slots, at, m, i);
      WalkImage(b, slots, at, m, i + 1);
    }
  }

  lemma WalkDone(b: seq<Byte>, n: nat, w: Walked)
    requires n <= 7 && 10 + 2 * n <= |b| && |w.slots| == 7 && w.p <= |b|
    ensures WalkSlots(b, n, n, w) == w
  {
  }

  /** Unpacking such an image gives its slots and their identities, and ends at its end. */
  lemma WalkTable(b: seq<Byte>, slots: seq<Slot>, at: nat, m: Certs)
    requires Holds(b, slots, at) && |m.slots| == 7
    ensures WalkSlots(b, |slots|, 0, Walked(true, m.populated, m.slots, at))
         == Walked(true, m.populated | Filled(slots, |slots|), slots + m.slots[|slots|..], |b|)
  {
    hide WalkSlots, Filled, Data, Sizes, SlotOk;
    WalkImage(b, slots, at, m, 0);
    MaskOr(m.populated, 0, 0);
    NothingBefore(slots);
    assert slots[..0] + m.slots[0..] == m.slots;
  }

  lemma LoadHeader(c: Certs, m: Certs)
    requires CertsOk(c) && |m.slots| == 7
    ensures |CertImage(c)| >= 32 && CertImage(c)[9] == 7
    ensures LoadCerts(CertImage(c), m) == LoadTable(CertImage(c), 7, 32, m.(version := c.version, lsv := c.lsv))
  {
    hide CertImage, Data, Sizes, Dword, DwordValue, LoadTable;
    ImageFields(c);
    DwordRoundTrip(c.version);
    DwordRoundTrip(c.lsv);
  }

  lemma WalkWhole(c: Certs, m: Certs)
    requires CertsOk(c) && |m.slots| == 7
    ensures |CertImage(c)| >= 32
    ensures WalkSlots(CertImage(c), 7, 0, Walked(true, m.populated, m.slots, 32))
         == Walked(true, m.populated | Filled(c.slots, 7), c.slots, |CertImage(c)|)
  {
    hide WalkSlots, CertImage, Filled, Data, Sizes, SlotOk;
    ImageFields(c);
    WalkTable(CertImage(c), c.slots, 32, m);
    assert c.slots + m.slots[7..] == c.slots;
  }

  lemma LoadImage(c: Certs, m: Certs)
    requires CertsOk(c) && |m.slots| == 7
    ensures var mask := m.populated | Filled(c.slots, 7);
      LoadCerts(CertImage(c), m)
      == if RuleBroken(mask) then LoadedCerts(NoOwner, DropUsers(c.(populated := mask)))
         else LoadedCerts(LoadOk, c.(populated := mask))
  {
    hide WalkSlots, CertImage, Filled, LoadCerts, RuleBroken, DropUsers, SlotOk;
    LoadHeader(c, m);
    WalkWhole(c, m.(version := c.version, lsv := c.lsv));
  }

  lemma NothingBefore(slots: seq<Slot>)
    ensures Filled(slots, 0) == 0 && Data(slots[..0]) == []
  {
  }

  predicate HasUser(slots: seq<Slot>)
    requires |slots| == 7
  {
    slots[0].cert.Just? || slots[1].cert.Just? || slots[2].cert.Just?
  }

  predicate HasOwner(slots: seq<Slot>)
    requires |slots| == 7
  {
    slots[3].cert.Just?
  }

  lemma OrHas(x: Mask, a: Mask, b: Mask)
    ensures (a | b) & x != 0 <==> a & x != 0 || b & x != 0
  {
  }

  lemma {:induction false} FilledHas(slots: seq<Slot>, i: nat, x: Mask)
    requires i <= |slots|
    ensures Filled(slots, i) & x != 0 <==> exists j :: 0 <= j < i && slots[j].size > 0 && IndexIdentity(j) & x != 0
  {
    if i > 0 {
      FilledHas(slots, i - 1, x);
      OrHas(x, Filled(slots, i - 1), if slots[i - 1].size > 0 then IndexIdentity(i - 1) else 0);
    }
  }

  lemma FilledKeys(slots: seq<Slot>)
    requires |slots| == 7 && forall i :: 0 <= i < 7 ==> SlotOk(slots[i])
    ensures Filled(slots, 7) & USER_KEYS != 0 <==> HasUser(slots)
    ensures Filled(slots, 7) & OWNER_KEY != 0 <==> HasOwner(slots)
  {
    hide Filled;
    FilledHas(slots, 7, USER_KEYS);
    FilledHas(slots, 7, OWNER_KEY);
    KeyBits();
    assert SlotOk(slots[0]) && SlotOk(slots[1]) && SlotOk(slots[2]) && SlotOk(slots[3]);
  }

  lemma KeyBits()
    ensures forall i: nat :: IndexIdentity(i) & USER_KEYS != 0 <==> i < 3
    ensures forall i: nat :: IndexIdentity(i) & OWNER_KEY != 0 <==> i == 3
  {
  }

  /** The rule fails for the union of what memory says is populated and what the image holds. */
  predicate Orphaned(c: Certs, m: Certs)
    requires |c.slots| == 7
  {
    (m.populated & USER_KEYS != 0 || HasUser(c.slots)) && m.populated & OWNER_KEY == 0 && !HasOwner(c.slots)
  }

  lemma RuleIs(c: Certs, m: Certs)
    requires CertsOk(c)
    ensures RuleBroken(m.populated | Filled(c.slots, 7)) <==> Orphaned(c, m)
  {
    FilledKeys(c.slots);
    OrHas(USER_KEYS, m.populated, Filled(c.slots, 7));
    OrHas(OWNER_KEY, m.populated, Filled(c.slots, 7));
  }

  lemma DropChanges(c: Certs)
    requires |c.slots| == 7
    ensures DropUsers(c).slots == c.slots <==> !HasUser(c.slots)
    ensures !HasUser(c.slots) ==> DropUsers(c) == c
  {
    if HasUser(c.slots) {
      var d := DropUsers(c).slots;
      assert d[0] == DropCert(c.slots[0]) && d[1] == DropCert(c.slots[1]) && d[2] == DropCert(c.slots[2]);
    }
  }

  /** When packing and unpacking gives the table back, whatever table was in memory: all slots and both versions
      return if and only if there is no user key, or an owner key in the image or still marked in memory. */
  lemma CertsRoundTrip(c: Certs, m: Certs)
    requires CertsOk(c) && |m.slots| == 7
    ensures var r := LoadCerts(CertImage(c), m);
      && (r.status == LoadOk <==> !Orphaned(c, m))
      && (r.certs.slots == c.slots && r.certs.version == c.version && r.certs.lsv == c.lsv
          <==> !HasUser(c.slots) || HasOwner(c.slots) || m.populated & OWNER_KEY != 0)
  {
    hide LoadCerts, CertImage, Filled, RuleBroken, DropUsers, HasUser, HasOwner, SlotOk;
    LoadImage(c, m);
    RuleIs(c, m);
    DropChanges(c.(populated := m.populated | Filled(c.slots, 7)));
  }

  /** What is left of a table that breaks the rule: no user key, everything else, and no versions if there was one. */
  lemma OrphanLoads(c: Certs, m: Certs)
    requires CertsOk(c) && |m.slots| == 7 && Orphaned(c, m)
    ensures var r := LoadCerts(CertImage(c), m);
      && r.status == NoOwner && |r.certs.slots| == 7 && r.certs.slots[3..] == c.slots[3..]
      && (forall i :: 0 <= i < 3 ==> r.certs.slots[i] == Slot(Nothing, c.slots[i].size))
      && r.certs.version == (if HasUser(c.slots) then 0 else c.version)
      && r.certs.lsv == (if HasUser(c.slots) then 0 else c.lsv)
  {
    hide LoadCerts, CertImage, Filled, RuleBroken, SlotOk;
    LoadImage(c, m);
    RuleIs(c, m);
  }

  /** Images that are refused: without the signature, of an unknown format, or with another number of slots. The table
      keeps its slots. */
  lemma LoadRefuses(b: seq<Byte>, m: Certs)
    requires |m.slots| == 7 && |b| >= 32
    ensures var r := LoadCerts(b, m);
      && (b[..8] != [0x49, 0x50, 0x43, 0x56, 0, 0, 0, 0] ==> r.status == Compromised && r.certs == m)
      && (b[..8] == [0x49, 0x50, 0x43, 0x56, 0, 0, 0, 0] ==>
            && (b[8] != 1 && b[8] != 2 <==> r.status == Incompatible)
            && ((b[8] == 1 && b[9] != 4) || (b[8] == 2 && b[9] != 7) <==> r.status == Unsupported))
      && (r.status == Incompatible || r.status == Unsupported ==> r.certs.slots == m.slots)
  {
    hide WalkSlots;
  }

  /** A table with a user key and no owner does not survive: the key is gone, and its size is left behind. */
  lemma OrphanIsLost() returns (c: Certs, m: Certs)
    ensures CertsOk(c) && |m.slots| == 7 && c.slots[0] == Slot(Just([9]), 1)
    ensures LoadCerts(CertImage(c), m).status == NoOwner
    ensures LoadCerts(CertImage(c), m).certs == DropUsers(c.(populated := m.populated | Filled(c.slots, 7)))
    ensures DropUsers(c.(populated := m.populated | Filled(c.slots, 7))).slots[0] == Slot(Nothing, 1)
  {
    hide LoadCerts, CertImage, Filled, RuleBroken;
    var none := Slot(Nothing, 0);
    c := Certs(3, 2, 0x41, [Slot(Just([9]), 1), none, none, none, none, none, none]);
    m := Certs(0, 0, 0x01, [none, none, none, none, none, none, none]);
    LoadImage(c, m);
    RuleIs(c, m);
  }

  // ---- The first format ----

  /** An image of the first format, which holds four slots and no versions. */
  function FirstImage(slots: seq<Slot>): seq<Byte> {
    SIGNATURE + [1, 4] + Sizes(slots) + Data(slots)
  }

  /** The slots of USER, USER1, USER2 and OWNER come back from the first format, the others stay as they were in
      memory, and both versions are zero, if and only if the image has no user key, or an owner key, or memory still
      has one marked. */
  lemma FirstImageLoads(slots: seq<Slot>, m: Certs)
    requires |slots| == 4 && |m.slots| == 7 && forall i :: 0 <= i < 4 ==> SlotOk(slots[i])
    ensures var r, table := LoadCerts(FirstImage(slots), m), slots + m.slots[4..];
      && (r.status == LoadOk <==> !Orphaned(m.(slots := table), m))
      && (r.certs.slots == table <==> !HasUser(table) || HasOwner(table) || m.populated & OWNER_KEY != 0)
      && r.certs.version == r.certs.lsv == 0
  {
    hide LoadCerts, FirstImage, Filled, RuleBroken, DropUsers, HasUser, HasOwner, SlotOk;
    LoadFirst(slots, m);
    FirstRuleIs(slots, m);
    var d := Certs(0, 0, m.populated | Filled(slots, 4), slots + m.slots[4..]);
    DropChanges(d);
    DropVersions(d);
  }

  lemma LoadFirst(slots: seq<Slot>, m: Certs)
    requires |slots| == 4 && |m.slots| == 7 && forall i :: 0 <= i < 4 ==> SlotOk(slots[i])
    ensures var d := Certs(0, 0, m.populated | Filled(slots, 4), slots + m.slots[4..]);
      LoadCerts(FirstImage(slots), m)
      == if RuleBroken(d.populated) then LoadedCerts(NoOwner, DropUsers(d)) else LoadedCerts(LoadOk, d)
  {
    hide WalkSlots, Filled, Data, Sizes, RuleBroken, DropUsers, SlotOk;
    var b := FirstImage(slots);
    assert b[..8] == SIGNATURE && b[8] == 1 && b[9] == 4 && b[10..18] == Sizes(slots) && b[18..] == Data(slots);
    WalkTable(b, slots, 18, m.(version := 0, lsv := 0));
  }

  lemma FirstKeys(slots: seq<Slot>)
    requires |slots| == 4 && forall i :: 0 <= i < 4 ==> SlotOk(slots[i])
    ensures Filled(slots, 4) & USER_KEYS != 0
       <==> slots[0].cert.Just? || slots[1].cert.Just? || slots[2].cert.Just?
    ensures Filled(slots, 4) & OWNER_KEY != 0 <==> slots[3].cert.Just?
  {
    hide Filled;
    FilledHas(slots, 4, USER_KEYS);
    FilledHas(slots, 4, OWNER_KEY);
    KeyBits();
    assert SlotOk(slots[0]) && SlotOk(slots[1]) && SlotOk(slots[2]) && SlotOk(slots[3]);
  }

  lemma FirstRuleIs(slots: seq<Slot>, m: Certs)
    requires |slots| == 4 && |m.slots| == 7 && forall i :: 0 <= i < 4 ==> SlotOk(slots[i])
    ensures RuleBroken(m.populated | Filled(slots, 4)) <==> Orphaned(m.(slots := slots + m.slots[4..]), m)
  {
    hide Filled, SlotOk;
    FirstKeys(slots);
    OrHas(USER_KEYS, m.populated, Filled(slots, 4));
    OrHas(OWNER_KEY, m.populated, Filled(slots, 4));
  }

  lemma DropVersions(c: Certs)
    requires |c.slots| == 7 && c.version == c.lsv == 0
    ensures DropUsers(c).version == DropUsers(c).lsv == 0
  {
  }

  // ---- Images that are cut ----

  /** One turn of the loop. */
  lemma WalkOne(b: seq<Byte>, n: nat, i: nat, w: Walked, size: nat)
    requires 10 + 2 * n <= |b| && |w.slots| == 7 && n <= 7 && w.p <= |b| && i < n && w.ok && SizeAt(b, i) == size
    ensures size == 0 ==> WalkSlots(b, n, i, w) == WalkSlots(b, n, i + 1, w.(slots := w.slots[i := Slot(Nothing, 0)]))
    ensures size > 0 && w.p + size > |b| ==> !WalkSlots(b, n, i, w).ok
    ensures size > 0 && w.p + size <= |b| ==>
      WalkSlots(b, n, i, w)
      == WalkSlots(b, n, i + 1, Walked(true, w.populated | IndexIdentity(i),
                                       w.slots[i := Slot(Just(b[w.p..w.p + size]), size)], w.p + size))
  {
    hide SizeAt, IndexIdentity;
  }

  lemma CutStep(b: seq<Byte>, slots: seq<Slot>, at: nat, m: Certs, k: nat, i: nat)
    requires Holds(b, slots, at) && |m.slots| == 7 && i < |slots| && at + |Data(slots[..i])| <= k <= |b|
    ensures var w := WalkSlots(b[..k], |slots|, i, Middle(slots, at, m, i));
      if at + |Data(slots[..i + 1])| <= k
      then w == WalkSlots(b[..k], |slots|, i + 1, Middle(slots, at, m, i + 1))
      else !w.ok
  {
    hide Data, Sizes, SizeAt, IndexIdentity, SlotOk, Filled, WalkSlots;
    SlotRead(b, slots, at, i);
    SizeSame(b, k, i);
    var p, slot := at + |Data(slots[..i])|, slots[i];
    WalkOne(b[..k], |slots|, i, Middle(slots, at, m, i), slot.size);
    FilledNext(slots, i, m.populated);
    assert (slots[..i] + m.slots[i..])[i := slot] == slots[..i + 1] + m.slots[i + 1..];
    if p + slot.size <= k && slot.size > 0 {
      assert b[..k][p..p + slot.size] == b[p..p + slot.size];
    }
  }

  /** The loop fails at some slot if the certificates do not fit. */
  lemma {:induction false} WalkCut(b: seq<Byte>, slots: seq<Slot>, at: nat, m: Certs, k: nat, i: nat)
    requires Holds(b, slots, at) && |m.slots| == 7 && i <= |slots| && at + |Data(slots[..i])| <= k < |b|
    ensures !WalkSlots(b[..k], |slots|, i, Middle(slots, at, m, i)).ok
    decreases |slots| - i
  {
    hide Data, Sizes, WalkSlots, Middle, SlotOk;
    assert slots[..|slots|] == slots;
    CutStep(b, slots, at, m, k, i);
    if at + |Data(slots[..i + 1])| <= k {
      WalkCut(b, slots, at, m, k, i + 1);
    }
  }

  lemma SizeSame(b: seq<Byte>, k: nat, i: nat)
    requires 12 + 2 * i <= k <= |b|
    ensures SizeAt(b[..k], i) == SizeAt(b, i)
  {
    assert b[..k][10 + 2 * i..12 + 2 * i] == b[10 + 2 * i..12 + 2 * i];
  }

  lemma FilledNext(slots: seq<Slot>, i: nat, mask: Mask)
    requires i < |slots|
    ensures mask | Filled(slots, i + 1)
         == if slots[i].size > 0 then (mask | Filled(slots, i)) | IndexIdentity(i) else mask | Filled(slots, i)
  {
    hide IndexIdentity;
    MaskOr(mask, Filled(slots, i), IndexIdentity(i));
    MaskOr(Filled(slots, i), 0, 0);
  }

  /** An image that lacks its end, by however little, is refused. */
  lemma CutImageRefused(c: Certs, m: Certs, k: nat)
    requires CertsOk(c) && |m.slots| == 7 && k < |CertImage(c)|
    ensures LoadCerts(CertImage(c)[..k], m).status == Compromised
  {
    hide WalkSlots, CertImage, Data, Sizes, SlotOk, Filled, Dword, DwordValue;
    ImageFields(c);
    var b := CertImage(c);
    if k >= 32 {
      var z := m.(version := DwordValue(b[..k][24..28]), lsv := DwordValue(b[..k][28..32]));
      assert b[..k][..8] == b[..8];
      NothingBefore(c.slots);
      MaskOr(m.populated, 0, 0);
      assert c.slots[..0] + m.slots[0..] == m.slots;
      WalkCut(b, c.slots, 32, z, k, 0);
    } else if k >= 18 {
      assert b[..k][..8] == b[..8];
    }
  }
}
