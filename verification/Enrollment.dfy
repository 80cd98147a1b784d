/** What an enrollment leaves behind: the required permission entries, and the certificates that a later boot
    loads. */
module Enrollment {
  import opened Wrappers
  import opened Bits
  import opened Permissions
  import opened PermissionStore
  import opened PermissionImage
  import opened PermissionFlash
  import opened Certificates
  import opened Mailbox

  // ---- Required entries ----

  lemma RequireSets(es: seq<Entry>, id: Id, pmask: Mask, dmask: Mask)
    requires NoMarks(es) && PlainId(id)
    ensures Lookup(Require(es, id, pmask, dmask), id) == Just(Entry(id, pmask, dmask, false))
  {
    var r := Require(es, id, pmask, dmask);
    FindFromFirst(es, id, 0);
    var k := Find(es, id);
    FindFromIs(r, id, 0, if k >= 0 then k else |es|);
  }

  lemma RequireLeaves(es: seq<Entry>, id: Id, pmask: Mask, dmask: Mask, other: Id)
    requires other != id
    ensures Lookup(Require(es, id, pmask, dmask), other) == Lookup(es, other)
  {
    hide IsNumber;
    var r := Require(es, id, pmask, dmask);
    FindFromFirst(es, id, 0);
    FindFromFirst(es, other, 0);
    var k := FindFrom(es, other, 0);
    if k >= 0 {
      FindFromIs(r, other, 0, k);
    } else {
      FindFromNone(r, other, 0);
    }
  }

  /** A required entry has the given masks, and no other id notices. */
  lemma RequireExactly(es: seq<Entry>, id: Id, pmask: Mask, dmask: Mask, other: Id)
    requires NoMarks(es) && PlainId(other)
    ensures NoMarks(Require(es, id, pmask, dmask))
    ensures Lookup(Require(es, id, pmask, dmask), other)
         == if other == id then Just(Entry(id, pmask, dmask, false)) else Lookup(es, other)
  {
    if other == id {
      RequireSets(es, id, pmask, dmask);
    } else {
      RequireLeaves(es, id, pmask, dmask, other);
    }
  }

  lemma RequireUnique(es: seq<Entry>, id: Id, pmask: Mask, dmask: Mask)
    requires UniqueIds(es)
    ensures UniqueIds(Require(es, id, pmask, dmask))
  {
    hide IsNumber;
    FindFromFirst(es, id, 0);
  }

  // ---- Removed entries ----

  lemma RemoveOne(es: seq<Entry>, k: nat, id: Id)
    requires k < |es| && es[k].id != id
    ensures Lookup(es[..k] + es[k + 1..], id) == Lookup(es, id)
  {
    var r := es[..k] + es[k + 1..];
    FindFromFirst(es, id, 0);
    var j := FindFrom(es, id, 0);
    if j >= 0 {
      FindFromIs(r, id, 0, if j < k then j else j - 1);
    } else {
      FindFromNone(r, id, 0);
    }
  }

  lemma RemoveOnly(es: seq<Entry>, k: nat, id: Id)
    requires k < |es| && es[k].id == id && UniqueIds(es)
    ensures Lookup(es[..k] + es[k + 1..], id) == Nothing && UniqueIds(es[..k] + es[k + 1..])
  {
    FindFromNone(es[..k] + es[k + 1..], id, 0);
  }

  /** What is not on the list stays. */
  lemma {:induction false} RemoveLeaves(es: seq<Entry>, ids: seq<Id>, id: Id)
    requires id !in ids
    ensures Lookup(RemoveAll(es, ids).1, id) == Lookup(es, id)
    decreases |ids|
  {
    hide Lookup;
    if ids != [] && Find(es, ids[0]) >= 0 {
      var k := Find(es, ids[0]);
      FindFromFirst(es, ids[0], 0);
      RemoveOne(es, k, id);
      RemoveLeaves(es[..k] + es[k + 1..], ids[1..], id);
    }
  }

  /** All ids of the list differ. */
  ghost predicate Differ(ids: seq<Id>) {
    forall i, j :: 0 <= i < j < |ids| ==> ids[i] != ids[j]
  }

  /** All ids of the list have entries. */
  ghost predicate AllThere(es: seq<Entry>, ids: seq<Id>) {
    forall i :: 0 <= i < |ids| ==> Lookup(es, ids[i]).Just?
  }

  ghost predicate AllGone(es: seq<Entry>, ids: seq<Id>) {
    forall i :: 0 <= i < |ids| ==> Lookup(es, ids[i]) == Nothing
  }

  /** A list is worked through if and only if all its ids differ and have entries; then none of them has one. */
  lemma {:induction false} RemoveExactly(es: seq<Entry>, ids: seq<Id>)
    requires UniqueIds(es)
    ensures RemoveAll(es, ids).0 <==> Differ(ids) && AllThere(es, ids)
    ensures RemoveAll(es, ids).0 ==> AllGone(RemoveAll(es, ids).1, ids)
    decreases |ids|
  {
    hide UniqueIds, Lookup, Differ, AllThere, AllGone;
    if ids == [] {
      NoIds(es);
    } else {
      var k := Find(es, ids[0]);
      FindFromFirst(es, ids[0], 0);
      FirstThere(es, ids);
      if k >= 0 {
        var rest := es[..k] + es[k + 1..];
        RemoveOnly(es, k, ids[0]);
        RemoveExactly(rest, ids[1..]);
        RestOfList(es, k, ids);
        if ids[0] !in ids[1..] {
          RemoveLeaves(rest, ids[1..], ids[0]);
          GoneFirst(RemoveAll(rest, ids[1..]).1, ids);
        }
      }
    }
  }

  lemma NoIds(es: seq<Entry>)
    ensures Differ([]) && AllThere(es, []) && AllGone(es, [])
  {
  }

  lemma FirstThere(es: seq<Entry>, ids: seq<Id>)
    requires ids != []
    ensures Lookup(es, ids[0]).Just? <==> Find(es, ids[0]) >= 0
    ensures AllThere(es, ids) ==> Lookup(es, ids[0]).Just?
  {
  }

  lemma GoneFirst(es: seq<Entry>, ids: seq<Id>)
    requires ids != [] && Lookup(es, ids[0]) == Nothing
    ensures AllGone(es, ids[1..]) ==> AllGone(es, ids)
  {
    hide Lookup;
    if AllGone(es, ids[1..]) {
      assert forall i :: 1 <= i < |ids| ==> ids[i] == ids[1..][i - 1];
    }
  }

  lemma DifferFirst(ids: seq<Id>)
    requires ids != []
    ensures Differ(ids) <==> Differ(ids[1..]) && ids[0] !in ids[1..]
  {
    assert forall i :: 1 <= i < |ids| ==> ids[i] == ids[1..][i - 1];
    if Differ(ids[1..]) && ids[0] !in ids[1..] {
      forall i, j | 0 <= i < j < |ids|
        ensures ids[i] != ids[j]
      {
        assert ids[j] == ids[1..][j - 1];
      }
    }
  }

  /** The other ids of the list are found in the rest as before. */
  lemma RestOfList(es: seq<Entry>, k: nat, ids: seq<Id>)
    requires ids != [] && k < |es| && es[k].id == ids[0] && UniqueIds(es) && Lookup(es, ids[0]).Just?
    ensures var rest := es[..k] + es[k + 1..];
      Differ(ids) && AllThere(es, ids) <==> Differ(ids[1..]) && AllThere(rest, ids[1..])
    ensures Differ(ids[1..]) && AllThere(es[..k] + es[k + 1..], ids[1..]) ==> ids[0] !in ids[1..]
  {
    hide Lookup, UniqueIds, Differ;
    DifferFirst(ids);
    var rest := es[..k] + es[k + 1..];
    forall i | 1 <= i < |ids|
      ensures Lookup(rest, ids[i]) == if ids[i] == ids[0] then Nothing else Lookup(es, ids[i])
      ensures ids[i] == ids[1..][i - 1]
    {
      if ids[i] == ids[0] {
        RemoveOnly(es, k, ids[0]);
      } else {
        RemoveOne(es, k, ids[i]);
      }
    }
    if AllThere(rest, ids[1..]) {
      assert forall i :: 1 <= i < |ids| ==> ids[i] != ids[0] by {
        forall i | 1 <= i < |ids|
          ensures ids[i] != ids[0]
        {
          assert Lookup(rest, ids[1..][i - 1]).Just?;
        }
      }
    }
  }

  // ---- What an enrollment does to the permissions ----

  /** The first owner, on a platform with a list of unsigned settings. */
  predicate Unsigns(n: Names, cert: Mask, first: bool) {
    cert == 0x80 && first && n.unsigned.Listed?
  }

  /** The three entries for a ZTD signer. */
  lemma ZtdExactly(n: Names, es: seq<Entry>, id: Id)
    requires NoMarks(es) && PlainId(id)
    ensures NoMarks(ZtdEntries(n, es))
    ensures Lookup(ZtdEntries(n, es), id)
         == if id == n.dfciRecovery then Just(Entry(id, 0, 0, false))
            else if id == n.ztdRecovery || id == n.ztdUnenroll then Just(Entry(id, 0x08, 0, false))
            else Lookup(es, id)
  {
    hide Require, Lookup, NoMarks, PlainId;
    RequireExactly(es, n.ztdRecovery, 0x08, 0, id);
    var es1 := Require(es, n.ztdRecovery, 0x08, 0);
    RequireExactly(es1, n.ztdUnenroll, 0x08, 0, id);
    RequireExactly(Require(es1, n.ztdUnenroll, 0x08, 0), n.dfciRecovery, 0, 0, id);
  }

  /** The entry of an owner enrollment, and what it does not touch. */
  lemma OwnerExactly(n: Names, s: Store, cert: Mask, first: bool, id: Id)
    requires Added(s.entries) && PlainId(id)
    ensures var t := OwnerChange(n, s, cert, first).1;
      && Added(t.entries) && t.version == s.version && t.lsv == s.lsv && t.dmask == s.dmask
      && t.pmask == (if Unsigns(n, cert, first) && !n.unsigned.allows then 0x03 else s.pmask)
      && (!(Unsigns(n, cert, first) && id in n.unsigned.ids) ==>
            Lookup(t.entries, id)
            == if cert == 0x80 && id == n.ztdKey then Just(Entry(id, 0, 0, false)) else Lookup(s.entries, id))
  {
    hide Require, RemoveAll, Lookup, AddRequired, Added, PlainId;
    OwnerChangeAdded(n, s, cert, first);
    AddedUnmarked(s.entries);
    RequireExactly(s.entries, n.ztdKey, 0, 0, id);
    if Unsigns(n, cert, first) && id !in n.unsigned.ids {
      RemoveLeaves(Require(s.entries, n.ztdKey, 0, 0), n.unsigned.ids, id);
    }
  }

  lemma AddedUnmarked(es: seq<Entry>)
    requires Added(es)
    ensures NoMarks(es)
  {
  }

  /** What an enrollment leaves for every id, except for the unsigned ones when the first owner comes: an owner gets
      the ZTD key without permissions; a ZTD signer gets its recovery and unenroll entries, permitted to ZTD alone, and
      a recovery entry without permissions; all of them cannot be delegated. Everything else stays, but for the
      default permission that a forbidding list resets. */
  lemma EnrollExactly(n: Names, s: Store, signer: Mask, cert: Mask, first: bool, id: Id)
    requires Added(s.entries) && PlainId(id)
    ensures var t := IdentityChange(n, s, signer, cert, first).1;
      && t.version == s.version && t.lsv == s.lsv && t.dmask == s.dmask
      && t.pmask == (if Unsigns(n, cert, first) && !n.unsigned.allows then 0x03 else s.pmask)
      && (signer == 0x08 && id == n.dfciRecovery ==> Lookup(t.entries, id) == Just(Entry(id, 0, 0, false)))
      && (signer == 0x08 && (id == n.ztdRecovery || id == n.ztdUnenroll) && id != n.dfciRecovery ==>
            Lookup(t.entries, id) == Just(Entry(id, 0x08, 0, false)))
      && (!(signer == 0x08 && id in {n.dfciRecovery, n.ztdRecovery, n.ztdUnenroll})
          && !(Unsigns(n, cert, first) && id in n.unsigned.ids) ==>
            Lookup(t.entries, id)
            == if cert == 0x80 && id == n.ztdKey then Just(Entry(id, 0, 0, false)) else Lookup(s.entries, id))
  {
    hide OwnerChange, ZtdEntries, Lookup, Added, PlainId, NoMarks, Unsigns;
    OwnerExactly(n, s, cert, first, id);
    var r := OwnerChange(n, s, cert, first).1;
    AddedUnmarked(r.entries);
    ZtdExactly(n, r.entries, id);
  }

  lemma EnrollHead(n: Names, s: Store, signer: Mask, cert: Mask, first: bool)
    ensures IdentityChange(n, s, signer, cert, first).1.dmask == s.dmask
  {
    hide Require, RemoveAll, AddRequired, ZtdEntries;
  }

  /** When the first owner comes, the unsigned entries go, if the list names entries that are there, each once. */
  lemma UnsignedRemoved(n: Names, s: Store, signer: Mask, id: Id)
    requires Added(s.entries) && UniqueIds(s.entries) && PlainId(id) && PlainId(n.ztdKey)
    requires n.unsigned.Listed? && id in n.unsigned.ids
    requires signer == 0x08 ==> id !in {n.dfciRecovery, n.ztdRecovery, n.ztdUnenroll}
    requires forall i, j :: 0 <= i < j < |n.unsigned.ids| ==> n.unsigned.ids[i] != n.unsigned.ids[j]
    requires forall x :: x in n.unsigned.ids ==> x == n.ztdKey || Lookup(s.entries, x).Just?
    ensures Lookup(IdentityChange(n, s, signer, 0x80, true).1.entries, id) == Nothing
  {
    hide Require, RemoveAll, Lookup, AddRequired, Added, PlainId, NoMarks, UniqueIds, ZtdEntries;
    AddedUnmarked(s.entries);
    var es := Require(s.entries, n.ztdKey, 0, 0);
    RequireUnique(s.entries, n.ztdKey, 0, 0);
    forall i | 0 <= i < |n.unsigned.ids|
      ensures Lookup(es, n.unsigned.ids[i]).Just?
    {
      if n.unsigned.ids[i] == n.ztdKey {
        RequireSets(s.entries, n.ztdKey, 0, 0);
      } else {
        RequireLeaves(s.entries, n.ztdKey, 0, 0, n.unsigned.ids[i]);
      }
    }
    RemoveExactly(es, n.unsigned.ids);
    OwnerChangeAdded(n, s, 0x80, true);
    var r := OwnerChange(n, s, 0x80, true).1;
    AddedUnmarked(r.entries);
    ZtdExactly(n, r.entries, id);
  }

  /** An enrollment succeeds if and only if the signer is ZTD, or it does not bring the first owner, or there is no
      list of unsigned settings, or the list can be read to its end and names entries that are there, each once. */
  lemma ChangeSucceeds(n: Names, s: Store, signer: Mask, cert: Mask, first: bool)
    requires Added(s.entries) && UniqueIds(s.entries) && PlainId(n.ztdKey)
    ensures IdentityChange(n, s, signer, cert, first).0 <==>
      || signer == 0x08 || cert != 0x80 || !first || n.unsigned.Unsupported?
      || (&& n.unsigned.Listed? && n.unsigned.complete
          && (forall i, j :: 0 <= i < j < |n.unsigned.ids| ==> n.unsigned.ids[i] != n.unsigned.ids[j])
          && (forall i :: 0 <= i < |n.unsigned.ids| ==>
                n.unsigned.ids[i] == n.ztdKey || Lookup(s.entries, n.unsigned.ids[i]).Just?))
  {
    hide Require, RemoveAll, Lookup, Added, NoMarks, UniqueIds, ZtdEntries;
    if n.unsigned.Listed? {
      AddedUnmarked(s.entries);
      var es := Require(s.entries, n.ztdKey, 0, 0);
      RequireUnique(s.entries, n.ztdKey, 0, 0);
      RequireSets(s.entries, n.ztdKey, 0, 0);
      forall i | 0 <= i < |n.unsigned.ids| && n.unsigned.ids[i] != n.ztdKey
        ensures Lookup(es, n.unsigned.ids[i]) == Lookup(s.entries, n.unsigned.ids[i])
      {
        RequireLeaves(s.entries, n.ztdKey, 0, 0, n.unsigned.ids[i]);
      }
      RemoveExactly(es, n.unsigned.ids);
    }
  }

  // ---- Certificates ----

  /** The identities of the slots: USER, USER1, USER2, OWNER and ZTD. */
  const SLOT_IDENTITIES: seq<Mask> := [0x40, 0x20, 0x10, 0x80, 0x08]

  /** Every identity that can be enrolled has the slot that says so, and only that one. */
  lemma IndexExactly(id: Mask, i: nat)
    ensures IdentityIndex(id) == Just(i) <==> id != 0 && IndexIdentity(i) == id
    ensures IdentityIndex(id) == Just(i) <==> i < 5 && SLOT_IDENTITIES[i] == id
  {
  }

  /** The packet brings a certificate for the identity of slot `i`. */
  predicate Brings(p: Option<IdPacket>, i: nat) {
    p.Just? && p.value.payload != [] && IndexIdentity(i) != 0 && p.value.identity == IndexIdentity(i)
  }

  /** The certificate of the last packet that brings one, or the old one. */
  function SlotAfter(slots: seq<Slot>, b: Boxes, i: nat): Slot
    requires i < |slots|
  {
    if Brings(b.id2, i) then Slot(Just(b.id2.value.payload), |b.id2.value.payload|)
    else if Brings(b.id1, i) then Slot(Just(b.id1.value.payload), |b.id1.value.payload|)
    else slots[i]
  }

  lemma IdentitySlot(n: Names, s: State, p: Option<IdPacket>, g: Progress, ui: bool, i: nat)
    requires |s.certs.slots| == 7 && i < 7 && ProcessIdentity(n, s, p, g, ui).verdict.Succeeds?
    ensures var c := ProcessIdentity(n, s, p, g, ui).state.certs;
      && |c.slots| == 7 && c.version == s.certs.version && c.lsv == s.certs.lsv
      && c.slots[i] == if Brings(p, i) then Slot(Just(p.value.payload), |p.value.payload|) else s.certs.slots[i]
  {
    hide IdentityChange;
    if p.Just? {
      IndexExactly(p.value.identity, i);
    }
  }

  lemma PairSlot(n: Names, s: State, id: Option<IdPacket>, perm: Option<PermPacket>, g: Progress, h: Progress,
                 now: seq<Byte>, ui: bool, i: nat)
    requires |s.certs.slots| == 7 && i < 7 && ProcessPair(n, s, id, perm, g, h, now, ui).verdict.Succeeds?
    ensures var c := ProcessPair(n, s, id, perm, g, h, now, ui).state.certs;
      && |c.slots| == 7 && c.version == s.certs.version && c.lsv == s.certs.lsv
      && c.slots[i] == if Brings(id, i) then Slot(Just(id.value.payload), |id.value.payload|) else s.certs.slots[i]
  {
    hide ProcessIdentity, Apply, Load, Brings;
    IdentitySlot(n, s, id, g, ui, i);
  }

  lemma ProcessSlot(n: Names, s: State, f: Flags, b: Boxes, k: Clock, ui: bool, i: nat)
    requires |s.certs.slots| == 7 && i < 7 && Process(n, s, f, b, k, ui).verdict.Succeeds?
    ensures var c := Process(n, s, f, b, k, ui).state.certs;
      && |c.slots| == 7 && c.version == s.certs.version && c.lsv == s.certs.lsv
      && c.slots[i] == SlotAfter(s.certs.slots, b, i)
  {
    hide ProcessPair, Brings;
    PairSlot(n, s, b.id1, b.perm1, f.id1, f.perm1, k.load1, ui, i);
    var r := ProcessPair(n, s, b.id1, b.perm1, f.id1, f.perm1, k.load1, ui);
    PairSlot(n, r.state, b.id2, b.perm2, f.id2, f.perm2, k.load2, ui, i);
  }

  /** The size of a certificate that a packet brings fits its field in the image. */
  predicate SmallCert(p: Option<IdPacket>) {
    p.Just? ==> |p.value.payload| < 0x1_0000
  }

  /** Over a whole run in which all packets succeed and at least one enrolls: what a later boot loads from the
      variable, into any table `m`, are in every slot the certificate of the last packet for its identity, the old
      ones in all other slots, and both versions. This holds if and only if the new table has no user key, or an owner
      key, or `m` still has one marked. */
  lemma EnrolledLoads(n: Names, s: State, f: Flags, b: Boxes, k: Clock, ui: bool, m: Certs)
    requires Sound(s) && FlagsFit(f, b) && ClockOk(k) && CertsOk(s.certs) && |m.slots| == 7
    requires Process(n, s, f, b, k, ui).verdict.Succeeds? && (Enrolls(b.id1) || Enrolls(b.id2))
    requires SmallCert(b.id1) && SmallCert(b.id2)
    ensures var slots := seq(7, i requires 0 <= i < 7 => SlotAfter(s.certs.slots, b, i));
      var r := LoadVariable(Run(n, s, f, b, k, ui).state.certNv, m).certs;
      r.slots == slots && r.version == s.certs.version && r.lsv == s.certs.lsv
      <==> !HasUser(slots) || HasOwner(slots) || m.populated & OWNER_KEY != 0
  {
    hide Process, LoadCerts, CertImage, Run, SlotAfter, SlotOk, HasUser, HasOwner, Enrolls, Sound;
    var c := Process(n, s, f, b, k, ui).state.certs;
    ProcessSlot(n, s, f, b, k, ui, 0);
    forall i | 0 <= i < 7
      ensures c.slots[i] == SlotAfter(s.certs.slots, b, i) && SlotOk(c.slots[i])
    {
      ProcessSlot(n, s, f, b, k, ui, i);
      SlotAfterOk(s.certs.slots, b, i);
    }
    assert c.slots == seq(7, i requires 0 <= i < 7 => SlotAfter(s.certs.slots, b, i));
    RunCerts(n, s, f, b, k, ui);
    CertsRoundTrip(c, m);
  }

  lemma SlotAfterOk(slots: seq<Slot>, b: Boxes, i: nat)
    requires i < |slots| && SlotOk(slots[i]) && SmallCert(b.id1) && SmallCert(b.id2)
    ensures SlotOk(SlotAfter(slots, b, i))
  {
  }
}
