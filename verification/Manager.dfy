/** `ProcessMailBoxes`: the order in which packets are processed and completed. */
module Manager {
  import opened Wrappers
  import opened Bits
  import opened Permissions
  import opened PermissionStore
  import opened PermissionImage
  import opened PermissionFlash
  import opened Certificates
  import CertStore
  import opened Mailbox

  class DfciManager {
    const names: Names
    const certs: CertStore.Store
    const flash: Flash
    var perms: PermStore       // mPermStore
    var flags: Flags           // State and LKGDirty of the four packets

    ghost function View(): State
      reads this, certs, flash, perms
    {
      State(certs.Value(), perms.Value(), perms.modified, certs.nv, flash.nv)
    }

    constructor (n: Names, c: CertStore.Store, p: PermStore, f: Flash)
      ensures names == n && certs == c && perms == p && flash == f && flags == START
    {
      names, certs, perms, flash, flags := n, c, p, f, START;
    }

    /** The loop over the ids of the unsigned list. */
    method RemoveEntries(ids: seq<Id>) returns (ok: bool)
      modifies perms`entries
      ensures var r := RemoveAll(old(perms.entries), ids); ok == r.0 && perms.entries == r.1
    {
      var i := 0;
      assert ids[0..] == ids;
      while i < |ids|
        invariant 0 <= i <= |ids|
        invariant RemoveAll(perms.entries, ids[i..]) == RemoveAll(old(perms.entries), ids)
      {
        assert ids[i..][1..] == ids[i + 1..];
        ok := perms.DeleteEntry(ids[i]);
        if !ok {
          return;
        }
        i := i + 1;
      }
      ok := true;
    }

    /** `RemoveUnsignedPermissionEntries`. */
    method RemoveUnsignedEntries() returns (ok: bool)
      modifies perms`entries, perms`defaultPMask
      ensures var r := RemoveUnsigned(names.unsigned, old(perms.Value())); ok == r.0 && perms.Value() == r.1
    {
      hide RemoveAll;
      match names.unsigned {
        case Unsupported => ok := true;
        case Unreadable => ok := false;
        case Listed(allows, ids, complete) =>
          if !allows {
            perms.defaultPMask := 0x03;
          }
          ok := RemoveEntries(ids);
          ok := ok && complete;
      }
    }

    /** `IdentityChange` for an enrollment. */
    method ChangeIdentity(signer: Mask, cert: Mask, first: bool) returns (ok: bool)
      modifies perms`entries, perms`defaultPMask
      ensures var r := IdentityChange(names, old(perms.Value()), signer, cert, first); ok == r.0 && perms.Value() == r.1
    {
      hide AddRequired, RemoveUnsigned;
      ok := true;
      if cert == 0x80 {
        ok := perms.AddRequiredEntry(names.ztdKey, 0, 0);
        if first {
          ok := RemoveUnsignedEntries();
        }
      }
      if signer == 0x08 {
        var added := perms.AddRequiredEntry(names.ztdRecovery, 0x08, 0);
        added := perms.AddRequiredEntry(names.ztdUnenroll, 0x08, 0);
        added := perms.AddRequiredEntry(names.dfciRecovery, 0, 0);
        ok := true;
      }
    }

    /** `ApplyProvisionData`. */
    method SetCert(identity: Mask, payload: seq<Byte>, index: nat)
      requires index < |certs.slots|
      modifies certs`slots, certs`populated
      ensures certs.Value() == WithCert(old(certs.Value()), identity, payload, index)
    {
      certs.slots := certs.slots[index := Slot(Just(payload), |payload|)];
      certs.populated := certs.populated | identity;
    }

    /** The new certificate, and the notification of the permission store. */
    method Enroll(p: IdPacket, index: nat) returns (verdict: Verdict)
      requires index < |certs.slots|
      modifies certs`slots, certs`populated, perms`entries, perms`defaultPMask
      ensures Outcome(verdict, View(), APPLIED) == ApplyIdentity(names, old(View()), p, index)
    {
      hide IdentityChange, FirstOwner, WithCert;
      var first := FirstOwner(certs.populated, p.identity);
      SetCert(p.identity, p.payload, index);
      var ok := ChangeIdentity(p.signer, p.identity, first);
      verdict := if ok then Succeeds else Fails;
    }

    /** `ProcessPacket` for an identity mailbox. */
    method ProcessIdentityPacket(p: Option<IdPacket>, g: Progress, ui: bool)
      returns (verdict: Verdict, progress: Progress)
      requires |certs.slots| == 7
      modifies certs`slots, certs`populated, perms`entries, perms`defaultPMask
      ensures Outcome(verdict, View(), progress) == ProcessIdentity(names, old(View()), p, g, ui)
    {
      hide ApplyIdentity;
      progress := g;
      if p.Nothing? {
        return Succeeds, g;
      }
      if !p.value.decodes {
        return Fails, g;
      }
      if p.value.payload == [] {
        return Succeeds, g;
      }
      if !g.present || !p.value.authentic {
        return Fails, g.(present := false);
      }
      if p.value.asks && !ui {
        return Waits, g;
      }
      var index := IdentityIndex(p.value.identity);
      if (p.value.asks && !p.value.approved) || index.Nothing? {
        return Fails, g.(present := false);
      }
      verdict := Enroll(p.value, index.value);
      progress := APPLIED;
    }

    /** The store is loaded again from its variable. */
    method ReloadPermissions(now: seq<Byte>)
      requires |now| == 16
      modifies this`perms, flash
      ensures View() == Reload(old(View()), now) && (perms == old(perms) || fresh(perms))
    {
      hide Load;
      var store := flash.LoadFromFlash(now);
      if store != null {
        perms := store;
      } else {
        FailedLoad(old(flash.nv), now);
      }
    }

    /** `ProcessPacket` for a permission mailbox. */
    method ProcessPermissionsPacket(p: Option<PermPacket>, g: Progress, now: seq<Byte>)
      returns (verdict: Verdict, progress: Progress)
      requires |now| == 16 && Sound(View())
      modifies this`perms, perms, flash
      ensures Outcome(verdict, View(), progress) == ProcessPermissions(old(View()), p, g, now)
      ensures perms == old(perms) || fresh(perms)
    {
      hide Apply, Load;
      if p.Nothing? {
        return Succeeds, g;
      }
      if !p.value.decodes {
        return Fails, g;
      }
      if !g.present || !p.value.authentic {
        return Fails, g.(present := false);
      }
      var ok := perms.ApplyPacket(p.value.signer, p.value.packet, p.value.v1Mode);
      if !ok {
        ghost var mid := View();
        LoadsAnyway(old(View()), mid, now);
        ReloadPermissions(now);
        return Fails, g.(present := false);
      }
      perms.modified := true;
      return Succeeds, APPLIED;
    }

    /** `CompletePacket` for a permission mailbox. */
    method CompletePermissionsPacket(dirty: bool, commit: bool, t: Times)
      requires TimesOk(t) && ShortIds(perms.entries)
      modifies this`perms, perms`modified, flash
      ensures View() == CompletePermissions(old(View()), dirty, commit, t)
      ensures perms == old(perms) || fresh(perms)
    {
      hide Save, Load;
      if dirty {
        if commit {
          FailedSave(flash.nv, perms.Value(), perms.modified, t.created, t.now);
          var ok := flash.SaveToFlash(perms, t.created, t.now);
          if !ok {
            ReloadPermissions(t.again);
          }
        } else {
          ReloadPermissions(t.again);
        }
      }
    }

    /** `CompletePacket` for an identity mailbox. */
    method CompleteIdentityPacket(dirty: bool, commit: bool)
      requires CertsWhole(certs.Value())
      modifies certs
      ensures View() == CompleteIdentity(old(View()), dirty, commit)
    {
      hide LoadVariable, CertImage;
      if dirty {
        if commit {
          certs.Save();
        } else {
          var status := certs.Load();
        }
      }
    }

    /** An identity packet and the permission packet behind it. */
    method ProcessPairPackets(id: Option<IdPacket>, perm: Option<PermPacket>, g: Progress, h: Progress, now: seq<Byte>,
                              ui: bool)
      returns (verdict: Verdict, idProgress: Progress, permProgress: Progress)
      requires |now| == 16 && Sound(View()) && Fit(g, Enrolls(id))
      modifies this`perms, perms, flash, certs
      ensures Pair(verdict, View(), idProgress, permProgress)
           == ProcessPair(names, old(View()), id, perm, g, h, now, ui)
      ensures perms == old(perms) || fresh(perms)
    {
      hide ProcessIdentity, ProcessPermissions, Parse, SlotWhole, Storable, Enrolls;
      IdentityKeeps(names, View(), id, g, ui);
      permProgress := h;
      verdict, idProgress := ProcessIdentityPacket(id, g, ui);
      if verdict.Succeeds? {
        verdict, permProgress := ProcessPermissionsPacket(perm, h, now);
      }
    }

    /** The first two packets. */
    method ProcessFirst(b: Boxes, k: Clock, ui: bool) returns (verdict: Verdict)
      requires ClockOk(k) && Sound(View()) && FlagsFit(flags, b)
      modifies this`perms, this`flags, perms, flash, certs
      ensures var r := ProcessPair(names, old(View()), b.id1, b.perm1, old(flags.id1), old(flags.perm1), k.load1, ui);
        && verdict == r.verdict && View() == r.state
        && flags == old(flags).(id1 := r.id, perm1 := r.perm)
      ensures perms == old(perms) || fresh(perms)
    {
      hide ProcessPair, Sound, Enrolls;
      var id, perm;
      verdict, id, perm := ProcessPairPackets(b.id1, b.perm1, flags.id1, flags.perm1, k.load1, ui);
      flags := flags.(id1 := id, perm1 := perm);
    }

    /** The other two. */
    method ProcessSecond(b: Boxes, k: Clock, ui: bool) returns (verdict: Verdict)
      requires ClockOk(k) && Sound(View()) && FlagsFit(flags, b)
      modifies this`perms, this`flags, perms, flash, certs
      ensures var r := ProcessPair(names, old(View()), b.id2, b.perm2, old(flags.id2), old(flags.perm2), k.load2, ui);
        && verdict == r.verdict && View() == r.state
        && flags == old(flags).(id2 := r.id, perm2 := r.perm)
      ensures perms == old(perms) || fresh(perms)
    {
      hide ProcessPair, Sound, Enrolls;
      var id, perm;
      verdict, id, perm := ProcessPairPackets(b.id2, b.perm2, flags.id2, flags.perm2, k.load2, ui);
      flags := flags.(id2 := id, perm2 := perm);
    }

    /** The four packets, up to the first that does not succeed. */
    method ProcessPackets(b: Boxes, k: Clock, ui: bool) returns (verdict: Verdict)
      requires ClockOk(k) && Sound(View()) && FlagsFit(flags, b)
      modifies this`perms, this`flags, perms, flash, certs
      ensures Processed(verdict, View(), flags) == Process(names, old(View()), old(flags), b, k, ui)
      ensures perms == old(perms) || fresh(perms)
    {
      hide ProcessPair, Sound, Enrolls;
      PairKeeps(names, View(), b.id1, b.perm1, flags.id1, flags.perm1, k.load1, ui);
      verdict := ProcessFirst(b, k, ui);
      if verdict.Succeeds? {
        verdict := ProcessSecond(b, k, ui);
      }
    }

    /** The completion of the permission packets. */
    method CompletePermissionPackets(commit: bool, k: Clock, ghost r: Processed)
      requires ClockOk(k) && Sound(View()) && r.state == View() && r.flags == flags && r.verdict.Succeeds? == commit
      modifies this`perms, perms, flash
      ensures View() == CompleteBothPermissions(r, k)
    {
      hide CompletePermissions, Parse, SlotWhole;
      CompleteSound(View(), flags.perm2.dirty, commit, k.done2);
      CompletePermissionsPacket(flags.perm2.dirty, commit, k.done2);
      CompletePermissionsPacket(flags.perm1.dirty, commit, k.done1);
    }

    /** The completion of the identity packets; one that unenrolls has left nothing to complete. */
    method CompleteIdentityPackets(commit: bool, ghost r: Processed)
      requires Sound(View()) && r.flags == flags && r.verdict.Succeeds? == commit
      modifies certs
      ensures View() == CompleteBothIdentities(old(View()), r)
    {
      hide CompleteIdentity, Parse, SlotWhole;
      IdentityWhole(View(), flags.id1.dirty, commit);
      CompleteIdentityPacket(flags.id1.dirty, commit);
      CompleteIdentityPacket(flags.id2.dirty, commit);
    }

    /** The completion of all packets. */
    method CompletePackets(commit: bool, k: Clock, ghost r: Processed)
      requires ClockOk(k) && Sound(View()) && r.state == View() && r.flags == flags && r.verdict.Succeeds? == commit
      requires commit && (flags.perm1.dirty || flags.perm2.dirty) ==> perms.modified
      modifies this`perms, perms, flash, certs
      ensures Sound(CompleteBothPermissions(r, k))
      ensures View() == CompleteBothIdentities(CompleteBothPermissions(r, k), r)
    {
      hide CompleteBothPermissions, CompleteBothIdentities, Parse, SlotWhole;
      PermissionsOutcome(r, k);
      CompletePermissionPackets(commit, k, r);
      CompleteIdentityPackets(commit, r);
    }

    /** `ProcessMailBoxes` up to the completion of the identity and permission packets. */
    method ProcessMailBoxes(b: Boxes, k: Clock, ui: bool) returns (verdict: Verdict)
      requires ClockOk(k) && Sound(View()) && FlagsFit(flags, b)
      modifies this`perms, this`flags, perms, flash, certs
      ensures Finished(verdict, View(), flags) == Run(names, old(View()), old(flags), b, k, ui)
    {
      hide Process, CompleteBothPermissions, CompleteBothIdentities, Parse, SlotWhole, Enrolls;
      ProcessKeeps(names, View(), flags, b, k, ui);
      verdict := ProcessPackets(b, k, ui);
      if verdict.Waits? {
        return;
      }
      CompletePackets(verdict.Succeeds?, k, Processed(verdict, View(), flags));
      flags := Cleared(flags);
    }

    /** `EndOfDxeCallback`, if a packet had to wait. */
    method EndOfDxe(b: Boxes, k: Clock, ui: bool) returns (verdict: Verdict)
      requires ClockOk(k) && Sound(View()) && FlagsFit(flags, b)
      modifies this`perms, this`flags, perms, flash, certs
      ensures Finished(verdict, View(), flags)
           == if ui then Run(names, old(View()), old(flags), b, k, true) else Finished(Waits, old(View()), old(flags))
    {
      hide Run;
      if !ui {
        return Waits;
      }
      verdict := ProcessMailBoxes(b, k, true);
    }
  }

  lemma FailedLoad(nv: Variable, now: seq<Byte>)
    requires Load(nv, now).store.Err?
    ensures Load(nv, now).nv == nv
  {
  }

  lemma FailedSave(nv: Variable, s: Store, modified: bool, created: seq<Byte>, now: seq<Byte>)
    requires ShortIds(s.entries)
    ensures !Save(nv, s, modified, created, now).ok ==>
      Save(nv, s, modified, created, now) == SaveResult(false, nv, modified)
  {
  }

  /** A reload forgets what a failing packet did to the store. */
  lemma LoadsAnyway(s: State, mid: State, now: seq<Byte>)
    requires Sound(s) && mid == s.(store := mid.store)
    ensures Reload(mid, now) == Reload(s, now)
  {
    hide Parse;
    ParseStorable(s.permNv.value);
  }
}
