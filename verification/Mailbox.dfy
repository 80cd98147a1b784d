/** The mailbox transaction: identity and permission packets are applied in memory and then all committed to
    their variables or all undone. */
module Mailbox {
  import opened Wrappers
  import opened Bits
  import opened Permissions
  import opened PermissionStore
  import opened PermissionImage
  import opened PermissionFlash
  import opened Certificates

  // ---- IdentityChange ----

  /** The platform's list of settings that unsigned packets may change: not supported, not readable, or a list of
      ids that either allows or forbids them; a list may end in an entry that cannot be read. */
  datatype UnsignedList = Unsupported | Unreadable | Listed(allows: bool, ids: seq<Id>, complete: bool)

  /** The ids of the required entries, and the entries that hold only before the first enrollment. */
  datatype Names = Names(ztdKey: Id, ztdRecovery: Id, ztdUnenroll: Id, dfciRecovery: Id, unsigned: UnsignedList)

  /** An id that `AddPermissionEntry` accepts and stores. */
  predicate PlainId(id: Id) {
    |id| <= 96 && !IsNumber(id)
  }

  function Require(es: seq<Entry>, id: Id, pmask: Mask, dmask: Mask): seq<Entry> {
    match AddRequired(es, id, pmask, dmask)
    case Ok(r) => r
    case Err => es
  }

  /** `DeletePermissionEntry` for each id, up to the first that is missing. */
  function RemoveAll(es: seq<Entry>, ids: seq<Id>): (bool, seq<Entry>)
    decreases |ids|
  {
    if ids == [] then (true, es)
    else
      var k := Find(es, ids[0]);
      if k < 0 then (false, es) else RemoveAll(es[..k] + es[k + 1..], ids[1..])
  }

  /** `RemoveUnsignedPermissionEntries`: a list that forbids also resets the default, to the local and the unsigned
      identity, even though the entries are removed. */
  function RemoveUnsigned(u: UnsignedList, s: Store): (bool, Store) {
    match u
    case Unsupported => (true, s)
    case Unreadable => (false, s)
    case Listed(allows, ids, complete) =>
      var r := RemoveAll(s.entries, ids);
      (r.0 && complete, s.(entries := r.1, pmask := if allows then s.pmask else 0x03))
  }

  /** The step for an owner. */
  function OwnerChange(n: Names, s: Store, cert: Mask, first: bool): (bool, Store) {
    if cert != 0x80 then (true, s)
    else
      var t := s.(entries := Require(s.entries, n.ztdKey, 0, 0));
      if first then RemoveUnsigned(n.unsigned, t) else (AddRequired(s.entries, n.ztdKey, 0, 0).Ok?, t)
  }

  /** The three entries required when the signer is ZTD. */
  function ZtdEntries(n: Names, es: seq<Entry>): seq<Entry> {
    Require(Require(Require(es, n.ztdRecovery, 0x08, 0), n.ztdUnenroll, 0x08, 0), n.dfciRecovery, 0, 0)
  }

  /** What enrolling `cert` on behalf of `signer` does to the permission store; the flag tells success. */
  function IdentityChange(n: Names, s: Store, signer: Mask, cert: Mask, first: bool): (bool, Store) {
    var r := OwnerChange(n, s, cert, first);
    if signer == 0x08 then (true, r.1.(entries := ZtdEntries(n, r.1.entries))) else r
  }

  lemma RequireAdded(es: seq<Entry>, id: Id, pmask: Mask, dmask: Mask)
    requires Added(es)
    ensures Added(Require(es, id, pmask, dmask))
  {
  }

  lemma {:induction false} RemoveAdded(es: seq<Entry>, ids: seq<Id>)
    requires Added(es)
    ensures Added(RemoveAll(es, ids).1)
    decreases |ids|
  {
    if ids != [] && Find(es, ids[0]) >= 0 {
      var k := Find(es, ids[0]);
      RemoveAdded(es[..k] + es[k + 1..], ids[1..]);
    }
  }

  lemma OwnerChangeAdded(n: Names, s: Store, cert: Mask, first: bool)
    requires Added(s.entries)
    ensures var t := OwnerChange(n, s, cert, first).1; Added(t.entries) && t.version == s.version && t.lsv == s.lsv
  {
    hide Require, RemoveAll, Added, AddRequired;
    RequireAdded(s.entries, n.ztdKey, 0, 0);
    if n.unsigned.Listed? {
      RemoveAdded(Require(s.entries, n.ztdKey, 0, 0), n.unsigned.ids);
    }
  }

  lemma ZtdAdded(n: Names, es: seq<Entry>)
    requires Added(es)
    ensures Added(ZtdEntries(n, es))
  {
    hide Require, Added;
    RequireAdded(es, n.ztdRecovery, 0x08, 0);
    var es1 := Require(es, n.ztdRecovery, 0x08, 0);
    RequireAdded(es1, n.ztdUnenroll, 0x08, 0);
    RequireAdded(Require(es1, n.ztdUnenroll, 0x08, 0), n.dfciRecovery, 0, 0);
  }

  /** An enrollment leaves only entries that can be saved, and both versions as they were. */
  lemma ChangeAdded(n: Names, s: Store, signer: Mask, cert: Mask, first: bool)
    requires Added(s.entries)
    ensures var t := IdentityChange(n, s, signer, cert, first).1;
      Added(t.entries) && t.version == s.version && t.lsv == s.lsv
  {
    hide OwnerChange, ZtdEntries, Added;
    OwnerChangeAdded(n, s, cert, first);
    ZtdAdded(n, OwnerChange(n, s, cert, first).1.entries);
  }

  // ---- Packets and state ----

  /** An identity packet: whether it decodes and is authenticated, whether the user has to be asked and approves it,
      and what it enrolls. */
  datatype IdPacket = IdPacket(decodes: bool, authentic: bool, asks: bool, approved: bool, identity: Mask,
                               payload: seq<Byte>, signer: Mask)

  /** A packet without a certificate unenrolls and is not part of the transaction. */
  predicate Unenrolls(p: Option<IdPacket>) {
    p.Just? && p.value.decodes && p.value.payload == []
  }

  datatype PermPacket = PermPacket(decodes: bool, authentic: bool, signer: Mask, v1Mode: bool, packet: Packet)

  /** Both stores, in memory and in their variables. */
  datatype State = State(certs: Certs, store: Store, modified: bool, certNv: Variable, permNv: Variable)

  /** Stores of the current format, as the transaction expects them. */
  ghost predicate Sound(s: State) {
    && CertsWhole(s.certs) && Storable(s.store)
    && s.permNv.Just? && Parse(s.permNv.value).Ok? && Parse(s.permNv.value).value.format == 4
  }

  /** What the clock says at one completion: the time of creation and of the save, and of a save that a reload
      after it would make. */
  datatype Times = Times(created: seq<Byte>, now: seq<Byte>, again: seq<Byte>)

  /** What the clock says during a run: at a reload after each permission packet and at each completion. */
  datatype Clock = Clock(load1: seq<Byte>, load2: seq<Byte>, done1: Times, done2: Times)

  predicate TimesOk(t: Times) {
    |t.created| == |t.now| == |t.again| == 16
  }

  predicate ClockOk(k: Clock) {
    |k.load1| == |k.load2| == 16 && TimesOk(k.done1) && TimesOk(k.done2)
  }

  // ---- Processing ----

  /** A packet that waits makes the whole run wait for the end of the driver phase. */
  datatype Verdict = Succeeds | Fails | Waits

  /** What the manager keeps about a packet from run to run: a packet is applied only while it is present, and one
      that is applied is not present any more and has to be completed. */
  datatype Progress = Progress(present: bool, dirty: bool)

  const PENDING := Progress(true, false)
  const APPLIED := Progress(false, true)

  /** The outcome of one packet. */
  datatype Outcome = Outcome(verdict: Verdict, state: State, progress: Progress)

  /** An owner is enrolled where there was none. */
  predicate FirstOwner(populated: Mask, identity: Mask) {
    identity == 0x80 && populated & 0x80 == 0
  }

  /** `ApplyProvisionData`. */
  function WithCert(c: Certs, identity: Mask, payload: seq<Byte>, index: nat): Certs
    requires index < |c.slots|
  {
    c.(slots := c.slots[index := Slot(Just(payload), |payload|)], populated := c.populated | identity)
  }

  /** The new certificate, and the notification of the permission store. */
  function ApplyIdentity(n: Names, s: State, p: IdPacket, index: nat): Outcome
    requires index < |s.certs.slots|
  {
    var r := IdentityChange(n, s.store, p.signer, p.identity, FirstOwner(s.certs.populated, p.identity));
    var t := s.(certs := WithCert(s.certs, p.identity, p.payload, index), store := r.1);
    Outcome(if r.0 then Succeeds else Fails, t, APPLIED)
  }

  /** Without a user interface (`ui`) a packet that has to ask the user waits. */
  function ProcessIdentity(n: Names, s: State, p: Option<IdPacket>, g: Progress, ui: bool): Outcome
    requires |s.certs.slots| == 7
  {
    if p.Nothing? then Outcome(Succeeds, s, g)
    else if !p.value.decodes then Outcome(Fails, s, g)
    else if Unenrolls(p) then Outcome(Succeeds, s, g)
    else if !g.present || !p.value.authentic then Outcome(Fails, s, g.(present := false))
    else if p.value.asks && !ui then Outcome(Waits, s, g)
    else
      var index := IdentityIndex(p.value.identity);
      if (p.value.asks && !p.value.approved) || index.Nothing? then Outcome(Fails, s, g.(present := false))
      else ApplyIdentity(n, s, p.value, index.value)
  }

  /** The store as the variable has it; `now` is the time of a save that a migration would make. */
  function Reload(s: State, now: seq<Byte>): State {
    var r := Load(s.permNv, now);
    if r.store.Ok? then s.(store := r.store.value, modified := r.modified, permNv := r.nv) else s
  }

  function ProcessPermissions(s: State, p: Option<PermPacket>, g: Progress, now: seq<Byte>): Outcome {
    if p.Nothing? then Outcome(Succeeds, s, g)
    else if !p.value.decodes then Outcome(Fails, s, g)
    else if !g.present || !p.value.authentic then Outcome(Fails, s, g.(present := false))
    else
      match Apply(s.store, p.value.signer, p.value.packet, p.value.v1Mode)
      case Err => Outcome(Fails, Reload(s, now), g.(present := false))
      case Ok(t) => Outcome(Succeeds, s.(store := t, modified := true), APPLIED)
  }

  // ---- Completion ----

  /** The permission handler: a commit that fails falls back to the variable. */
  function CompletePermissions(s: State, dirty: bool, commit: bool, t: Times): State
    requires ShortIds(s.store.entries)
  {
    if !dirty then s
    else if !commit then Reload(s, t.again)
    else
      var r := Save(s.permNv, s.store, s.modified, t.created, t.now);
      if r.ok then s.(permNv := r.nv, modified := r.modified) else Reload(s, t.again)
  }

  /** The certificate handler, with a variable write that succeeds. */
  function CompleteIdentity(s: State, dirty: bool, commit: bool): State
    requires |s.certs.slots| == 7
  {
    if !dirty then s
    else if commit then s.(certNv := Just(CertImage(s.certs)))
    else s.(certs := LoadVariable(s.certNv, s.certs).certs)
  }

  // ---- The run ----

  datatype Boxes = Boxes(id1: Option<IdPacket>, perm1: Option<PermPacket>,
                         id2: Option<IdPacket>, perm2: Option<PermPacket>)

  /** How far each packet has come. */
  datatype Flags = Flags(id1: Progress, perm1: Progress, id2: Progress, perm2: Progress)

  const START := Flags(PENDING, PENDING, PENDING, PENDING)

  /** After the four packets, or after the first that did not succeed. */
  datatype Processed = Processed(verdict: Verdict, state: State, flags: Flags)

  /** After an identity packet and the permission packet behind it. */
  datatype Pair = Pair(verdict: Verdict, state: State, id: Progress, perm: Progress)

  function ProcessPair(n: Names, s: State, id: Option<IdPacket>, perm: Option<PermPacket>, g: Progress, h: Progress,
                       now: seq<Byte>, ui: bool): Pair
    requires |s.certs.slots| == 7
  {
    var o1 := ProcessIdentity(n, s, id, g, ui);
    if !o1.verdict.Succeeds? then Pair(o1.verdict, o1.state, o1.progress, h)
    else
      var o2 := ProcessPermissions(o1.state, perm, h, now);
      Pair(o2.verdict, o2.state, o1.progress, o2.progress)
  }

  /** The flags `f` are those of an earlier run over the same packets, if there was one. */
  function Process(n: Names, s: State, f: Flags, b: Boxes, k: Clock, ui: bool): Processed
    requires |s.certs.slots| == 7
  {
    var r1 := ProcessPair(n, s, b.id1, b.perm1, f.id1, f.perm1, k.load1, ui);
    var f1 := f.(id1 := r1.id, perm1 := r1.perm);
    if !r1.verdict.Succeeds? then Processed(r1.verdict, r1.state, f1)
    else
      var r2 := ProcessPair(n, r1.state, b.id2, b.perm2, f.id2, f.perm2, k.load2, ui);
      Processed(r2.verdict, r2.state, f1.(id2 := r2.id, perm2 := r2.perm))
  }

  // ---- What processing keeps ----

  ghost predicate PlainEntries(es: seq<Entry>) {
    forall i :: 0 <= i < |es| ==> PlainId(es[i].id)
  }

  lemma InputPlain(s: Store, identity: Mask, input: Input)
    requires PlainEntries(s.entries) && ApplyInput(s, identity, input).Ok?
    ensures PlainEntries(ApplyInput(s, identity, input).value.entries)
  {
    hide Has, Find;
    var es := ApplyInput(s, identity, input).value.entries;
    forall i | 0 <= i < |es|
      ensures PlainId(es[i].id)
    {
      if i < |s.entries| {
        assert es[i].id == s.entries[i].id;
      }
    }
  }

  lemma {:induction false} InputsPlain(s: Store, identity: Mask, inputs: seq<Input>)
    requires PlainEntries(s.entries) && ApplyInputs(s, identity, inputs).Ok?
    ensures PlainEntries(ApplyInputs(s, identity, inputs).value.entries)
  {
    hide ApplyInput;
    if inputs != [] {
      var n := |inputs| - 1;
      InputsPlain(s, identity, inputs[..n]);
      InputPlain(ApplyInputs(s, identity, inputs[..n]).value, identity, inputs[n]);
    }
  }

  /** A packet turns a store that can be saved into one that can be saved. */
  lemma ApplyStorable(s: Store, identity: Mask, p: Packet, v1Mode: bool)
    requires Storable(s) && Apply(s, identity, p, v1Mode).Ok?
    ensures Storable(Apply(s, identity, p, v1Mode).value)
  {
    hide ApplyInputs, Sweep, Has;
    BeforeSweepEvolves(s, identity, p, v1Mode);
    var s1 := ApplyDefaults(Begin(s, identity, p), identity, p.defaults).value;
    InputsPlain(s1, identity, p.inputs);
    var es := BeforeSweep(s, identity, p, v1Mode).value.entries;
    SweepClean(es);
    forall i | 0 <= i < |Sweep(es)|
      ensures PlainId(Sweep(es)[i].id)
    {
      assert Sweep(es)[i] in es;
    }
  }

  /** Neither variable has changed, and the state is still sound. */
  ghost predicate Kept(s: State, t: State) {
    Sound(t) && t.certNv == s.certNv && t.permNv == s.permNv
  }

  lemma ReloadKeeps(s: State, now: seq<Byte>)
    requires Sound(s)
    ensures Kept(s, Reload(s, now)) && Parse(s.permNv.value).value.store == Reload(s, now).store
    ensures !Reload(s, now).modified
  {
    hide Parse, Storable;
    ParseStorable(s.permNv.value);
  }

  /** An identity packet that is processed with the others. */
  predicate Enrolls(p: Option<IdPacket>) {
    p.Just? && !Unenrolls(p)
  }

  /** Only a packet that is there and was applied is to be completed. */
  predicate FlagsFit(f: Flags, b: Boxes) {
    && Fit(f.id1, Enrolls(b.id1)) && Fit(f.id2, Enrolls(b.id2))
    && Fit(f.perm1, b.perm1.Just?) && Fit(f.perm2, b.perm2.Just?)
  }

  predicate Fit(g: Progress, there: bool) {
    g.dirty ==> !g.present && there
  }

  lemma IdentityKeeps(n: Names, s: State, p: Option<IdPacket>, g: Progress, ui: bool)
    requires Sound(s) && Fit(g, Enrolls(p))
    ensures var o := ProcessIdentity(n, s, p, g, ui);
      && Kept(s, o.state) && o.state.modified == s.modified && Fit(o.progress, Enrolls(p))
      && (o.verdict.Succeeds? ==> (o.progress.dirty <==> Enrolls(p)))
  {
    hide Parse, IdentityChange, Added;
    if Enrolls(p) {
      ChangeAdded(n, s.store, p.value.signer, p.value.identity, FirstOwner(s.certs.populated, p.value.identity));
    }
  }

  lemma PermissionsKeep(s: State, p: Option<PermPacket>, g: Progress, now: seq<Byte>)
    requires Sound(s) && Fit(g, p.Just?)
    ensures var o := ProcessPermissions(s, p, g, now);
      && Kept(s, o.state) && !o.verdict.Waits? && Fit(o.progress, p.Just?)
      && (o.verdict.Succeeds? ==> (o.progress.dirty <==> p.Just?) && o.state.modified == (s.modified || p.Just?))
  {
    hide Parse, Apply, Storable;
    if p.Just? && p.value.decodes && g.present && p.value.authentic {
      if Apply(s.store, p.value.signer, p.value.packet, p.value.v1Mode).Ok? {
        ApplyStorable(s.store, p.value.signer, p.value.packet, p.value.v1Mode);
      } else {
        ReloadKeeps(s, now);
      }
    }
  }

  lemma PairKeeps(n: Names, s: State, id: Option<IdPacket>, perm: Option<PermPacket>, g: Progress, h: Progress,
                  now: seq<Byte>, ui: bool)
    requires Sound(s) && Fit(g, Enrolls(id)) && Fit(h, perm.Just?)
    ensures var r := ProcessPair(n, s, id, perm, g, h, now, ui);
      && Kept(s, r.state) && Fit(r.id, Enrolls(id)) && Fit(r.perm, perm.Just?)
      && (r.verdict.Succeeds? ==>
            && r.id.dirty == Enrolls(id) && r.perm.dirty == perm.Just?
            && r.state.modified == (s.modified || perm.Just?))
  {
    hide ProcessIdentity, ProcessPermissions, Enrolls, SlotWhole, Storable, Parse;
    IdentityKeeps(n, s, id, g, ui);
    var o1 := ProcessIdentity(n, s, id, g, ui);
    if o1.verdict.Succeeds? {
      PermissionsKeep(o1.state, perm, h, now);
    }
  }

  /** Processing leaves both variables alone; if it succeeds, exactly the packets that are there are to complete. */
  lemma ProcessKeeps(n: Names, s: State, f: Flags, b: Boxes, k: Clock, ui: bool)
    requires Sound(s) && FlagsFit(f, b)
    ensures var r := Process(n, s, f, b, k, ui);
      && Kept(s, r.state) && FlagsFit(r.flags, b)
      && (r.verdict.Succeeds? ==>
            && (r.flags.perm1.dirty || r.flags.perm2.dirty ==> r.state.modified)
            && r.flags.id1.dirty == Enrolls(b.id1) && r.flags.id2.dirty == Enrolls(b.id2)
            && r.flags.perm1.dirty == b.perm1.Just? && r.flags.perm2.dirty == b.perm2.Just?)
  {
    hide ProcessPair, Enrolls, SlotWhole, Storable, Parse;
    PairKeeps(n, s, b.id1, b.perm1, f.id1, f.perm1, k.load1, ui);
    var r1 := ProcessPair(n, s, b.id1, b.perm1, f.id1, f.perm1, k.load1, ui);
    if r1.verdict.Succeeds? {
      PairKeeps(n, r1.state, b.id2, b.perm2, f.id2, f.perm2, k.load2, ui);
    }
  }

  // ---- Completion and the main result ----

  /** The permission handlers of both packets. */
  function CompleteBothPermissions(r: Processed, k: Clock): State
    requires Sound(r.state) && ClockOk(k)
  {
    var s1 := CompletePermissions(r.state, r.flags.perm2.dirty, r.verdict.Succeeds?, k.done2);
    CompleteSound(r.state, r.flags.perm2.dirty, r.verdict.Succeeds?, k.done2);
    CompletePermissions(s1, r.flags.perm1.dirty, r.verdict.Succeeds?, k.done1)
  }

  /** The certificate handlers of both packets. */
  function CompleteBothIdentities(s: State, r: Processed): State
    requires Sound(s)
  {
    var s1 := CompleteIdentity(s, r.flags.id1.dirty, r.verdict.Succeeds?);
    IdentityWhole(s, r.flags.id1.dirty, r.verdict.Succeeds?);
    CompleteIdentity(s1, r.flags.id2.dirty, r.verdict.Succeeds?)
  }

  /** A certificate handler leaves the permission store alone. */
  lemma IdentityWhole(s: State, dirty: bool, commit: bool)
    requires CertsWhole(s.certs)
    ensures var t := CompleteIdentity(s, dirty, commit);
      && CertsWhole(t.certs) && t.store == s.store && t.modified == s.modified && t.permNv == s.permNv
      && (!commit ==> t.certNv == s.certNv)
      && (commit ==> t.certs == s.certs && t.certNv == if dirty then Just(CertImage(s.certs)) else s.certNv)
  {
    hide LoadVariable, CertImage;
    LoadWhole(s.certNv, s.certs);
  }

  /** The image of the store fits its variable. */
  ghost predicate Fits(s: Store)
    requires ShortIds(s.entries)
  {
    49 + |EntriesBytes(s.entries)| <= 2048
  }

  lemma ImageSize(s: Store, created: seq<Byte>, now: seq<Byte>)
    requires ShortIds(s.entries) && |created| == |now| == 16
    ensures |Image(4, s, created, now)| == 49 + |EntriesBytes(s.entries)|
  {
    hide Header, EntriesBytes;
    HeaderFields(4, s, created, now);
  }

  /** One permission handler: a commit stores the store in memory if it fits and otherwise changes nothing. */
  lemma CompleteSound(s: State, dirty: bool, commit: bool, k: Times)
    requires Sound(s) && TimesOk(k)
    ensures var t := CompletePermissions(s, dirty, commit, k);
      && Sound(t) && t.certs == s.certs && t.certNv == s.certNv
      && (!dirty ==> t == s)
      && (dirty && !commit ==> t.permNv == s.permNv)
      && (dirty && commit && !s.modified ==> t.permNv == s.permNv && t.store == s.store && !t.modified)
      && (dirty && commit && s.modified ==>
            if Fits(s.store) then t.store == s.store && Parse(t.permNv.value) == Ok(Loaded(4, s.store))
            else t.permNv == s.permNv && !t.modified && Ok(Loaded(4, t.store)) == Parse(s.permNv.value))
  {
    hide Parse, Image, EntriesBytes, SlotWhole;
    ReloadKeeps(s, k.again);
    ImageSize(s.store, k.created, k.now);
    if dirty && commit && s.modified && Fits(s.store) {
      SaveThenParse(s.permNv, s.store, k.created, k.now);
    }
  }

  lemma PermissionsOutcome(r: Processed, k: Clock)
    requires Sound(r.state) && ClockOk(k)
    requires r.verdict.Succeeds? && (r.flags.perm1.dirty || r.flags.perm2.dirty) ==> r.state.modified
    ensures var m, t := r.state, CompleteBothPermissions(r, k);
      && Sound(t) && t.certs == m.certs && t.certNv == m.certNv
      && (!r.verdict.Succeeds? || (!r.flags.perm1.dirty && !r.flags.perm2.dirty) ==> t.permNv == m.permNv)
      && (r.verdict.Succeeds? && (r.flags.perm1.dirty || r.flags.perm2.dirty) ==>
            if Fits(m.store) then t.store == m.store && Parse(t.permNv.value) == Ok(Loaded(4, m.store))
            else t.permNv == m.permNv && Parse(m.permNv.value) == Ok(Loaded(4, t.store)))
  {
    hide Parse, CompletePermissions, SlotWhole, EntriesBytes;
    CompleteSound(r.state, r.flags.perm2.dirty, r.verdict.Succeeds?, k.done2);
    var s1 := CompletePermissions(r.state, r.flags.perm2.dirty, r.verdict.Succeeds?, k.done2);
    CompleteSound(s1, r.flags.perm1.dirty, r.verdict.Succeeds?, k.done1);
  }

  lemma IdentitiesOutcome(s: State, r: Processed)
    requires Sound(s)
    ensures var t := CompleteBothIdentities(s, r);
      && Sound(t) && t.permNv == s.permNv && t.store == s.store
      && (!r.verdict.Succeeds? ==> t.certNv == s.certNv)
      && (r.verdict.Succeeds? ==>
            && t.certs == s.certs
            && t.certNv == if r.flags.id1.dirty || r.flags.id2.dirty then Just(CertImage(s.certs)) else s.certNv)
  {
    hide CompleteIdentity, CertImage, SlotWhole, Parse;
    IdentityWhole(s, r.flags.id1.dirty, r.verdict.Succeeds?);
    IdentityWhole(CompleteIdentity(s, r.flags.id1.dirty, r.verdict.Succeeds?), r.flags.id2.dirty, r.verdict.Succeeds?);
  }

  /** What a run leaves, for another run over the same packets. */
  datatype Finished = Finished(verdict: Verdict, state: State, flags: Flags)

  /** Nothing is left to complete. */
  function Cleared(f: Flags): Flags {
    Flags(f.id1.(dirty := false), f.perm1.(dirty := false), f.id2.(dirty := false), f.perm2.(dirty := false))
  }

  /** The whole run up to the four completions, which a packet that waits skips. */
  function Run(n: Names, s: State, f: Flags, b: Boxes, k: Clock, ui: bool): Finished
    requires Sound(s) && FlagsFit(f, b) && ClockOk(k)
  {
    ProcessKeeps(n, s, f, b, k, ui);
    var r := Process(n, s, f, b, k, ui);
    PermissionsOutcome(r, k);
    if r.verdict.Waits? then Finished(Waits, r.state, r.flags)
    else Finished(r.verdict, CompleteBothIdentities(CompleteBothPermissions(r, k), r), Cleared(r.flags))
  }

  /** The variables reflect what the packets made of the stores in memory, `m`. */
  ghost predicate Committed(s: State, m: State, t: State, b: Boxes) {
    && t.certNv == (if Enrolls(b.id1) || Enrolls(b.id2) then Just(CertImage(m.certs)) else s.certNv)
    && (if b.perm1.Just? || b.perm2.Just?
        then t.permNv.Just? && Parse(t.permNv.value) == Ok(Loaded(4, m.store)) && t.store == m.store
        else t.permNv == s.permNv)
  }

  ghost predicate RolledBack(s: State, t: State) {
    t.certNv == s.certNv && t.permNv == s.permNv
  }

  /** The permission store can be written, need not be, or its variable already holds it. */
  ghost predicate Writes(s: State, m: State, b: Boxes)
    requires ShortIds(m.store.entries)
  {
    (b.perm1.Nothing? && b.perm2.Nothing?) || Fits(m.store)
      || (s.permNv.Just? && Parse(s.permNv.value) == Ok(Loaded(4, m.store)))
  }

  /** The main result: a run with a packet that fails or waits leaves both variables as they were; a run in which
      all succeed commits everything if and only if the permission store, when a permission packet was applied,
      fits its variable (or is what the variable already holds); if it does not fit, its variable stays as it was.
      The state is sound again, so this holds of every run after it. */
  lemma Atomicity(n: Names, s: State, f: Flags, b: Boxes, k: Clock, ui: bool)
    requires Sound(s) && FlagsFit(f, b) && ClockOk(k)
    ensures var r, t := Process(n, s, f, b, k, ui), Run(n, s, f, b, k, ui);
      && ShortIds(r.state.store.entries) && Sound(t.state) && FlagsFit(t.flags, b) && t.verdict == r.verdict
      && (!r.verdict.Succeeds? ==> RolledBack(s, t.state))
      && (r.verdict.Succeeds? ==> (Committed(s, r.state, t.state, b) <==> Writes(s, r.state, b)))
      && (r.verdict.Succeeds? && !Writes(s, r.state, b) ==> t.state.permNv == s.permNv)
  {
    hide Parse, Process, CompleteBothPermissions, CompleteBothIdentities, SlotWhole, CertImage, EntriesBytes, Enrolls;
    ProcessKeeps(n, s, f, b, k, ui);
    var r := Process(n, s, f, b, k, ui);
    PermissionsOutcome(r, k);
    IdentitiesOutcome(CompleteBothPermissions(r, k), r);
  }

  // ---- Runs that wait ----

  /** The same packet in a later run, which authenticates it anew and may get another answer from the user. */
  predicate SameId(p: Option<IdPacket>, q: Option<IdPacket>) {
    p.Just? == q.Just? && (p.Just? ==> q.value.decodes == p.value.decodes && q.value.payload == p.value.payload)
  }

  predicate SamePerm(p: Option<PermPacket>, q: Option<PermPacket>) {
    p.Just? == q.Just? && (p.Just? ==> q.value.decodes == p.value.decodes)
  }

  predicate Again(b: Boxes, c: Boxes) {
    SameId(b.id1, c.id1) && SamePerm(b.perm1, c.perm1) && SameId(b.id2, c.id2) && SamePerm(b.perm2, c.perm2)
  }

  lemma AgainFits(f: Flags, b: Boxes, c: Boxes)
    requires Again(b, c)
    ensures FlagsFit(f, b) <==> FlagsFit(f, c)
  {
  }

  lemma AgainEnrolls(b: Boxes, c: Boxes)
    requires Again(b, c)
    ensures Enrolls(b.id1) == Enrolls(c.id1) && Enrolls(b.id2) == Enrolls(c.id2)
  {
  }

  /** Nothing was applied before the packet that had to wait: it is the first packet there is. */
  predicate Resumable(b: Boxes) {
    if Enrolls(b.id1) then b.id1.value.asks else b.perm1.Nothing?
  }

  /** Where a run waits: at its first packet, with nothing changed, or after a packet that was applied. */
  lemma WaitsAt(n: Names, s: State, b: Boxes, k: Clock, ui: bool)
    requires |s.certs.slots| == 7 && Process(n, s, START, b, k, ui).verdict.Waits?
    ensures var r := Process(n, s, START, b, k, ui);
      if Resumable(b) then r.state == s && r.flags == START
      else
        && (Enrolls(b.id1) ==> r.flags.id1 == APPLIED)
        && (!Enrolls(b.id1) ==> r.flags.id1 == PENDING && b.perm1.Just? && r.flags.perm1 == APPLIED)
  {
    hide IdentityChange, Apply, Reload;
  }

  /** A packet that was applied makes the next run over it fail at once. */
  lemma AppliedFails(n: Names, s: State, f: Flags, b: Boxes, k: Clock, ui: bool)
    requires |s.certs.slots| == 7
    requires if Enrolls(b.id1) then !f.id1.present else b.perm1.Just? && !f.perm1.present
    ensures var r := Process(n, s, f, b, k, ui); r.verdict.Fails? && r.state == s
  {
    hide ApplyIdentity, Apply, Reload;
  }

  /** With a user interface nothing waits. */
  lemma NothingWaits(n: Names, s: State, f: Flags, b: Boxes, k: Clock)
    requires |s.certs.slots| == 7
    ensures !Process(n, s, f, b, k, true).verdict.Waits?
  {
    hide IdentityChange, Apply, Reload;
  }

  /** The run at the end of the driver phase, with a user interface, over packets `c` that had to wait as `b`: if
      the packet that waited was the first one, the run is as if nothing had been done before; if one was applied
      before it, that one is not present any more, so the run fails and takes it back. */
  lemma Rerun(n: Names, s: State, b: Boxes, k: Clock, ui: bool, c: Boxes, l: Clock)
    requires Sound(s) && ClockOk(k) && ClockOk(l) && Again(b, c) && Run(n, s, START, b, k, ui).verdict.Waits?
    ensures var w := Run(n, s, START, b, k, ui);
      && Sound(w.state) && FlagsFit(w.flags, c)
      && var t := Run(n, w.state, w.flags, c, l, true);
         && !t.verdict.Waits?
         && (Resumable(b) ==> t == Run(n, s, START, c, l, true))
         && (!Resumable(b) ==> t.verdict.Fails? && RolledBack(s, t.state))
  {
    hide Parse, Process, CompleteBothPermissions, CompleteBothIdentities, SlotWhole, Enrolls, Writes, Committed;
    Atomicity(n, s, START, b, k, ui);
    var w := Run(n, s, START, b, k, ui);
    AgainFits(w.flags, b, c);
    Atomicity(n, w.state, w.flags, c, l, true);
    NothingWaits(n, w.state, w.flags, c, l);
    WaitsAt(n, s, b, k, ui);
    if !Resumable(b) {
      AgainEnrolls(b, c);
      AppliedFails(n, w.state, w.flags, c, l, true);
    }
  }

  /** The packets and the clock of the run at the end of the driver phase. */
  datatype Late = Late(boxes: Boxes, clock: Clock)

  /** All runs over the packets: if the first waits and there is a user interface at the end of the driver phase
      (`late`), there is one more. */
  function Boot(n: Names, s: State, b: Boxes, k: Clock, ui: bool, late: Option<Late>): Finished
    requires Sound(s) && ClockOk(k) && (late.Just? ==> ClockOk(late.value.clock) && Again(b, late.value.boxes))
  {
    var w := Run(n, s, START, b, k, ui);
    if w.verdict.Waits? && late.Just? then
      Rerun(n, s, b, k, ui, late.value.boxes, late.value.clock);
      Run(n, w.state, w.flags, late.value.boxes, late.value.clock, true)
    else w
  }

  /** Whether the packets had to wait or not: both variables end as they were before the first run, or hold what
      the packets of the last run made of the stores as they were before the first, `m`, if and only if the
      permission store could be written. After a wait this can happen if and only if the packet that waited was the
      first one. */
  lemma DeferredAtomicity(n: Names, s: State, b: Boxes, k: Clock, ui: bool, late: Option<Late>) returns (m: Processed)
    requires Sound(s) && ClockOk(k) && (late.Just? ==> ClockOk(late.value.clock) && Again(b, late.value.boxes))
    ensures var w, t := Run(n, s, START, b, k, ui), Boot(n, s, b, k, ui, late);
      && m == (if w.verdict.Waits? && late.Just? then Process(n, s, START, late.value.boxes, late.value.clock, true)
               else Process(n, s, START, b, k, ui))
      && ShortIds(m.state.store.entries)
      && (t.verdict.Succeeds? <==> m.verdict.Succeeds? && (w.verdict.Waits? ==> Resumable(b)))
      && (!t.verdict.Succeeds? ==> RolledBack(s, t.state))
      && (t.verdict.Succeeds? ==> (Committed(s, m.state, t.state, b) <==> Writes(s, m.state, b)))
      && (t.verdict.Succeeds? && !Writes(s, m.state, b) ==> t.state.permNv == s.permNv)
  {
    hide Process, Parse, CertImage, EntriesBytes, SlotWhole, Enrolls, Resumable, CompleteBothPermissions,
         CompleteBothIdentities;
    Atomicity(n, s, START, b, k, ui);
    m := Process(n, s, START, b, k, ui);
    if m.verdict.Waits? && late.Just? {
      var c, l := late.value.boxes, late.value.clock;
      Rerun(n, s, b, k, ui, c, l);
      AgainFits(START, b, c);
      AgainEnrolls(b, c);
      Atomicity(n, s, START, c, l, true);
      m := Process(n, s, START, c, l, true);
    }
  }

  /** The first packet there is does not decode or is not present any more. */
  predicate Spent(f: Flags, b: Boxes) {
    if Enrolls(b.id1) then !b.id1.value.decodes || !f.id1.present
    else if b.perm1.Just? then !b.perm1.value.decodes || !f.perm1.present
    else if Enrolls(b.id2) then !b.id2.value.decodes || !f.id2.present
    else b.perm2.Just? ==> !b.perm2.value.decodes || !f.perm2.present
  }

  predicate Clean(f: Flags) {
    !f.id1.dirty && !f.perm1.dirty && !f.id2.dirty && !f.perm2.dirty
  }

  lemma ProcessSpends(n: Names, s: State, f: Flags, b: Boxes, k: Clock, ui: bool)
    requires |s.certs.slots| == 7 && FlagsFit(f, b)
    ensures var r := Process(n, s, f, b, k, ui); !r.verdict.Waits? ==> Spent(r.flags, b)
  {
    hide IdentityChange, Apply, Reload;
  }

  /** A pair that is spent, or empty, is passed by without a trace. */
  lemma SpentPair(n: Names, s: State, id: Option<IdPacket>, perm: Option<PermPacket>, g: Progress, h: Progress,
                  now: seq<Byte>, ui: bool)
    requires |s.certs.slots| == 7
    requires if Enrolls(id) then !id.value.decodes || !g.present
             else perm.Just? ==> !perm.value.decodes || !h.present
    ensures var r := ProcessPair(n, s, id, perm, g, h, now, ui);
      && r.state == s && r.id.dirty == g.dirty && r.perm.dirty == h.dirty
      && r.verdict == if Enrolls(id) || perm.Just? then Fails else Succeeds
  {
    hide ApplyIdentity, Apply, Reload, IdentityIndex;
  }

  lemma SpentStays(n: Names, s: State, f: Flags, b: Boxes, k: Clock, ui: bool)
    requires |s.certs.slots| == 7 && Spent(f, b) && Clean(f)
    ensures var r := Process(n, s, f, b, k, ui); r.state == s && Clean(r.flags) && !r.verdict.Waits?
  {
    hide ProcessPair, Enrolls;
    SpentPair(n, s, b.id1, b.perm1, f.id1, f.perm1, k.load1, ui);
    if !Enrolls(b.id1) && b.perm1.Nothing? {
      SpentPair(n, s, b.id2, b.perm2, f.id2, f.perm2, k.load2, ui);
    }
  }

  lemma NothingToComplete(r: Processed, k: Clock)
    requires Sound(r.state) && ClockOk(k) && Clean(r.flags)
    ensures CompleteBothPermissions(r, k) == r.state && CompleteBothIdentities(r.state, r) == r.state
  {
  }

  /** A run that has completed its packets leaves nothing for another one: a run that an unenrolling packet behind
      them causes changes neither store and neither variable. */
  lemma CompletedOnce(n: Names, s: State, f: Flags, b: Boxes, k: Clock, ui: bool, c: Boxes, l: Clock, ui': bool)
    requires Sound(s) && FlagsFit(f, b) && ClockOk(k) && ClockOk(l) && Again(b, c)
    requires !Run(n, s, f, b, k, ui).verdict.Waits?
    ensures var t := Run(n, s, f, b, k, ui);
      && Sound(t.state) && FlagsFit(t.flags, c)
      && Run(n, t.state, t.flags, c, l, ui').state == t.state
  {
    hide Process, CompleteBothPermissions, CompleteBothIdentities, SlotWhole, Parse;
    Atomicity(n, s, f, b, k, ui);
    var t := Run(n, s, f, b, k, ui);
    AgainFits(t.flags, b, c);
    ProcessSpends(n, s, f, b, k, ui);
    SpentStays(n, t.state, t.flags, c, l, ui');
    NothingToComplete(Process(n, t.state, t.flags, c, l, ui'), l);
  }

  /** The permission store does not mind a user key. */
  lemma UserChange(n: Names, s: Store)
    ensures IdentityChange(n, s, 0x80, 0x40, false) == (true, s)
  {
  }

  /** Both mailboxes enroll a user; the second has to ask, so the run waits, and the one at the end of the driver
      phase takes the first back although the user approves. */
  lemma WaitLoses(n: Names, s: State, k: Clock, l: Clock, cert: seq<Byte>)
    requires Sound(s) && ClockOk(k) && ClockOk(l) && cert != []
    ensures var id := IdPacket(true, true, false, true, 0x40, cert, 0x80);
      var b := Boxes(Just(id), Nothing, Just(id.(asks := true)), Nothing);
      var w := Run(n, s, START, b, k, false);
      && w.verdict.Waits? && w.flags.id1 == APPLIED && w.state.certs.slots[0] == Slot(Just(cert), |cert|)
      && Sound(w.state) && FlagsFit(w.flags, b)
      && var t := Run(n, w.state, w.flags, b, l, true);
         t.verdict.Fails? && RolledBack(s, t.state)
  {
    hide Parse, CompleteBothPermissions, CompleteBothIdentities, IdentityChange, SlotWhole;
    var id := IdPacket(true, true, false, true, 0x40, cert, 0x80);
    var b := Boxes(Just(id), Nothing, Just(id.(asks := true)), Nothing);
    UserChange(n, s.store);
    Rerun(n, s, b, k, false, b, l);
  }

  /** A restore gives the slots of the last saved table, whatever was applied since, unless that table has
      user keys without an owner. */
  lemma RestoreSlots(s: State, saved: Certs)
    requires CertsOk(saved) && s.certNv == Just(CertImage(saved)) && |s.certs.slots| == 7
    requires !HasUser(saved.slots) || HasOwner(saved.slots)
    ensures CompleteIdentity(s, true, false).certs.slots == saved.slots
  {
    hide LoadCerts, CertImage;
    CertsRoundTrip(saved, s.certs);
  }

  // ---- A run that is torn ----

  function LongId(i: nat): Id
    requires i < 26
  {
    [0x41 + i] + seq(95, _ => 0x41)
  }

  function LongEntries(n: nat): (es: seq<Entry>)
    requires n < 26
    ensures |es| == n && forall i :: 0 <= i < n ==> es[i] == Entry(LongId(i), 0x01, 0x80, false)
  {
    seq(n, i requires 0 <= i < n => Entry(LongId(i), 0x01, 0x80, false))
  }

  lemma {:induction false} LongSize(n: nat)
    requires n < 26
    ensures ShortIds(LongEntries(n)) && |EntriesBytes(LongEntries(n))| == 100 * n
  {
    if n > 0 {
      LongSize(n - 1);
      assert LongEntries(n)[..n - 1] == LongEntries(n - 1);
      EntrySize(LongEntries(n)[n - 1]);
    }
  }

  lemma LongMissing(n: nat)
    requires n < 25
    ensures Find(LongEntries(n), LongId(n)) == -1
  {
    forall i | 0 <= i < n
      ensures LongEntries(n)[i].id != LongId(n)
    {
      assert LongEntries(n)[i].id[0] != LongId(n)[0];
    }
    FindFromNone(LongEntries(n), LongId(n), 0);
  }

  /** The packet that adds one more long entry. */
  function OneMore(n: nat): Packet
    requires n < 26
  {
    Packet(1, 0, true, NoDefaults, [Input(LongId(n), 0x01, NOT_SPECIFIED)])
  }

  lemma InputAddsOne(s: Store, n: nat)
    requires n < 25 && s.entries == LongEntries(n) && s.dmask == 0x80
    ensures ApplyInput(s, 0x80, Input(LongId(n), 0x01, NOT_SPECIFIED)) == Ok(s.(entries := LongEntries(n + 1)))
  {
    LongMissing(n);
    assert LongEntries(n) + [Entry(LongId(n), 0x01, 0x80, false)] == LongEntries(n + 1);
    assert !IsNumber(LongId(n));
  }

  lemma AddOneMore(n: nat)
    requires n < 25
    ensures Apply(Store(1, 0, 0x01, 0x80, LongEntries(n)), 0x80, OneMore(n), false)
         == Ok(Store(1, 0, 0x01, 0x80, LongEntries(n + 1)))
  {
    hide ApplyInput, ApplyInputs, LongId;
    var s := Store(1, 0, 0x01, 0x80, LongEntries(n));
    InputAddsOne(s, n);
    OneInput(s, 0x80, Input(LongId(n), 0x01, NOT_SPECIFIED));
    SweepUnmarked(LongEntries(n + 1));
  }

  function OwnerOnly(): Certs {
    var none := Slot(Nothing, 0);
    Certs(0, 0, 0x81, [none, none, none, Slot(Just([7]), 1), none, none, none])
  }

  /** Tables with an owner have different images if their slots differ. */
  lemma ImagesDiffer(c: Certs, d: Certs)
    requires CertsOk(c) && CertsOk(d) && HasOwner(c.slots) && HasOwner(d.slots) && c.slots != d.slots
    ensures CertImage(c) != CertImage(d)
  {
    hide LoadCerts, CertImage;
    CertsRoundTrip(c, c);
    CertsRoundTrip(d, c);
  }

  /** A user key and one more long entry. */
  function TornBoxes(): Boxes {
    Boxes(Just(IdPacket(true, true, false, true, 0x40, [9], 0x80)),
          Just(PermPacket(true, true, 0x80, false, OneMore(19))), Nothing, Nothing)
  }

  /** Enrolling a user and adding the entry both succeed. */
  lemma TornProcess(n: Names, s: State, k: Clock, ui: bool)
    requires s.certs == OwnerOnly() && s.store == Store(1, 0, 0x01, 0x80, LongEntries(19))
    ensures var r := Process(n, s, START, TornBoxes(), k, ui);
      && r.verdict.Succeeds? && r.state.store == Store(1, 0, 0x01, 0x80, LongEntries(20))
      && r.state.certs == s.certs.(slots := s.certs.slots[0 := Slot(Just([9]), 1)],
                                   populated := s.certs.populated | 0x40)
  {
    hide Apply;
    AddOneMore(19);
  }

  /** A run in which every packet succeeds and yet only the certificates are committed: the twentieth long entry
      makes the permission image one byte too big. */
  lemma TornRun(n: Names, k: Clock, ui: bool) returns (s: State, b: Boxes)
    requires ClockOk(k)
    ensures Sound(s)
    ensures var r, t := Process(n, s, START, b, k, ui), Run(n, s, START, b, k, ui);
      && r.verdict.Succeeds? && t.state.permNv == s.permNv && !Committed(s, r.state, t.state, b)
      && t.state.certNv != s.certNv
  {
    hide Parse, Image, Process, Run, CertImage, EntriesBytes, OneMore;
    var store := Store(1, 0, 0x01, 0x80, LongEntries(19));
    LongSize(19);
    LongSize(20);
    ImageSize(store, k.load1, k.load1);
    ImageRoundTrip(4, store, k.load1, k.load1);
    s := State(OwnerOnly(), store, false, Just(CertImage(OwnerOnly())), Just(Image(4, store, k.load1, k.load1)));
    b := TornBoxes();
    TornProcess(n, s, k, ui);
    Atomicity(n, s, START, b, k, ui);
    RunCerts(n, s, START, b, k, ui);
    var m := Process(n, s, START, b, k, ui).state.certs;
    assert m.slots[0].size == 1 && OwnerOnly().slots[0].size == 0;
    ImagesDiffer(OwnerOnly(), m);
  }

  lemma RunCerts(n: Names, s: State, f: Flags, b: Boxes, k: Clock, ui: bool)
    requires Sound(s) && FlagsFit(f, b) && ClockOk(k)
    requires Process(n, s, f, b, k, ui).verdict.Succeeds? && (Enrolls(b.id1) || Enrolls(b.id2))
    ensures Run(n, s, f, b, k, ui).state.certNv == Just(CertImage(Process(n, s, f, b, k, ui).state.certs))
  {
    hide Parse, Process, CompleteBothPermissions, CompleteBothIdentities, SlotWhole, CertImage, EntriesBytes, Enrolls;
    ProcessKeeps(n, s, f, b, k, ui);
    var r := Process(n, s, f, b, k, ui);
    PermissionsOutcome(r, k);
    IdentitiesOutcome(CompleteBothPermissions(r, k), r);
  }
}
