/** What the signers of the packets can change over whole runs and over any number of boots. */
module Signers {
  import opened Wrappers
  import opened Bits
  import opened Permissions
  import opened PermissionImage
  import opened PermissionFlash
  import opened Certificates
  import opened Mailbox
  import opened Enrollment

  // ---- The stores of a run ----

  /** The store after an identity packet. */
  function Enrolled(n: Names, s: State, p: Option<IdPacket>): Store {
    if !Enrolls(p) then s.store
    else IdentityChange(n, s.store, p.value.signer, p.value.identity,
                        p.value.identity == 0x80 && s.certs.populated & 0x80 == 0).1
  }

  /** The store after a permission packet, which acts for its own signer. */
  function Signed(s: Store, p: Option<PermPacket>): Result<Store> {
    if p.Nothing? then Ok(s) else Apply(s, p.value.signer, p.value.packet, p.value.v1Mode)
  }

  lemma IdentityStore(n: Names, s: State, p: Option<IdPacket>, g: Progress, ui: bool)
    requires |s.certs.slots| == 7 && ProcessIdentity(n, s, p, g, ui).verdict.Succeeds?
    ensures var t := ProcessIdentity(n, s, p, g, ui).state;
      && t.store == Enrolled(n, s, p)
      && t.certs.populated == if Enrolls(p) then s.certs.populated | p.value.identity else s.certs.populated
  {
    hide IdentityChange;
  }

  lemma PairStore(n: Names, s: State, id: Option<IdPacket>, perm: Option<PermPacket>, g: Progress, h: Progress,
                  now: seq<Byte>, ui: bool)
    requires |s.certs.slots| == 7 && ProcessPair(n, s, id, perm, g, h, now, ui).verdict.Succeeds?
    ensures var t := ProcessPair(n, s, id, perm, g, h, now, ui).state;
      && Signed(Enrolled(n, s, id), perm) == Ok(t.store)
      && t.certs.populated == if Enrolls(id) then s.certs.populated | id.value.identity else s.certs.populated
  {
    hide ProcessIdentity, Enrolled, Apply, Load;
    IdentityStore(n, s, id, g, ui);
  }

  /** The store in the permission variable. */
  ghost function Stored(s: State): Store
    requires Sound(s)
  {
    Parse(s.permNv.value).value.store
  }

  /** What the packets of a run that succeeds make of the store, and that this is what is stored if there is a
      permission packet and the store fits its variable. */
  lemma RunStores(n: Names, s: State, f: Flags, b: Boxes, k: Clock, ui: bool) returns (mid: State)
    requires Sound(s) && FlagsFit(f, b) && ClockOk(k) && Process(n, s, f, b, k, ui).verdict.Succeeds?
    ensures Sound(mid) && Signed(Enrolled(n, s, b.id1), b.perm1) == Ok(mid.store)
    ensures Signed(Enrolled(n, mid, b.id2), b.perm2) == Ok(Process(n, s, f, b, k, ui).state.store)
    ensures mid.certs.populated
         == if Enrolls(b.id1) then s.certs.populated | b.id1.value.identity else s.certs.populated
    ensures var m, t := Process(n, s, f, b, k, ui).state, Run(n, s, f, b, k, ui).state;
      && ShortIds(m.store.entries) && Sound(t)
      && (Writes(s, m, b) && (b.perm1.Just? || b.perm2.Just?) ==> Stored(t) == m.store)
      && (!(Writes(s, m, b) && (b.perm1.Just? || b.perm2.Just?)) ==> Stored(t) == Stored(s))
  {
    hide ProcessPair, Signed, Enrolled, Parse, CertImage, EntriesBytes, SlotWhole, Storable, Enrolls;
    PairKeeps(n, s, b.id1, b.perm1, f.id1, f.perm1, k.load1, ui);
    PairStore(n, s, b.id1, b.perm1, f.id1, f.perm1, k.load1, ui);
    mid := ProcessPair(n, s, b.id1, b.perm1, f.id1, f.perm1, k.load1, ui).state;
    PairStore(n, mid, b.id2, b.perm2, f.id2, f.perm2, k.load2, ui);
    Atomicity(n, s, f, b, k, ui);
  }

  // ---- When a run succeeds ----

  /** An identity packet that succeeds: there is none to enroll, or it is still present, authentic, approved if the user
      has to be asked, for an identity with a slot, and the permission store takes the change. */
  predicate IdReady(n: Names, s: State, p: Option<IdPacket>, g: Progress, ui: bool) {
    p.Nothing?
    || (&& p.value.decodes
        && (p.value.payload == []
            || (&& g.present && p.value.authentic && (p.value.asks ==> ui && p.value.approved)
                && p.value.identity in {0x08, 0x10, 0x20, 0x40, 0x80}
                && IdentityChange(n, s.store, p.value.signer, p.value.identity,
                                  p.value.identity == 0x80 && s.certs.populated & 0x80 == 0).0)))
  }

  /** A permission packet that succeeds: there is none, or it is still present, authentic and accepted. */
  predicate PermReady(s: Store, p: Option<PermPacket>, g: Progress) {
    p.Nothing? || (p.value.decodes && g.present && p.value.authentic && Signed(s, p).Ok?)
  }

  /** A packet waits if and only if it could be applied but for the user, who cannot be asked. */
  lemma IdentityVerdict(n: Names, s: State, p: Option<IdPacket>, g: Progress, ui: bool)
    requires |s.certs.slots| == 7
    ensures var v := ProcessIdentity(n, s, p, g, ui).verdict;
      && (v.Succeeds? <==> IdReady(n, s, p, g, ui))
      && (v.Waits? <==> && p.Just? && p.value.decodes && p.value.payload != [] && g.present && p.value.authentic
                        && p.value.asks && !ui)
  {
    hide IdentityChange;
  }

  lemma PairVerdict(n: Names, s: State, id: Option<IdPacket>, perm: Option<PermPacket>, g: Progress, h: Progress,
                    now: seq<Byte>, ui: bool)
    requires |s.certs.slots| == 7
    ensures ProcessPair(n, s, id, perm, g, h, now, ui).verdict.Succeeds?
       <==> IdReady(n, s, id, g, ui) && PermReady(Enrolled(n, s, id), perm, h)
  {
    hide ProcessIdentity, Enrolled, IdReady, Apply, Load;
    IdentityVerdict(n, s, id, g, ui);
    if IdReady(n, s, id, g, ui) {
      IdentityStore(n, s, id, g, ui);
    }
  }

  /** A run succeeds if and only if every packet does, on the stores that the packets before it have made; `mid` is the
      state after the first two. */
  lemma SucceedsExactly(n: Names, s: State, f: Flags, b: Boxes, k: Clock, ui: bool) returns (mid: State)
    requires Sound(s) && FlagsFit(f, b)
    ensures var first := IdReady(n, s, b.id1, f.id1, ui) && PermReady(Enrolled(n, s, b.id1), b.perm1, f.perm1);
      && (first ==>
            && Signed(Enrolled(n, s, b.id1), b.perm1) == Ok(mid.store)
            && mid.certs.populated
               == if Enrolls(b.id1) then s.certs.populated | b.id1.value.identity else s.certs.populated)
      && (Process(n, s, f, b, k, ui).verdict.Succeeds?
          <==> && first && IdReady(n, mid, b.id2, f.id2, ui)
               && PermReady(Enrolled(n, mid, b.id2), b.perm2, f.perm2))
  {
    hide ProcessPair, Enrolled, IdReady, PermReady, Signed, Parse, SlotWhole, Storable, Enrolls;
    PairKeeps(n, s, b.id1, b.perm1, f.id1, f.perm1, k.load1, ui);
    PairVerdict(n, s, b.id1, b.perm1, f.id1, f.perm1, k.load1, ui);
    var r := ProcessPair(n, s, b.id1, b.perm1, f.id1, f.perm1, k.load1, ui);
    mid := r.state;
    if r.verdict.Succeeds? {
      PairStore(n, s, b.id1, b.perm1, f.id1, f.perm1, k.load1, ui);
      PairVerdict(n, mid, b.id2, b.perm2, f.id2, f.perm2, k.load2, ui);
    }
  }

  // ---- What a packet cannot change ----

  /** The packet, if there is one, is not signed by who may change what holds for the id. */
  predicate Apart(s: Store, id: Id, p: Option<PermPacket>) {
    p.Just? ==> !Delegated(s, id, p.value.signer)
  }

  /** No enrollment is about the id. */
  predicate Outside(n: Names, id: Id) {
    id !in {n.ztdKey, n.ztdRecovery, n.ztdUnenroll, n.dfciRecovery} && (n.unsigned.Listed? ==> id !in n.unsigned.ids)
  }

  /** The same entry holds for the id, and the same signers may change it. */
  ghost predicate SameEntry(s: Store, t: Store, id: Id) {
    Lookup(t.entries, id) == Lookup(s.entries, id) && forall x :: Delegated(t, id, x) == Delegated(s, id, x)
  }

  lemma SignedApart(s: Store, p: Option<PermPacket>, id: Id)
    requires Added(s.entries) && Signed(s, p).Ok? && Apart(s, id, p)
    ensures SameEntry(s, Signed(s, p).value, id) && Query(Signed(s, p).value, id) == Query(s, id)
  {
    hide Apply, Has;
    if p.Just? {
      AddedUnmarked(s.entries);
      NonInterference(s, p.value.signer, p.value.packet, p.value.v1Mode, id);
      HeadExactly(s, p.value.signer, p.value.packet, p.value.v1Mode);
    }
  }

  lemma NeverAdded(es: seq<Entry>, id: Id)
    requires Added(es) && !PlainId(id)
    ensures Lookup(es, id) == Nothing
  {
    hide IsNumber;
    FindFromFirst(es, id, 0);
  }

  lemma EnrolledApart(n: Names, s: State, p: Option<IdPacket>, id: Id)
    requires Added(s.store.entries) && (Enrolls(p) ==> Outside(n, id))
    ensures Added(Enrolled(n, s, p).entries) && SameEntry(s.store, Enrolled(n, s, p), id)
    ensures !Enrolls(p) ==> Query(Enrolled(n, s, p), id) == Query(s.store, id)
  {
    hide IdentityChange, Has, Added, PlainId;
    if Enrolls(p) {
      var first := p.value.identity == 0x80 && s.certs.populated & 0x80 == 0;
      ChangeAdded(n, s.store, p.value.signer, p.value.identity, first);
      if PlainId(id) {
        EnrollExactly(n, s.store, p.value.signer, p.value.identity, first, id);
      } else {
        EnrollHead(n, s.store, p.value.signer, p.value.identity, first);
        NeverAdded(s.store.entries, id);
        NeverAdded(Enrolled(n, s, p).entries, id);
      }
    }
  }

  /** One run: what holds for an id that is not delegated to the signer of either permission packet is the same
      in the variable afterwards, whatever else happens, if no enrollment is about it. Without enrollments the same
      goes for the answer to a query. */
  lemma RunLeaves(n: Names, s: State, f: Flags, b: Boxes, k: Clock, ui: bool, id: Id)
    requires Sound(s) && FlagsFit(f, b) && ClockOk(k) && s.store == Stored(s)
    requires Apart(s.store, id, b.perm1) && Apart(s.store, id, b.perm2)
    requires Enrolls(b.id1) || Enrolls(b.id2) ==> Outside(n, id)
    ensures Sound(Run(n, s, f, b, k, ui).state)
    ensures var t := Stored(Run(n, s, f, b, k, ui).state);
      && SameEntry(Stored(s), t, id)
      && (!Enrolls(b.id1) && !Enrolls(b.id2) ==> Query(t, id) == Query(Stored(s), id))
  {
    hide Process, Run, Signed, Enrolled, Parse, SlotWhole, Lookup, Delegated, Query, Outside, Enrolls, Added;
    Atomicity(n, s, f, b, k, ui);
    if Process(n, s, f, b, k, ui).verdict.Succeeds? {
      var mid := RunStores(n, s, f, b, k, ui);
      EnrolledApart(n, s, b.id1, id);
      SignedApart(Enrolled(n, s, b.id1), b.perm1, id);
      EnrolledApart(n, mid, b.id2, id);
      SignedApart(Enrolled(n, mid, b.id2), b.perm2, id);
    }
  }

  // ---- What a packet changes ----

  /** Entry `i` is the only one of the packet for its id. */
  ghost predicate NamedOnce(p: PermPacket, i: nat) {
    var inputs := p.packet.inputs;
    && i < |inputs| && inputs[i].Input? && |inputs[i].id| <= 96
    && forall j :: 0 <= j < |inputs| && j != i && inputs[j].Input? ==> inputs[j].id != inputs[i].id
  }

  /** What holds for the id is delegated to the signer: the entry, or else the default; numbers are never added. */
  predicate MayChange(s: Store, dmask: Mask, signer: Mask, id: Id) {
    match Lookup(s.entries, id)
    case Just(e) => Has(signer, e.dmask)
    case Nothing => Has(signer, dmask) && !IsNumber(id)
  }

  /** The entry with the masks that the packet gives, the delegation as it was or to the signer if it gives none. */
  function Given(s: Store, signer: Mask, input: Input): Entry
    requires input.Input?
  {
    var e := Lookup(s.entries, input.id);
    Entry(input.id, input.pmask,
          if input.dmask != 0xFE then input.dmask else if e.Just? then e.value.dmask else signer, false)
  }

  /** The default delegation after the packet. */
  function DefaultAfter(s: Store, p: PermPacket): Mask {
    if p.packet.defaults.Defaults? && p.packet.defaults.dmask.Just? && Has(p.signer, s.dmask)
    then p.packet.defaults.dmask.value else s.dmask
  }

  lemma SignedTakesEffect(s: Store, p: PermPacket, i: nat)
    requires Signed(s, Just(p)).Ok? && NamedOnce(p, i)
    ensures var t, id := Signed(s, Just(p)).value, p.packet.inputs[i].id;
      && t.dmask == DefaultAfter(s, p)
      && (MayChange(s, t.dmask, p.signer, id) ==> Lookup(t.entries, id) == Just(Given(s, p.signer, p.packet.inputs[i])))
  {
    hide Apply, Lookup, Has;
    TakesEffect(s, p.signer, p.packet, p.v1Mode, i);
    HeadExactly(s, p.signer, p.packet, p.v1Mode);
  }

  /** Over a run that succeeds and writes the store: an id that the second permission packet names once gets exactly
      what that packet says if it is delegated to the packet's signer, and the first packet's signer has no say. */
  lemma SecondTakesEffect(n: Names, s: State, f: Flags, b: Boxes, k: Clock, ui: bool, i: nat)
    requires Sound(s) && FlagsFit(f, b) && ClockOk(k) && Process(n, s, f, b, k, ui).verdict.Succeeds?
    requires b.perm2.Just? && NamedOnce(b.perm2.value, i) && Apart(s.store, b.perm2.value.packet.inputs[i].id, b.perm1)
    requires Enrolls(b.id1) || Enrolls(b.id2) ==> Outside(n, b.perm2.value.packet.inputs[i].id)
    ensures ShortIds(Process(n, s, f, b, k, ui).state.store.entries) && Sound(Run(n, s, f, b, k, ui).state)
    ensures var p, t := b.perm2.value, Stored(Run(n, s, f, b, k, ui).state);
      var input := p.packet.inputs[i];
      Writes(s, Process(n, s, f, b, k, ui).state, b) && MayChange(s.store, t.dmask, p.signer, input.id) ==>
        Lookup(t.entries, input.id) == Just(Given(s.store, p.signer, input))
  {
    hide Process, Run, Signed, Enrolled, Parse, SlotWhole, Lookup, Delegated, Outside, Enrolls, Added,
         DefaultAfter, IsNumber, Has;
    var p, id := b.perm2.value, b.perm2.value.packet.inputs[i].id;
    var mid := RunStores(n, s, f, b, k, ui);
    EnrolledApart(n, s, b.id1, id);
    SignedApart(Enrolled(n, s, b.id1), b.perm1, id);
    EnrolledApart(n, mid, b.id2, id);
    SignedTakesEffect(Enrolled(n, mid, b.id2), p, i);
  }

  /** The same for the first permission packet, if what it makes of the id is not delegated to the second's signer. */
  lemma FirstTakesEffect(n: Names, s: State, f: Flags, b: Boxes, k: Clock, ui: bool, i: nat)
    requires Sound(s) && FlagsFit(f, b) && ClockOk(k) && Process(n, s, f, b, k, ui).verdict.Succeeds?
    requires b.perm1.Just? && NamedOnce(b.perm1.value, i)
    requires var p := b.perm1.value; var input := p.packet.inputs[i];
      && MayChange(s.store, DefaultAfter(s.store, p), p.signer, input.id)
      && (b.perm2.Just? ==> !Has(b.perm2.value.signer, Given(s.store, p.signer, input).dmask))
      && (Enrolls(b.id1) || Enrolls(b.id2) ==> Outside(n, input.id))
    ensures ShortIds(Process(n, s, f, b, k, ui).state.store.entries) && Sound(Run(n, s, f, b, k, ui).state)
    ensures var p, t := b.perm1.value, Stored(Run(n, s, f, b, k, ui).state);
      var input := p.packet.inputs[i];
      Writes(s, Process(n, s, f, b, k, ui).state, b) ==>
        Lookup(t.entries, input.id) == Just(Given(s.store, p.signer, input))
  {
    hide Process, Run, Signed, Enrolled, Parse, SlotWhole, Outside, Enrolls, Added, IsNumber, Has;
    var p, id := b.perm1.value, b.perm1.value.packet.inputs[i].id;
    var mid := RunStores(n, s, f, b, k, ui);
    EnrolledApart(n, s, b.id1, id);
    EnrolledHead(n, s, b.id1);
    SignedTakesEffect(Enrolled(n, s, b.id1), p, i);
    EnrolledApart(n, mid, b.id2, id);
    SignedApart(Enrolled(n, mid, b.id2), b.perm2, id);
  }

  lemma EnrolledHead(n: Names, s: State, p: Option<IdPacket>)
    ensures Enrolled(n, s, p).dmask == s.store.dmask
  {
    hide IdentityChange;
    if Enrolls(p) {
      var first := p.value.identity == 0x80 && s.certs.populated & 0x80 == 0;
      EnrollHead(n, s.store, p.value.signer, p.value.identity, first);
    }
  }

  // ---- Over any number of boots ----

  /** The packets of a boot, and those of the run at the end of its driver phase, if there is a user interface. */
  datatype Session = Session(boxes: Boxes, clock: Clock, ui: bool, late: Option<Late>)

  predicate SessionOk(x: Session) {
    ClockOk(x.clock) && (x.late.Just? ==> ClockOk(x.late.value.clock) && Again(x.boxes, x.late.value.boxes))
  }

  const NO_CERT := Slot(Nothing, 0)

  /** The table of certificates before anything is loaded. */
  const NO_CERTS := Certs(0, 0, 0x01, [NO_CERT, NO_CERT, NO_CERT, NO_CERT, NO_CERT, NO_CERT, NO_CERT])

  /** A boot begins with what the variables hold. */
  ghost function Restarted(s: State): State
    requires Sound(s)
  {
    s.(certs := LoadVariable(s.certNv, NO_CERTS).certs, store := Stored(s), modified := false)
  }

  lemma RestartedSound(s: State)
    requires Sound(s)
    ensures Sound(Restarted(s)) && Restarted(s).store == Stored(Restarted(s)) == Stored(s)
  {
    hide Parse, LoadVariable;
    ParseStorable(s.permNv.value);
    LoadWhole(s.certNv, NO_CERTS);
  }

  /** No packet of the boot is signed by who may change what holds for the id, and no enrollment is about it. */
  predicate Strange(n: Names, s: Store, b: Boxes, id: Id) {
    Apart(s, id, b.perm1) && Apart(s, id, b.perm2) && (Enrolls(b.id1) || Enrolls(b.id2) ==> Outside(n, id))
  }

  predicate StrangeSession(n: Names, s: Store, x: Session, id: Id) {
    Strange(n, s, x.boxes, id) && (x.late.Just? ==> Strange(n, s, x.late.value.boxes, id))
  }

  ghost function Booted(n: Names, s: State, x: Session): (t: State)
    requires Sound(s) && SessionOk(x)
    ensures Sound(t)
  {
    RestartedSound(s);
    BootSound(n, Restarted(s), x);
    Boot(n, Restarted(s), x.boxes, x.clock, x.ui, x.late).state
  }

  lemma BootSound(n: Names, s: State, x: Session)
    requires Sound(s) && SessionOk(x)
    ensures Sound(Boot(n, s, x.boxes, x.clock, x.ui, x.late).state)
  {
    hide Parse, Run, Process, SlotWhole, Storable, Again;
    Atomicity(n, s, START, x.boxes, x.clock, x.ui);
    var w := Run(n, s, START, x.boxes, x.clock, x.ui);
    if w.verdict.Waits? && x.late.Just? {
      Rerun(n, s, x.boxes, x.clock, x.ui, x.late.value.boxes, x.late.value.clock);
      Atomicity(n, w.state, w.flags, x.late.value.boxes, x.late.value.clock, true);
    }
  }

  /** One boot, with the run that may follow at the end of the driver phase. */
  lemma BootLeaves(n: Names, s: State, x: Session, id: Id)
    requires Sound(s) && SessionOk(x) && StrangeSession(n, Stored(s), x, id)
    ensures SameEntry(Stored(s), Stored(Booted(n, s, x)), id)
  {
    hide Parse, Run, Process, LoadVariable, SlotWhole, Storable, Again, Lookup, Delegated, Query, Apart, Outside,
         Enrolls;
    RestartedSound(s);
    var r := Restarted(s);
    RunLeaves(n, r, START, x.boxes, x.clock, x.ui, id);
    Atomicity(n, r, START, x.boxes, x.clock, x.ui);
    if Run(n, r, START, x.boxes, x.clock, x.ui).verdict.Waits? && x.late.Just? {
      var c, l := x.late.value.boxes, x.late.value.clock;
      Rerun(n, r, x.boxes, x.clock, x.ui, c, l);
      RunLeaves(n, r, START, c, l, true, id);
    }
  }

  /** The state after the first `i` boots. */
  ghost function Boots(n: Names, s: State, xs: seq<Session>, i: nat): (t: State)
    requires Sound(s) && i <= |xs| && forall j :: 0 <= j < |xs| ==> SessionOk(xs[j])
    ensures Sound(t)
  {
    if i == 0 then s else Booted(n, Boots(n, s, xs, i - 1), xs[i - 1])
  }

  /** Over any number of boots: as long as no packet is signed by who may change what holds for an id, and no enrollment
      is about it, the permission variable holds the same entry for it, delegated to the same signers. */
  lemma {:induction false} UndelegatedForever(n: Names, s: State, xs: seq<Session>, i: nat, id: Id)
    requires Sound(s) && i <= |xs| && forall j :: 0 <= j < |xs| ==> SessionOk(xs[j])
    requires forall j :: 0 <= j < i ==> StrangeSession(n, Stored(s), xs[j], id)
    ensures SameEntry(Stored(s), Stored(Boots(n, s, xs, i)), id)
  {
    hide Stored, Booted, Sound, SessionOk, StrangeSession, Lookup, Delegated;
    if i > 0 {
      var t := Boots(n, s, xs, i - 1);
      UndelegatedForever(n, s, xs, i - 1, id);
      StrangeStays(n, Stored(s), Stored(t), xs[i - 1], id);
      BootLeaves(n, t, xs[i - 1], id);
    }
  }

  lemma StrangeStays(n: Names, s: Store, t: Store, x: Session, id: Id)
    requires SameEntry(s, t, id) && StrangeSession(n, s, x, id)
    ensures StrangeSession(n, t, x, id)
  {
    hide Delegated, Lookup, Outside, Enrolls;
  }
}
