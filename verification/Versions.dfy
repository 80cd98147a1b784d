/** Lowest supported versions of the permissions over whole runs: they never go back, and no accepted packet is
    older than a committed one allows. */
module Versions {
  import opened Wrappers
  import opened Bits
  import opened Permissions
  import opened PermissionImage
  import opened PermissionFlash
  import opened Certificates
  import opened Mailbox

  /** What can happen to the two stores, in any order: a permission packet, an identity packet, and the completions
      of either kind. Every event has times of its own. */
  datatype Event =
    | Receive(packet: PermPacket, now: seq<Byte>)
    | Enroll(id: IdPacket, ui: bool)
    | Complete(commit: bool, times: Times)
    | CompleteCerts(commit: bool)

  /** The state, with the LSVs of the packets that were accepted since the last reload and of those that were
      committed. */
  datatype History = History(state: State, pending: seq<nat>, committed: seq<nat>)

  predicate Accepts(s: State, e: Event) {
    e.Receive? && ProcessPermissions(s, Just(e.packet), PENDING, e.now).verdict.Succeeds?
  }

  /** Well formed times. */
  predicate Timed(e: Event) {
    (e.Receive? ==> |e.now| == 16) && (e.Complete? ==> TimesOk(e.times))
  }

  function ReceiveStep(h: History, p: PermPacket, now: seq<Byte>): History {
    var o := ProcessPermissions(h.state, Just(p), PENDING, now);
    if o.verdict.Succeeds? then History(o.state, h.pending + [p.packet.lsv], h.committed)
    else History(o.state, if p.decodes && p.authentic then [] else h.pending, h.committed)
  }

  function CompleteStep(h: History, commit: bool, t: Times): History
    requires ShortIds(h.state.store.entries)
  {
    var saved := commit && Save(h.state.permNv, h.state.store, h.state.modified, t.created, t.now).ok;
    History(CompletePermissions(h.state, true, commit, t), [], if saved then h.committed + h.pending else h.committed)
  }

  function Step(n: Names, h: History, e: Event): History
    requires ShortIds(h.state.store.entries) && |h.state.certs.slots| == 7
  {
    match e
    case Receive(p, now) => ReceiveStep(h, p, now)
    case Enroll(p, ui) => h.(state := ProcessIdentity(n, h.state, Just(p), PENDING, ui).state)
    case Complete(commit, t) => CompleteStep(h, commit, t)
    case CompleteCerts(commit) => h.(state := CompleteIdentity(h.state, true, commit))
  }

  /** The LSV in a variable that can be loaded. */
  function NvLsv(nv: Variable): nat
    requires nv.Just? && Parse(nv.value).Ok?
  {
    Parse(nv.value).value.store.lsv
  }

  ghost predicate AtMost(xs: seq<nat>, y: nat) {
    forall i :: 0 <= i < |xs| ==> xs[i] <= y
  }

  /** The permission variable can be loaded, in whatever format, and the LSV in memory is at least the persisted
      one. */
  ghost predicate Running(s: State) {
    && Storable(s.store) && CertsWhole(s.certs) && s.permNv.Just? && Parse(s.permNv.value).Ok?
    && NvLsv(s.permNv) <= s.store.lsv <= s.store.version
  }

  /** Both LSVs bound the LSVs of the packets they stand for. */
  ghost predicate Valid(h: History) {
    && Running(h.state)
    && AtMost(h.pending, h.state.store.lsv) && AtMost(h.committed, NvLsv(h.state.permNv))
    && (h.pending != [] ==> h.state.modified)
  }

  /** A reload, with the migration it may do, keeps the persisted LSV. */
  lemma ReloadRuns(s: State, now: seq<Byte>)
    requires Running(s) && |now| == 16
    ensures var t := Reload(s, now); Running(t) && NvLsv(t.permNv) == NvLsv(s.permNv)
  {
    hide Parse, Image, SlotWhole;
    var b := s.permNv.value;
    ParseStorable(b);
    var l := Parse(b).value;
    if l.format != 4 && |Image(4, Migrate(l), b[13..29], now)| <= 2048 {
      SaveThenParse(s.permNv, Migrate(l), b[13..29], now);
    }
  }

  lemma CompleteValid(h: History, commit: bool, t: Times)
    requires Valid(h) && TimesOk(t)
    ensures var h' := CompleteStep(h, commit, t); Valid(h') && NvLsv(h.state.permNv) <= NvLsv(h'.state.permNv)
  {
    hide Parse, Image, SlotWhole;
    var s := h.state;
    ReloadRuns(s, t.again);
    if s.modified && |Image(4, s.store, t.created, t.now)| <= 2048 {
      SaveThenParse(s.permNv, s.store, t.created, t.now);
    }
  }

  /** An accepted packet is not older than the LSV in memory, and its own LSV counts from then on. */
  lemma AcceptedVersions(s: Store, identity: Mask, p: Packet, v1Mode: bool)
    requires Storable(s) && Apply(s, identity, p, v1Mode).Ok? && s.lsv <= s.version
    ensures var t := Apply(s, identity, p, v1Mode).value;
      Storable(t) && s.lsv <= p.version && s.lsv <= t.lsv <= t.version && p.lsv <= t.lsv
  {
    hide ApplyInputs, Sweep;
    ApplyStorable(s, identity, p, v1Mode);
    BeforeSweepEvolves(s, identity, p, v1Mode);
  }

  lemma ReceiveValid(h: History, p: PermPacket, now: seq<Byte>)
    requires Valid(h) && |now| == 16
    ensures var h' := ReceiveStep(h, p, now); Valid(h') && NvLsv(h.state.permNv) <= NvLsv(h'.state.permNv)
    ensures ProcessPermissions(h.state, Just(p), PENDING, now).verdict.Succeeds? ==>
      h.state.store.lsv <= p.packet.version && AtMost(h.committed, p.packet.version)
  {
    hide Parse, Apply, Load, Storable, SlotWhole;
    ReloadRuns(h.state, now);
    if Apply(h.state.store, p.signer, p.packet, p.v1Mode).Ok? {
      AcceptedVersions(h.state.store, p.signer, p.packet, p.v1Mode);
    }
  }

  lemma EnrollValid(n: Names, h: History, p: IdPacket, ui: bool)
    requires Valid(h)
    ensures var s := ProcessIdentity(n, h.state, Just(p), PENDING, ui).state;
      Valid(h.(state := s)) && s.permNv == h.state.permNv
  {
    hide Parse, IdentityChange, Added;
    ChangeAdded(n, h.state.store, p.signer, p.identity, FirstOwner(h.state.certs.populated, p.identity));
  }

  /** Every event keeps the invariant, and the persisted LSV does not go down. */
  lemma StepValid(n: Names, h: History, e: Event)
    requires Valid(h) && Timed(e)
    ensures var h' := Step(n, h, e); Valid(h') && NvLsv(h.state.permNv) <= NvLsv(h'.state.permNv)
  {
    hide Parse, ReceiveStep, CompleteStep, ProcessIdentity, CompleteIdentity, SlotWhole, Storable;
    match e
    case Receive(p, now) => ReceiveValid(h, p, now);
    case Enroll(p, ui) => EnrollValid(n, h, p, ui);
    case Complete(commit, t) => CompleteValid(h, commit, t);
    case CompleteCerts(commit) => IdentityWhole(h.state, true, commit);
  }

  /** The history after the first `i` events. */
  ghost function After(n: Names, h: History, es: seq<Event>, i: nat): (r: History)
    requires Valid(h) && i <= |es| && forall j :: 0 <= j < |es| ==> Timed(es[j])
    ensures Valid(r)
  {
    if i == 0 then h
    else
      StepValid(n, After(n, h, es, i - 1), es[i - 1]);
      Step(n, After(n, h, es, i - 1), es[i - 1])
  }

  /** Over every run: the persisted LSV never decreases. */
  lemma {:induction false} PersistedLsvGrows(n: Names, h: History, es: seq<Event>, i: nat, j: nat)
    requires Valid(h) && i <= j <= |es| && forall k :: 0 <= k < |es| ==> Timed(es[k])
    ensures NvLsv(After(n, h, es, i).state.permNv) <= NvLsv(After(n, h, es, j).state.permNv)
    decreases j
  {
    hide Parse, AtMost, Storable, SlotWhole, Step;
    if i < j {
      PersistedLsvGrows(n, h, es, i, j - 1);
      StepValid(n, After(n, h, es, j - 1), es[j - 1]);
    }
  }

  lemma RunningShort(s: State)
    requires Running(s)
    ensures ShortIds(s.store.entries)
  {
  }

  lemma StepCommitted(n: Names, h: History, e: Event)
    requires ShortIds(h.state.store.entries) && |h.state.certs.slots| == 7
    ensures h.committed <= Step(n, h, e).committed
  {
    hide ProcessPermissions, CompletePermissions, ProcessIdentity, CompleteIdentity, Save;
  }

  /** What was committed stays committed. */
  lemma {:induction false} CommittedGrows(n: Names, h: History, es: seq<Event>, i: nat, j: nat)
    requires Valid(h) && i <= j <= |es| && forall k :: 0 <= k < |es| ==> Timed(es[k])
    ensures After(n, h, es, i).committed <= After(n, h, es, j).committed
    decreases j
  {
    hide Parse, AtMost, Storable, SlotWhole, Step;
    if i < j {
      CommittedGrows(n, h, es, i, j - 1);
      assert ShortIds(After(n, h, es, j - 1).state.store.entries) by { RunningShort(After(n, h, es, j - 1).state); }
      StepCommitted(n, After(n, h, es, j - 1), es[j - 1]);
    }
  }

  /** Over every run: an accepted packet has at least the LSV of every packet committed before it and the LSV
      that was persisted at any time before it. */
  lemma AcceptedIsRecent(n: Names, h: History, es: seq<Event>, i: nat, j: nat)
    requires Valid(h) && i <= j < |es| && forall k :: 0 <= k < |es| ==> Timed(es[k])
    requires Accepts(After(n, h, es, j).state, es[j])
    ensures AtMost(After(n, h, es, i).committed, es[j].packet.packet.version)
    ensures NvLsv(After(n, h, es, i).state.permNv) <= es[j].packet.packet.version
  {
    hide Parse, Storable, SlotWhole, Step, ProcessPermissions;
    var t := After(n, h, es, j);
    ReceiveValid(t, es[j].packet, es[j].now);
    PersistedLsvGrows(n, h, es, i, j);
    CommittedGrows(n, h, es, i, j);
  }

  // ---- Recent packets are accepted ----

  lemma ReloadLsv(s: State, now: seq<Byte>)
    requires Running(s) && |now| == 16
    ensures Reload(s, now).store.lsv == NvLsv(s.permNv)
  {
    hide Parse, Save;
    ParseStorable(s.permNv.value);
  }

  /** Where the LSVs come from: the one in memory stays, is read from the variable or is that of a packet just
      accepted, and the persisted one stays or is the one in memory. */
  lemma StepLsv(n: Names, h: History, e: Event)
    requires Valid(h) && Timed(e)
    ensures ShortIds(h.state.store.entries)
    ensures var t := Step(n, h, e).state;
      && t.permNv.Just? && Parse(t.permNv.value).Ok?
      && (|| t.store.lsv == h.state.store.lsv || t.store.lsv == NvLsv(h.state.permNv)
          || (Accepts(h.state, e) && t.store.lsv == e.packet.packet.lsv))
      && (NvLsv(t.permNv) == NvLsv(h.state.permNv) || NvLsv(t.permNv) == h.state.store.lsv)
  {
    hide Parse, ReceiveStep, CompleteStep, ProcessIdentity, CompleteIdentity, SlotWhole, Storable, AtMost, Accepts;
    RunningShort(h.state);
    StepValid(n, h, e);
    match e
    case Receive(p, now) => ReceiveLsv(h, p, now);
    case Enroll(p, ui) => EnrollLsv(n, h, p, ui);
    case Complete(commit, t) => CompleteLsv(h, commit, t);
    case CompleteCerts(commit) => IdentityWhole(h.state, true, commit);
  }

  lemma ReceiveLsv(h: History, p: PermPacket, now: seq<Byte>)
    requires Valid(h) && |now| == 16
    ensures var t := ReceiveStep(h, p, now).state;
      && Running(t) && NvLsv(t.permNv) == NvLsv(h.state.permNv)
      && (|| t.store.lsv == h.state.store.lsv || t.store.lsv == NvLsv(h.state.permNv)
          || (Accepts(h.state, Receive(p, now)) && t.store.lsv == p.packet.lsv))
  {
    hide Parse, Apply, Load, Storable, SlotWhole, AtMost;
    ReceiveValid(h, p, now);
    ReloadRuns(h.state, now);
    ReloadLsv(h.state, now);
    if Apply(h.state.store, p.signer, p.packet, p.v1Mode).Ok? {
      HeadExactly(h.state.store, p.signer, p.packet, p.v1Mode);
    }
  }

  lemma EnrollLsv(n: Names, h: History, p: IdPacket, ui: bool)
    requires Valid(h)
    ensures var t := ProcessIdentity(n, h.state, Just(p), PENDING, ui).state;
      t.store.lsv == h.state.store.lsv && t.permNv == h.state.permNv
  {
    hide Parse, IdentityChange, Added, SlotWhole;
    ChangeAdded(n, h.state.store, p.signer, p.identity, FirstOwner(h.state.certs.populated, p.identity));
  }

  lemma CompleteLsv(h: History, commit: bool, k: Times)
    requires Valid(h) && TimesOk(k) && ShortIds(h.state.store.entries)
    ensures var t := CompleteStep(h, commit, k).state;
      && Running(t)
      && (t.store.lsv == h.state.store.lsv || t.store.lsv == NvLsv(h.state.permNv))
      && (NvLsv(t.permNv) == NvLsv(h.state.permNv) || NvLsv(t.permNv) == h.state.store.lsv)
  {
    hide Parse, Image, SlotWhole, AtMost, Load;
    CompleteValid(h, commit, k);
    var s := h.state;
    ReloadRuns(s, k.again);
    ReloadLsv(s, k.again);
    if s.modified && |Image(4, s.store, k.created, k.now)| <= 2048 {
      SaveThenParse(s.permNv, s.store, k.created, k.now);
    }
  }

  /** At most the LSV the store had at first, or that of a packet accepted before event `i`. */
  ghost predicate Reached(n: Names, h: History, es: seq<Event>, i: nat, lsv: nat)
    requires Valid(h) && i <= |es| && forall j :: 0 <= j < |es| ==> Timed(es[j])
  {
    || lsv <= h.state.store.lsv
    || exists k :: 0 <= k < i && Accepts(After(n, h, es, k).state, es[k]) && lsv == es[k].packet.packet.lsv
  }

  lemma ReachedNext(n: Names, h: History, es: seq<Event>, i: nat, lsv: nat)
    requires Valid(h) && i < |es| && forall j :: 0 <= j < |es| ==> Timed(es[j])
    ensures Reached(n, h, es, i, lsv) ==> Reached(n, h, es, i + 1, lsv)
    ensures Accepts(After(n, h, es, i).state, es[i]) ==> Reached(n, h, es, i + 1, es[i].packet.packet.lsv)
  {
    hide Valid, After, Timed, Accepts;
    if Accepts(After(n, h, es, i).state, es[i]) {
      AcceptsReceived(After(n, h, es, i).state, es[i]);
    }
  }

  lemma AcceptsReceived(s: State, e: Event)
    requires Accepts(s, e)
    ensures e.Receive?
  {
  }

  lemma AfterNext(n: Names, h: History, es: seq<Event>, i: nat)
    requires Valid(h) && i < |es| && forall j :: 0 <= j < |es| ==> Timed(es[j])
    ensures var t := After(n, h, es, i);
      ShortIds(t.state.store.entries) && |t.state.certs.slots| == 7 && After(n, h, es, i + 1) == Step(n, t, es[i])
  {
    hide Parse, AtMost, Storable, SlotWhole, Step, Timed;
    RunningShort(After(n, h, es, i).state);
  }

  lemma {:induction false} LsvReached(n: Names, h: History, es: seq<Event>, i: nat)
    requires Valid(h) && i <= |es| && forall j :: 0 <= j < |es| ==> Timed(es[j])
    ensures Reached(n, h, es, i, After(n, h, es, i).state.store.lsv)
    ensures Reached(n, h, es, i, NvLsv(After(n, h, es, i).state.permNv))
  {
    hide Parse, Storable, SlotWhole, Step, Accepts, AtMost, Reached, Timed;
    if i == 0 {
      ReachedFirst(n, h, es);
    } else {
      var k := i - 1;
      var t := After(n, h, es, k);
      LsvReached(n, h, es, k);
      StepLsv(n, t, es[k]);
      AfterNext(n, h, es, k);
      ReachedNext(n, h, es, k, t.state.store.lsv);
      ReachedNext(n, h, es, k, NvLsv(t.state.permNv));
    }
  }

  lemma ReachedFirst(n: Names, h: History, es: seq<Event>)
    requires Valid(h) && forall j :: 0 <= j < |es| ==> Timed(es[j])
    ensures Reached(n, h, es, 0, h.state.store.lsv) && Reached(n, h, es, 0, NvLsv(h.state.permNv))
  {
    hide Parse, Storable, SlotWhole, AtMost;
  }

  /** A permission packet with nothing wrong in itself. */
  ghost predicate WellFormed(p: PermPacket) {
    && p.decodes && p.authentic && (p.packet.append ==> !p.v1Mode)
    && p.packet.lsv <= p.packet.version <= 0xFFFF_FFFF && !p.packet.defaults.BadDefaults?
    && forall i :: 0 <= i < |p.packet.inputs| ==> p.packet.inputs[i].Input? && !TooLong(p.packet.inputs[i])
  }

  /** Over every run: a packet with nothing wrong in itself is accepted if its version is at least the LSV the store had
      at first and the LSV of every packet accepted since. */
  lemma RecentIsAccepted(n: Names, h: History, es: seq<Event>, j: nat)
    requires Valid(h) && j < |es| && forall k :: 0 <= k < |es| ==> Timed(es[k])
    requires es[j].Receive? && WellFormed(es[j].packet) && h.state.store.lsv <= es[j].packet.packet.version
    requires forall k :: 0 <= k < j && Accepts(After(n, h, es, k).state, es[k]) ==>
      es[k].packet.packet.lsv <= es[j].packet.packet.version
    ensures Accepts(After(n, h, es, j).state, es[j])
  {
    hide Parse, Storable, SlotWhole, Step, AtMost, Apply, Load, After, TooLong;
    LsvReached(n, h, es, j);
    var p := es[j].packet;
    AcceptedExactly(After(n, h, es, j).state.store, p.signer, p.packet, p.v1Mode);
  }
}
