/** Groups of settings, the resumable search for the groups of a setting, and the write permission rule. */
module Groups {
  import opened Wrappers
  import opened Permissions
  import opened PermissionStore

  /** Group and member names are compared up to 96 characters. */
  function Cut(s: Id): Id {
    if |s| <= 96 then s else s[..96]
  }

  predicate Same(a: Id, b: Id) {
    Cut(a) == Cut(b)
  }

  /** Names are the same if and only if they are equal, or both have 96 characters and more and the first 96 agree. */
  lemma SameExactly(a: Id, b: Id)
    ensures Same(a, b) <==>
      && (|a| == |b| || (|a| >= 96 && |b| >= 96))
      && forall i :: 0 <= i < 96 && i < |a| && i < |b| ==> a[i] == b[i]
  {
    if Same(a, b) {
      forall i | 0 <= i < 96 && i < |a| && i < |b|
        ensures a[i] == b[i]
      {
        assert Cut(a)[i] == a[i] && Cut(b)[i] == b[i];
      }
    } else if |a| == |b| || (|a| >= 96 && |b| >= 96) {
      assert |Cut(a)| == |Cut(b)|;
      var i :| 0 <= i < |Cut(a)| && Cut(a)[i] != Cut(b)[i];
      assert a[i] != b[i];
    }
  }

  /** A registered group, or an entry of the platform's table of groups. */
  datatype Group = Group(id: Id, members: seq<Id>)

  predicate Lists(members: seq<Id>, id: Id) {
    exists i :: 0 <= i < |members| && Same(id, members[i])
  }

  // ---- The cursor ----

  /** The first group from `i` on that the setting is a member of, or -1. */
  function NextGroup(gs: seq<Group>, id: Id, i: nat): (k: int)
    ensures k == -1 || i <= k < |gs|
    decreases |gs| - i
  {
    if i >= |gs| then -1 else if Lists(gs[i].members, id) then i else NextGroup(gs, id, i + 1)
  }

  lemma {:induction false} NextGroupFirst(gs: seq<Group>, id: Id, i: nat)
    ensures var k := NextGroup(gs, id, i);
      if k == -1 then forall j :: i <= j < |gs| ==> !Lists(gs[j].members, id)
      else Lists(gs[k].members, id) && forall j :: i <= j < k ==> !Lists(gs[j].members, id)
    decreases |gs| - i
  {
    if i < |gs| && !Lists(gs[i].members, id) {
      NextGroupFirst(gs, id, i + 1);
    }
  }

  /** The groups that repeated calls with the returned key visit from `i` on. */
  function Walk(gs: seq<Group>, id: Id, i: nat): seq<nat>
    decreases |gs| - i
  {
    var k := NextGroup(gs, id, i);
    if k < 0 then [] else [k] + Walk(gs, id, k + 1)
  }

  /** The groups of a setting, in the order of the list. */
  function Containing(gs: seq<Group>, id: Id, i: nat): seq<nat>
    decreases |gs| - i
  {
    if i >= |gs| then []
    else if Lists(gs[i].members, id) then [i] + Containing(gs, id, i + 1)
    else Containing(gs, id, i + 1)
  }

  /** The cursor visits every group of the setting once, in order, and stops. */
  lemma {:induction false} WalkVisitsAll(gs: seq<Group>, id: Id, i: nat)
    ensures Walk(gs, id, i) == Containing(gs, id, i)
    decreases |gs| - i
  {
    hide Lists;
    if i < |gs| {
      WalkVisitsAll(gs, id, i + 1);
      if Lists(gs[i].members, id) {
        assert NextGroup(gs, id, i) == i;
      } else {
        assert NextGroup(gs, id, i) == NextGroup(gs, id, i + 1);
      }
    }
  }

  // ---- The rule ----

  /** The setting is a member of group `i`, and that group has an entry of its own in the store. */
  predicate Explicit(gs: seq<Group>, s: Store, id: Id, i: nat) {
    i < |gs| && Lists(gs[i].members, id) && Find(s.entries, gs[i].id) >= 0
  }

  predicate GroupAllows(gs: seq<Group>, s: Store, identity: Mask, i: nat)
    requires i < |gs|
  {
    Has(identity, Query(s, gs[i].id))
  }

  /** If a group of the setting has an entry, every such group must allow the identity; otherwise the
      setting's own entry or the default decides. */
  ghost predicate MayWrite(gs: seq<Group>, s: Store, id: Id, identity: Mask) {
    if exists i :: Explicit(gs, s, id, i)
    then forall i :: Explicit(gs, s, id, i) ==> GroupAllows(gs, s, identity, i)
    else Has(identity, Query(s, id))
  }

  // ---- Non-interference ----

  /** Neither the setting nor any group it is in is delegated to the signer. */
  ghost predicate Untouchable(gs: seq<Group>, s: Store, id: Id, signer: Mask) {
    && !Delegated(s, id, signer)
    && forall i :: 0 <= i < |gs| && Lists(gs[i].members, id) ==> !Delegated(s, gs[i].id, signer)
  }

  /** Stores that agree on a setting and on the entries of its groups give the same write permissions. */
  lemma SameRule(gs: seq<Group>, s: Store, t: Store, id: Id, identity: Mask)
    requires forall i :: 0 <= i < |gs| && Lists(gs[i].members, id) ==>
      Lookup(t.entries, gs[i].id) == Lookup(s.entries, gs[i].id)
    requires Query(t, id) == Query(s, id) || exists i :: Explicit(gs, s, id, i)
    ensures MayWrite(gs, t, id, identity) <==> MayWrite(gs, s, id, identity)
  {
    hide Find, Has, Lists;
    forall i: nat
      ensures Explicit(gs, t, id, i) <==> Explicit(gs, s, id, i)
      ensures Explicit(gs, s, id, i) ==> (GroupAllows(gs, t, identity, i) <==> GroupAllows(gs, s, identity, i))
    {
      if i < |gs| && Lists(gs[i].members, id) {
        assert Lookup(t.entries, gs[i].id) == Lookup(s.entries, gs[i].id);
      }
    }
  }

  /** No packet changes who may write a setting if neither the setting nor any of its groups is delegated to the
      signer. */
  lemma WritesUnchanged(gs: seq<Group>, s: Store, signer: Mask, p: Packet, v1Mode: bool, id: Id, identity: Mask)
    requires Apply(s, signer, p, v1Mode).Ok? && NoMarks(s.entries) && Untouchable(gs, s, id, signer)
    ensures MayWrite(gs, Apply(s, signer, p, v1Mode).value, id, identity) <==> MayWrite(gs, s, id, identity)
  {
    hide Apply, Query, Lookup, Delegated, MayWrite, Lists;
    NonInterference(s, signer, p, v1Mode, id);
    forall i | 0 <= i < |gs| && Lists(gs[i].members, id)
      ensures Lookup(Apply(s, signer, p, v1Mode).value.entries, gs[i].id) == Lookup(s.entries, gs[i].id)
    {
      NonInterference(s, signer, p, v1Mode, gs[i].id);
    }
    SameRule(gs, s, Apply(s, signer, p, v1Mode).value, id, identity);
  }

  /** The packet that adds an entry for a group. */
  function AddGroup(s: Store, groupId: Id, mask: Mask): Packet {
    Packet(s.lsv, 0, true, NoDefaults, [Input(groupId, mask, NOT_SPECIFIED)])
  }

  lemma AddGroupApplies(s: Store, signer: Mask, groupId: Id, mask: Mask)
    requires s.lsv <= 0xFFFF_FFFF && NoMarks(s.entries) && Has(signer, s.dmask)
    requires Find(s.entries, groupId) < 0 && !IsNumber(groupId) && |groupId| <= 96
    ensures var r := Apply(s, signer, AddGroup(s, groupId, mask), false);
      r.Ok? && Lookup(r.value.entries, groupId) == Just(Entry(groupId, mask, signer, false))
  {
    hide Has, Sweep, Lookup;
    var p := AddGroup(s, groupId, mask);
    OneInput(Begin(s, signer, p), signer, p.inputs[0]);
    TakesEffect(s, signer, p, false, 0);
    LookupNone(s.entries, groupId);
  }

  lemma LookupNone(es: seq<Entry>, id: Id)
    requires Find(es, id) < 0
    ensures Lookup(es, id) == Nothing
  {
  }

  /** The condition is needed: if the default is delegated to the signer and the one group of a setting has no entry,
      a packet that adds one decides alone who may write the setting, whatever the setting's own entry says and
      whoever it is delegated to. */
  lemma GroupOverrides(gs: seq<Group>, s: Store, signer: Mask, id: Id, g: nat, mask: Mask, identity: Mask)
    requires s.lsv <= 0xFFFF_FFFF && NoMarks(s.entries) && Has(signer, s.dmask)
    requires g < |gs| && Find(s.entries, gs[g].id) < 0 && !IsNumber(gs[g].id) && |gs[g].id| <= 96
    requires forall i :: 0 <= i < |gs| ==> (Lists(gs[i].members, id) <==> i == g)
    ensures MayWrite(gs, s, id, identity) <==> Has(identity, Query(s, id))
    ensures var r := Apply(s, signer, AddGroup(s, gs[g].id, mask), false);
      r.Ok? && (MayWrite(gs, r.value, id, identity) <==> Has(identity, mask))
  {
    hide Apply, Has, Lists;
    AddGroupApplies(s, signer, gs[g].id, mask);
    var t := Apply(s, signer, AddGroup(s, gs[g].id, mask), false).value;
    assert Explicit(gs, t, id, g);
  }

  // ---- Exactly when a signer can change a write permission ----

  /** The signer can give the group an entry of its choice: its entry is delegated to the signer, or it has none, the
      default is delegated and its id can be entered. */
  predicate InHands(s: Store, signer: Mask, groupId: Id) {
    var k := Find(s.entries, groupId);
    if k >= 0 then Has(signer, s.entries[k].dmask)
    else Has(signer, s.dmask) && !IsNumber(groupId) && |groupId| <= 96
  }

  predicate Held(gs: seq<Group>, s: Store, id: Id, signer: Mask, i: nat) {
    i < |gs| && Lists(gs[i].members, id) && InHands(s, signer, gs[i].id)
  }

  /** Numbers and long ids never get an entry. */
  lemma NeverEntered(s: Store, signer: Mask, p: Packet, v1Mode: bool, id: Id)
    requires Apply(s, signer, p, v1Mode).Ok? && NoMarks(s.entries)
    requires Find(s.entries, id) < 0 && (IsNumber(id) || |id| > 96)
    ensures Find(Apply(s, signer, p, v1Mode).value.entries, id) < 0
  {
    hide Has, BeforeSweep, Sweep, IsNumber, Settled;
    if |id| <= 96 {
      var t := BeforeSweep(s, signer, p, v1Mode).value;
      BeforeSweepSettled(s, signer, p, v1Mode, id);
      SettledNumber(t.dmask, signer, p.inputs, id);
      FindFromFirst(t.entries, id, 0);
      SweepLacks(t.entries, id);
      FindFromNone(Sweep(t.entries), id, 0);
    }
  }

  lemma {:induction false} SettledNumber(defaultDMask: Mask, signer: Mask, inputs: seq<Input>, id: Id)
    requires IsNumber(id)
    ensures Settled(Nothing, defaultDMask, signer, inputs, id) == Nothing
  {
    hide Has;
    if inputs != [] {
      SettledNumber(defaultDMask, signer, inputs[..|inputs| - 1], id);
    }
  }

  /** No packet touches the entry, or the lack of one, of a group that is not in the signer's hands. */
  lemma OutOfHands(s: Store, signer: Mask, p: Packet, v1Mode: bool, groupId: Id)
    requires Apply(s, signer, p, v1Mode).Ok? && NoMarks(s.entries) && !InHands(s, signer, groupId)
    ensures Lookup(Apply(s, signer, p, v1Mode).value.entries, groupId) == Lookup(s.entries, groupId)
  {
    hide Apply, Has, IsNumber, Find;
    if Delegated(s, groupId, signer) {
      NeverEntered(s, signer, p, v1Mode, groupId);
    } else {
      NonInterference(s, signer, p, v1Mode, groupId);
    }
  }

  /** The entries of a packet that give all groups in the signer's hands, among the first `n`, the same mask. */
  function GroupInputs(gs: seq<Group>, s: Store, id: Id, signer: Mask, mask: Mask, n: nat): seq<Input>
    requires n <= |gs|
  {
    if n == 0 then []
    else
      var before := GroupInputs(gs, s, id, signer, mask, n - 1);
      if Held(gs, s, id, signer, n - 1) then before + [Input(gs[n - 1].id, mask, NOT_SPECIFIED)] else before
  }

  function SetGroups(gs: seq<Group>, s: Store, id: Id, signer: Mask, mask: Mask): Packet {
    Packet(s.lsv, 0, true, NoDefaults, GroupInputs(gs, s, id, signer, mask, |gs|))
  }

  /** Entries with one mask, no delegation and ids that can be entered. */
  ghost predicate Uniform(inputs: seq<Input>, mask: Mask) {
    forall i :: 0 <= i < |inputs| ==>
      inputs[i].Input? && inputs[i].pmask == mask && inputs[i].dmask == NOT_SPECIFIED && |inputs[i].id| <= 96
  }

  lemma {:induction false} GroupInputsAre(gs: seq<Group>, s: Store, id: Id, signer: Mask, mask: Mask, n: nat)
    requires n <= |gs|
    ensures var inputs := GroupInputs(gs, s, id, signer, mask, n);
      Uniform(inputs, mask) && forall i: nat :: i < n && Held(gs, s, id, signer, i) ==> Names(inputs, gs[i].id)
  {
    hide Lists, Has, IsNumber, Names;
    if n > 0 {
      GroupInputsAre(gs, s, id, signer, mask, n - 1);
      var before := GroupInputs(gs, s, id, signer, mask, n - 1);
      var last := Input(gs[n - 1].id, mask, NOT_SPECIFIED);
      forall x: Id
        ensures Names(before + [last], x) <==> Names(before, x) || x == gs[n - 1].id
      {
        NamesSnoc(before, last, x);
      }
    }
  }

  lemma {:induction false} UniformApplies(s: Store, signer: Mask, inputs: seq<Input>, mask: Mask)
    requires Uniform(inputs, mask)
    ensures ApplyInputs(s, signer, inputs).Ok?
  {
    hide Has, IsNumber;
    if inputs != [] {
      UniformApplies(s, signer, inputs[..|inputs| - 1], mask);
    }
  }

  /** What such entries leave for an id that the signer may change or enter. */
  lemma {:induction false} UniformSettles(e: Option<Entry>, dmask: Mask, signer: Mask, inputs: seq<Input>, id: Id,
                                          mask: Mask)
    requires Uniform(inputs, mask)
    requires if e.Just? then Has(signer, e.value.dmask) else Has(signer, dmask) && !IsNumber(id)
    ensures var r := Settled(e, dmask, signer, inputs, id);
      if Names(inputs, id) then r.Just? && r.value.pmask == mask && Has(signer, r.value.dmask) else r == e
  {
    hide IsNumber;
    if inputs != [] {
      var n := |inputs| - 1;
      UniformSettles(e, dmask, signer, inputs[..n], id, mask);
    }
  }

  /** The packet is accepted and gives every group of the setting that is in the signer's hands an entry with the
      mask. */
  lemma SetGroupsApplies(gs: seq<Group>, s: Store, id: Id, signer: Mask, mask: Mask)
    requires s.lsv <= 0xFFFF_FFFF && NoMarks(s.entries)
    ensures var r := Apply(s, signer, SetGroups(gs, s, id, signer, mask), false);
      && r.Ok?
      && forall i: nat :: Held(gs, s, id, signer, i) ==>
           Find(r.value.entries, gs[i].id) >= 0 && Query(r.value, gs[i].id) == mask
  {
    hide Lists, Has, IsNumber, Names, ApplyInputs, GroupInputs, Uniform, Settled, Sweep;
    var p := SetGroups(gs, s, id, signer, mask);
    var s1 := Begin(s, signer, p);
    GroupInputsAre(gs, s, id, signer, mask, |gs|);
    UniformApplies(s1, signer, p.inputs, mask);
    var t := ApplyInputs(s1, signer, p.inputs).value;
    forall i: nat | Held(gs, s, id, signer, i)
      ensures Find(Sweep(t.entries), gs[i].id) >= 0 && Query(t.(entries := Sweep(t.entries)), gs[i].id) == mask
    {
      SetGroup(s1, signer, p.inputs, gs[i].id, mask);
    }
  }

  lemma SetGroup(s: Store, signer: Mask, inputs: seq<Input>, groupId: Id, mask: Mask)
    requires ApplyInputs(s, signer, inputs).Ok? && NoMarks(s.entries) && Uniform(inputs, mask)
    requires InHands(s, signer, groupId) && Names(inputs, groupId)
    ensures var t := ApplyInputs(s, signer, inputs).value;
      Find(Sweep(t.entries), groupId) >= 0 && Query(t.(entries := Sweep(t.entries)), groupId) == mask
  {
    hide Has, IsNumber, Names, ApplyInputs, Uniform, Settled, Sweep;
    var t := ApplyInputs(s, signer, inputs).value;
    InputsSettle(s, signer, inputs, groupId);
    UniformSettles(Lookup(s.entries, groupId), s.dmask, signer, inputs, groupId, mask);
    InputsUnmarked(s, signer, inputs);
    SweepUnmarked(t.entries);
  }

  /** Some packet of the signer changes whether the identity may write the setting. */
  ghost predicate Changeable(gs: seq<Group>, s: Store, id: Id, signer: Mask, identity: Mask) {
    exists p, v1Mode :: Changes(gs, s, id, signer, identity, p, v1Mode)
  }

  ghost predicate Changes(gs: seq<Group>, s: Store, id: Id, signer: Mask, identity: Mask, p: Packet, v1Mode: bool) {
    var r := Apply(s, signer, p, v1Mode);
    r.Ok? && MayWrite(gs, r.value, id, identity) != MayWrite(gs, s, id, identity)
  }

  /** A group that has an entry, is not in the signer's hands and does not allow the identity. */
  ghost predicate Blocked(gs: seq<Group>, s: Store, id: Id, signer: Mask, identity: Mask) {
    exists i :: Explicit(gs, s, id, i) && !Held(gs, s, id, signer, i) && !GroupAllows(gs, s, identity, i)
  }

  /** The signer holds a group of the setting, or the setting itself where no group decides. */
  ghost predicate Reaches(gs: seq<Group>, s: Store, id: Id, signer: Mask) {
    || (exists i :: Held(gs, s, id, signer, i))
    || (Delegated(s, id, signer) && !exists i :: Explicit(gs, s, id, i))
  }

  /** Exactly when: a signer can change whether an identity may write a setting if and only if it holds a group of
      the setting, or the setting itself and no group of it has an entry, and no other group forbids it. */
  lemma ChangeableExactly(gs: seq<Group>, s: Store, id: Id, signer: Mask, identity: Mask)
    requires s.lsv <= 0xFFFF_FFFF && NoMarks(s.entries)
    ensures Changeable(gs, s, id, signer, identity)
       <==> identity != 0 && Reaches(gs, s, id, signer) && !Blocked(gs, s, id, signer, identity)
  {
    hide Changes, Reaches, Blocked;
    forall p, v1Mode | Changes(gs, s, id, signer, identity, p, v1Mode)
      ensures identity != 0 && Reaches(gs, s, id, signer) && !Blocked(gs, s, id, signer, identity)
    {
      ChangeNeeds(gs, s, id, signer, identity, p, v1Mode);
    }
    if identity != 0 && Reaches(gs, s, id, signer) && !Blocked(gs, s, id, signer, identity) {
      var p := ChangeMade(gs, s, id, signer, identity);
    }
  }

  lemma ChangeNeeds(gs: seq<Group>, s: Store, id: Id, signer: Mask, identity: Mask, p: Packet, v1Mode: bool)
    requires NoMarks(s.entries) && Changes(gs, s, id, signer, identity, p, v1Mode)
    ensures identity != 0 && Reaches(gs, s, id, signer) && !Blocked(gs, s, id, signer, identity)
  {
    hide Apply, Lists, Query, Find, InHands, Delegated;
    var t := Apply(s, signer, p, v1Mode).value;
    forall i: nat | i < |gs| && Lists(gs[i].members, id) && !Held(gs, s, id, signer, i)
      ensures Lookup(t.entries, gs[i].id) == Lookup(s.entries, gs[i].id)
    {
      OutOfHands(s, signer, p, v1Mode, gs[i].id);
    }
    if Blocked(gs, s, id, signer, identity) {
      StaysBlocked(gs, s, t, id, signer, identity);
    }
    if !Reaches(gs, s, id, signer) {
      if !Delegated(s, id, signer) {
        NonInterference(s, signer, p, v1Mode, id);
      }
      assert forall i: nat :: !Held(gs, s, id, signer, i);
      SameRule(gs, s, t, id, identity);
    }
  }

  lemma StaysBlocked(gs: seq<Group>, s: Store, t: Store, id: Id, signer: Mask, identity: Mask)
    requires Blocked(gs, s, id, signer, identity)
    requires forall i: nat :: i < |gs| && Lists(gs[i].members, id) && !Held(gs, s, id, signer, i) ==>
      Lookup(t.entries, gs[i].id) == Lookup(s.entries, gs[i].id)
    ensures !MayWrite(gs, s, id, identity) && !MayWrite(gs, t, id, identity)
  {
    hide Has, Lists, Find, InHands;
    var i :| Explicit(gs, s, id, i) && !Held(gs, s, id, signer, i) && !GroupAllows(gs, s, identity, i);
    assert Explicit(gs, t, id, i) && !GroupAllows(gs, t, identity, i);
  }

  /** The packet: it shuts out an identity that may write, and lets in one that may not. */
  lemma ChangeMade(gs: seq<Group>, s: Store, id: Id, signer: Mask, identity: Mask) returns (p: Packet)
    requires s.lsv <= 0xFFFF_FFFF && NoMarks(s.entries)
    requires identity != 0 && Reaches(gs, s, id, signer) && !Blocked(gs, s, id, signer, identity)
    ensures Changes(gs, s, id, signer, identity, p, false)
  {
    hide Apply, Lists, Query, Find, InHands, Delegated, Has;
    var mask := if MayWrite(gs, s, id, identity) then 0 else 0xFF;
    MaskDecides(identity);
    if exists i :: Held(gs, s, id, signer, i) {
      p := SetGroups(gs, s, id, signer, mask);
      GroupsDecide(gs, s, id, signer, identity, mask);
    } else {
      p := SetOwn(s, id, mask);
      OwnDecides(gs, s, id, signer, identity, mask);
    }
  }

  lemma MaskDecides(identity: Mask)
    ensures !Has(identity, 0) && (identity != 0 ==> Has(identity, 0xFF))
  {
  }

  lemma GroupsDecide(gs: seq<Group>, s: Store, id: Id, signer: Mask, identity: Mask, mask: Mask)
    requires s.lsv <= 0xFFFF_FFFF && NoMarks(s.entries)
    requires (exists i :: Held(gs, s, id, signer, i)) && !Blocked(gs, s, id, signer, identity)
    ensures var r := Apply(s, signer, SetGroups(gs, s, id, signer, mask), false);
      r.Ok? && (MayWrite(gs, r.value, id, identity) <==> Has(identity, mask))
  {
    hide Apply, Lists, Find, InHands, Has;
    var p := SetGroups(gs, s, id, signer, mask);
    SetGroupsApplies(gs, s, id, signer, mask);
    var t := Apply(s, signer, p, false).value;
    forall i: nat
      ensures Held(gs, s, id, signer, i) ==>
        Explicit(gs, t, id, i) && (GroupAllows(gs, t, identity, i) <==> Has(identity, mask))
      ensures !Held(gs, s, id, signer, i) && Explicit(gs, t, id, i) ==> GroupAllows(gs, t, identity, i)
    {
      if i < |gs| && Lists(gs[i].members, id) && !Held(gs, s, id, signer, i) {
        OutOfHands(s, signer, p, false, gs[i].id);
        assert Lookup(t.entries, gs[i].id) == Lookup(s.entries, gs[i].id);
        if Explicit(gs, t, id, i) {
          assert Explicit(gs, s, id, i);
        }
      }
    }
    var g :| Held(gs, s, id, signer, g);
    assert Explicit(gs, t, id, g);
  }

  /** The packet that gives a setting a mask, by its entry or, if it has none, by the default. */
  function SetOwn(s: Store, id: Id, mask: Mask): Packet {
    if Find(s.entries, id) >= 0 then Packet(s.lsv, 0, true, NoDefaults, [Input(id, mask, NOT_SPECIFIED)])
    else Packet(s.lsv, 0, true, Defaults(mask, Nothing), [])
  }

  lemma SetOwnApplies(s: Store, id: Id, signer: Mask, mask: Mask)
    requires s.lsv <= 0xFFFF_FFFF && NoMarks(s.entries) && Delegated(s, id, signer)
    ensures var r := Apply(s, signer, SetOwn(s, id, mask), false); r.Ok? && Query(r.value, id) == mask
  {
    hide Has, Sweep;
    var p := SetOwn(s, id, mask);
    if Find(s.entries, id) >= 0 {
      OneInput(Begin(s, signer, p), signer, p.inputs[0]);
      TakesEffect(s, signer, p, false, 0);
    } else {
      SweepUnmarked(s.entries);
    }
  }

  lemma OwnDecides(gs: seq<Group>, s: Store, id: Id, signer: Mask, identity: Mask, mask: Mask)
    requires s.lsv <= 0xFFFF_FFFF && NoMarks(s.entries) && Delegated(s, id, signer)
    requires (!exists i :: Held(gs, s, id, signer, i)) && !exists i :: Explicit(gs, s, id, i)
    ensures var r := Apply(s, signer, SetOwn(s, id, mask), false);
      r.Ok? && (MayWrite(gs, r.value, id, identity) <==> Has(identity, mask))
  {
    hide Apply, Lists, Find, InHands, Has, Delegated, Query, SetOwn;
    var p := SetOwn(s, id, mask);
    SetOwnApplies(s, id, signer, mask);
    var t := Apply(s, signer, p, false).value;
    forall i: nat
      ensures !Explicit(gs, t, id, i)
    {
      if i < |gs| && Lists(gs[i].members, id) {
        assert !Held(gs, s, id, signer, i);
        OutOfHands(s, signer, p, false, gs[i].id);
        assert !Explicit(gs, s, id, i);
      }
    }
  }

  // ---- Registration ----

  /** The group with this id, or -1. */
  function GroupIndex(gs: seq<Group>, id: Id): (k: int)
    ensures k == -1 || (0 <= k < |gs| && Same(gs[k].id, id))
    ensures k == -1 ==> forall i :: 0 <= i < |gs| ==> !Same(gs[i].id, id)
  {
    if gs == [] then -1
    else
      var k := GroupIndex(gs[..|gs| - 1], id);
      if k >= 0 then k else if Same(gs[|gs| - 1].id, id) then |gs| - 1 else -1
  }

  /** The setting joins a group, which is created if it is not there yet. */
  function Join(gs: seq<Group>, groupId: Id, id: Id): seq<Group> {
    var k := GroupIndex(gs, groupId);
    if k >= 0 then gs[k := Group(gs[k].id, gs[k].members + [id])] else gs + [Group(groupId, [id])]
  }

  /** The setting joins the groups of the platform's table that list it. */
  function JoinAll(gs: seq<Group>, table: seq<Group>, id: Id): seq<Group> {
    if table == [] then gs
    else
      var before := JoinAll(gs, table[..|table| - 1], id);
      var e := table[|table| - 1];
      if Lists(e.members, id) then Join(before, e.id, id) else before
  }

  ghost predicate DistinctGroups(gs: seq<Group>) {
    forall i, j :: 0 <= i < j < |gs| ==> !Same(gs[i].id, gs[j].id)
  }

  /** The table puts the setting into the group with this id. */
  predicate TableLists(table: seq<Group>, groupId: Id, id: Id) {
    table != [] && (TableLists(table[..|table| - 1], groupId, id)
                    || (Same(table[|table| - 1].id, groupId) && Lists(table[|table| - 1].members, id)))
  }

  ghost predicate Registered(gs: seq<Group>, table: seq<Group>, id: Id) {
    forall i :: 0 <= i < |gs| ==> (Lists(gs[i].members, id) <==> TableLists(table, gs[i].id, id))
  }

  /** Every group that the table puts the setting into is there. */
  ghost predicate GroupsThere(gs: seq<Group>, table: seq<Group>, id: Id) {
    forall i :: 0 <= i < |table| && Lists(table[i].members, id) ==> GroupIndex(gs, table[i].id) >= 0
  }

  lemma TableSnoc(table: seq<Group>, e: Group, groupId: Id, id: Id)
    ensures TableLists(table + [e], groupId, id)
       <==> TableLists(table, groupId, id) || (Same(e.id, groupId) && Lists(e.members, id))
  {
    assert (table + [e])[..|table|] == table;
  }

  lemma ListsSnoc(members: seq<Id>, id: Id, x: Id)
    ensures Lists(members + [x], id) <==> Lists(members, id) || Same(id, x)
  {
    if Lists(members, id) {
      var i :| 0 <= i < |members| && Same(id, members[i]);
      assert (members + [x])[i] == members[i];
    } else if Same(id, x) {
      assert (members + [x])[|members|] == x;
    }
  }

  /** Which groups hold the setting after it joined one. */
  lemma JoinLists(gs: seq<Group>, groupId: Id, id: Id, i: nat)
    requires DistinctGroups(gs) && i < |Join(gs, groupId, id)|
    ensures var r := Join(gs, groupId, id);
      && |gs| <= |r| && (i < |gs| ==> r[i].id == gs[i].id) && (|gs| <= i ==> r[i].id == groupId)
      && (Lists(r[i].members, id) <==> Same(groupId, r[i].id) || (i < |gs| && Lists(gs[i].members, id)))
  {
    var k := GroupIndex(gs, groupId);
    if k >= 0 {
      ListsSnoc(gs[k].members, id, id);
    } else {
      ListsSnoc([], id, id);
      assert [] + [id] == [id];
    }
  }

  lemma JoinDistinct(gs: seq<Group>, groupId: Id, id: Id, other: Id)
    requires DistinctGroups(gs)
    ensures DistinctGroups(Join(gs, groupId, id))
    ensures GroupIndex(Join(gs, groupId, id), groupId) >= 0
    ensures GroupIndex(gs, other) >= 0 ==> GroupIndex(Join(gs, groupId, id), other) >= 0
  {
    hide Lists;
    var k, r := GroupIndex(gs, groupId), Join(gs, groupId, id);
    assert Same(r[if k >= 0 then k else |gs|].id, groupId);
    var j := GroupIndex(gs, other);
    assert j >= 0 ==> r[j].id == gs[j].id;
  }

  lemma JoinRegisters(gs: seq<Group>, table: seq<Group>, e: Group, id: Id)
    requires DistinctGroups(gs) && Registered(gs, table, id) && GroupsThere(gs, table, id) && Lists(e.members, id)
    ensures var r := Join(gs, e.id, id);
      DistinctGroups(r) && Registered(r, table + [e], id) && GroupsThere(r, table + [e], id)
  {
    hide Same, Lists, TableLists, GroupIndex, Join;
    var r := Join(gs, e.id, id);
    forall i | 0 <= i < |r|
      ensures Lists(r[i].members, id) <==> TableLists(table + [e], r[i].id, id)
    {
      JoinLists(gs, e.id, id, i);
      TableSnoc(table, e, r[i].id, id);
      if |gs| <= i {
        assert Same(e.id, r[i].id) by { SameSelf(e.id); }
      }
    }
    forall i | 0 <= i < |table + [e]| && Lists((table + [e])[i].members, id)
      ensures GroupIndex(r, (table + [e])[i].id) >= 0
    {
      JoinDistinct(gs, e.id, id, (table + [e])[i].id);
    }
    JoinDistinct(gs, e.id, id, e.id);
  }

  lemma SameSelf(a: Id)
    ensures Same(a, a)
  {
  }

  /** Registration is exact: a setting that was in no group is afterwards in exactly the groups that the table
      puts it into, and each of them exists once. */
  lemma {:induction false} RegisteredExactly(gs: seq<Group>, table: seq<Group>, id: Id)
    requires DistinctGroups(gs) && forall i :: 0 <= i < |gs| ==> !Lists(gs[i].members, id)
    ensures var r := JoinAll(gs, table, id);
      DistinctGroups(r) && Registered(r, table, id) && GroupsThere(r, table, id)
  {
    hide Same, Lists, Join, DistinctGroups;
    if table != [] {
      var n := |table| - 1;
      RegisteredExactly(gs, table[..n], id);
      assert table == table[..n] + [table[n]];
      var before := JoinAll(gs, table[..n], id);
      if Lists(table[n].members, id) {
        JoinRegisters(before, table[..n], table[n], id);
      } else {
        forall i | 0 <= i < |before|
          ensures TableLists(table, before[i].id, id) <==> TableLists(table[..n], before[i].id, id)
        {
          TableSnoc(table[..n], table[n], before[i].id, id);
        }
      }
    }
  }

  class GroupList {
    var groups: seq<Group>     // mGroupList

    constructor ()
      ensures groups == []
    {
      groups := [];
    }

    /** `FindGroup`. */
    method FindGroup(id: Id) returns (k: int)
      ensures k == GroupIndex(groups, id)
    {
      hide Same;
      var i := 0;
      while i < |groups|
        invariant 0 <= i <= |groups| && GroupIndex(groups[..i], id) == -1
      {
        assert groups[..i + 1][..i] == groups[..i];
        if Same(groups[i].id, id) {
          FirstIndex(groups, id, i + 1);
          return i;
        }
        i := i + 1;
      }
      assert groups[..i] == groups;
      return -1;
    }

    /** `RegisterSettingToGroup`; a setting must not have the name of a group. */
    method RegisterSetting(table: seq<Group>, id: Id) returns (joined: Result<bool>)
      modifies this`groups
      ensures joined.Err? <==> GroupIndex(old(groups), id) >= 0
      ensures groups == if joined.Ok? then JoinAll(old(groups), table, id) else old(groups)
      ensures joined.Ok? ==> (joined.value <==> exists i :: 0 <= i < |table| && Lists(table[i].members, id))
    {
      hide Same, Lists;
      var k := FindGroup(id);
      if k >= 0 {
        return Err;
      }
      var any := false;
      var i := 0;
      while i < |table|
        invariant 0 <= i <= |table| && groups == JoinAll(old(groups), table[..i], id)
        invariant any <==> exists j :: 0 <= j < i && Lists(table[j].members, id)
      {
        assert table[..i + 1][..i] == table[..i];
        var member := IsMember(table[i].members, id);
        if member {
          k := FindGroup(table[i].id);
          if k < 0 {
            groups := groups + [Group(table[i].id, [])];
            k := |groups| - 1;
          }
          groups := groups[k := Group(groups[k].id, groups[k].members + [id])];
          assert [] + [id] == [id];
          any := true;
        }
        i := i + 1;
      }
      assert table[..i] == table;
      return Ok(any);
    }

    /** `FindGroupIdBySetting`: the next group of the setting after the one the key names, if any. */
    method FindGroupIdBySetting(id: Id, key: Option<nat>) returns (next: Option<nat>)
      requires key.Just? ==> key.value < |groups|
      ensures var k := NextGroup(groups, id, if key.Just? then key.value + 1 else 0);
        next == if k >= 0 then Just(k) else Nothing
    {
      var previousFound := key.Nothing?;
      ghost var from := if key.Just? then key.value + 1 else 0;
      var i: nat := 0;
      while i < |groups|
        invariant i <= |groups| && (previousFound <==> key.Nothing? || key.value < i)
        invariant previousFound ==> from <= i && NextGroup(groups, id, from) == NextGroup(groups, id, i)
      {
        if key == Just(i) {
          previousFound := true;
        } else if previousFound {
          var member := IsMember(groups[i].members, id);
          if member {
            return Just(i);
          }
        }
        i := i + 1;
      }
      return Nothing;
    }

    /** `HasWritePermissions` for an authenticated identity. */
    method HasWritePermissions(store: PermStore, id: Id, identity: Mask) returns (result: bool)
      ensures result == MayWrite(groups, store.Value(), id, identity)
    {
      hide Explicit, GroupAllows, Has;
      ghost var s := store.Value();
      var memberOfGroup := false;
      var key := FindGroupIdBySetting(id, Nothing);
      ghost var seen: nat := 0;
      while key.Just?
        invariant seen <= |groups| && AllAllow(groups, s, id, identity, seen)
        invariant key == if NextGroup(groups, id, seen) >= 0 then Just(NextGroup(groups, id, seen)) else Nothing
        invariant memberOfGroup <==> SomeExplicit(groups, s, id, seen)
        decreases if key.Just? then |groups| - key.value else -1
      {
        var g := key.value;
        var k := store.FindEntry(groups[g].id);
        CursorStep(groups, s, id, identity, seen, g);
        if k >= 0 {
          memberOfGroup := true;
          if !Has(identity, store.entries[k].pmask) {
            return false;
          }
        }
        key := FindGroupIdBySetting(id, key);
        seen := g + 1;
      }
      CursorEnd(groups, s, id, identity, seen);
      if memberOfGroup {
        return true;
      }
      var mask := store.QueryPermission(id);
      result := Has(identity, mask);
    }

    /** `HasUnenrollPermission`: the owner key, the local recovery or the ZTD recovery may be written. */
    method HasUnenrollPermission(store: PermStore, ownerKey: Id, recovery: Id, ztdRecovery: Id, identity: Mask)
      returns (result: bool)
      ensures var s := store.Value();
        result == (MayWrite(groups, s, ownerKey, identity) || MayWrite(groups, s, recovery, identity)
                   || MayWrite(groups, s, ztdRecovery, identity))
    {
      hide MayWrite;
      result := HasWritePermissions(store, ownerKey, identity);
      if !result {
        result := HasWritePermissions(store, recovery, identity);
      }
      if !result {
        result := HasWritePermissions(store, ztdRecovery, identity);
      }
    }
  }

  /** The groups before `n` allow the identity or have nothing to say. */
  ghost predicate AllAllow(gs: seq<Group>, s: Store, id: Id, identity: Mask, n: nat)
    requires n <= |gs|
  {
    forall i :: 0 <= i < n && Explicit(gs, s, id, i) ==> GroupAllows(gs, s, identity, i)
  }

  ghost predicate SomeExplicit(gs: seq<Group>, s: Store, id: Id, n: nat)
  {
    exists i :: 0 <= i < n && Explicit(gs, s, id, i)
  }

  lemma CursorStep(gs: seq<Group>, s: Store, id: Id, identity: Mask, seen: nat, g: nat)
    requires seen <= |gs| && AllAllow(gs, s, id, identity, seen) && NextGroup(gs, id, seen) == g
    ensures var k := Find(s.entries, gs[g].id);
      && (AllAllow(gs, s, id, identity, g + 1) <==> k < 0 || Has(identity, s.entries[k].pmask))
      && (SomeExplicit(gs, s, id, g + 1) <==> k >= 0 || SomeExplicit(gs, s, id, seen))
      && (k >= 0 && !Has(identity, s.entries[k].pmask) ==> !MayWrite(gs, s, id, identity))
  {
    hide Has;
    NextGroupFirst(gs, id, seen);
    assert Explicit(gs, s, id, g) <==> Find(s.entries, gs[g].id) >= 0;
    assert forall i :: seen <= i < g ==> !Explicit(gs, s, id, i);
  }

  lemma CursorEnd(gs: seq<Group>, s: Store, id: Id, identity: Mask, seen: nat)
    requires seen <= |gs| && AllAllow(gs, s, id, identity, seen) && NextGroup(gs, id, seen) == -1
    ensures MayWrite(gs, s, id, identity) == (SomeExplicit(gs, s, id, seen) || Has(identity, Query(s, id)))
  {
    hide Has;
    NextGroupFirst(gs, id, seen);
    assert forall i :: seen <= i < |gs| ==> !Explicit(gs, s, id, i);
  }

  /** Later groups do not change where an earlier one is found. */
  lemma {:induction false} FirstIndex(gs: seq<Group>, id: Id, n: nat)
    requires n <= |gs| && GroupIndex(gs[..n], id) >= 0
    ensures GroupIndex(gs, id) == GroupIndex(gs[..n], id)
    decreases |gs| - n
  {
    if n == |gs| {
      assert gs[..n] == gs;
    } else {
      assert gs[..n + 1][..n] == gs[..n];
      FirstIndex(gs, id, n + 1);
    }
  }

  /** The loop over the members of a group. */
  method IsMember(members: seq<Id>, id: Id) returns (r: bool)
    ensures r == Lists(members, id)
  {
    var i := 0;
    while i < |members|
      invariant 0 <= i <= |members| && forall j :: 0 <= j < i ==> !Same(id, members[j])
    {
      if Same(id, members[i]) {
        return true;
      }
      i := i + 1;
    }
    return false;
  }
}
