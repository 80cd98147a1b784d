/** What a permission packet does to a permission store, as functions on values, and the rules that
    every packet obeys. */
module Permissions {
  import opened Wrappers
  import opened Bits

  type Mask = bv8

  /** A character of an id: a byte that is not the terminator. */
  type Char = c: Byte | c != 0 witness 1

  type Id = seq<Char>

  const USERS: Mask := 0xF0          // OWNER, USER, USER1 and USER2
  const NOT_SPECIFIED: Mask := 0xFE

  /** Masks and identities use the same bits. */
  predicate Has(identity: Mask, mask: Mask) {
    identity & mask != 0
  }

  /** The highest user in a mask that has one. */
  function Highest(mask: Mask): Mask {
    if mask & 0x80 != 0 then 0x80
    else if mask & 0x40 != 0 then 0x40
    else if mask & 0x20 != 0 then 0x20
    else 0x10
  }

  /** An entry belongs to the highest user it is delegated to. */
  predicate Owns(identity: Mask, dmask: Mask) {
    dmask & USERS != 0 && Has(identity, Highest(dmask))
  }

  lemma OwnerIsDelegated(identity: Mask, dmask: Mask)
    requires Owns(identity, dmask)
    ensures Has(identity, dmask)
  {
  }

  /** OWNER, USER, USER1 and USER2, from the highest to the lowest. */
  predicate OneUser(b: Mask) {
    b == 0x80 || b == 0x40 || b == 0x20 || b == 0x10
  }

  lemma HighestUser(mask: Mask)
    requires mask & USERS != 0
    ensures OneUser(Highest(mask)) && Has(Highest(mask), mask)
    ensures forall b :: OneUser(b) && Has(b, mask) ==> b <= Highest(mask)
  {
  }

  /** The mask has the user, and no higher one. */
  ghost predicate TopUser(user: Mask, mask: Mask) {
    Has(user, mask) && forall b :: OneUser(b) && Has(b, mask) ==> b <= user
  }

  /** A user owns what it is the highest one of; who is no user owns nothing. */
  lemma OwnsExactly(identity: Mask, dmask: Mask)
    ensures OneUser(identity) ==> (Owns(identity, dmask) <==> TopUser(identity, dmask))
    ensures !Has(identity, 0xF0) ==> !Owns(identity, dmask)
  {
    if OneUser(identity) && dmask & USERS != 0 {
      HighestUser(dmask);
      OneUserEach(identity, Highest(dmask));
    }
  }

  lemma OneUserEach(a: Mask, b: Mask)
    requires OneUser(a) && OneUser(b)
    ensures Has(a, b) <==> a == b
  {
  }

  datatype Entry = Entry(id: Id, pmask: Mask, dmask: Mask, marked: bool)

  datatype Store = Store(version: nat, lsv: nat, pmask: Mask, dmask: Mask, entries: seq<Entry>)

  // ---- Lookup ----

  /** The first entry with this id from `i` on, or -1. */
  function FindFrom(es: seq<Entry>, id: Id, i: nat): (k: int)
    requires i <= |es|
    ensures k == -1 || i <= k < |es|
    decreases |es| - i
  {
    if i == |es| then -1 else if es[i].id == id then i else FindFrom(es, id, i + 1)
  }

  /** Ids of more than 96 characters are never found. */
  function Find(es: seq<Entry>, id: Id): (k: int)
    ensures k == -1 || 0 <= k < |es|
  {
    if |id| > 96 then -1 else FindFrom(es, id, 0)
  }

  /** `QueryPermission`. */
  function Query(s: Store, id: Id): Mask {
    var k := Find(s.entries, id);
    if k >= 0 then s.entries[k].pmask else s.pmask
  }

  /** The signer may change what holds for this id. */
  predicate Delegated(s: Store, id: Id, identity: Mask) {
    var k := Find(s.entries, id);
    Has(identity, if k >= 0 then s.entries[k].dmask else s.dmask)
  }

  lemma {:induction false} FindFromFirst(es: seq<Entry>, id: Id, i: nat)
    requires i <= |es|
    ensures var k := FindFrom(es, id, i);
      if k == -1 then forall j :: i <= j < |es| ==> es[j].id != id
      else es[k].id == id && forall j :: i <= j < k ==> es[j].id != id
    decreases |es| - i
  {
    if i < |es| && es[i].id != id {
      FindFromFirst(es, id, i + 1);
    }
  }

  /** The found entry is the first one with the id. */
  lemma {:induction false} FindFromIs(es: seq<Entry>, id: Id, i: nat, k: nat)
    requires i <= k < |es| && es[k].id == id && forall j :: i <= j < k ==> es[j].id != id
    ensures FindFrom(es, id, i) == k
    decreases |es| - i
  {
    if i < k {
      FindFromIs(es, id, i + 1, k);
    }
  }

  lemma {:induction false} FindFromNone(es: seq<Entry>, id: Id, i: nat)
    requires i <= |es| && forall j :: i <= j < |es| ==> es[j].id != id
    ensures FindFrom(es, id, i) == -1
    decreases |es| - i
  {
    if i < |es| {
      FindFromNone(es, id, i + 1);
    }
  }

  // ---- Changes ----

  /** The first character is one of the digits 0 to 9. */
  predicate IsNumber(id: Id) {
    id != [] && 0x30 <= id[0] <= 0x39
  }

  /** `AddPermissionEntry`: an id that is still a number is dropped without an error. */
  function Add(es: seq<Entry>, id: Id, pmask: Mask, dmask: Mask): Result<seq<Entry>> {
    if IsNumber(id) then Ok(es)
    else if |id| > 96 then Err
    else Ok(es + [Entry(id, pmask, dmask, false)])
  }

  function MarkEntry(e: Entry, identity: Mask): Entry {
    if Owns(identity, e.dmask) then e.(marked := true) else e
  }

  /** `MarkPermissionEntriesForDeletion`. */
  function Mark(es: seq<Entry>, identity: Mask): (r: seq<Entry>)
    ensures |r| == |es| && forall i :: 0 <= i < |es| ==> r[i] == MarkEntry(es[i], identity)
  {
    seq(|es|, i requires 0 <= i < |es| => MarkEntry(es[i], identity))
  }

  /** `DeleteMarkedPermissionEntries`. */
  function Sweep(es: seq<Entry>): seq<Entry> {
    if es == [] then []
    else
      var n := |es| - 1;
      if es[n].marked then Sweep(es[..n]) else Sweep(es[..n]) + [es[n]]
  }

  // ---- Packets ----

  /** One entry of a packet; a delegation mask of 0xFE stands for none given. */
  datatype Input = BadInput | Input(id: Id, pmask: Mask, dmask: Mask)

  datatype DefaultsInput = NoDefaults | BadDefaults | Defaults(pmask: Mask, dmask: Option<Mask>)

  datatype Packet = Packet(version: nat, lsv: nat, append: bool, defaults: DefaultsInput, inputs: seq<Input>)

  /** One entry of the packet: change what is delegated, add where the default is, ignore the rest. */
  function ApplyInput(s: Store, identity: Mask, input: Input): Result<Store> {
    if input.BadInput? then Err
    else
      var k := Find(s.entries, input.id);
      if k >= 0 then
        var e := s.entries[k];
        if Has(identity, e.dmask) then
          var d := if input.dmask != NOT_SPECIFIED then input.dmask else e.dmask;
          Ok(s.(entries := s.entries[k := Entry(e.id, input.pmask, d, false)]))
        else Ok(s)
      else if Has(identity, s.dmask) then
        match Add(s.entries, input.id, input.pmask, if input.dmask == NOT_SPECIFIED then identity else input.dmask)
        case Err => Err
        case Ok(es) => Ok(s.(entries := es))
      else Ok(s)
  }

  function ApplyInputs(s: Store, identity: Mask, inputs: seq<Input>): Result<Store> {
    if inputs == [] then Ok(s)
    else
      match ApplyInputs(s, identity, inputs[..|inputs| - 1])
      case Err => Err
      case Ok(t) => ApplyInput(t, identity, inputs[|inputs| - 1])
  }

  function ApplyDefaults(s: Store, identity: Mask, d: DefaultsInput): Result<Store> {
    match d
    case NoDefaults => Ok(s)
    case BadDefaults => Err
    case Defaults(p, dm) =>
      if Has(identity, s.dmask) then Ok(s.(pmask := p, dmask := if dm.Just? then dm.value else s.dmask)) else Ok(s)
  }

  /** The checks on the versions and on the append flag. */
  predicate Acceptable(s: Store, p: Packet, v1Mode: bool) {
    p.version <= 0xFFFF_FFFF && s.lsv <= p.version && p.lsv <= p.version && !(p.append && v1Mode)
  }

  /** The store before the entries of the packet are looked at. */
  function Begin(s: Store, identity: Mask, p: Packet): Store {
    s.(version := p.version, lsv := if s.lsv < p.lsv then p.lsv else s.lsv,
       entries := if p.append then s.entries else Mark(s.entries, identity))
  }

  /** The store just before the sweep. */
  function BeforeSweep(s: Store, identity: Mask, p: Packet, v1Mode: bool): Result<Store> {
    if !Acceptable(s, p, v1Mode) then Err
    else
      match ApplyDefaults(Begin(s, identity, p), identity, p.defaults)
      case Err => Err
      case Ok(s1) => ApplyInputs(s1, identity, p.inputs)
  }

  /** `ApplyPermissionsInXml` from the parsed packet on. */
  function Apply(s: Store, identity: Mask, p: Packet, v1Mode: bool): Result<Store> {
    match BeforeSweep(s, identity, p, v1Mode)
    case Err => Err
    case Ok(t) => Ok(t.(entries := Sweep(t.entries)))
  }

  // ---- What the entries of a packet can do ----

  /** How entries may have changed before the sweep: old ones in place, only delegated ones updated,
      new ones behind them, unmarked. */
  ghost predicate Evolves(es: seq<Entry>, es': seq<Entry>, identity: Mask)
  {
    && |es| <= |es'|
    && (forall i :: 0 <= i < |es| ==> es'[i].id == es[i].id && (!Has(identity, es[i].dmask) ==> es'[i] == es[i]))
    && (forall i :: |es| <= i < |es'| ==> !es'[i].marked)
  }

  /** The default masks stay, and nothing is added, unless the defaults are delegated to the signer. */
  ghost predicate DefaultsKept(s: Store, t: Store, identity: Mask)
  {
    !Has(identity, s.dmask) ==> t.pmask == s.pmask && t.dmask == s.dmask && |t.entries| == |s.entries|
  }

  lemma InputEvolves(es: seq<Entry>, s: Store, identity: Mask, input: Input)
    requires Evolves(es, s.entries, identity) && ApplyInput(s, identity, input).Ok?
    ensures Evolves(es, ApplyInput(s, identity, input).value.entries, identity)
  {
    FindFromFirst(s.entries, input.id, 0);
  }

  lemma {:induction false} InputsEvolve(s: Store, identity: Mask, inputs: seq<Input>)
    requires ApplyInputs(s, identity, inputs).Ok?
    ensures var t := ApplyInputs(s, identity, inputs).value;
      && Evolves(s.entries, t.entries, identity) && DefaultsKept(s, t, identity)
      && t.dmask == s.dmask && t.pmask == s.pmask && t.version == s.version && t.lsv == s.lsv
  {
    if inputs != [] {
      var p := inputs[..|inputs| - 1];
      InputsEvolve(s, identity, p);
      InputEvolves(s.entries, ApplyInputs(s, identity, p).value, identity, inputs[|inputs| - 1]);
    }
  }

  lemma OneInput(s: Store, identity: Mask, input: Input)
    ensures ApplyInputs(s, identity, [input]) == ApplyInput(s, identity, input)
  {
    assert [input][..0] == [];
  }

  // ---- Non-interference ----

  ghost predicate NoMarks(es: seq<Entry>) {
    forall i :: 0 <= i < |es| ==> !es[i].marked
  }

  lemma BeforeSweepEvolves(s: Store, identity: Mask, p: Packet, v1Mode: bool)
    requires Apply(s, identity, p, v1Mode).Ok?
    ensures var t := BeforeSweep(s, identity, p, v1Mode);
      && t.Ok? && Apply(s, identity, p, v1Mode) == Ok(t.value.(entries := Sweep(t.value.entries)))
      && Evolves(Begin(s, identity, p).entries, t.value.entries, identity)
      && DefaultsKept(s, t.value, identity)
      && t.value.version == p.version && t.value.lsv == Begin(s, identity, p).lsv
  {
    hide ApplyInputs, Has;
    var s1 := ApplyDefaults(Begin(s, identity, p), identity, p.defaults).value;
    InputsEvolve(s1, identity, p.inputs);
  }

  /** What is not delegated to the signer is neither marked nor changed. */
  lemma UndelegatedKept(s: Store, identity: Mask, p: Packet, v1Mode: bool, i: nat)
    requires Apply(s, identity, p, v1Mode).Ok? && i < |s.entries| && !Has(identity, s.entries[i].dmask)
    ensures BeforeSweep(s, identity, p, v1Mode).Ok?
    ensures var es := BeforeSweep(s, identity, p, v1Mode).value.entries; i < |es| && es[i] == s.entries[i]
  {
    hide Highest, Has, ApplyInputs, ApplyDefaults;
    BeforeSweepEvolves(s, identity, p, v1Mode);
    if Owns(identity, s.entries[i].dmask) {
      OwnerIsDelegated(identity, s.entries[i].dmask);
    }
  }

  /** The sweep keeps every unmarked entry. */
  lemma {:induction false} SweepKeeps(es: seq<Entry>, i: nat)
    requires i < |es| && !es[i].marked
    ensures es[i] in Sweep(es)
  {
    var n := |es| - 1;
    if i < n {
      SweepKeeps(es[..n], i);
    }
  }

  /** Every entry that is not delegated to the signer is unchanged and still present. */
  lemma UndelegatedSurvives(s: Store, identity: Mask, p: Packet, v1Mode: bool, i: nat)
    requires Apply(s, identity, p, v1Mode).Ok? && NoMarks(s.entries)
    requires i < |s.entries| && !Has(identity, s.entries[i].dmask)
    ensures s.entries[i] in Apply(s, identity, p, v1Mode).value.entries
  {
    hide Has;
    UndelegatedKept(s, identity, p, v1Mode, i);
    BeforeSweepEvolves(s, identity, p, v1Mode);
    SweepKeeps(BeforeSweep(s, identity, p, v1Mode).value.entries, i);
  }

  /** The first entry with an id stays the first one if it is not swept. */
  lemma {:induction false} SweepFirst(es: seq<Entry>, id: Id, k: nat) returns (j: nat)
    requires k < |es| && es[k].id == id && !es[k].marked && forall i :: 0 <= i < k ==> es[i].id != id
    ensures j < |Sweep(es)| && Sweep(es)[j] == es[k] && forall i :: 0 <= i < j ==> Sweep(es)[i].id != id
  {
    var n := |es| - 1;
    if k < n {
      j := SweepFirst(es[..n], id, k);
    } else {
      j := |Sweep(es[..n])|;
      SweepLacks(es[..n], id);
    }
  }

  lemma {:induction false} SweepLacks(es: seq<Entry>, id: Id)
    requires forall i :: 0 <= i < |es| ==> es[i].id != id
    ensures forall i :: 0 <= i < |Sweep(es)| ==> Sweep(es)[i].id != id
  {
    if es != [] {
      SweepLacks(es[..|es| - 1], id);
    }
  }

  /** Non-interference: what holds for an id that is not delegated to the signer stays as it is. */
  lemma NonInterference(s: Store, identity: Mask, p: Packet, v1Mode: bool, id: Id)
    requires Apply(s, identity, p, v1Mode).Ok? && NoMarks(s.entries) && !Delegated(s, id, identity)
    ensures var t := Apply(s, identity, p, v1Mode).value;
      Lookup(t.entries, id) == Lookup(s.entries, id) && Query(t, id) == Query(s, id)
  {
    hide Has, Apply, BeforeSweep, Sweep;
    BeforeSweepEvolves(s, identity, p, v1Mode);
    var es := BeforeSweep(s, identity, p, v1Mode).value.entries;
    if |id| <= 96 {
      FindFromFirst(s.entries, id, 0);
      var k := Find(s.entries, id);
      if k >= 0 {
        UndelegatedKept(s, identity, p, v1Mode, k);
        var j := SweepFirst(es, id, k);
        FindFromIs(Sweep(es), id, 0, j);
      } else {
        SweepLacks(es, id);
        FindFromNone(Sweep(es), id, 0);
      }
    }
  }

  lemma {:induction false} InputsUnmarked(s: Store, signer: Mask, inputs: seq<Input>)
    requires ApplyInputs(s, signer, inputs).Ok? && NoMarks(s.entries)
    ensures NoMarks(ApplyInputs(s, signer, inputs).value.entries)
  {
    hide Has, IsNumber, Find;
    if inputs != [] {
      InputsUnmarked(s, signer, inputs[..|inputs| - 1]);
    }
  }

  // ---- Replacing ----

  ghost predicate UniqueIds(es: seq<Entry>) {
    forall i, j :: 0 <= i < j < |es| ==> es[i].id != es[j].id
  }

  /** Ids short enough to be found, as `AddPermissionEntry` makes them. */
  ghost predicate ShortIds(es: seq<Entry>) {
    forall i :: 0 <= i < |es| ==> |es[i].id| <= 96
  }

  /** The packet has an entry for this id. */
  predicate Names(inputs: seq<Input>, id: Id) {
    inputs != [] && (Names(inputs[..|inputs| - 1], id)
                     || (inputs[|inputs| - 1].Input? && inputs[|inputs| - 1].id == id))
  }

  /** During the entries of a packet: of the first `|es|` entries exactly those are still marked that were
      marked and not named, and marked ones are delegated to the signer. */
  ghost predicate Unmarking(es: seq<Entry>, es': seq<Entry>, identity: Mask, inputs: seq<Input>)
  {
    && |es| <= |es'|
    && UniqueIds(es') && ShortIds(es')
    && (forall i :: 0 <= i < |es| ==>
          es'[i].id == es[i].id && (es'[i].marked <==> es[i].marked && !Names(inputs, es[i].id)))
    && (forall i :: 0 <= i < |es'| && es'[i].marked ==> i < |es| && Has(identity, es'[i].dmask))
  }

  lemma NamesSnoc(inputs: seq<Input>, input: Input, id: Id)
    ensures Names(inputs + [input], id) <==> Names(inputs, id) || (input.Input? && input.id == id)
  {
    assert (inputs + [input])[..|inputs|] == inputs;
  }

  /** Naming an entry that is there clears its mark, by an update or because it had none. */
  lemma UnmarkFound(es: seq<Entry>, es': seq<Entry>, identity: Mask, inputs: seq<Input>, input: Input, k: nat, e: Entry)
    requires Unmarking(es, es', identity, inputs) && input.Input? && k < |es'| && es'[k].id == input.id
    requires e.id == input.id && !e.marked
    ensures Unmarking(es, es'[k := e], identity, inputs + [input])
  {
    hide Has, Names;
    forall i | 0 <= i < |es|
      ensures es'[k := e][i].marked <==> es[i].marked && !Names(inputs + [input], es[i].id)
    {
      NamesSnoc(inputs, input, es[i].id);
    }
  }

  /** Naming an id that is not there changes no mark. */
  lemma UnmarkMissing(es: seq<Entry>, es': seq<Entry>, identity: Mask, inputs: seq<Input>, input: Input)
    requires Unmarking(es, es', identity, inputs) && input.Input?
    requires forall i :: 0 <= i < |es'| ==> es'[i].id != input.id
    ensures Unmarking(es, es', identity, inputs + [input])
    ensures forall e: Entry :: e.id == input.id && !e.marked && |e.id| <= 96 ==>
      Unmarking(es, es' + [e], identity, inputs + [input])
  {
    hide Has, Names;
    forall i | 0 <= i < |es|
      ensures es'[i].marked <==> es[i].marked && !Names(inputs + [input], es[i].id)
    {
      NamesSnoc(inputs, input, es[i].id);
    }
  }

  lemma InputUnmarks(es: seq<Entry>, s: Store, identity: Mask, inputs: seq<Input>, input: Input)
    requires Unmarking(es, s.entries, identity, inputs) && ApplyInput(s, identity, input).Ok?
    ensures Unmarking(es, ApplyInput(s, identity, input).value.entries, identity, inputs + [input])
  {
    hide Has;
    var t := ApplyInput(s, identity, input).value;
    var k := Find(s.entries, input.id);
    FindFromFirst(s.entries, input.id, 0);
    if k >= 0 {
      UnmarkFound(es, s.entries, identity, inputs, input, k, t.entries[k]);
      assert t.entries == s.entries[k := t.entries[k]];
    } else {
      assert Unmarking(es, s.entries, identity, inputs);
      UnmarkMissing(es, s.entries, identity, inputs, input);
    }
  }

  lemma {:induction false} InputsUnmark(s: Store, identity: Mask, inputs: seq<Input>)
    requires UniqueIds(s.entries) && ShortIds(s.entries) && ApplyInputs(s, identity, inputs).Ok?
    requires forall i :: 0 <= i < |s.entries| && s.entries[i].marked ==> Has(identity, s.entries[i].dmask)
    ensures Unmarking(s.entries, ApplyInputs(s, identity, inputs).value.entries, identity, inputs)
  {
    hide Has, ApplyInput;
    if inputs != [] {
      var n := |inputs| - 1;
      InputsUnmark(s, identity, inputs[..n]);
      InputUnmarks(s.entries, ApplyInputs(s, identity, inputs[..n]).value, identity, inputs[..n], inputs[n]);
      assert inputs == inputs[..n] + [inputs[n]];
    }
  }

  function Ids(es: seq<Entry>): (r: seq<Id>)
    ensures |r| == |es| && forall i :: 0 <= i < |es| ==> r[i] == es[i].id
  {
    seq(|es|, i requires 0 <= i < |es| => es[i].id)
  }

  /** The ids of the old entries that a replacing packet leaves: an entry of the signer's own stays if and
      only if the packet names it. */
  function Surviving(es: seq<Entry>, identity: Mask, inputs: seq<Input>): seq<Id> {
    if es == [] then []
    else
      var n := |es| - 1;
      if Owns(identity, es[n].dmask) && !Names(inputs, es[n].id) then Surviving(es[..n], identity, inputs)
      else Surviving(es[..n], identity, inputs) + [es[n].id]
  }

  /** An old entry survives if and only if the packet names it or the signer is not the highest user it is delegated
      to. */
  lemma {:induction false} SurvivesExactly(es: seq<Entry>, signer: Mask, inputs: seq<Input>, i: nat)
    requires UniqueIds(es) && i < |es| && OneUser(signer)
    ensures es[i].id in Surviving(es, signer, inputs) <==> Names(inputs, es[i].id) || !TopUser(signer, es[i].dmask)
  {
    hide Owns, TopUser, Names;
    var n := |es| - 1;
    OwnsExactly(signer, es[n].dmask);
    if i < n {
      SurvivesExactly(es[..n], signer, inputs, i);
    } else {
      SurvivorsAre(es[..n], signer, inputs);
    }
  }

  lemma {:induction false} SurvivorsAre(es: seq<Entry>, signer: Mask, inputs: seq<Input>)
    ensures forall id :: id in Surviving(es, signer, inputs) ==> exists i :: 0 <= i < |es| && es[i].id == id
  {
    hide Owns, Names;
    if es != [] {
      var n := |es| - 1;
      SurvivorsAre(es[..n], signer, inputs);
      forall id | id in Surviving(es, signer, inputs)
        ensures exists i :: 0 <= i < |es| && es[i].id == id
      {
        if id in Surviving(es[..n], signer, inputs) {
          var i :| 0 <= i < n && es[..n][i].id == id;
          assert es[i].id == id;
        } else {
          assert es[n].id == id;
        }
      }
    }
  }

  /** The sweep of `es'` keeps the ids that survive of `es`. */
  lemma {:induction false} SweepSurvives(es: seq<Entry>, es': seq<Entry>, identity: Mask, inputs: seq<Input>)
    requires |es'| == |es|
    requires forall i :: 0 <= i < |es| ==>
      es'[i].id == es[i].id && (es'[i].marked <==> Owns(identity, es[i].dmask) && !Names(inputs, es[i].id))
    ensures Ids(Sweep(es')) == Surviving(es, identity, inputs)
  {
    hide Owns, Names;
    if es != [] {
      var n := |es| - 1;
      SweepSurvives(es[..n], es'[..n], identity, inputs);
    }
  }

  lemma {:induction false} SweepPrefix(es: seq<Entry>, n: nat)
    requires n <= |es| && forall i :: n <= i < |es| ==> !es[i].marked
    ensures Sweep(es) == Sweep(es[..n]) + es[n..]
  {
    if n == |es| {
      assert es[..n] == es;
    } else {
      var k := |es| - 1;
      SweepPrefix(es[..k], n);
      assert es[..k][..n] == es[..n];
      assert es[n..] == es[..k][n..] + [es[k]];
    }
  }

  lemma SweepUnmarked(es: seq<Entry>)
    requires NoMarks(es)
    ensures Sweep(es) == es
  {
    SweepPrefix(es, 0);
    assert es[..0] == [] && es[0..] == es;
  }

  lemma {:induction false} SweepClean(es: seq<Entry>)
    ensures NoMarks(Sweep(es))
    ensures forall i :: 0 <= i < |Sweep(es)| ==> Sweep(es)[i] in es
  {
    if es != [] {
      SweepClean(es[..|es| - 1]);
    }
  }

  lemma {:induction false} SweepUnique(es: seq<Entry>)
    requires UniqueIds(es)
    ensures UniqueIds(Sweep(es))
  {
    if es != [] {
      var n := |es| - 1;
      SweepUnique(es[..n]);
      SweepLacks(es[..n], es[n].id);
    }
  }

  // ---- What a packet achieves ----

  /** The entry that holds for an id. */
  function Lookup(es: seq<Entry>, id: Id): Option<Entry> {
    var k := Find(es, id);
    if k >= 0 then Just(es[k]) else Nothing
  }

  /** The entry an input leaves behind: the signer's change, if the signer may make it. */
  function Changed(e: Option<Entry>, defaultDMask: Mask, identity: Mask, input: Input): Option<Entry>
    requires input.Input?
  {
    match e
    case Just(e) =>
      if Has(identity, e.dmask)
      then Just(Entry(e.id, input.pmask, if input.dmask == NOT_SPECIFIED then e.dmask else input.dmask, false))
      else Just(e)
    case Nothing =>
      if Has(identity, defaultDMask) && !IsNumber(input.id)
      then Just(Entry(input.id, input.pmask, if input.dmask == NOT_SPECIFIED then identity else input.dmask, false))
      else Nothing
  }

  lemma InputChanges(s: Store, identity: Mask, input: Input)
    requires ApplyInput(s, identity, input).Ok? && |input.id| <= 96
    ensures Lookup(ApplyInput(s, identity, input).value.entries, input.id)
         == Changed(Lookup(s.entries, input.id), s.dmask, identity, input)
  {
    hide Has;
    var es, t := s.entries, ApplyInput(s, identity, input).value.entries;
    FindFromFirst(es, input.id, 0);
    var k := Find(es, input.id);
    if k >= 0 {
      FindFromIs(t, input.id, 0, k);
    } else if |t| > |es| {
      FindFromIs(t, input.id, 0, |es|);
    }
  }

  lemma InputLeaves(s: Store, identity: Mask, input: Input, id: Id)
    requires ApplyInput(s, identity, input).Ok? && input.id != id
    ensures Lookup(ApplyInput(s, identity, input).value.entries, id) == Lookup(s.entries, id)
  {
    hide Has;
    var es, t := s.entries, ApplyInput(s, identity, input).value.entries;
    FindFromFirst(es, input.id, 0);
    FindFromFirst(es, id, 0);
    var k := FindFrom(es, id, 0);
    if k >= 0 {
      FindFromIs(t, id, 0, k);
    } else {
      FindFromNone(t, id, 0);
    }
  }

  /** What the entries of a packet make of the entry that holds for an id, one after the other. */
  function Settled(e: Option<Entry>, defaultDMask: Mask, identity: Mask, inputs: seq<Input>, id: Id): Option<Entry> {
    if inputs == [] then e
    else
      var n := |inputs| - 1;
      var r := Settled(e, defaultDMask, identity, inputs[..n], id);
      if inputs[n].Input? && inputs[n].id == id then Changed(r, defaultDMask, identity, inputs[n]) else r
  }

  /** What holds for an id after a packet depends on its old entry and on the entries of the packet for it. */
  lemma {:induction false} InputsSettle(s: Store, identity: Mask, inputs: seq<Input>, id: Id)
    requires ApplyInputs(s, identity, inputs).Ok? && |id| <= 96
    ensures Lookup(ApplyInputs(s, identity, inputs).value.entries, id)
         == Settled(Lookup(s.entries, id), s.dmask, identity, inputs, id)
  {
    hide Has, Changed, Lookup, ApplyInput;
    if inputs != [] {
      var n := |inputs| - 1;
      var t := ApplyInputs(s, identity, inputs[..n]).value;
      GoodInput(t, identity, inputs[n]);
      InputsEvolve(s, identity, inputs[..n]);
      InputsSettle(s, identity, inputs[..n], id);
      if inputs[n].id == id {
        InputChanges(t, identity, inputs[n]);
      } else {
        InputLeaves(t, identity, inputs[n], id);
      }
    }
  }

  /** A packet with one entry for an id changes what holds for the id by that entry alone. */
  lemma {:induction false} SettledOnce(e: Option<Entry>, defaultDMask: Mask, identity: Mask, inputs: seq<Input>, id: Id,
                                       i: nat)
    requires forall j :: 0 <= j < |inputs| && inputs[j].Input? ==> (inputs[j].id == id <==> j == i)
    requires i < |inputs| ==> inputs[i].Input?
    ensures Settled(e, defaultDMask, identity, inputs, id)
         == if i < |inputs| then Changed(e, defaultDMask, identity, inputs[i]) else e
  {
    hide Changed;
    if inputs != [] {
      SettledOnce(e, defaultDMask, identity, inputs[..|inputs| - 1], id, i);
    }
  }

  lemma {:induction false} SettledUnnamed(e: Option<Entry>, defaultDMask: Mask, identity: Mask, inputs: seq<Input>,
                                          id: Id)
    requires !Names(inputs, id)
    ensures Settled(e, defaultDMask, identity, inputs, id) == e
  {
    hide Changed;
    if inputs != [] {
      SettledUnnamed(e, defaultDMask, identity, inputs[..|inputs| - 1], id);
    }
  }

  lemma GoodInput(s: Store, identity: Mask, input: Input)
    requires ApplyInput(s, identity, input).Ok?
    ensures input.Input?
  {
  }

  lemma SweepLookup(es: seq<Entry>, id: Id)
    requires Lookup(es, id).Just? && !Lookup(es, id).value.marked
    ensures Lookup(Sweep(es), id) == Lookup(es, id)
  {
    FindFromFirst(es, id, 0);
    var j := SweepFirst(es, id, Find(es, id));
    FindFromIs(Sweep(es), id, 0, j);
  }

  lemma BeginLookup(s: Store, identity: Mask, p: Packet, id: Id)
    ensures var e, e' := Lookup(s.entries, id), Lookup(Begin(s, identity, p).entries, id);
      if e.Nothing? then e' == e else e'.Just? && e'.value == e.value.(marked := e'.value.marked)
  {
    FindFromFirst(s.entries, id, 0);
    var es := Begin(s, identity, p).entries;
    var k := FindFrom(s.entries, id, 0);
    if k >= 0 {
      FindFromIs(es, id, 0, k);
    } else {
      FindFromNone(es, id, 0);
    }
  }

  /** The signer's change takes effect: after the packet the id has exactly the permission mask that its one entry in
      the packet gives, and the delegation mask that it gives, or the old one, or the signer, if the old entry, or the
      new default for a missing one, is delegated to the signer. */
  lemma TakesEffect(s: Store, identity: Mask, p: Packet, v1Mode: bool, i: nat)
    requires Apply(s, identity, p, v1Mode).Ok? && i < |p.inputs| && p.inputs[i].Input? && |p.inputs[i].id| <= 96
    requires forall j :: 0 <= j < |p.inputs| && j != i && p.inputs[j].Input? ==> p.inputs[j].id != p.inputs[i].id
    ensures var input, t, before := p.inputs[i], Apply(s, identity, p, v1Mode).value, Lookup(s.entries, p.inputs[i].id);
      var dmask := if before.Just? then before.value.dmask else t.dmask;
      Has(identity, dmask) && (before.Nothing? ==> input.id == [] || input.id[0] < 0x30 || 0x39 < input.id[0]) ==>
        var given := if input.dmask != 0xFE then input.dmask else if before.Just? then dmask else identity;
        Lookup(t.entries, input.id) == Just(Entry(input.id, input.pmask, given, false))
  {
    hide Has, Sweep, ApplyInputs, Lookup, Settled, Acceptable, Mark;
    var input := p.inputs[i];
    var s1 := ApplyDefaults(Begin(s, identity, p), identity, p.defaults).value;
    var es := ApplyInputs(s1, identity, p.inputs).value.entries;
    InputsEvolve(s1, identity, p.inputs);
    BeginLookup(s, identity, p, input.id);
    LookupId(s.entries, input.id);
    InputsSettle(s1, identity, p.inputs, input.id);
    SettledOnce(Lookup(s1.entries, input.id), s1.dmask, identity, p.inputs, input.id, i);
    if Lookup(es, input.id).Just? && !Lookup(es, input.id).value.marked {
      SweepLookup(es, input.id);
    }
  }

  lemma LookupId(es: seq<Entry>, id: Id)
    ensures Lookup(es, id).Just? ==> Lookup(es, id).value.id == id
  {
    FindFromFirst(es, id, 0);
  }

  /** Version, LSV and defaults after a packet: the LSV is the later of the store's and the packet's, and the defaults
      are the packet's if it gives any and they are delegated to the signer. */
  lemma HeadExactly(s: Store, identity: Mask, p: Packet, v1Mode: bool)
    requires Apply(s, identity, p, v1Mode).Ok?
    ensures var t := Apply(s, identity, p, v1Mode).value;
      && t.version == p.version && (t.lsv == s.lsv || t.lsv == p.lsv) && s.lsv <= t.lsv && p.lsv <= t.lsv
      && (if p.defaults.Defaults? && Has(identity, s.dmask)
          then && t.pmask == p.defaults.pmask
               && t.dmask == if p.defaults.dmask.Just? then p.defaults.dmask.value else s.dmask
          else t.pmask == s.pmask && t.dmask == s.dmask)
  {
    hide ApplyInputs, Sweep, Has, Mark;
    InputsEvolve(ApplyDefaults(Begin(s, identity, p), identity, p.defaults).value, identity, p.inputs);
  }

  lemma {:induction false} SettledNumber(defaultDMask: Mask, identity: Mask, inputs: seq<Input>, id: Id)
    requires id != [] && 0x30 <= id[0] <= 0x39
    ensures Settled(Nothing, defaultDMask, identity, inputs, id) == Nothing
  {
    hide Has;
    if inputs != [] {
      SettledNumber(defaultDMask, identity, inputs[..|inputs| - 1], id);
    }
  }

  /** An id that begins with a digit never gets an entry. */
  lemma NumbersDropped(s: Store, identity: Mask, p: Packet, v1Mode: bool, id: Id)
    requires Apply(s, identity, p, v1Mode).Ok? && Lookup(s.entries, id) == Nothing
    requires id != [] && 0x30 <= id[0] <= 0x39
    ensures Lookup(Apply(s, identity, p, v1Mode).value.entries, id) == Nothing
  {
    hide Has, Sweep, ApplyInputs, Settled, Acceptable, Mark, IsNumber;
    var s1 := ApplyDefaults(Begin(s, identity, p), identity, p.defaults).value;
    var es := ApplyInputs(s1, identity, p.inputs).value.entries;
    BeginLookup(s, identity, p, id);
    if |id| <= 96 {
      InputsSettle(s1, identity, p.inputs, id);
      SettledNumber(s1.dmask, identity, p.inputs, id);
      FindFromFirst(es, id, 0);
      SweepLacks(es, id);
      FindFromNone(Sweep(es), id, 0);
    }
  }

  // ---- Which packets are accepted ----

  /** An id that can be neither found nor added nor dropped. */
  predicate TooLong(input: Input) {
    input.Input? && |input.id| > 96 && !IsNumber(input.id)
  }

  lemma {:induction false} InputsAccepted(s: Store, identity: Mask, inputs: seq<Input>)
    ensures ApplyInputs(s, identity, inputs).Ok?
       <==> forall i :: 0 <= i < |inputs| ==> inputs[i].Input? && !(TooLong(inputs[i]) && Has(identity, s.dmask))
  {
    hide Has, IsNumber;
    if inputs != [] {
      var n := |inputs| - 1;
      InputsAccepted(s, identity, inputs[..n]);
      if ApplyInputs(s, identity, inputs[..n]).Ok? {
        InputsEvolve(s, identity, inputs[..n]);
      }
      assert forall i :: 0 <= i < n ==> inputs[..n][i] == inputs[i];
    }
  }

  /** A packet is accepted if and only if its versions are in order and not older than the LSV, it does not append in
      the first packet version, none of its parts is malformed, and none of its ids is too long to be added while the
      new default is delegated to the signer. */
  lemma AcceptedExactly(s: Store, identity: Mask, p: Packet, v1Mode: bool)
    ensures var dmask := if p.defaults.Defaults? && p.defaults.dmask.Just? && Has(identity, s.dmask)
                         then p.defaults.dmask.value else s.dmask;
      Apply(s, identity, p, v1Mode).Ok?
      <==> && s.lsv <= p.version <= 0xFFFF_FFFF && p.lsv <= p.version && (p.append ==> !v1Mode)
           && !p.defaults.BadDefaults?
           && forall i :: 0 <= i < |p.inputs| ==>
                p.inputs[i].Input? && !(TooLong(p.inputs[i]) && Has(identity, dmask))
  {
    hide ApplyInputs, Sweep, TooLong, Has, Mark;
    if Acceptable(s, p, v1Mode) && !p.defaults.BadDefaults? {
      InputsAccepted(ApplyDefaults(Begin(s, identity, p), identity, p.defaults).value, identity, p.inputs);
    }
  }

  // ---- Replacing is exact ----

  /** The new ids a packet names, in the order of first mention; numbers are dropped. */
  function NewIds(known: seq<Id>, inputs: seq<Input>): seq<Id> {
    if inputs == [] then []
    else
      var n := |inputs| - 1;
      var r, input := NewIds(known, inputs[..n]), inputs[n];
      if input.Input? && !IsNumber(input.id) && input.id !in known && input.id !in r then r + [input.id] else r
  }

  /** The ids behind the old ones are those that the packet adds, if the default is delegated to the signer. */
  function AddedIds(known: seq<Id>, identity: Mask, dmask: Mask, inputs: seq<Input>): seq<Id> {
    if Has(identity, dmask) then NewIds(known, inputs) else []
  }

  lemma FindIds(es: seq<Entry>, id: Id)
    requires |id| <= 96
    ensures Find(es, id) >= 0 <==> id in Ids(es)
  {
    FindFromFirst(es, id, 0);
    if id in Ids(es) {
      var i :| 0 <= i < |es| && Ids(es)[i] == id;
      assert es[i].id == id;
    } else {
      forall i | 0 <= i < |es|
        ensures es[i].id != id
      {
        assert es[i].id == Ids(es)[i];
      }
    }
  }

  lemma LongIsNew(es: seq<Entry>, id: Id)
    requires ShortIds(es) && |id| > 96
    ensures id !in Ids(es)
  {
    forall i | 0 <= i < |es|
      ensures Ids(es)[i] != id
    {
      assert |es[i].id| <= 96;
    }
  }

  /** One entry of a packet adds its id if it is new and may be added. */
  lemma InputIds(s: Store, identity: Mask, input: Input)
    requires ApplyInput(s, identity, input).Ok? && ShortIds(s.entries)
    ensures input.Input?
    ensures Ids(ApplyInput(s, identity, input).value.entries)
         == if Has(identity, s.dmask) && !IsNumber(input.id) && input.id !in Ids(s.entries)
            then Ids(s.entries) + [input.id] else Ids(s.entries)
    ensures ShortIds(ApplyInput(s, identity, input).value.entries)
  {
    hide Has;
    var es := s.entries;
    if |input.id| <= 96 {
      FindIds(es, input.id);
      FindFromFirst(es, input.id, 0);
    } else {
      LongIsNew(es, input.id);
    }
  }

  lemma {:induction false} InputsIds(s: Store, identity: Mask, inputs: seq<Input>)
    requires ApplyInputs(s, identity, inputs).Ok? && ShortIds(s.entries)
    ensures var t := ApplyInputs(s, identity, inputs).value;
      ShortIds(t.entries) && Ids(t.entries) == Ids(s.entries) + AddedIds(Ids(s.entries), identity, s.dmask, inputs)
  {
    hide Has, ApplyInput, ShortIds, IsNumber;
    if inputs == [] {
      assert Ids(s.entries) + [] == Ids(s.entries);
    } else {
      var n := |inputs| - 1;
      InputsIds(s, identity, inputs[..n]);
      InputsEvolve(s, identity, inputs[..n]);
      InputIds(ApplyInputs(s, identity, inputs[..n]).value, identity, inputs[n]);
    }
  }

  /** Marks do not matter for what a packet makes of an entry. */
  lemma {:induction false} SettledMarks(e: Entry, m: bool, defaultDMask: Mask, identity: Mask, inputs: seq<Input>,
                                        id: Id)
    requires !e.marked
    ensures var r := Settled(Just(e), defaultDMask, identity, inputs, id);
      var r' := Settled(Just(e.(marked := m)), defaultDMask, identity, inputs, id);
      r.Just? && r'.Just? && !r.value.marked && r.value == r'.value.(marked := false)
  {
    hide Has;
    if inputs != [] {
      SettledMarks(e, m, defaultDMask, identity, inputs[..|inputs| - 1], id);
    }
  }

  lemma UniqueLookup(es: seq<Entry>, i: nat)
    requires UniqueIds(es) && ShortIds(es) && i < |es|
    ensures Lookup(es, es[i].id) == Just(es[i])
  {
    FindFromIs(es, es[i].id, 0, i);
  }

  /** What the entries of a packet leave for an id before the sweep. */
  lemma BeforeSweepSettled(s: Store, identity: Mask, p: Packet, v1Mode: bool, id: Id)
    requires BeforeSweep(s, identity, p, v1Mode).Ok? && NoMarks(s.entries) && |id| <= 96
    ensures var t := BeforeSweep(s, identity, p, v1Mode).value;
      var r, r' := Lookup(t.entries, id), Settled(Lookup(s.entries, id), t.dmask, identity, p.inputs, id);
      if r.Just? then r'.Just? && r'.value == r.value.(marked := false) else r' == r
  {
    hide Has, ApplyInputs, Lookup;
    var s1 := ApplyDefaults(Begin(s, identity, p), identity, p.defaults).value;
    InputsEvolve(s1, identity, p.inputs);
    InputsSettle(s1, identity, p.inputs, id);
    BeginLookup(s, identity, p, id);
    LookupUnmarked(s.entries, id);
    var e, e' := Lookup(s.entries, id), Lookup(s1.entries, id);
    if e.Just? {
      SettledMarks(e.value, e'.value.marked, s1.dmask, identity, p.inputs, id);
    } else {
      SettledNew(s1.dmask, identity, p.inputs, id);
    }
  }

  lemma LookupUnmarked(es: seq<Entry>, id: Id)
    requires NoMarks(es)
    ensures Lookup(es, id).Just? ==> !Lookup(es, id).value.marked
  {
  }

  lemma {:induction false} SettledNew(defaultDMask: Mask, identity: Mask, inputs: seq<Input>, id: Id)
    ensures var r := Settled(Nothing, defaultDMask, identity, inputs, id); r.Just? ==> !r.value.marked
  {
    hide Has;
    if inputs != [] {
      SettledNew(defaultDMask, identity, inputs[..|inputs| - 1], id);
    }
  }

  /** Replacing is exact. The signer's own entries stay if and only if the packet names them and every other old
      entry stays, all in their order; behind them come the new ids the packet names, in the order of first
      mention, if the default is delegated to the signer; no mark is left. Every entry has the masks that the
      packet's entries for its id make of the old one, so what the packet does not name is as it was. */
  lemma ReplaceExact(s: Store, identity: Mask, p: Packet, v1Mode: bool)
    requires Apply(s, identity, p, v1Mode).Ok? && !p.append
    requires NoMarks(s.entries) && UniqueIds(s.entries) && ShortIds(s.entries)
    ensures var t := Apply(s, identity, p, v1Mode).value;
      && Ids(t.entries) == Surviving(s.entries, identity, p.inputs)
        + AddedIds(Ids(s.entries), identity, t.dmask, p.inputs)
      && NoMarks(t.entries) && UniqueIds(t.entries) && ShortIds(t.entries)
      && forall e :: e in t.entries ==>
           && Settled(Lookup(s.entries, e.id), t.dmask, identity, p.inputs, e.id) == Just(e)
           && (!Names(p.inputs, e.id) ==> e in s.entries)
  {
    hide Apply, BeforeSweep, Settled, Surviving, AddedIds, Names, Lookup, Sweep, UniqueIds, ShortIds, NoMarks;
    BeforeSweepEvolves(s, identity, p, v1Mode);
    var t := Apply(s, identity, p, v1Mode).value;
    var es := ReplaceIds(s, identity, p, v1Mode);
    SweepClean(es);
    SweepUnique(es);
    SweepShort(es);
    forall e | e in t.entries
      ensures Settled(Lookup(s.entries, e.id), t.dmask, identity, p.inputs, e.id) == Just(e)
      ensures !Names(p.inputs, e.id) ==> e in s.entries
    {
      SweepMember(es, e);
      EntrySettled(s, identity, p, v1Mode, BeforeSweep(s, identity, p, v1Mode).value, e);
    }
  }

  lemma {:induction false} NewIdsNew(known: seq<Id>, inputs: seq<Input>, id: Id)
    ensures id in NewIds(known, inputs) <==> id !in known && !IsNumber(id) && Names(inputs, id)
  {
    hide IsNumber;
    if inputs != [] {
      NewIdsNew(known, inputs[..|inputs| - 1], id);
    }
  }

  /** Which entries there are after a replacing packet of a user: of the old ones those that the packet names and those
      of which the signer is not the highest user; of the new ones those that the packet names, if the new default is
      delegated to the signer and the id is no number. */
  lemma ReplaceMembers(s: Store, signer: Mask, p: Packet, v1Mode: bool, id: Id)
    requires Apply(s, signer, p, v1Mode).Ok? && !p.append && OneUser(signer)
    requires NoMarks(s.entries) && UniqueIds(s.entries) && ShortIds(s.entries)
    ensures var t := Apply(s, signer, p, v1Mode).value;
      && (forall i :: 0 <= i < |s.entries| && s.entries[i].id == id ==>
            (id in Ids(t.entries) <==> Names(p.inputs, id) || !TopUser(signer, s.entries[i].dmask)))
      && (id !in Ids(s.entries) ==>
            (id in Ids(t.entries) <==> Names(p.inputs, id) && Has(signer, t.dmask) && !IsNumber(id)))
  {
    hide Apply, Names, TopUser, Surviving, NewIds, IsNumber;
    ReplaceExact(s, signer, p, v1Mode);
    NewIdsNew(Ids(s.entries), p.inputs, id);
    forall i | 0 <= i < |s.entries| && s.entries[i].id == id
      ensures id in Surviving(s.entries, signer, p.inputs)
         <==> Names(p.inputs, id) || !TopUser(signer, s.entries[i].dmask)
      ensures id in Ids(s.entries)
    {
      SurvivesExactly(s.entries, signer, p.inputs, i);
      assert Ids(s.entries)[i] == id;
    }
    SurvivorsAre(s.entries, signer, p.inputs);
    if id in Surviving(s.entries, signer, p.inputs) {
      var i :| 0 <= i < |s.entries| && s.entries[i].id == id;
      assert Ids(s.entries)[i] == id;
    }
  }

  lemma SweepShort(es: seq<Entry>)
    requires ShortIds(es)
    ensures ShortIds(Sweep(es))
  {
    hide Sweep;
    SweepClean(es);
    forall i | 0 <= i < |Sweep(es)|
      ensures |Sweep(es)[i].id| <= 96
    {
      var j :| 0 <= j < |es| && es[j] == Sweep(es)[i];
    }
  }

  lemma SweepMember(es: seq<Entry>, e: Entry)
    requires e in Sweep(es)
    ensures e in es && !e.marked
  {
    hide Sweep;
    SweepClean(es);
    var i :| 0 <= i < |Sweep(es)| && Sweep(es)[i] == e;
  }

  /** An entry that is not marked before the sweep is what the packet makes of the old entry. */
  lemma EntrySettled(s: Store, identity: Mask, p: Packet, v1Mode: bool, t: Store, e: Entry)
    requires BeforeSweep(s, identity, p, v1Mode) == Ok(t) && NoMarks(s.entries)
    requires UniqueIds(t.entries) && ShortIds(t.entries) && e in t.entries && !e.marked
    ensures Settled(Lookup(s.entries, e.id), t.dmask, identity, p.inputs, e.id) == Just(e)
    ensures !Names(p.inputs, e.id) ==> e in s.entries
  {
    hide BeforeSweep, Settled, Names, Lookup;
    var j :| 0 <= j < |t.entries| && t.entries[j] == e;
    UniqueLookup(t.entries, j);
    BeforeSweepSettled(s, identity, p, v1Mode, e.id);
    if !Names(p.inputs, e.id) {
      SettledUnnamed(Lookup(s.entries, e.id), t.dmask, identity, p.inputs, e.id);
      LookupMember(s.entries, e.id);
    }
  }

  lemma LookupMember(es: seq<Entry>, id: Id)
    ensures Lookup(es, id).Just? ==> Lookup(es, id).value in es
  {
  }

  /** The store of a replacing packet before its entries: the same ids, and the signer's own entries marked. */
  lemma MarkedStart(s: Store, identity: Mask, p: Packet)
    requires !p.append && NoMarks(s.entries) && UniqueIds(s.entries) && ShortIds(s.entries)
    ensures var es := Begin(s, identity, p).entries;
      && |es| == |s.entries| && Ids(es) == Ids(s.entries) && UniqueIds(es) && ShortIds(es)
      && forall i :: 0 <= i < |es| ==>
           && es[i].id == s.entries[i].id && (es[i].marked <==> Owns(identity, s.entries[i].dmask))
           && (es[i].marked ==> Has(identity, es[i].dmask))
  {
    hide Has, Highest, Owns;
    var es := Begin(s, identity, p).entries;
    forall i | 0 <= i < |es|
      ensures es[i].id == s.entries[i].id && (es[i].marked <==> Owns(identity, s.entries[i].dmask))
      ensures es[i].marked ==> Has(identity, es[i].dmask)
    {
      if Owns(identity, s.entries[i].dmask) {
        OwnerIsDelegated(identity, s.entries[i].dmask);
      }
    }
  }

  lemma IdsBehind(es: seq<Entry>, kept: seq<Entry>, known: seq<Id>, added: seq<Id>)
    requires Ids(es) == known + added
    ensures Ids(kept + es[|known|..]) == Ids(kept) + added
  {
    assert Ids(es[|known|..]) == Ids(es)[|known|..];
  }

  /** The entries before the sweep: what the packet does not name of the signer's own is still marked, and the new ids
      are behind the old ones. */
  lemma BeforeReplacing(s: Store, identity: Mask, p: Packet, v1Mode: bool) returns (es: seq<Entry>)
    requires BeforeSweep(s, identity, p, v1Mode).Ok? && !p.append
    requires NoMarks(s.entries) && UniqueIds(s.entries) && ShortIds(s.entries)
    ensures var t := BeforeSweep(s, identity, p, v1Mode).value;
      && es == t.entries && UniqueIds(es) && ShortIds(es) && |s.entries| <= |es|
      && Ids(es) == Ids(s.entries) + AddedIds(Ids(s.entries), identity, t.dmask, p.inputs)
    ensures forall i :: 0 <= i < |s.entries| ==>
      && es[i].id == s.entries[i].id
      && (es[i].marked <==> Owns(identity, s.entries[i].dmask) && !Names(p.inputs, s.entries[i].id))
    ensures forall i :: |s.entries| <= i < |es| ==> !es[i].marked
  {
    hide Has, ApplyInputs, AddedIds, Acceptable, Mark, Owns, Names, UniqueIds, ShortIds, NoMarks;
    MarkedStart(s, identity, p);
    var s1 := ApplyDefaults(Begin(s, identity, p), identity, p.defaults).value;
    InputsUnmark(s1, identity, p.inputs);
    InputsEvolve(s1, identity, p.inputs);
    InputsIds(s1, identity, p.inputs);
    es := BeforeSweep(s, identity, p, v1Mode).value.entries;
  }

  /** The ids of a replacing packet, and the entries before the sweep. */
  lemma ReplaceIds(s: Store, identity: Mask, p: Packet, v1Mode: bool) returns (es: seq<Entry>)
    requires Apply(s, identity, p, v1Mode).Ok? && !p.append
    requires NoMarks(s.entries) && UniqueIds(s.entries) && ShortIds(s.entries)
    ensures BeforeSweep(s, identity, p, v1Mode).Ok? && es == BeforeSweep(s, identity, p, v1Mode).value.entries
    ensures UniqueIds(es) && ShortIds(es)
    ensures var t := Apply(s, identity, p, v1Mode).value;
      Ids(t.entries) == Surviving(s.entries, identity, p.inputs) + AddedIds(Ids(s.entries), identity, t.dmask, p.inputs)
  {
    hide BeforeSweep, Sweep, Surviving, AddedIds, Owns, Names, UniqueIds, ShortIds, NoMarks;
    es := BeforeReplacing(s, identity, p, v1Mode);
    var n, t := |s.entries|, BeforeSweep(s, identity, p, v1Mode).value;
    SweepPrefix(es, n);
    SweepSurvives(s.entries, es[..n], identity, p.inputs);
    IdsBehind(es, Sweep(es[..n]), Ids(s.entries), AddedIds(Ids(s.entries), identity, t.dmask, p.inputs));
  }

  // ---- Appending is exact ----

  /** An appending packet keeps all old entries in their order; behind them come the new ids it names, as with a
      replacing one, and every entry has the masks that the packet's entries for its id make of the old one. */
  lemma AppendExact(s: Store, identity: Mask, p: Packet, v1Mode: bool)
    requires Apply(s, identity, p, v1Mode).Ok? && p.append
    requires NoMarks(s.entries) && UniqueIds(s.entries) && ShortIds(s.entries)
    ensures var t := Apply(s, identity, p, v1Mode).value;
      && Ids(t.entries) == Ids(s.entries) + AddedIds(Ids(s.entries), identity, t.dmask, p.inputs)
      && NoMarks(t.entries) && UniqueIds(t.entries) && ShortIds(t.entries)
      && forall e :: e in t.entries ==>
           && Settled(Lookup(s.entries, e.id), t.dmask, identity, p.inputs, e.id) == Just(e)
           && (!Names(p.inputs, e.id) ==> e in s.entries)
  {
    hide ApplyInputs, Settled, AddedIds, Names, Lookup, Sweep, UniqueIds, ShortIds, Has, Mark;
    var s1 := ApplyDefaults(Begin(s, identity, p), identity, p.defaults).value;
    var t := BeforeSweep(s, identity, p, v1Mode).value;
    InputsEvolve(s1, identity, p.inputs);
    InputsIds(s1, identity, p.inputs);
    InputsUnmark(s1, identity, p.inputs);
    InputsUnmarked(s1, identity, p.inputs);
    SweepUnmarked(t.entries);
    forall e | e in t.entries
      ensures Settled(Lookup(s.entries, e.id), t.dmask, identity, p.inputs, e.id) == Just(e)
      ensures !Names(p.inputs, e.id) ==> e in s.entries
    {
      EntrySettled(s, identity, p, v1Mode, t, e);
    }
  }
}
