/** The permission store in memory: a list of entries that is searched, marked, updated and swept in place. */
module PermissionStore {
  import opened Wrappers
  import opened Permissions

  lemma {:induction false} SweepConcat(a: seq<Entry>, b: seq<Entry>)
    ensures Sweep(a + b) == Sweep(a) + Sweep(b)
  {
    if b == [] {
      assert a + b == a;
    } else {
      var n := |b| - 1;
      SweepConcat(a, b[..n]);
      assert (a + b)[..|a| + n] == a + b[..n];
    }
  }

  lemma SweepStep(es: seq<Entry>, i: nat)
    requires i < |es|
    ensures es[..i] + Sweep(es[i..])
         == if es[i].marked then es[..i] + Sweep(es[i + 1..]) else es[..i + 1] + Sweep(es[i + 1..])
  {
    var e := [es[i]];
    SweepConcat(e, es[i + 1..]);
    assert es[i..] == e + es[i + 1..] && e[..0] == [];
    assert es[..i + 1] == es[..i] + e;
  }

  /** `AddRequiredPermissionEntry`. */
  function AddRequired(es: seq<Entry>, id: Id, pmask: Mask, dmask: Mask): Result<seq<Entry>> {
    var k := Find(es, id);
    if k >= 0 then Ok(es[k := es[k].(pmask := pmask, dmask := dmask)]) else Add(es, id, pmask, dmask)
  }

  class PermStore {
    var version: nat
    var lsv: nat
    var modified: bool
    var defaultPMask: Mask
    var defaultDMask: Mask
    var entries: seq<Entry>

    ghost function Value(): Store
      reads this
    {
      Store(version, lsv, defaultPMask, defaultDMask, entries)
    }

    constructor (s: Store)
      ensures Value() == s && modified
    {
      version, lsv, defaultPMask, defaultDMask, entries := s.version, s.lsv, s.pmask, s.dmask, s.entries;
      modified := true;
    }

    method FindEntry(id: Id) returns (k: int)
      ensures k == Find(entries, id)
    {
      if |id| > 96 {
        return -1;
      }
      var i := 0;
      while i < |entries|
        invariant 0 <= i <= |entries| && FindFrom(entries, id, 0) == FindFrom(entries, id, i)
      {
        if entries[i].id == id {
          return i;
        }
        i := i + 1;
      }
      return -1;
    }

    method QueryPermission(id: Id) returns (mask: Mask)
      ensures mask == Query(Value(), id)
    {
      mask := defaultPMask;
      var k := FindEntry(id);
      if k >= 0 {
        mask := entries[k].pmask;
      }
    }

    method AddEntry(id: Id, pmask: Mask, dmask: Mask) returns (ok: bool)
      modifies this`entries
      ensures var r := Add(old(entries), id, pmask, dmask);
        ok == r.Ok? && entries == if r.Ok? then r.value else old(entries)
    {
      if IsNumber(id) {
        return true;
      }
      if |id| > 96 {
        return false;
      }
      entries := entries + [Entry(id, pmask, dmask, false)];
      return true;
    }

    method AddRequiredEntry(id: Id, pmask: Mask, dmask: Mask) returns (ok: bool)
      modifies this`entries
      ensures var r := AddRequired(old(entries), id, pmask, dmask);
        ok == r.Ok? && entries == if r.Ok? then r.value else old(entries)
    {
      var k := FindEntry(id);
      if k < 0 {
        ok := AddEntry(id, pmask, dmask);
      } else {
        entries := entries[k := entries[k].(pmask := pmask, dmask := dmask)];
        ok := true;
      }
    }

    /** `DeletePermissionEntry`. */
    method DeleteEntry(id: Id) returns (ok: bool)
      modifies this`entries
      ensures var k := Find(old(entries), id);
        ok == (k >= 0) && entries == if k >= 0 then old(entries)[..k] + old(entries)[k + 1..] else old(entries)
    {
      var k := FindEntry(id);
      if k < 0 {
        return false;
      }
      entries := entries[..k] + entries[k + 1..];
      return true;
    }

    method MarkEntries(identity: Mask)
      modifies this`entries
      ensures entries == Mark(old(entries), identity)
    {
      var i := 0;
      while i < |entries|
        invariant 0 <= i <= |entries| == |old(entries)|
        invariant forall j :: 0 <= j < i ==> entries[j] == MarkEntry(old(entries)[j], identity)
        invariant entries[i..] == old(entries)[i..]
      {
        assert entries[i] == old(entries)[i];
        if entries[i].dmask & USERS != 0 {
          if Has(identity, Highest(entries[i].dmask)) {
            entries := entries[i := entries[i].(marked := true)];
          }
        }
        i := i + 1;
      }
    }

    method DeleteMarked()
      modifies this`entries
      ensures entries == Sweep(old(entries))
    {
      var i := 0;
      while i < |entries|
        invariant 0 <= i <= |entries|
        invariant entries[..i] + Sweep(entries[i..]) == Sweep(old(entries))
        decreases |entries| - i
      {
        ghost var es := entries;
        SweepStep(es, i);
        if entries[i].marked {
          entries := entries[..i] + entries[i + 1..];
          assert entries[..i] == es[..i] && entries[i..] == es[i + 1..];
        } else {
          i := i + 1;
        }
      }
      assert entries[i..] == [] && Sweep([]) == [];
    }

    /** One entry of a packet. */
    method ApplyEntry(identity: Mask, input: Input) returns (ok: bool)
      modifies this`entries
      ensures var r := ApplyInput(old(Value()), identity, input);
        ok == r.Ok? && (ok ==> Value() == r.value)
    {
      if input.BadInput? {
        return false;
      }
      ok := true;
      var k := FindEntry(input.id);
      if k >= 0 {
        var e := entries[k];
        if Has(identity, e.dmask) {
          e := e.(pmask := input.pmask);
          if input.dmask != NOT_SPECIFIED {
            e := e.(dmask := input.dmask);
          }
          e := e.(marked := false);
          entries := entries[k := e];
        }
      } else if Has(identity, defaultDMask) {
        var d := input.dmask;
        if d == NOT_SPECIFIED {
          d := identity;
        }
        ok := AddEntry(input.id, input.pmask, d);
      }
    }

    /** The loop over the entries of a packet. */
    method ApplyEntries(identity: Mask, inputs: seq<Input>) returns (ok: bool)
      modifies this`entries
      ensures var r := ApplyInputs(old(Value()), identity, inputs);
        ok == r.Ok? && (ok ==> Value() == r.value)
    {
      ghost var s := Value();
      var i := 0;
      while i < |inputs|
        invariant 0 <= i <= |inputs| && ApplyInputs(s, identity, inputs[..i]) == Ok(Value())
      {
        assert inputs[..i + 1][..i] == inputs[..i];
        ok := ApplyEntry(identity, inputs[i]);
        if !ok {
          ApplyStops(s, identity, inputs, i + 1);
          return;
        }
        i := i + 1;
      }
      assert inputs[..i] == inputs;
      ok := true;
    }

    /** The default masks of a packet. */
    method SetDefaults(identity: Mask, d: DefaultsInput) returns (ok: bool)
      modifies this`defaultPMask, this`defaultDMask
      ensures var r := ApplyDefaults(old(Value()), identity, d);
        ok == r.Ok? && (ok ==> Value() == r.value)
    {
      hide Has;
      match d {
        case NoDefaults =>
        case BadDefaults => return false;
        case Defaults(pm, dm) =>
          if Has(identity, defaultDMask) {
            defaultPMask := pm;
            if dm.Just? {
              defaultDMask := dm.value;
            }
          }
      }
      return true;
    }

    /** The checks on the versions, the versions themselves and the marks. */
    method Start(identity: Mask, p: Packet, v1Mode: bool) returns (ok: bool)
      modifies this`version, this`lsv, this`entries
      ensures ok == Acceptable(old(Value()), p, v1Mode) && (ok ==> Value() == Begin(old(Value()), identity, p))
    {
      hide Mark;
      if p.version > 0xFFFF_FFFF {
        return false;
      }
      if p.version < lsv {
        return false;
      }
      if p.lsv > 0xFFFF_FFFF || p.lsv > p.version {
        return false;
      }
      var newLsv := if lsv < p.lsv then p.lsv else lsv;
      if p.append && v1Mode {
        return false;
      }
      if !p.append {
        MarkEntries(identity);
      }
      lsv := newLsv;
      version := p.version;
      return true;
    }

    /** `ApplyPermissionsInXml` from the parsed packet on; after a failure the caller reloads the store. */
    method ApplyPacket(identity: Mask, p: Packet, v1Mode: bool) returns (ok: bool)
      modifies this`version, this`lsv, this`defaultPMask, this`defaultDMask, this`entries
      ensures var r := Apply(old(Value()), identity, p, v1Mode);
        ok == r.Ok? && (ok ==> Value() == r.value)
    {
      hide Acceptable, Begin, ApplyDefaults, ApplyInputs, Sweep;
      ok := Start(identity, p, v1Mode);
      if ok {
        ok := SetDefaults(identity, p.defaults);
      }
      if ok {
        ok := ApplyEntries(identity, p.inputs);
      }
      if ok {
        DeleteMarked();
      }
    }

    /** The number of entries and the bytes their ids take with their null bytes. */
    method CountEntries() returns (count: nat, idSize: nat)
      ensures count == |entries| && idSize == IdBytes(entries)
    {
      count, idSize := 0, 0;
      while count < |entries|
        invariant count <= |entries| && idSize == IdBytes(entries[..count])
      {
        assert entries[..count + 1][..count] == entries[..count];
        idSize := idSize + |entries[count].id| + 1;
        count := count + 1;
      }
      assert entries[..count] == entries;
    }
  }

  function IdBytes(es: seq<Entry>): nat {
    if es == [] then 0 else IdBytes(es[..|es| - 1]) + |es[|es| - 1].id| + 1
  }

  /** A bad entry ends the packet. */
  lemma {:induction false} ApplyStops(s: Store, identity: Mask, inputs: seq<Input>, n: nat)
    requires n <= |inputs| && ApplyInputs(s, identity, inputs[..n]).Err?
    ensures ApplyInputs(s, identity, inputs).Err?
    decreases |inputs| - n
  {
    if n < |inputs| {
      assert inputs[..n + 1][..n] == inputs[..n];
      ApplyStops(s, identity, inputs, n + 1);
    } else {
      assert inputs[..n] == inputs;
    }
  }
}
