/** The certificate table in memory and the loops that pack and unpack it. */
module CertStore {
  import opened Wrappers
  import opened Bits
  import opened Memory
  import opened Permissions
  import opened Certificates

  class Store {
    var version: nat
    var lsv: nat
    var populated: Mask
    var slots: seq<Slot>
    var nv: Option<seq<Byte>>  // the variable _IPCVN

    ghost function Value(): Certs
      reads this
    {
      Certs(version, lsv, populated, slots)
    }

    constructor (c: Certs, contents: Option<seq<Byte>>)
      ensures Value() == c && nv == contents
    {
      version, lsv, populated, slots, nv := c.version, c.lsv, c.populated, c.slots, contents;
    }

    /** The bytes the certificates take. */
    method DataSize() returns (size: nat)
      requires forall i :: 0 <= i < |slots| ==> SlotWhole(slots[i])
      ensures size == |Data(slots)|
    {
      size := 0;
      var i := 0;
      while i < |slots|
        invariant 0 <= i <= |slots| && size == |Data(slots[..i])|
      {
        SizesSnoc(slots, i);
        assert SlotWhole(slots[i]);
        if slots[i].cert.Just? {
          size := size + slots[i].size;
        }
        i := i + 1;
      }
      assert slots[..i] == slots;
    }

    /** The size and the certificate of slot `i`. */
    method PackSlot(image: array<Byte>, i: nat, p: nat) returns (q: nat)
      requires |slots| == 7 && i < 7 && 32 <= p <= image.Length && p + |SlotData(slots[i])| <= image.Length
      modifies image
      ensures image[..10] == old(image[..10]) && image[24..32] == old(image[24..32])
      ensures image[10..12 + 2 * i] == old(image[10..10 + 2 * i]) + Word(slots[i].size % 0x1_0000)
      ensures q == p + |SlotData(slots[i])| && image[32..q] == old(image[32..p]) + SlotData(slots[i])
    {
      hide Patch, Word;
      ghost var b := image[..];
      var at, size, bytes := 10 + 2 * i, Word(slots[i].size % 0x1_0000), SlotData(slots[i]);
      Copy(image, at, size);
      ghost var d := image[..];
      Copy(image, p, bytes);
      PatchKeeps(b, at, size, 0, 10);
      PatchKeeps(b, at, size, 24, 32);
      PatchKeeps(b, at, size, 32, p);
      PatchExtends(b, at, size, 10);
      PatchKeeps(d, p, bytes, 0, 10);
      PatchKeeps(d, p, bytes, 24, 32);
      PatchKeeps(d, p, bytes, 10, at + 2);
      PatchExtends(d, p, bytes, 32);
      q := p + |bytes|;
    }

    /** The loop that fills in the sizes and the certificates. */
    method PackSlots(image: array<Byte>)
      requires |slots| == 7 && image.Length == 32 + |Data(slots)|
      modifies image
      ensures image[..10] == old(image[..10]) && image[24..32] == old(image[24..32])
      ensures image[10..24] == Sizes(slots) && image[32..] == Data(slots)
    {
      hide Sizes, Data, Word, SlotData;
      ghost var head, mid := image[..10], image[24..32];
      var p := 32;
      var i := 0;
      Empty();
      assert slots[..0] == [];
      while i < 7
        invariant 0 <= i <= 7 && p == 32 + |Data(slots[..i])| <= image.Length
        invariant image[..10] == head && image[24..32] == mid
        invariant image[10..10 + 2 * i] == Sizes(slots[..i]) && image[32..p] == Data(slots[..i])
      {
        SizesSnoc(slots, i);
        SizesPrefix(slots, i + 1);
        p := PackSlot(image, i, p);
        i := i + 1;
      }
      assert slots[..7] == slots && image[32..p] == image[32..];
    }

    /** The fields before the sizes and after them. */
    method PackHeader(image: array<Byte>)
      requires image.Length >= 32
      modifies image
      ensures image[..10] == SIGNATURE + [2, 7] && image[24..32] == Dword(version) + Dword(lsv)
    {
      hide Patch, Dword;
      ghost var b0, sig := image[..], SIGNATURE + [2, 7];
      Copy(image, 0, SIGNATURE + [2, 7]);
      ghost var b1 := image[..];
      Copy(image, 24, Dword(version));
      ghost var b2 := image[..];
      Copy(image, 28, Dword(lsv));
      PatchExtends(b0, 0, sig, 0);
      PatchKeeps(b1, 24, Dword(version), 0, 10);
      PatchExtends(b1, 24, Dword(version), 24);
      PatchKeeps(b2, 28, Dword(lsv), 0, 10);
      PatchExtends(b2, 28, Dword(lsv), 24);
    }

    /** `SaveProvisionedData`, with a variable write that succeeds. */
    method Save()
      requires CertsWhole(Value())
      modifies this`nv
      ensures nv == Just(CertImage(Value()))
    {
      hide Sizes, Data, Dword, CertImage;
      var size := DataSize();
      var image := new Byte[32 + size](_ => 0);
      PackHeader(image);
      PackSlots(image);
      ImageIs(Value(), image[..]);
      nv := Just(image[..]);
    }

    /** The loop over the slots of an image: their sizes, certificates and identities. */
    method UnpackSlots(b: seq<Byte>, n: nat, start: nat) returns (ok: bool)
      requires |slots| == 7 && n <= 7 && 10 + 2 * n <= start <= |b|
      modifies this`populated, this`slots
      ensures var w := WalkSlots(b, n, 0, Walked(true, old(populated), old(slots), start));
        ok == w.ok && populated == w.populated && slots == w.slots
    {
      hide SizeAt, IndexIdentity;
      ghost var goal := WalkSlots(b, n, 0, Walked(true, populated, slots, start));
      var p, i := start, 0;
      while i < n
        invariant 0 <= i <= n && start <= p <= |b| && |slots| == 7
        invariant WalkSlots(b, n, i, Walked(true, populated, slots, p)) == goal
      {
        var size := SizeAt(b, i);
        ghost var before := slots;
        slots := slots[i := Slot(Nothing, size)];
        if size != 0 {
          if |b| - p < size {
            return false;
          }
          slots := slots[i := Slot(Just(b[p..p + size]), size)];
          assert slots == before[i := Slot(Just(b[p..p + size]), size)];
          populated := populated | IndexIdentity(i);
          p := p + size;
        }
        i := i + 1;
      }
      return true;
    }

    /** The loop that drops user keys without an owner. */
    method DropUserKeys()
      requires |slots| == 7
      modifies this`version, this`lsv, this`slots
      ensures Value() == DropUsers(old(Value()))
    {
      ghost var c := Value();
      var i := 0;
      while i < 7
        invariant 0 <= i <= 7 && |slots| == 7
        invariant forall j :: 0 <= j < 7 ==> slots[j] == if j < i && j < 3 then DropCert(c.slots[j]) else c.slots[j]
        invariant version == if AnyCert(c.slots, i) then 0 else c.version
        invariant lsv == if AnyCert(c.slots, i) then 0 else c.lsv
      {
        if IndexIdentity(i) & USER_KEYS != 0 {
          if slots[i].cert.Just? {
            slots := slots[i := DropCert(slots[i])];
            version, lsv := 0, 0;
          }
        }
        i := i + 1;
      }
      assert slots == DropUsers(c).slots;
    }

    /** The table part of `LoadProvisionedData`. */
    method UnpackTable(b: seq<Byte>, n: nat, p: nat) returns (status: LoadStatus)
      requires |slots| == 7 && n <= 7 && 10 + 2 * n <= p <= |b|
      modifies this`version, this`lsv, this`populated, this`slots
      ensures LoadedCerts(status, Value()) == LoadTable(b, n, p, old(Value()))
    {
      hide WalkSlots, DropUsers;
      if b[9] != n {
        return Unsupported;
      }
      WalkLength(b, n, 0, Walked(true, populated, slots, p));
      var ok := UnpackSlots(b, n, p);
      if !ok {
        return Compromised;
      }
      if populated & USER_KEYS != 0 && populated & OWNER_KEY == 0 {
        DropUserKeys();
        return NoOwner;
      }
      return LoadOk;
    }

    /** `LoadProvisionedData`. */
    method Load() returns (status: LoadStatus)
      requires |slots| == 7
      modifies this`version, this`lsv, this`populated, this`slots
      ensures LoadedCerts(status, Value()) == LoadVariable(nv, old(Value()))
    {
      hide LoadTable, DwordValue;
      if nv.Nothing? {
        return NotFound;
      }
      var b := nv.value;
      if |b| < 18 || b[..8] != SIGNATURE {
        return Compromised;
      }
      if b[8] == 1 {
        version, lsv := 0, 0;
        status := UnpackTable(b, 4, 18);
      } else if b[8] != 2 {
        status := Incompatible;
      } else if |b| < 32 {
        status := Compromised;
      } else {
        version, lsv := DwordValue(b[24..28]), DwordValue(b[28..32]);
        status := UnpackTable(b, 7, 32);
      }
    }
  }

  /** One of the user slots below `i` is filled. */
  predicate AnyCert(slots: seq<Slot>, i: nat)
    requires |slots| == 7
  {
    exists j :: 0 <= j < i && j < 3 && slots[j].cert.Just?
  }

  lemma Empty()
    ensures Sizes([]) == [] && Data([]) == []
  {
  }

  lemma ImageIs(c: Certs, b: seq<Byte>)
    requires |c.slots| == 7 && |b| == 32 + |Data(c.slots)| && b[..10] == SIGNATURE + [2, 7]
    requires b[10..24] == Sizes(c.slots) && b[24..32] == Dword(c.version) + Dword(c.lsv) && b[32..] == Data(c.slots)
    ensures b == CertImage(c)
  {
    hide Sizes, Data, Dword;
    assert b == b[..10] + b[10..24] + b[24..32] + b[32..];
  }
}
