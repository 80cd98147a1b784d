/** The version and the LSV of the settings: how packets change them and how they are persisted. */
module SettingsVersions {
  import opened Wrappers
  import opened Bits
  import opened Memory

  datatype Internal = Internal(version: nat, lsv: nat, modified: bool)

  /** A settings packet; `authentic` and `complete` tell whether it is authenticated and whether its list of
      settings can be worked through. */
  datatype SettingsPacket = SettingsPacket(authentic: bool, version: nat, lsv: nat, complete: bool)

  // ---- The variable ----

  const SMID: seq<Byte> := [0x53, 0x4D, 0x49, 0x44, 1]

  function InternalImage(d: Internal, created: seq<Byte>, now: seq<Byte>): seq<Byte> {
    SMID + Dword(d.version) + Dword(d.lsv) + created + now
  }

  /** `SMID_LoadFromFlash`. */
  function LoadInternal(nv: Option<seq<Byte>>): Result<Internal> {
    if nv.Nothing? || |nv.value| != 45 || nv.value[..5] != SMID then Err
    else
      var version, lsv := DwordValue(nv.value[5..9]), DwordValue(nv.value[9..13]);
      if version < lsv then Err else Ok(Internal(version, lsv, false))
  }

  /** What an accepted packet makes of the versions. */
  predicate VersionsFit(d: Internal, p: SettingsPacket) {
    p.version <= 0xFFFF_FFFF && d.lsv <= p.version && p.lsv <= p.version
  }

  function Updated(d: Internal, p: SettingsPacket): Internal {
    Internal(p.version, if p.lsv > d.lsv then p.lsv else d.lsv, d.modified || d.version != p.version || p.lsv > d.lsv)
  }

  predicate Accepted(nv: Option<seq<Byte>>, p: SettingsPacket) {
    p.authentic && p.complete && VersionsFit(Current(nv), p)
  }

  /** The data a packet starts from: what the variable holds, or the initial data. */
  function Current(nv: Option<seq<Byte>>): Internal {
    match LoadInternal(nv)
    case Ok(d) => d
    case Err => Internal(0, 0, true)
  }

  /** `ApplyNewSettingsPacket`: only a packet that went through is persisted. */
  function Receive(nv: Option<seq<Byte>>, p: SettingsPacket, created: seq<Byte>, now: seq<Byte>): Option<seq<Byte>> {
    var d := Updated(Current(nv), p);
    if Accepted(nv, p) && d.modified then Just(InternalImage(d, created, now)) else nv
  }

  // ---- The class ----

  class SettingsManager {
    var nv: Option<seq<Byte>>  // the variable _SMID
    var version: nat           // CurrentVersion
    var lsv: nat               // LSV
    var modified: bool         // Modified

    constructor (contents: Option<seq<Byte>>)
      ensures nv == contents
    {
      nv := contents;
      version, lsv, modified := 0, 0, true;
    }

    ghost function Value(): Internal
      reads this
    {
      Internal(version, lsv, modified)
    }

    /** `SMID_LoadFromFlash`, or `SMID_InitInternalData` if it fails. */
    method Start()
      modifies this`version, this`lsv, this`modified
      ensures Value() == Current(nv)
    {
      version, lsv, modified := 0, 0, true;
      if nv.Just? {
        var b := nv.value;
        if |b| == 45 && b[..5] == SMID {
          var v, l := DwordValue(b[5..9]), DwordValue(b[9..13]);
          if v >= l {
            version, lsv, modified := v, l, false;
          }
        }
      }
    }

    /** `SMID_SaveToFlash`. */
    method Save(created: seq<Byte>, now: seq<Byte>)
      requires |created| == |now| == 16
      modifies this`nv, this`modified
      ensures nv == if old(modified) then Just(InternalImage(old(Value()), created, now)) else old(nv)
    {
      hide Patch, Dword;
      if modified {
        var image := new Byte[45](_ => 0);
        Copy(image, 0, SMID);
        assert image[..5] == SMID;
        Copy(image, 5, Dword(version));
        Copy(image, 9, Dword(lsv));
        Copy(image, 13, created);
        Copy(image, 29, now);
        assert image[..45] == image[..];
        nv := Just(image[..]);
        modified := false;
      }
    }

    /** The version part of `ApplySettings`. */
    method ApplyVersions(p: SettingsPacket) returns (ok: bool)
      modifies this`version, this`lsv, this`modified
      ensures ok == VersionsFit(old(Value()), p)
      ensures Value() == if ok then Updated(old(Value()), p) else old(Value())
    {
      if p.version > 0xFFFF_FFFF {
        return false;
      }
      if lsv > p.version {
        return false;
      }
      if p.lsv > 0xFFFF_FFFF || p.lsv > p.version {
        return false;
      }
      if version != p.version {
        version := p.version;
        modified := true;
      }
      if p.lsv > lsv {
        lsv := p.lsv;
        modified := true;
      }
      return true;
    }

    /** `ApplyNewSettingsPacket`. */
    method ApplyPacket(p: SettingsPacket, created: seq<Byte>, now: seq<Byte>) returns (ok: bool)
      requires |created| == |now| == 16
      modifies this
      ensures ok == Accepted(old(nv), p) && nv == Receive(old(nv), p, created, now)
    {
      Start();
      if !p.authentic {
        return false;
      }
      ok := ApplyVersions(p);
      ok := ok && p.complete;
      if ok {
        Save(created, now);
      }
    }
  }

  // ---- Over whole runs ----

  lemma InternalRoundTrip(d: Internal, created: seq<Byte>, now: seq<Byte>)
    requires d.lsv <= d.version <= 0xFFFF_FFFF && |created| == |now| == 16
    ensures LoadInternal(Just(InternalImage(d, created, now))) == Ok(d.(modified := false))
  {
    hide Dword, DwordValue;
    var b := InternalImage(d, created, now);
    DwordRoundTrip(d.version);
    DwordRoundTrip(d.lsv);
    assert b[..5] == SMID && b[5..9] == Dword(d.version) && b[9..13] == Dword(d.lsv);
  }

  /** Where the fields of the image are. */
  lemma InternalFields(d: Internal, created: seq<Byte>, now: seq<Byte>)
    requires |created| == |now| == 16
    ensures var b := InternalImage(d, created, now);
      && |b| == 45 && b[..5] == [0x53, 0x4D, 0x49, 0x44, 1] && b[5..9] == Dword(d.version) && b[9..13] == Dword(d.lsv)
      && b[13..29] == created && b[29..] == now
  {
    hide Dword;
  }

  /** Only an authentic packet whose settings can all be worked through changes the variable. */
  lemma OnlyAccepted(nv: Option<seq<Byte>>, p: SettingsPacket, created: seq<Byte>, now: seq<Byte>)
    requires Receive(nv, p, created, now) != nv
    ensures p.authentic && p.complete && p.lsv <= p.version <= 0xFFFF_FFFF && Current(nv).lsv <= p.version
  {
  }

  /** The variable is missing or can be loaded. */
  ghost predicate Intact(nv: Option<seq<Byte>>) {
    nv.Nothing? || LoadInternal(nv).Ok?
  }

  /** A packet keeps the variable intact and its LSV at most its version; one that is not accepted changes nothing; if
      accepted, its version is at least the LSV before, and the LSV afterwards is the later of the two. */
  lemma ReceiveKeeps(nv: Option<seq<Byte>>, p: SettingsPacket, created: seq<Byte>, now: seq<Byte>)
    requires Intact(nv) && |created| == |now| == 16
    ensures var nv' := Receive(nv, p, created, now);
      && Intact(nv') && Current(nv').lsv <= Current(nv').version && Current(nv).lsv <= Current(nv').lsv
      && (!Accepted(nv, p) ==> nv' == nv)
      && (Accepted(nv, p) ==>
            && Current(nv).lsv <= p.version == Current(nv').version && p.lsv <= Current(nv').lsv
            && (Current(nv').lsv == Current(nv).lsv || Current(nv').lsv == p.lsv))
  {
    hide InternalImage, DwordValue;
    var d := Updated(Current(nv), p);
    if Accepted(nv, p) && d.modified {
      InternalRoundTrip(d, created, now);
    }
  }

  /** A packet that arrives again is accepted again and writes nothing. */
  lemma ReceiveTwice(nv: Option<seq<Byte>>, p: SettingsPacket, created: seq<Byte>, now: seq<Byte>, created': seq<Byte>,
                     now': seq<Byte>)
    requires Intact(nv) && |created| == |now| == 16 && Accepted(nv, p)
    ensures var nv' := Receive(nv, p, created, now); Accepted(nv', p) && Receive(nv', p, created', now') == nv'
  {
    hide InternalImage, DwordValue;
    var d := Updated(Current(nv), p);
    if d.modified {
      InternalRoundTrip(d, created, now);
    }
  }

  /** Without a variable every authentic and complete packet with its versions in order is accepted. */
  lemma FirstAccepted(p: SettingsPacket)
    ensures Accepted(Nothing, p) <==> p.authentic && p.complete && p.lsv <= p.version <= 0xFFFF_FFFF
  {
  }

  /** A packet and what the clock says when it is saved. */
  datatype Arrival = Arrival(packet: SettingsPacket, created: seq<Byte>, now: seq<Byte>)

  ghost predicate Timed(xs: seq<Arrival>) {
    forall i :: 0 <= i < |xs| ==> |xs[i].created| == |xs[i].now| == 16
  }

  /** The variable after the first `n` packets. */
  ghost function After(nv: Option<seq<Byte>>, xs: seq<Arrival>, n: nat): (r: Option<seq<Byte>>)
    requires Intact(nv) && Timed(xs) && n <= |xs|
    ensures Intact(r)
  {
    if n == 0 then nv
    else
      var x := xs[n - 1];
      ReceiveKeeps(After(nv, xs, n - 1), x.packet, x.created, x.now);
      Receive(After(nv, xs, n - 1), x.packet, x.created, x.now)
  }

  /** Over every run of packets the persisted LSV never decreases. */
  lemma {:induction false} PersistedLsvGrows(nv: Option<seq<Byte>>, xs: seq<Arrival>, m: nat, n: nat)
    requires Intact(nv) && Timed(xs) && m <= n <= |xs|
    ensures Current(After(nv, xs, m)).lsv <= Current(After(nv, xs, n)).lsv
    decreases n
  {
    hide Current, Receive, Intact;
    if m < n {
      PersistedLsvGrows(nv, xs, m, n - 1);
      var x := xs[n - 1];
      ReceiveKeeps(After(nv, xs, n - 1), x.packet, x.created, x.now);
    }
  }

  lemma AfterNext(nv: Option<seq<Byte>>, xs: seq<Arrival>, n: nat)
    requires Intact(nv) && Timed(xs) && n < |xs|
    ensures After(nv, xs, n + 1) == Receive(After(nv, xs, n), xs[n].packet, xs[n].created, xs[n].now)
  {
  }

  /** The LSV of an accepted packet is persisted from then on. */
  lemma AcceptedPersists(nv: Option<seq<Byte>>, xs: seq<Arrival>, m: nat, n: nat)
    requires Intact(nv) && Timed(xs) && m < n <= |xs|
    requires Accepted(After(nv, xs, m), xs[m].packet)
    ensures xs[m].packet.lsv <= Current(After(nv, xs, n)).lsv
  {
    hide Current, Receive, Intact, Accepted, After;
    PersistedLsvGrows(nv, xs, m + 1, n);
    ReceiveKeeps(After(nv, xs, m), xs[m].packet, xs[m].created, xs[m].now);
    AfterNext(nv, xs, m);
  }

  /** Over every run an accepted packet has at least the LSV of every packet accepted before it. */
  lemma AcceptedIsRecent(nv: Option<seq<Byte>>, xs: seq<Arrival>, m: nat, n: nat)
    requires Intact(nv) && Timed(xs) && m < n < |xs|
    requires Accepted(After(nv, xs, m), xs[m].packet) && Accepted(After(nv, xs, n), xs[n].packet)
    ensures xs[m].packet.lsv <= xs[n].packet.version
  {
    hide Current, Receive, Intact, Accepted, After;
    AcceptedPersists(nv, xs, m, n);
    ReceiveKeeps(After(nv, xs, n), xs[n].packet, xs[n].created, xs[n].now);
  }

  /** The persisted LSV is the first one or that of an accepted packet. */
  lemma {:induction false} LsvReached(nv: Option<seq<Byte>>, xs: seq<Arrival>, n: nat)
    requires Intact(nv) && Timed(xs) && n <= |xs|
    ensures || Current(After(nv, xs, n)).lsv == Current(nv).lsv
            || exists m :: 0 <= m < n && Accepted(After(nv, xs, m), xs[m].packet)
                           && Current(After(nv, xs, n)).lsv == xs[m].packet.lsv
  {
    hide Current, Receive, Intact, Accepted;
    if n > 0 {
      LsvReached(nv, xs, n - 1);
      ReceiveKeeps(After(nv, xs, n - 1), xs[n - 1].packet, xs[n - 1].created, xs[n - 1].now);
    }
  }

  /** Over every run a packet that is authentic and complete is accepted if its LSV is at most its version and its
      version is at least the first LSV and that of every packet accepted before it. */
  lemma RecentIsAccepted(nv: Option<seq<Byte>>, xs: seq<Arrival>, n: nat)
    requires Intact(nv) && Timed(xs) && n < |xs|
    requires var p := xs[n].packet;
      p.authentic && p.complete && p.lsv <= p.version <= 0xFFFF_FFFF && Current(nv).lsv <= p.version
    requires forall m :: 0 <= m < n && Accepted(After(nv, xs, m), xs[m].packet) ==>
      xs[m].packet.lsv <= xs[n].packet.version
    ensures Accepted(After(nv, xs, n), xs[n].packet)
  {
    hide Current, Receive, Intact, After;
    LsvReached(nv, xs, n);
  }
}
