/** Copying into byte arrays. */
module Memory {
  import opened Bits

  /** An image with `bytes` copied over it at `at`. */
  function Patch(b: seq<Byte>, at: nat, bytes: seq<Byte>): (r: seq<Byte>)
    requires at + |bytes| <= |b|
    ensures |r| == |b|
  {
    b[..at] + bytes + b[at + |bytes|..]
  }

  lemma PatchKeeps(b: seq<Byte>, at: nat, bytes: seq<Byte>, i: nat, j: nat)
    requires at + |bytes| <= |b| && i <= j <= |b| && (j <= at || at + |bytes| <= i)
    ensures Patch(b, at, bytes)[i..j] == b[i..j]
  {
  }

  /** Copying on behind a part extends the part. */
  lemma PatchExtends(b: seq<Byte>, at: nat, bytes: seq<Byte>, i: nat)
    requires at + |bytes| <= |b| && i <= at
    ensures Patch(b, at, bytes)[i..at + |bytes|] == b[i..at] + bytes
  {
  }

  /** `CopyMem` into an image. */
  method Copy(a: array<Byte>, at: nat, bytes: seq<Byte>)
    requires at + |bytes| <= a.Length
    modifies a
    ensures a[..] == Patch(old(a[..]), at, bytes)
    ensures a[..at + |bytes|] == old(a[..at]) + bytes
  {
    for i := 0 to |bytes|
      invariant forall j :: 0 <= j < a.Length ==> a[j] == if at <= j < at + i then bytes[j - at] else old(a[j])
    {
      a[at + i] := bytes[i];
    }
    assert a[..] == Patch(old(a[..]), at, bytes);
  }
}
