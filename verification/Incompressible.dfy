/** There are fewer short strings than sources: whatever the match finder does, some source of every size does not
    shrink. */
module Incompressible {
  import opened Bits
  import opened Lz77
  import StringLog
  import opened Compressor
  import opened Decompressor

  // ---- Numbers for strings ----

  /** How many strings of `n` bytes there are. */
  function Strings(n: nat): (p: nat)
    ensures p > 0
  {
    if n == 0 then 1 else 256 * Strings(n - 1)
  }

  /** The `i`-th string of `n` bytes. */
  function StringAt(i: nat, n: nat): (s: seq<Byte>)
    ensures |s| == n
  {
    if n == 0 then [] else StringAt(i / 256, n - 1) + [i % 256]
  }

  lemma {:induction false} StringsDiffer(i: nat, j: nat, n: nat)
    requires i < Strings(n) && j < Strings(n) && StringAt(i, n) == StringAt(j, n)
    ensures i == j
    decreases n
  {
    if n > 0 {
      var a, b := StringAt(i, n), StringAt(j, n);
      assert a[..n - 1] == StringAt(i / 256, n - 1) && b[..n - 1] == StringAt(j / 256, n - 1);
      assert a[n - 1] == i % 256 && b[n - 1] == j % 256;
      StringsDiffer(i / 256, j / 256, n - 1);
    }
  }

  /** A number for every string, of whatever size. */
  function Number(s: seq<Byte>): nat {
    if s == [] then 0 else 256 * Number(s[..|s| - 1]) + s[|s| - 1] + 1
  }

  lemma {:induction false} NumbersDiffer(s: seq<Byte>, t: seq<Byte>)
    requires Number(s) == Number(t)
    ensures s == t
    decreases |s|
  {
    if s != [] && t != [] {
      var m, n := |s| - 1, |t| - 1;
      NumbersDiffer(s[..m], t[..n]);
      assert s == s[..m] + [s[m]] && t == t[..n] + [t[n]];
    }
  }

  /** The numbers of strings of up to `n` bytes are small. */
  lemma {:induction false} NumberBound(s: seq<Byte>, n: nat)
    requires |s| <= n
    ensures Number(s) <= 2 * Strings(n) - 2
    decreases |s|
  {
    if s != [] {
      NumberBound(s[..|s| - 1], n - 1);
    }
  }

  // ---- Sources that do not shrink ----

  /** A payload comes from one source of a given size only. */
  lemma PayloadsDiffer(s: seq<Byte>, m: Matcher, t: seq<Byte>, m': Matcher)
    requires Genuine(s, m) && Genuine(t, m') && |s| == |t| && Payload(s, m) == Payload(t, m')
    ensures s == t
  {
    hide Payload, Genuine, Decompress, StartReader;
    DecompressPayload(s, m);
    DecompressPayload(t, m');
  }

  ghost function NumberAt(f: seq<Byte> -> Matcher, n: nat, i: nat): nat
    requires forall s :: Genuine(s, f(s))
  {
    var s := StringAt(i, n);
    Number(Payload(s, f(s)))
  }

  /** The payloads of all sources of `n` bytes have different numbers, so some number is large. */
  lemma LargeNumber(f: seq<Byte> -> Matcher, n: nat) returns (i: nat)
    requires n > 0 && forall s :: Genuine(s, f(s))
    ensures i < Strings(n) && NumberAt(f, n, i) >= 2 * Strings(n - 1)
  {
    hide Payload, Genuine, Number, StringAt;
    var k, b := Strings(n), 2 * Strings(n - 1);
    var numbers := seq(k, i requires 0 <= i < k => NumberAt(f, n, i));
    if forall i: nat :: i < k ==> NumberAt(f, n, i) < b {
      forall i: nat, j: nat | i < k && j < k && numbers[i] == numbers[j]
        ensures i == j
      {
        var s, t := StringAt(i, n), StringAt(j, n);
        NumbersDiffer(Payload(s, f(s)), Payload(t, f(t)));
        PayloadsDiffer(s, f(s), t, f(t));
        StringsDiffer(i, j, n);
      }
      StringLog.Pigeons(StringLog.Range(0, k), numbers, b);
      assert false;
    }
    i :| i < k && NumberAt(f, n, i) >= b;
  }

  /** Whatever matches `f` finds in a source: of every size there is a source whose compressed data is no shorter. */
  lemma SomeDoNotShrink(f: seq<Byte> -> Matcher, n: nat) returns (src: seq<Byte>)
    requires forall s :: Genuine(s, f(s))
    ensures |src| == n && |Payload(src, f(src))| >= n
  {
    hide Payload, Genuine, Number, StringAt, Strings;
    if n == 0 {
      src := [];
    } else {
      var i := LargeNumber(f, n);
      src := StringAt(i, n);
      if |Payload(src, f(src))| < n {
        NumberBound(Payload(src, f(src)), n - 1);
        assert false;
      }
    }
  }
}
