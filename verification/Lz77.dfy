/** The lazy parse into literals and pointers, and its expansion. */
module Lz77 {
  import opened Bits
  import opened Tokens

  /** What `InsertNode` reports for a position: how many bytes match those `dist` bytes earlier. */
  datatype Match = Match(len: nat, dist: nat)

  /** What `InsertNode` reports for every position of a source. */
  type Matcher = nat -> Match

  /** A match at `a` that is worth a pointer is a real one in the window. */
  ghost predicate Real(src: seq<Byte>, x: Match, a: nat)
  {
    && x.len <= 256
    && (3 <= x.len ==>
          && 1 <= x.dist <= 8192 && x.dist <= a
          && forall j :: a <= j < a + x.len && j < |src| ==> src[j - x.dist] == src[j])
  }

  /** The contract of `InsertNode` and `DeleteNode`. */
  ghost predicate GenuineAt(src: seq<Byte>, m: Matcher, a: nat)
  {
    Real(src, m(a), a)
  }

  ghost predicate Genuine(src: seq<Byte>, m: Matcher)
  {
    forall a :: 0 <= a < |src| ==> GenuineAt(src, m, a)
  }

  /** The usable match length at `a`: not beyond the end of the source. */
  function Usable(src: seq<Byte>, m: Matcher, a: nat): nat
    requires a <= |src|
  {
    Min(m(a).len, |src| - a)
  }

  /** `Encode` prefers a literal when the next position has a longer match. */
  predicate TakesLiteral(src: seq<Byte>, m: Matcher, a: nat)
    requires a < |src|
  {
    Usable(src, m, a + 1) > Usable(src, m, a) || Usable(src, m, a) < 3
  }

  /** The token for position `a`. */
  ghost function TokenFor(src: seq<Byte>, m: Matcher, a: nat): Token
    requires Genuine(src, m) && a < |src|
  {
    assert GenuineAt(src, m, a);
    if TakesLiteral(src, m, a) then Lit(src[a]) else Ptr(Usable(src, m, a), m(a).dist - 1)
  }

  /** How many bytes a token stands for. */
  function Span(t: Token): (n: nat)
    ensures n > 0
  {
    if t.Lit? then 1 else t.len
  }

  /** All tokens from position `a` on. */
  ghost function Parse(src: seq<Byte>, m: Matcher, a: nat): seq<Token>
    requires Genuine(src, m) && a <= |src|
    decreases |src| - a
  {
    if a == |src| then []
    else
      var t := TokenFor(src, m, a);
      [t] + Parse(src, m, a + Span(t))
  }

  // ---- Expansion ----

  /** Copies `n` bytes from `dist` bytes back, one at a time: source and target may overlap. */
  function CopyBack(out: seq<Byte>, dist: nat, n: nat): (r: seq<Byte>)
    requires 1 <= dist <= |out|
    ensures |r| == |out| + n && out <= r
    decreases n
  {
    if n == 0 then out else CopyBack(out + [out[|out| - dist]], dist, n - 1)
  }

  predicate Expandable(out: seq<Byte>, t: Token) {
    t.Ptr? ==> t.pos < |out|
  }

  function ExpandToken(out: seq<Byte>, t: Token): (r: seq<Byte>)
    requires Expandable(out, t)
    ensures |r| == |out| + Span(t)
  {
    if t.Lit? then out + [t.b] else CopyBack(out, t.pos + 1, t.len)
  }

  /** The source a sequence of tokens stands for, after `out`; nothing if a pointer reaches back too far. */
  ghost predicate ExpandsTo(out: seq<Byte>, toks: seq<Token>, all: seq<Byte>)
    decreases |toks|
  {
    if toks == [] then out == all
    else Expandable(out, toks[0]) && ExpandsTo(ExpandToken(out, toks[0]), toks[1..], all)
  }

  /** A genuine match copies what the source holds. */
  lemma {:induction false} CopyMatches(src: seq<Byte>, a: nat, dist: nat, n: nat)
    requires 1 <= dist <= a && a + n <= |src|
    requires forall j :: a <= j < a + n ==> src[j - dist] == src[j]
    ensures CopyBack(src[..a], dist, n) == src[..a + n]
    decreases n
  {
    if n > 0 {
      assert src[..a] + [src[a]] == src[..a + 1];
      assert src[..a][a - dist] == src[a];
      CopyMatches(src, a + 1, dist, n - 1);
    }
  }

  lemma TokenExpands(src: seq<Byte>, m: Matcher, a: nat)
    requires Genuine(src, m) && a < |src|
    ensures var t := TokenFor(src, m, a);
      && a + Span(t) <= |src| && Expandable(src[..a], t)
      && ExpandToken(src[..a], t) == src[..a + Span(t)]
  {
    var t := TokenFor(src, m, a);
    assert GenuineAt(src, m, a);
    if t.Ptr? {
      CopyMatches(src, a, t.pos + 1, t.len);
    }
  }

  lemma TokenChoice(src: seq<Byte>, m: Matcher, a: nat)
    requires Genuine(src, m) && a < |src|
    ensures var t := TokenFor(src, m, a);
      if TakesLiteral(src, m, a) then t == Lit(src[a])
      else t == Ptr(Usable(src, m, a), m(a).dist - 1) && 3 <= Usable(src, m, a) && 1 <= m(a).dist <= 8192
  {
    assert GenuineAt(src, m, a);
  }

  /** The main result of the parse: its tokens stand for exactly the source. */
  lemma {:induction false} ParseExpands(src: seq<Byte>, m: Matcher, a: nat)
    requires Genuine(src, m) && a <= |src|
    ensures ExpandsTo(src[..a], Parse(src, m, a), src)
    decreases |src| - a
  {
    hide TokenFor, Genuine, CopyBack;
    if a < |src| {
      TokenExpands(src, m, a);
      var t := TokenFor(src, m, a);
      ParseExpands(src, m, a + Span(t));
      assert ([t] + Parse(src, m, a + Span(t)))[1..] == Parse(src, m, a + Span(t));
    } else {
      assert src[..a] == src;
    }
  }

  function TotalSpan(toks: seq<Token>): nat {
    if toks == [] then 0 else Span(toks[0]) + TotalSpan(toks[1..])
  }

  /** The token lengths add up to the source size. */
  lemma {:induction false} ExpandedSize(out: seq<Byte>, toks: seq<Token>, all: seq<Byte>)
    requires ExpandsTo(out, toks, all)
    ensures |out| + TotalSpan(toks) == |all|
    decreases |toks|
  {
    if toks != [] {
      ExpandedSize(ExpandToken(out, toks[0]), toks[1..], all);
    }
  }

  // ---- The lazy rule over the whole run ----

  lemma {:induction false} ParseFrom(src: seq<Byte>, m: Matcher, a: nat, i: nat) returns (b: nat)
    requires Genuine(src, m) && a <= |src| && i < |Parse(src, m, a)|
    ensures b == a + TotalSpan(Parse(src, m, a)[..i]) && b < |src| && Parse(src, m, a)[i] == TokenFor(src, m, b)
    decreases i
  {
    var toks := Parse(src, m, a);
    if i == 0 {
      b := a;
      assert toks[..0] == [];
    } else {
      b := ParseFrom(src, m, a + Span(toks[0]), i - 1);
      assert toks[..i][1..] == toks[1..][..i - 1];
    }
  }

  /** Every token of the run: with `b` bytes before it, it is a pointer if and only if the match there, cut at the end
      of the source, has three bytes or more and the match one byte further is no longer; the pointer is that match,
      and any other token is the byte itself. */
  lemma ParseExactly(src: seq<Byte>, m: Matcher, i: nat) returns (b: nat)
    requires Genuine(src, m) && i < |Parse(src, m, 0)|
    ensures b == TotalSpan(Parse(src, m, 0)[..i]) && b < |src|
    ensures var here, next, t := m(b).len, m(b + 1).len, Parse(src, m, 0)[i];
      if here >= 3 && |src| - b >= 3 && (next <= here || |src| - b - 1 <= here)
      then t.Ptr? && t.pos + 1 == m(b).dist && t.len == if here <= |src| - b then here else |src| - b
      else t.Lit? && t.b == src[b]
  {
    b := ParseFrom(src, m, 0, i);
    assert GenuineAt(src, m, b);
  }
}
