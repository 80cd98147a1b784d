/** The search for matches as functions: what each step makes of the string log, and the run of all steps over a source.
    They name what the methods compute and have no say in whether it is right. */
module SearchSteps {
  import opened Bits
  import opened Lz77
  import opened SuffixTree
  import opened StringLog

  ghost predicate LogSized(g: Log) {
    Sized(g.tree) && |g.heir| == |g.count| == 16384
  }

  // ---- Steps ----

  /** The node that is looked for. */
  predicate Wanted(t: Tree, u: nat, c: Byte, w: nat)
    requires Sized(t)
  {
    Live(t, w) && t.parent[w] == u && t.edge[w] == c
  }

  /** The child of `u` for the character `c`, or 0. */
  ghost function ChildOf(t: Tree, u: nat, c: Byte): (v: nat)
    requires Sized(t)
    ensures v < 16384
  {
    if exists w: nat :: Wanted(t, u, c, w) then
      var w: nat :| Wanted(t, u, c, w);
      w
    else 0
  }

  lemma ChildIs(t: Tree, u: nat, c: Byte, v: nat)
    requires Sized(t) && Distinct(t)
    requires if v == 0 then NoChild(t, u, c) else Wanted(t, u, c, v)
    ensures v == ChildOf(t, u, c)
  {
  }

  /** The parent of `c` is told of the position `y`, and so on up for as long as there are flags. */
  ghost function Tell(t: Tree, c: nat, y: nat, n: nat): (r: Tree)
    requires Sized(t) && c < 16384
    ensures Sized(r)
    decreases n
  {
    var u := t.parent[c];
    if n == 0 || !Inner(u) then t
    else
      var t' := Learn(t, u, y);
      if t.flag[u] then Tell(t', u, t'.pos[u], n - 1) else t'
  }

  /** From `v` up to the first node whose parent has a string shorter than `n`. */
  ghost function Up(t: Tree, v: nat, n: nat, k: nat): (w: nat)
    requires Sized(t) && v < 16384
    ensures w < 16384
    decreases k
  {
    if k == 0 || t.parent[v] >= 16384 || Level(t, t.parent[v]) < n then v else Up(t, t.parent[v], n, k - 1)
  }

  /** The leaf that stands for the leaf `l`. */
  ghost function LeafOf(g: Log, l: nat, k: nat): (r: nat)
    requires LogSized(g) && l < 16384
    ensures r < 16384
    decreases k
  {
    if k == 0 || g.tree.parent[l] != 0 || g.heir[l] >= 16384 then l else LeafOf(g, g.heir[l], k - 1)
  }

  /** How far the strings at `x` and `a` agree, from `n` on, up to `limit`. */
  ghost function Extent(text: Text, x: nat, a: nat, n: nat, limit: nat): (r: nat)
    ensures n <= r
    decreases limit - n
  {
    if n < limit && text(x + n) == text(a + n) then Extent(text, x, a, n + 1, limit) else n
  }

  /** The log, and the length and the position of the match. */
  datatype Scan = Scan(log: Log, len: nat, at: nat)

  /** The way down from `v`, of which the first `n` characters agree. */
  ghost function Down(text: Text, g: Log, v: nat, n: nat, a: nat): (r: Scan)
    requires LogSized(g) && v < 16384
    ensures LogSized(r.log)
    decreases 256 - n
  {
    var x := g.tree.pos[v];
    var k := Extent(text, x, a, n, g.tree.level[v]);
    if k < g.tree.level[v] then
      Scan(if g.avail != [] && g.avail[0] < 16384 then Fork(g, text, v, k, a) else g, k, x)
    else if k >= 256 then Scan(Inherit(g, v, a), k, x)
    else
      var g' := Pass(g, v, a);
      var w := ChildOf(g'.tree, v, text(a + k));
      if w == 0 then Scan(Grow(g', text, v, a), k, x) else Down(text, g', w, k + 1, a)
  }

  /** The ways in which it goes on from `v`. */
  lemma DownFrom(text: Text, g: Log, v: nat, n: nat, a: nat, k: nat)
    requires LogSized(g) && v < 16384 && k == Extent(text, g.tree.pos[v], a, n, g.tree.level[v])
    ensures k < g.tree.level[v] && g.avail != [] && g.avail[0] < 16384 ==>
      Down(text, g, v, n, a) == Scan(Fork(g, text, v, k, a), k, g.tree.pos[v])
    ensures g.tree.level[v] <= k && 256 <= k ==> Down(text, g, v, n, a) == Scan(Inherit(g, v, a), k, g.tree.pos[v])
    ensures g.tree.level[v] <= k < 256 ==>
      var g' := Pass(g, v, a);
      var w := ChildOf(g'.tree, v, text(a + k));
      Down(text, g, v, n, a)
      == if w == 0 then Scan(Grow(g', text, v, a), k, g.tree.pos[v]) else Down(text, g', w, k + 1, a)
  {
    hide Extent, ChildOf, Fork, Inherit, Grow;
  }

  /** `InsertNode`, after a match of `len` at `at`. */
  ghost function Insert(text: Text, g: Log, len: nat, at: nat, a: nat): (r: Scan)
    requires LogSized(g)
    ensures LogSized(r.log)
  {
    if len >= 4 then
      var v := Up(g.tree, LeafOf(g, Slot(at + 1), 8192), len - 1, 256);
      Down(text, g.(tree := Tell(g.tree, v, a, 256)), v, len - 1, a)
    else
      var u := text(a) + 8192;
      var v := ChildOf(g.tree, u, text(a + 1));
      if v == 0 then Scan(Grow(g, text, u, a), 1, at) else Down(text, g, v, 2, a)
  }

  /** A node with one child is taken out. */
  ghost function Removed(text: Text, g: Log, u: nat): (r: Log)
    requires LogSized(g) && u < 16384
    ensures LogSized(r)
  {
    var x := g.tree.pos[u];
    var g' := g.(tree := Tell(Raise(g.tree, u), u, x, 256));
    Merge(g', u, ChildOf(g'.tree, u, text(x + g'.tree.level[u])))
  }

  /** `DeleteNode`. */
  ghost function Delete(text: Text, g: Log, a: nat): (r: Log)
    requires LogSized(g)
    ensures LogSized(r)
  {
    var u := g.tree.parent[Slot(a)];
    if u == 0 then g
    else
      var g' := Prune(g, Slot(a));
      if u >= 8192 || g'.count[u] > 1 then g' else Removed(text, g', u)
  }

  ghost function Search(text: Text, s: Scan, a: nat): (r: Scan)
    requires LogSized(s.log)
    ensures LogSized(r.log)
  {
    Insert(text, Delete(text, s.log, a), s.len, s.at, a)
  }

  // ---- The run over a source ----

  /** What the buffer holds for a position: the source, and behind its end what was there 8192 positions before. */
  function TextAt(src: seq<Byte>, q: nat): Byte
  {
    if q < |src| then src[q] else if q < 8448 then 0 else TextAt(src, q - 8192)
  }

  function TextOf(src: seq<Byte>): Text {
    q => TextAt(src, q)
  }

  function NoStrings(): Log {
    var none, no := seq(16384, _ => 0), seq(16384, _ => false);
    Log(Tree(none, none, none, none, no, none), none, none, seq(8191, i => i + 1))
  }

  /** The matches found so far, for the positions from 0 on, and how many positions of a pointer are still to pass. */
  datatype Trail = Trail(scan: Scan, found: seq<Match>, left: nat)

  /** The match is cut at the end of the source. */
  function Cut(src: seq<Byte>, s: Scan, a: nat): Scan
    requires a <= |src|
  {
    s.(len := Min(s.len, |src| - a))
  }

  function MatchOf(s: Scan, a: nat): Match {
    Match(s.len, if s.at <= a then a - s.at else 0)
  }

  /** The search at the next position: it is cut if the position is a token's first or comes right behind one. */
  ghost function NextTrail(src: seq<Byte>, w: Trail): (r: Trail)
    requires LogSized(w.scan.log) && |w.found| <= |src|
    ensures LogSized(r.scan.log) && |r.found| == |w.found| + 1
  {
    var a := |w.found|;
    var s := Search(TextOf(src), w.scan, a);
    var found, c := w.found + [MatchOf(s, a)], Cut(src, s, a);
    if w.left == 0 then Trail(c, found, if a == 0 || c.len > w.scan.len || w.scan.len < 3 then 0 else w.scan.len - 1)
    else Trail(if w.left == 1 then c else s, found, w.left - 1)
  }

  /** After the searches for the positions before `a`. */
  ghost function TrailTo(src: seq<Byte>, a: nat): (r: Trail)
    requires a <= |src| + 1
    ensures LogSized(r.scan.log) && |r.found| == a
  {
    if a == 0 then Trail(Scan(NoStrings(), 0, 0), [], 0) else NextTrail(src, TrailTo(src, a - 1))
  }

  lemma TrailFound(src: seq<Byte>, a: nat)
    requires a <= |src|
    ensures TrailTo(src, a + 1).found
         == TrailTo(src, a).found + [MatchOf(Search(TextOf(src), TrailTo(src, a).scan, a), a)]
  {
    hide Search;
  }

  /** When a match is cut, and what is left to pass. */
  lemma TrailNext(src: seq<Byte>, a: nat)
    requires a <= |src|
    ensures var w, w' := TrailTo(src, a), TrailTo(src, a + 1);
      var s := Search(TextOf(src), w.scan, a);
      && w'.scan == (if w.left <= 1 then Cut(src, s, a) else s)
      && w'.left == (if w.left > 0 then w.left - 1
                     else if a == 0 || w'.scan.len > w.scan.len || w.scan.len < 3 then 0 else w.scan.len - 1)
  {
    hide Search;
  }

  /** The matches for a list of them. */
  function Listed(ms: seq<Match>): Matcher {
    (a: nat) => if a < |ms| then ms[a] else Match(0, 0)
  }

  /** All matches that `Encode` finds in a source. */
  ghost function MatchesOf(src: seq<Byte>): Matcher {
    Listed(TrailTo(src, |src| + 1).found)
  }
}
