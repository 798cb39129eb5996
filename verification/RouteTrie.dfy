/**
 Route patterns, the trie the router is compiled from, and a recursive reference
 search of that trie.  The flat pools of `RoutePools` are proved to compute exactly
 this search; this module proves what the search means in terms of route patterns.
 */
module RouteTrie {
  import opened Common

  const GREEDY: byte := 1
  const STAR: byte := 2
  const FIRST_LITERAL: byte := 3
  const SLASH: byte := 47
  const DOT: byte := 46
  const MAX_WILDCARDS := 32

  /** What a route leaves at its leaf; `methods == 0` marks a node that ends no route. */
  datatype Payload = Payload(action: uint32, methods: uint16, tags: uint16)

  datatype Trie = Trie(edges: seq<Branch>, payload: Payload)

  datatype Branch = Branch(fragment: seq<byte>, node: Trie) {
    function Head(): byte {
      if fragment == [] then 0 else fragment[0]
    }

    /** The code calls an edge a wildcard by the first byte of its fragment alone. */
    predicate Wild() {
      IsWild(Head())
    }
  }

  predicate IsWild(b: byte) {
    b == GREEDY || b == STAR
  }

  // ---------------------------------------------------------------- patterns

  /** What a compiled route pattern means: the urls it matches. */
  ghost predicate Matches(p: seq<byte>, u: seq<byte>)
    decreases |p|
  {
    if p == [] then
      u == []
    else if !IsWild(p[0]) then
      u != [] && u[0] == p[0] && Matches(p[1..], u[1..])
    else if |p| == 1 then
      u != []  // a trailing wildcard covers any non-empty rest
    else
      exists k :: Gap(p[0], u, k) && Matches(p[1..], u[k..])
  }

  /** The first `k` bytes of `u` can be skipped by wildcard `w`. */
  ghost predicate Gap(w: byte, u: seq<byte>, k: int) {
    0 <= k <= |u| && (w == STAR ==> SLASH !in u[..k])
  }

  function Flattened(pieces: seq<seq<byte>>): seq<byte> {
    if pieces == [] then [] else pieces[0] + Flattened(pieces[1..])
  }

  /** What stands in a url for each byte of the pattern: a literal for itself, a wildcard at the
      end for anything but nothing, `*` elsewhere for anything without a '/', `**` for anything. */
  ghost predicate Fills(p: seq<byte>, pieces: seq<seq<byte>>) {
    && |pieces| == |p|
    && (forall i :: 0 <= i < |p| && p[i] != 1 && p[i] != 2 ==> pieces[i] == [p[i]])
    && (forall i :: 0 <= i < |p| - 1 && p[i] == 2 ==> 47 !in pieces[i])
    && (p != [] && (p[|p| - 1] == 1 || p[|p| - 1] == 2) ==> pieces[|p| - 1] != [])
  }

  lemma {:induction false} MatchesFilled(p: seq<byte>, u: seq<byte>) returns (pieces: seq<seq<byte>>)
    requires Matches(p, u)
    ensures Fills(p, pieces) && u == Flattened(pieces)
    decreases |p|
  {
    if p == [] {
      return [];
    }
    var k: nat := 1;
    if IsWild(p[0]) {
      if |p| == 1 {
        assert Flattened([u]) == u + Flattened([]);
        return [u];
      }
      k :| Gap(p[0], u, k) && Matches(p[1..], u[k..]);
    }
    var rest := MatchesFilled(p[1..], u[k..]);
    pieces := [u[..k]] + rest;
    FillsMore(p, u[..k], rest);
    assert u == u[..k] + u[k..] && pieces[1..] == rest;
  }

  lemma FillsMore(p: seq<byte>, piece: seq<byte>, rest: seq<seq<byte>>)
    requires p != [] && Fills(p[1..], rest)
    requires p[0] != 1 && p[0] != 2 ==> piece == [p[0]]
    requires |p| > 1 && p[0] == 2 ==> 47 !in piece
    requires |p| == 1 && (p[0] == 1 || p[0] == 2) ==> piece != []
    ensures Fills(p, [piece] + rest)
  {
    var pieces := [piece] + rest;
    forall i | 0 <= i < |p| - 1 && p[i] == 2 ensures 47 !in pieces[i] {
      if i > 0 { assert p[1..][i - 1] == p[i] && pieces[i] == rest[i - 1]; }
    }
    forall i | 0 <= i < |p| && p[i] != 1 && p[i] != 2 ensures pieces[i] == [p[i]] {
      if i > 0 { assert p[1..][i - 1] == p[i] && pieces[i] == rest[i - 1]; }
    }
  }

  lemma {:induction false} FilledMatches(p: seq<byte>, pieces: seq<seq<byte>>)
    requires Fills(p, pieces)
    ensures Matches(p, Flattened(pieces))
    decreases |p|
  {
    if p != [] {
      var u, piece, rest := Flattened(pieces), pieces[0], pieces[1..];
      FillsLess(p, pieces);
      FilledMatches(p[1..], rest);
      assert u == piece + Flattened(rest);
      assert u[..|piece|] == piece && u[|piece|..] == Flattened(rest);
      if IsWild(p[0]) && |p| > 1 {
        assert Gap(p[0], u, |piece|);
      }
    }
  }

  lemma FillsLess(p: seq<byte>, pieces: seq<seq<byte>>)
    requires p != [] && Fills(p, pieces)
    ensures Fills(p[1..], pieces[1..])
  {
    forall i | 0 <= i < |p[1..]| ensures p[1..][i] == p[i + 1] && pieces[1..][i] == pieces[i + 1] {
    }
  }

  /** A pattern matches exactly the urls that are the pattern filled in. */
  lemma MatchesIff(p: seq<byte>, u: seq<byte>)
    ensures Matches(p, u) <==> exists pieces :: Fills(p, pieces) && u == Flattened(pieces)
  {
    if Matches(p, u) {
      var pieces := MatchesFilled(p, u);
    }
    if exists pieces :: Fills(p, pieces) && u == Flattened(pieces) {
      var pieces :| Fills(p, pieces) && u == Flattened(pieces);
      FilledMatches(p, pieces);
    }
  }

  /** Trie `t` holds a route whose remaining pattern below `t` is `w`. */
  ghost predicate Contains(t: Trie, w: seq<byte>, p: Payload)
    decreases t
  {
    || (w == [] && p == t.payload && p.methods != 0)
    || exists i :: 0 <= i < |t.edges| && Through(t, i, w, p)
  }

  ghost predicate Through(t: Trie, i: nat, w: seq<byte>, p: Payload)
    requires i < |t.edges|
    decreases t, 0
  {
    var e := t.edges[i];
    e.fragment != [] && e.fragment <= w && Contains(e.node, w[|e.fragment|..], p)
  }

  function WildcardCount(w: seq<byte>): (n: nat)
    ensures n <= |w|
  {
    if w == [] then 0 else WildcardCount(w[..|w| - 1]) + if IsWild(w[|w| - 1]) then 1 else 0
  }

  lemma {:induction false} WildcardCountConcat(a: seq<byte>, b: seq<byte>)
    ensures WildcardCount(a + b) == WildcardCount(a) + WildcardCount(b)
    decreases |b|
  {
    if b == [] {
      assert a + b == a;
    } else {
      assert (a + b)[..|a + b| - 1] == a + b[..|b| - 1];
      WildcardCountConcat(a, b[..|b| - 1]);
    }
  }

  ghost predicate NoAdjacentWildcards(w: seq<byte>) {
    forall i :: 0 < i < |w| ==> !(IsWild(w[i - 1]) && IsWild(w[i]))
  }

  const MAX_ROUTE_LENGTH := 0x80_0000

  /** Compiled patterns `Build` can pack: few wildcards, none adjacent, short enough
      for the 23 bits a rollback length gets in a graft. */
  ghost predicate Admissible(w: seq<byte>) {
    WildcardCount(w) <= MAX_WILDCARDS && |w| < MAX_ROUTE_LENGTH && NoAdjacentWildcards(w)
  }

  // ---------------------------------------------------------------- tries

  /** Every node of `t` stands for an admissible pattern prefix when `t` stands for `w`. */
  ghost predicate Bounded(t: Trie, w: seq<byte>)
    decreases t
  {
    Admissible(w) && forall i :: 0 <= i < |t.edges| ==> BoundedEdge(t, w, i)
  }

  ghost predicate BoundedEdge(t: Trie, w: seq<byte>, i: nat)
    requires i < |t.edges|
    decreases t, 0
  {
    Bounded(t.edges[i].node, w + t.edges[i].fragment)
  }

  /** Sibling edges start with different bytes, and an edge that starts with a
      wildcard is that wildcard alone. */
  ghost predicate Shaped(t: Trie)
    decreases t
  {
    forall i :: 0 <= i < |t.edges| ==> ShapedEdge(t, i)
  }

  ghost predicate ShapedEdge(t: Trie, i: nat)
    requires i < |t.edges|
    decreases t, 0
  {
    var e := t.edges[i];
    && e.fragment != []
    && (e.Wild() ==> |e.fragment| == 1)
    && (forall j :: i < j < |t.edges| ==> t.edges[j].Head() != e.Head())
    && Shaped(e.node)
  }

  /** Search order of sibling edges: literals, then `*`, then `**`. */
  function Rank(b: byte): nat {
    if b == GREEDY then 2 else if b == STAR then 1 else 0
  }

  ghost predicate Ordered(t: Trie)
    decreases t
  {
    && (forall i, j :: 0 <= i < j < |t.edges| ==> Rank(t.edges[i].Head()) <= Rank(t.edges[j].Head()))
    && (forall i :: 0 <= i < |t.edges| ==> Ordered(t.edges[i].node))
  }

  // ---------------------------------------------------------------- reference search

  predicate OccursAt(u: seq<byte>, frag: seq<byte>, i: int) {
    0 <= i && i + |frag| <= |u| && u[i..i + |frag|] == frag
  }

  /** First position at or after `from` where `frag` occurs in `u`. */
  function IndexOf(u: seq<byte>, frag: seq<byte>, from: nat): (r: Option<nat>)
    requires from <= |u|
    ensures r.Some? ==> from <= r.value && OccursAt(u, frag, r.value)
    ensures forall i :: from <= i && (r.Some? ==> i < r.value) ==> !OccursAt(u, frag, i)
    decreases |u| - from
  {
    if from + |frag| > |u| then None
    else if OccursAt(u, frag, from) then Some(from)
    else IndexOf(u, frag, from + 1)
  }

  /** Where the cursor stands after literal `frag` is taken below an edge that starts
      with `head`: next to the cursor after a literal, at its first occurrence not past
      the next '/' after `*`, at its first occurrence after `**`. */
  function Locate(head: byte, frag: seq<byte>, u: seq<byte>, c: nat): (r: Option<nat>)
    requires c <= |u|
    ensures r.Some? ==> c + |frag| <= r.value <= |u| && u[r.value - |frag|..r.value] == frag
    ensures r.Some? && IsWild(head) ==> Gap(head, u[c..], r.value - |frag| - c)
    ensures r.Some? && !IsWild(head) ==> r.value == c + |frag|
  {
    if head == STAR then
      var slash := IndexOf(u, [SLASH], c);
      var found := IndexOf(u, frag, c);
      if found.Some? && (slash.None? || found.value <= slash.value) then
        assert SLASH !in u[c..found.value] by {
          forall i | c <= i < found.value ensures u[i] != SLASH {
            assert !OccursAt(u, [SLASH], i);
          }
        }
        assert u[c..][..found.value - c] == u[c..found.value];
        Some(found.value + |frag|)
      else None
    else if head == GREEDY then
      var found := IndexOf(u, frag, c);
      if found.Some? then Some(found.value + |frag|) else None
    else if c + |frag| <= |u| && u[c..c + |frag|] == frag then Some(c + |frag|)
    else None
  }

  /** Index of the first wildcard edge at or after `i`. */
  function NextWild(edges: seq<Branch>, i: nat): (j: nat)
    requires i <= |edges|
    ensures i <= j <= |edges|
    ensures forall k :: i <= k < j ==> !edges[k].Wild()
    ensures j < |edges| ==> edges[j].Wild()
    decreases |edges| - i
  {
    if i == |edges| || edges[i].Wild() then i else NextWild(edges, i + 1)
  }

  /** Search below edge `b`, entered with the cursor at `c`: behind the fragment of a
      literal, at the start of the gap of a wildcard. */
  function Find(b: Branch, u: seq<byte>, c: nat): Option<Payload>
    requires c <= |u|
    decreases b, |b.node.edges| + 1
  {
    if !b.Wild() && c == |u| && b.node.payload.methods != 0 then Some(b.node.payload)
    else FindFrom(b, 0, u, c)
  }

  /** The same search with the edges before `i` already ruled out: commit to the first
      literal that fits, fall back to the wildcards after it, and last to the rest of the
      url when `b` is itself a wildcard route. */
  function FindFrom(b: Branch, i: nat, u: seq<byte>, c: nat): Option<Payload>
    requires c <= |u| && i <= |b.node.edges|
    decreases b, |b.node.edges| - i
  {
    var edges := b.node.edges;
    if i == |edges| then
      if b.Wild() && c < |u| && b.node.payload.methods != 0 then Some(b.node.payload) else None
    else
      var child := edges[i];
      var at := if child.Wild() then Some(c) else Locate(b.Head(), child.fragment, u, c);
      var inner := if at.Some? then Find(child, u, at.value) else None;
      if inner.Some? then inner
      else FindFrom(b, if at.Some? then NextWild(edges, i + 1) else i + 1, u, c)
  }

  /** The whole search: the root of the first byte, then the roots `*` and `**`. */
  function FindRoot(roots: map<byte, Trie>, u: seq<byte>): Option<Payload> {
    if u == [] then None
    else
      var literal := if u[0] in roots then Find(Branch([u[0]], roots[u[0]]), u, 1) else None;
      if literal.Some? then literal
      else
        var star := if STAR in roots then Find(Branch([STAR], roots[STAR]), u, 0) else None;
        if star.Some? then star
        else if GREEDY in roots then Find(Branch([GREEDY], roots[GREEDY]), u, 0) else None
  }

  ghost predicate RootContains(roots: map<byte, Trie>, w: seq<byte>, p: Payload) {
    w != [] && w[0] in roots && Contains(roots[w[0]], w[1..], p)
  }
}
