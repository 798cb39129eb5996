/**
 What the search means in terms of route patterns: it is sound for every route set,
 routes without wildcards always win on their own url, and where interior wildcards stand
 for whole path segments the search finds the most specific of all matching routes.
 */
module RouteMeaning {
  import opened Common
  import opened RouteTrie
  import opened RouteRefinement
  import opened HostReversal

  /** The pattern of a route `w` below branch `b`, as seen by a search entering `b`. */
  function Entry(b: Branch, w: seq<byte>): seq<byte> {
    if b.Wild() then [b.Head()] + w else w
  }

  ghost predicate LiteralBytes(f: seq<byte>) {
    forall i :: 0 <= i < |f| ==> !IsWild(f[i])
  }

  /** A literal prefix of a pattern is a literal prefix of what it matches. */
  lemma {:induction false} LiteralPrefix(f: seq<byte>, w: seq<byte>, u: seq<byte>)
    requires LiteralBytes(f)
    ensures Matches(f + w, u) <==> f <= u && Matches(w, u[|f|..])
    decreases |f|
  {
    if f == [] {
      assert f + w == w && u[0..] == u;
    } else {
      assert (f + w)[1..] == f[1..] + w;
      if u != [] {
        LiteralPrefix(f[1..], w, u[1..]);
        if |f| <= |u| {
          assert u[1..][|f| - 1..] == u[|f|..];
        }
        assert f <= u <==> f[0] == u[0] && f[1..] <= u[1..];
      }
    }
  }

  lemma GapPrefix(h: byte, w: seq<byte>, u: seq<byte>, k: int)
    requires IsWild(h) && w != [] && Gap(h, u, k) && Matches(w, u[k..])
    ensures Matches([h] + w, u)
  {
    assert ([h] + w)[1..] == w;
  }

  // ---------------------------------------------------------------- soundness

  /** A fragment that some request can take: a wildcard of its own, or a literal. */
  ghost predicate Live(f: seq<byte>) {
    (|f| == 1 && IsWild(f[0])) || LiteralBytes(f)
  }

  /** Trie `t` holds route `w` along edges that requests can take. */
  ghost predicate Reaches(t: Trie, w: seq<byte>, p: Payload)
    decreases t
  {
    || (w == [] && p == t.payload && p.methods != 0)
    || exists i :: 0 <= i < |t.edges| && ReachesThrough(t, i, w, p)
  }

  ghost predicate ReachesThrough(t: Trie, i: nat, w: seq<byte>, p: Payload)
    requires i < |t.edges|
    decreases t, 0
  {
    var e := t.edges[i];
    e.fragment != [] && Live(e.fragment) && e.fragment <= w && Reaches(e.node, w[|e.fragment|..], p)
  }

  lemma {:induction false} ReachedIsContained(t: Trie, w: seq<byte>, p: Payload)
    requires Reaches(t, w, p)
    ensures Contains(t, w, p)
    decreases t
  {
    if !(w == [] && p == t.payload && p.methods != 0) {
      var i :| 0 <= i < |t.edges| && ReachesThrough(t, i, w, p);
      ReachedIsContained(t.edges[i].node, w[|t.edges[i].fragment|..], p);
      assert Through(t, i, w, p);
    }
  }

  /** A fragment that is located in a request holds no wildcard. */
  lemma LocatedIsLiteral(head: byte, f: seq<byte>, u: seq<byte>, c: nat)
    requires Request(u) && c <= |u|
    ensures Locate(head, f, u, c).Some? ==> LiteralBytes(f)
  {
    var at := Locate(head, f, u, c);
    if at.Some? {
      forall i | 0 <= i < |f| ensures !IsWild(f[i]) {
        assert f[i] == u[at.value - |f|..at.value][i] == u[at.value - |f| + i];
      }
    }
  }

  /** Whatever the search returns below `b` is a route there that matches the rest of the url,
      and that no merged wildcard lies on. */
  lemma {:induction false} FindSound(b: Branch, u: seq<byte>, c: nat, p: Payload) returns (w: seq<byte>)
    requires Request(u) && c <= |u| && Shaped(b.node) && b.fragment != []
    requires Find(b, u, c) == Some(p)
    ensures Reaches(b.node, w, p) && Matches(Entry(b, w), u[c..])
    decreases b, |b.node.edges| + 1
  {
    if !b.Wild() && c == |u| && b.node.payload.methods != 0 {
      w := [];
    } else {
      w := FindFromSound(b, 0, u, c, p);
    }
  }

  lemma {:induction false} FindFromSound(b: Branch, i: nat, u: seq<byte>, c: nat, p: Payload) returns (w: seq<byte>)
    requires Request(u) && c <= |u| && i <= |b.node.edges| && Shaped(b.node) && b.fragment != []
    requires FindFrom(b, i, u, c) == Some(p)
    ensures Reaches(b.node, w, p) && Matches(Entry(b, w), u[c..])
    decreases b, |b.node.edges| - i
  {
    var edges := b.node.edges;
    if i == |edges| {
      w := [];
    } else {
      var child := edges[i];
      assert ShapedEdge(b.node, i);
      var at := if child.Wild() then Some(c) else Locate(b.Head(), child.fragment, u, c);
      if at.Some? && Find(child, u, at.value).Some? {
        var inner := FindSound(child, u, at.value, p);
        w := child.fragment + inner;
        LocatedIsLiteral(b.Head(), child.fragment, u, c);
        assert w[|child.fragment|..] == inner && ReachesThrough(b.node, i, w, p);
        ChildMatches(b, child, inner, u, c, at.value);
      } else {
        w := FindFromSound(b, if at.Some? then NextWild(edges, i + 1) else i + 1, u, c, p);
      }
    }
  }

  /** A match below a child extends to a match that starts at the parent's cursor. */
  lemma ChildMatches(b: Branch, child: Branch, inner: seq<byte>, u: seq<byte>, c: nat, at: nat)
    requires Request(u) && c <= |u| && child.fragment != [] && (child.Wild() ==> |child.fragment| == 1)
    requires if child.Wild() then at == c else Locate(b.Head(), child.fragment, u, c) == Some(at)
    requires at <= |u| && Matches(Entry(child, inner), u[at..])
    ensures Matches(Entry(b, child.fragment + inner), u[c..])
  {
    hide Locate, IndexOf;
    var f := child.fragment;
    var k := if child.Wild() then 0 else at - |f| - c;
    assert k == 0 ==> u[c..][k..] == u[c..];
    assert Matches(f + inner, u[c..][k..]) by {
      if child.Wild() {
        assert f == [child.Head()];
      } else {
        assert u[at - |f|..at] == f;
        assert LiteralBytes(f);
        assert u[c..][k..] == u[c + k..];
        assert u[c + k..][|f|..] == u[at..];
        LiteralPrefix(f, inner, u[c + k..]);
      }
    }
    if b.Wild() {
      GapPrefix(b.Head(), f + inner, u[c..], k);
    }
  }

  ghost predicate RootReaches(roots: map<byte, Trie>, w: seq<byte>, p: Payload) {
    w != [] && w[0] in roots && Reaches(roots[w[0]], w[1..], p)
  }

  lemma RootSound(roots: map<byte, Trie>, i: byte, u: seq<byte>, c: nat, p: Payload) returns (w: seq<byte>)
    requires Request(u) && u != [] && RootsPlaced(roots) && i in roots
    requires if IsWild(i) then c == 0 else i == u[0] && c == 1
    requires Find(Branch([i], roots[i]), u, c) == Some(p)
    ensures RootReaches(roots, w, p) && RootContains(roots, w, p) && Matches(w, u)
  {
    assert RootPlaced(roots, i);
    var inner := FindSound(Branch([i], roots[i]), u, c, p);
    ReachedIsContained(roots[i], inner, p);
    w := [i] + inner;
    assert w[1..] == inner && u[0..] == u;
    if !IsWild(i) {
      LiteralPrefix([i], inner, u);
    }
  }

  /** Soundness, for every trie: the search only answers with routes that match. */
  lemma SearchSound(roots: map<byte, Trie>, u: seq<byte>, p: Payload) returns (w: seq<byte>)
    requires Request(u) && RootsPlaced(roots)
    requires FindRoot(roots, u) == Some(p)
    ensures RootReaches(roots, w, p) && RootContains(roots, w, p) && Matches(w, u)
  {
    hide Find, RootReaches, RootContains, Matches, RootsPlaced;
    if u[0] in roots && Find(Branch([u[0]], roots[u[0]]), u, 1).Some? {
      w := RootSound(roots, u[0], u, 1, p);
    } else if STAR in roots && Find(Branch([STAR], roots[STAR]), u, 0).Some? {
      w := RootSound(roots, STAR, u, 0, p);
    } else {
      w := RootSound(roots, GREEDY, u, 0, p);
    }
  }

  /** Behind a literal the search locates a literal right at the cursor or not at all. */
  lemma LocateLiteral(h: byte, f: seq<byte>, u: seq<byte>, c: nat)
    requires c <= |u| && !IsWild(h)
    ensures Locate(h, f, u, c) == if f <= u[c..] then Some(c + |f|) else None
    ensures f <= u[c..] ==> u[c..][|f|..] == u[c + |f|..]
  {
    assert c + |f| <= |u| ==> u[c..c + |f|] == u[c..][..|f|];
  }

  // ---------------------------------------------------------------- exact routes

  /** A literal child other than the one the url continues with is not located. */
  lemma OtherLiteral(b: Branch, j: nat, u: seq<byte>, c: nat)
    requires !b.Wild() && c < |u| && j < |b.node.edges|
    requires var child := b.node.edges[j]; child.fragment != [] && child.Head() != u[c]
    ensures Locate(b.Head(), b.node.edges[j].fragment, u, c).None?
  {
    var f := b.node.edges[j].fragment;
    if c + |f| <= |u| {
      assert u[c..c + |f|][0] == u[c];
    }
  }

  /** Literal edges before the one that the url continues with are passed over. */
  lemma {:induction false} ReachLiteral(b: Branch, i: nat, k: nat, u: seq<byte>, c: nat)
    requires Shaped(b.node) && Ordered(b.node) && !b.Wild() && c < |u|
    requires i <= k < |b.node.edges| && !b.node.edges[k].Wild() && b.node.edges[k].Head() == u[c]
    ensures FindFrom(b, i, u, c) == FindFrom(b, k, u, c)
    decreases k - i
  {
    hide Locate, Find;
    if i < k {
      assert ShapedEdge(b.node, i);
      OtherLiteral(b, i, u, c);
      ReachLiteral(b, i + 1, k, u, c);
    }
  }

  lemma {:induction false} FindExact(b: Branch, u: seq<byte>, c: nat, p: Payload)
    requires Request(u) && c <= |u| && Shaped(b.node) && Ordered(b.node) && !b.Wild() && b.fragment != []
    requires Contains(b.node, u[c..], p)
    ensures Find(b, u, c) == Some(p)
    decreases b
  {
    hide Locate, Find, FindFrom, Contains, Ordered;
    FindLiteral(b, u, c);
    if c == |u| {
      NoEmptyThrough(b.node, u[c..], p);
    } else {
      var i := ContainedThrough(b.node, u[c..], p);
      var child := b.node.edges[i];
      var f := child.fragment;
      assert child.Head() == u[c..][0] == u[c];
      LocateLiteral(b.Head(), f, u, c);
      ReachLiteral(b, 0, i, u, c);
      assert ShapedEdge(b.node, i);
      OrderedBelow(b.node, i);
      FindExact(child, u, c + |f|, p);
      FindTakes(b, u, c, i, c + |f|);
    }
  }

  lemma FindLiteral(b: Branch, u: seq<byte>, c: nat)
    requires !b.Wild() && c <= |u|
    ensures Find(b, u, c)
         == if c == |u| && b.node.payload.methods != 0 then Some(b.node.payload) else FindFrom(b, 0, u, c)
  {
    hide FindFrom;
  }

  lemma OrderedBelow(t: Trie, i: nat)
    requires Ordered(t) && i < |t.edges|
    ensures Ordered(t.edges[i].node)
  {
  }

  lemma NoEmptyThrough(t: Trie, w: seq<byte>, p: Payload)
    requires Contains(t, w, p) && w == []
    ensures p == t.payload && p.methods != 0
  {
  }

  /** A route without wildcards always answers its own url, whatever else is routed. */
  lemma ExactRouteWins(roots: map<byte, Trie>, u: seq<byte>, p: Payload)
    requires Request(u) && RootsPlaced(roots) && RootsOrdered(roots)
    requires RootContains(roots, u, p)
    ensures FindRoot(roots, u) == Some(p)
  {
    assert RootPlaced(roots, u[0]);
    FindExact(Branch([u[0]], roots[u[0]]), u, 1, p);
  }

  ghost predicate RootsOrdered(roots: map<byte, Trie>) {
    forall i: byte :: i in roots ==> Ordered(roots[i])
  }

  // ---------------------------------------------------------------- whole-segment wildcards

  /** Every wildcard below `b` that is followed by something is a `*` followed by a literal
      that contains a '/'. */
  ghost predicate Segmented(b: Branch)
    decreases b
  {
    && b.fragment != []
    && (if b.Wild() then
          |b.fragment| == 1 && (b.node.edges != [] ==>
            b.Head() == STAR && |b.node.edges| == 1 && !b.node.edges[0].Wild() && SLASH in b.node.edges[0].fragment)
        else LiteralBytes(b.fragment))
    && forall i :: 0 <= i < |b.node.edges| ==> SegmentedEdge(b, i)
  }

  ghost predicate SegmentedEdge(b: Branch, i: nat)
    requires i < |b.node.edges|
    decreases b, 0
  {
    Segmented(b.node.edges[i])
  }

  /** Pattern `w` goes before `v`: where they first differ it has a literal against a
      wildcard or `*` against `**`, or it goes on where `v` ends. */
  ghost predicate MoreSpecific(w: seq<byte>, v: seq<byte>) {
    exists i :: DiffersAt(w, v, i)
  }

  ghost predicate DiffersAt(w: seq<byte>, v: seq<byte>, i: int) {
    && 0 <= i < |w| && i <= |v| && w[..i] == v[..i]
    && (i < |v| ==> Rank(w[i]) < Rank(v[i]))
  }

  lemma MoreSpecificBehind(f: seq<byte>, w: seq<byte>, v: seq<byte>)
    requires MoreSpecific(w, v)
    ensures MoreSpecific(f + w, f + v)
  {
    var i :| DiffersAt(w, v, i);
    assert (f + w)[..|f| + i] == f + w[..i] && (f + v)[..|f| + i] == f + v[..i];
    assert DiffersAt(f + w, f + v, |f| + i);
  }

  /** A route below `b` that matches, ends at `b` or goes through an edge from `i` on. */
  ghost predicate Candidate(b: Branch, i: nat, w: seq<byte>, p: Payload, u: seq<byte>, c: nat)
    requires c <= |u|
  {
    && Matches(Entry(b, w), u[c..])
    && (|| (w == [] && p == b.node.payload && p.methods != 0)
        || exists j :: i <= j < |b.node.edges| && Through(b.node, j, w, p))
  }

  /** `w` is a matching route with payload `p`, and goes before every other one. */
  ghost predicate Best(b: Branch, i: nat, w: seq<byte>, p: Payload, u: seq<byte>, c: nat)
    requires c <= |u|
  {
    && Candidate(b, i, w, p, u, c)
    && forall v, q :: Candidate(b, i, v, q, u, c) ==> v == w || MoreSpecific(w, v)
  }

  /** What a search result says about all matching routes. */
  ghost predicate Answers(b: Branch, i: nat, found: Option<Payload>, w: seq<byte>, u: seq<byte>, c: nat)
    requires c <= |u|
  {
    match found
    case Some(p) => Best(b, i, w, p, u, c)
    case None => forall v, q :: !Candidate(b, i, v, q, u, c)
  }

  /** Below `*`, a fragment with a '/' can only stand where that is the next '/'. */
  lemma SegmentGap(f: seq<byte>, u: seq<byte>, c: nat, k: int)
    requires c <= |u| && SLASH in f
    requires Gap(STAR, u[c..], k) && f <= u[c + k..]
    ensures Locate(STAR, f, u, c) == Some(c + k + |f|)
  {
    hide IndexOf, OccursAt, FirstIndex, Locate;
    var m := FirstIndex(f, SLASH);
    assert f[..|f|] == f;
    NoSlashUpTo(f, u, c, k, m);
    OccursAtSuffix(f, u, c + k);
    LocatedThere(f, u, c, c + k, m);
  }

  lemma LocatedThere(f: seq<byte>, u: seq<byte>, c: nat, at: nat, m: nat)
    requires c <= at <= |u| && m < |f| && f[m] == SLASH && OccursAt(u, f, at)
    requires forall i :: c <= i < at + m ==> u[i] != SLASH
    ensures Locate(STAR, f, u, c) == Some(at + |f|)
  {
    hide IndexOf, OccursAt;
    OnlyOccurrence(f, u, c, at, m);
    NoEarlierSlash(u, c, at);
  }

  lemma OccursAtSuffix(f: seq<byte>, u: seq<byte>, at: nat)
    requires at <= |u| && f <= u[at..]
    ensures OccursAt(u, f, at)
  {
    assert u[at..][..|f|] == u[at..at + |f|];
  }

  lemma NoSlashUpTo(f: seq<byte>, u: seq<byte>, c: nat, k: nat, m: nat)
    requires c + k <= |u| && m <= |f| && f <= u[c + k..]
    requires SLASH !in u[c..][..k] && SLASH !in f[..m]
    ensures forall i :: c <= i < c + k + m ==> u[i] != SLASH
  {
    forall i | c <= i < c + k + m ensures u[i] != SLASH {
      if i < c + k {
        assert u[i] == u[c..][..k][i - c];
      } else {
        assert u[i] == u[c + k..][i - c - k] == f[..m][i - c - k];
      }
    }
  }

  lemma OnlyOccurrence(f: seq<byte>, u: seq<byte>, c: nat, at: nat, m: nat)
    requires c <= at <= |u| && m < |f| && f[m] == SLASH && OccursAt(u, f, at)
    requires forall i :: c <= i < at + m ==> u[i] != SLASH
    ensures IndexOf(u, f, c) == Some(at)
  {
    forall i | c <= i < at ensures !OccursAt(u, f, i) {
      assert i + |f| <= |u| ==> u[i..i + |f|][m] == u[i + m];
    }
  }

  lemma NoEarlierSlash(u: seq<byte>, c: nat, at: nat)
    requires c <= at <= |u| && forall i :: c <= i < at ==> u[i] != SLASH
    ensures var slash := IndexOf(u, [SLASH], c); slash.Some? ==> at <= slash.value
  {
    forall i | c <= i < at ensures !OccursAt(u, [SLASH], i) {
      assert i + 1 <= |u| ==> u[i..i + 1][0] == u[i];
    }
  }

  lemma StarUnfolds(v: seq<byte>, u: seq<byte>) returns (k: int)
    requires v != [] && Matches([STAR] + v, u)
    ensures Gap(STAR, u, k) && Matches(v, u[k..])
  {
    assert ([STAR] + v)[1..] == v;
    k :| Gap(STAR, u, k) && Matches(v, u[k..]);
  }

  /** A match of `*` and then `f` has `f` where the search locates it. */
  lemma StarMatches(f: seq<byte>, rest: seq<byte>, u: seq<byte>, c: nat)
    requires c <= |u| && SLASH in f && LiteralBytes(f)
    requires Matches([STAR] + (f + rest), u[c..])
    ensures var at := Locate(STAR, f, u, c); at.Some? && Matches(rest, u[at.value..])
  {
    hide Locate, IndexOf, Matches;
    var v := f + rest;
    var k := StarUnfolds(v, u[c..]);
    assert u[c..][k..] == u[c + k..];
    LiteralPrefix(f, rest, u[c + k..]);
    SegmentGap(f, u, c, k);
    assert u[c + k..][|f|..] == u[c + k + |f|..];
  }

  /** A pattern through child `i` matches exactly when the child is located and the rest
      of the pattern matches there. */
  lemma ThroughMatches(b: Branch, i: nat, v: seq<byte>, u: seq<byte>, c: nat)
    requires Request(u) && c <= |u| && Segmented(b) && i < |b.node.edges|
    requires b.node.edges[i].fragment <= v
    ensures var child := b.node.edges[i];
            var at := if child.Wild() then Some(c) else Locate(b.Head(), child.fragment, u, c);
            Matches(Entry(b, v), u[c..]) <==> at.Some? && Matches(Entry(child, v[|child.fragment|..]), u[at.value..])
  {
    hide Locate;
    var child := b.node.edges[i];
    assert SegmentedEdge(b, i) && Segmented(child);
    var f, rest := child.fragment, v[|child.fragment|..];
    assert v == f + rest;
    var at := if child.Wild() then Some(c) else Locate(b.Head(), f, u, c);
    if child.Wild() {
      assert f == [child.Head()];
    } else if !b.Wild() {
      LiteralPrefix(f, rest, u[c..]);
      LocateLiteral(b.Head(), f, u, c);
    } else {
      if at.Some? && Matches(rest, u[at.value..]) {
        ChildMatches(b, child, rest, u, c, at.value);
      }
      if Matches(Entry(b, v), u[c..]) {
        StarMatches(f, rest, u, c);
      }
    }
  }

  /** No route through edge `i` matches when the child is not located or fails there. */
  lemma ChildFails(b: Branch, i: nat, u: seq<byte>, c: nat)
    requires Request(u) && c <= |u| && Segmented(b) && i < |b.node.edges|
    requires var child := b.node.edges[i];
             var at := if child.Wild() then Some(c) else Locate(b.Head(), child.fragment, u, c);
             at.Some? ==> forall v, q :: !Candidate(child, 0, v, q, u, at.value)
    ensures forall v, q :: Through(b.node, i, v, q) ==> !Matches(Entry(b, v), u[c..])
  {
    var child := b.node.edges[i];
    forall v, q | Through(b.node, i, v, q) ensures !Matches(Entry(b, v), u[c..]) {
      ThroughMatches(b, i, v, u, c);
      var at := if child.Wild() then Some(c) else Locate(b.Head(), child.fragment, u, c);
      if at.Some? && Matches(Entry(child, v[|child.fragment|..]), u[at.value..]) {
        assert Contains(child.node, v[|child.fragment|..], q);
        assert Candidate(child, 0, v[|child.fragment|..], q, u, at.value);
      }
    }
  }

  /** The step of the main induction: child `i` answers with its best route `w`. */
  lemma ChildBest(b: Branch, i: nat, u: seq<byte>, c: nat, at: nat, w: seq<byte>, p: Payload)
    requires Request(u) && c <= |u| && Segmented(b) && Shaped(b.node) && Ordered(b.node) && i < |b.node.edges|
    requires var child := b.node.edges[i];
             (if child.Wild() then at == c else Locate(b.Head(), child.fragment, u, c) == Some(at))
    requires at <= |u| && Best(b.node.edges[i], 0, w, p, u, at)
    ensures Best(b, i, b.node.edges[i].fragment + w, p, u, c)
  {
    var child := b.node.edges[i];
    assert SegmentedEdge(b, i) && Segmented(child) && ShapedEdge(b.node, i);
    var f := child.fragment;
    var fw := f + w;
    assert fw[|f|..] == w && Contains(child.node, w, p);
    assert Through(b.node, i, fw, p);
    ThroughMatches(b, i, fw, u, c);
    forall v, q | Candidate(b, i, v, q, u, c) ensures v == fw || MoreSpecific(fw, v) {
      ChildBeats(b, i, u, c, at, w, p, v, q);
    }
  }

  /** The best route `w` of child `i` goes before every other candidate `v`. */
  lemma ChildBeats(b: Branch, i: nat, u: seq<byte>, c: nat, at: nat, w: seq<byte>, p: Payload, v: seq<byte>, q: Payload)
    requires Request(u) && c <= |u| && Segmented(b) && Shaped(b.node) && Ordered(b.node) && i < |b.node.edges|
    requires var child := b.node.edges[i];
             (if child.Wild() then at == c else Locate(b.Head(), child.fragment, u, c) == Some(at))
    requires at <= |u| && Best(b.node.edges[i], 0, w, p, u, at)
    requires b.node.edges[i].fragment != [] && Candidate(b, i, v, q, u, c)
    ensures v == b.node.edges[i].fragment + w || MoreSpecific(b.node.edges[i].fragment + w, v)
  {
    hide Locate, Matches, Segmented, Ordered, Shaped;
    var child := b.node.edges[i];
    var f := child.fragment;
    var fw := f + w;
    if v == [] {
      assert DiffersAt(fw, v, 0);
    } else {
      var j :| i <= j < |b.node.edges| && Through(b.node, j, v, q);
      if j == i {
        SameChildBeats(b, i, u, c, at, w, p, v, q);
      } else {
        LaterSibling(b, i, j, u, c, at, v, q);
        assert DiffersAt(fw, v, 0);
      }
    }
  }

  lemma SameChildBeats(b: Branch, i: nat, u: seq<byte>, c: nat, at: nat, w: seq<byte>, p: Payload, v: seq<byte>,
                       q: Payload)
    requires Request(u) && c <= |u| && Segmented(b) && i < |b.node.edges|
    requires var child := b.node.edges[i];
             (if child.Wild() then at == c else Locate(b.Head(), child.fragment, u, c) == Some(at))
    requires at <= |u| && Best(b.node.edges[i], 0, w, p, u, at)
    requires Through(b.node, i, v, q) && Matches(Entry(b, v), u[c..])
    ensures v == b.node.edges[i].fragment + w || MoreSpecific(b.node.edges[i].fragment + w, v)
  {
    hide *;
    var child := b.node.edges[i];
    ThroughCandidate(b, i, u, c, at, v, q);
    var rest := v[|child.fragment|..];
    BestBeats(child, 0, w, p, u, at, rest, q);
    assert v == child.fragment + rest;
    if rest != w {
      MoreSpecificBehind(child.fragment, w, rest);
    }
  }

  lemma ThroughCandidate(b: Branch, i: nat, u: seq<byte>, c: nat, at: nat, v: seq<byte>, q: Payload)
    requires Request(u) && c <= |u| && Segmented(b) && i < |b.node.edges| && at <= |u|
    requires var child := b.node.edges[i];
             (if child.Wild() then at == c else Locate(b.Head(), child.fragment, u, c) == Some(at))
    requires Through(b.node, i, v, q) && Matches(Entry(b, v), u[c..])
    ensures b.node.edges[i].fragment <= v
    ensures Candidate(b.node.edges[i], 0, v[|b.node.edges[i].fragment|..], q, u, at)
  {
    var child := b.node.edges[i];
    assert Contains(child.node, v[|child.fragment|..], q);
    hide *;
    ThroughMatches(b, i, v, u, c);
    ContainedIsCandidate(child, v[|child.fragment|..], q, u, at);
  }

  lemma BestBeats(b: Branch, i: nat, w: seq<byte>, p: Payload, u: seq<byte>, c: nat, v: seq<byte>, q: Payload)
    requires c <= |u| && Best(b, i, w, p, u, c) && Candidate(b, i, v, q, u, c)
    ensures v == w || MoreSpecific(w, v)
  {
  }

  lemma ContainedIsCandidate(b: Branch, v: seq<byte>, q: Payload, u: seq<byte>, c: nat)
    requires c <= |u| && Contains(b.node, v, q) && Matches(Entry(b, v), u[c..])
    ensures Candidate(b, 0, v, q, u, c)
  {
  }

  /** A matching route through a later sibling starts with a less specific wildcard. */
  lemma LaterSibling(b: Branch, i: nat, j: nat, u: seq<byte>, c: nat, at: nat, v: seq<byte>, q: Payload)
    requires Request(u) && c <= |u| && Segmented(b) && Shaped(b.node) && Ordered(b.node) && i < j < |b.node.edges|
    requires var child := b.node.edges[i];
             (if child.Wild() then at == c else Locate(b.Head(), child.fragment, u, c) == Some(at))
    requires Through(b.node, j, v, q) && Matches(Entry(b, v), u[c..])
    ensures v != [] && Rank(b.node.edges[i].Head()) < Rank(v[0])
  {
    var child, sibling := b.node.edges[i], b.node.edges[j];
    assert SegmentedEdge(b, i) && Segmented(child) && ShapedEdge(b.node, i);
    assert SegmentedEdge(b, j) && Segmented(sibling) && ShapedEdge(b.node, j);
    assert v[0] == sibling.Head() && !b.Wild();
  }

  /** Main result: the search finds the best matching route below `b`, or none matches. */
  lemma {:induction false} FindBest(b: Branch, u: seq<byte>, c: nat) returns (w: seq<byte>)
    requires Request(u) && c <= |u| && Segmented(b) && Shaped(b.node) && Ordered(b.node)
    ensures Answers(b, 0, Find(b, u, c), w, u, c)
    decreases b, |b.node.edges| + 1
  {
    if !b.Wild() && c == |u| && b.node.payload.methods != 0 {
      w := [];
      assert u[c..] == [];
      assert Candidate(b, 0, [], b.node.payload, u, c);
      forall v, q | Candidate(b, 0, v, q, u, c) ensures v == [] {
        EmptyMatchesEmpty(b, v, q);
      }
    } else {
      w := FindFromBest(b, 0, u, c);
    }
  }

  /** Only a route that ends at literal `b` matches the empty rest of a url. */
  lemma EmptyMatchesEmpty(b: Branch, v: seq<byte>, q: Payload)
    requires !b.Wild() && Segmented(b) && Contains(b.node, v, q) && Matches(v, [])
    ensures v == []
  {
    if v != [] {
      var j :| 0 <= j < |b.node.edges| && Through(b.node, j, v, q);
      var child := b.node.edges[j];
      assert SegmentedEdge(b, j) && Segmented(child);
      assert v[0] == child.Head() && IsWild(v[0]) && |v| > 1;
      var rest := v[1..];
      assert Contains(child.node, rest, q);
    }
  }

  lemma {:induction false} FindFromBest(b: Branch, i: nat, u: seq<byte>, c: nat) returns (w: seq<byte>)
    requires Request(u) && c <= |u| && Segmented(b) && Shaped(b.node) && Ordered(b.node) && i <= |b.node.edges|
    requires b.Wild() || c < |u| || b.node.payload.methods == 0
    ensures Answers(b, i, FindFrom(b, i, u, c), w, u, c)
    decreases b, |b.node.edges| - i
  {
    hide Locate, Find, Best, Candidate;
    var edges := b.node.edges;
    if i == |edges| {
      w := [];
      EndAnswers(b, u, c);
    } else {
      var child := edges[i];
      assert SegmentedEdge(b, i) && Segmented(child) && ShapedEdge(b.node, i);
      var at := if child.Wild() then Some(c) else Locate(b.Head(), child.fragment, u, c);
      if at.Some? {
        var inner := FindBest(child, u, at.value);
        var found := Find(child, u, at.value);
        if found.Some? {
          ChildBest(b, i, u, c, at.value, inner, found.value);
          w := child.fragment + inner;
        } else {
          ChildFails(b, i, u, c);
          w := FindFromBest(b, NextWild(edges, i + 1), u, c);
          SkippedFail(b, i, NextWild(edges, i + 1), u, c, at.value);
          NarrowAnswers(b, i, NextWild(edges, i + 1), FindFrom(b, i, u, c), w, u, c);
        }
      } else {
        ChildFails(b, i, u, c);
        w := FindFromBest(b, i + 1, u, c);
        NarrowAnswers(b, i, i + 1, FindFrom(b, i, u, c), w, u, c);
      }
    }
  }

  lemma EndAnswers(b: Branch, u: seq<byte>, c: nat)
    requires c <= |u| && (b.Wild() || c < |u| || b.node.payload.methods == 0)
    ensures Answers(b, |b.node.edges|, FindFrom(b, |b.node.edges|, u, c), [], u, c)
  {
    assert |u[c..]| == |u| - c;
  }

  /** The literal siblings skipped behind a located child take no matching route. */
  lemma SkippedFail(b: Branch, i: nat, k: nat, u: seq<byte>, c: nat, at: nat)
    requires Request(u) && c <= |u| && Segmented(b) && Shaped(b.node) && Ordered(b.node) && i < k <= |b.node.edges|
    requires var child := b.node.edges[i];
             (if child.Wild() then at == c else Locate(b.Head(), child.fragment, u, c) == Some(at))
    requires forall j :: i < j < k ==> !b.node.edges[j].Wild()
    ensures forall j, v, q :: i < j < k && Through(b.node, j, v, q) ==> !Matches(Entry(b, v), u[c..])
  {
    forall j, v, q | i < j < k && Through(b.node, j, v, q) ensures !Matches(Entry(b, v), u[c..]) {
      if Matches(Entry(b, v), u[c..]) {
        LaterSibling(b, i, j, u, c, at, v, q);
      }
    }
  }

  /** Ruling out edges `i..k` carries an answer from edge `k` back to edge `i`. */
  lemma NarrowAnswers(b: Branch, i: nat, k: nat, found: Option<Payload>, w: seq<byte>, u: seq<byte>, c: nat)
    requires c <= |u| && i <= k <= |b.node.edges|
    requires forall j, v, q :: i <= j < k && Through(b.node, j, v, q) ==> !Matches(Entry(b, v), u[c..])
    requires Answers(b, k, found, w, u, c)
    ensures Answers(b, i, found, w, u, c)
  {
    forall v, q | Candidate(b, i, v, q, u, c) ensures Candidate(b, k, v, q, u, c) {
    }
    if found.Some? {
      assert Candidate(b, i, w, found.value, u, c);
    }
  }

  // ---------------------------------------------------------------- the whole tree

  ghost predicate RootsSegmented(roots: map<byte, Trie>) {
    forall i: byte :: i in roots ==> Segmented(Branch([i], roots[i]))
  }

  /** A route that matches the whole url. */
  ghost predicate Matching(roots: map<byte, Trie>, w: seq<byte>, p: Payload, u: seq<byte>) {
    RootContains(roots, w, p) && Matches(w, u)
  }

  /** Result `found` of root `i` is right for the matching routes that start with `i`. */
  ghost predicate RootAnswers(roots: map<byte, Trie>, i: byte, found: Option<Payload>, w: seq<byte>, u: seq<byte>) {
    match found
    case None => forall v, q :: Matching(roots, v, q, u) ==> v[0] != i
    case Some(p) =>
      && Matching(roots, w, p, u) && w[0] == i
      && forall v, q :: Matching(roots, v, q, u) && v[0] == i ==> v == w || MoreSpecific(w, v)
  }

  lemma RootBest(roots: map<byte, Trie>, i: byte, u: seq<byte>) returns (w: seq<byte>)
    requires Request(u) && u != [] && (IsWild(i) || i == u[0])
    requires RootsPlaced(roots) && RootsOrdered(roots) && RootsSegmented(roots)
    ensures var found := if i in roots then Find(Branch([i], roots[i]), u, if IsWild(i) then 0 else 1) else None;
            RootAnswers(roots, i, found, w, u)
  {
    if i !in roots {
      return [];
    }
    var b, c := Branch([i], roots[i]), if IsWild(i) then 0 else 1;
    assert RootPlaced(roots, i);
    var inner := FindBest(b, u, c);
    w := [i] + inner;
    var found := Find(b, u, c);
    hide Find, Matches, Segmented, Ordered, RootsPlaced, MoreSpecific;
    if found.Some? {
      RootCandidate(roots, i, w, found.value, u, c);
    }
    forall v, q | Matching(roots, v, q, u) && v[0] == i
      ensures found.Some? && (v == w || MoreSpecific(w, v))
    {
      RootCandidate(roots, i, v, q, u, c);
      assert v == [i] + v[1..];
      if v[1..] != inner {
        MoreSpecificBehind([i], inner, v[1..]);
      }
    }
  }

  /** A matching route that starts with `i` is a candidate below root `i`, and back. */
  lemma RootCandidate(roots: map<byte, Trie>, i: byte, v: seq<byte>, q: Payload, u: seq<byte>, c: nat)
    requires u != [] && i in roots && v != [] && v[0] == i
    requires if IsWild(i) then c == 0 else i == u[0] && c == 1
    ensures Matching(roots, v, q, u) <==> Candidate(Branch([i], roots[i]), 0, v[1..], q, u, c)
  {
    var b := Branch([i], roots[i]);
    assert [i] + v[1..] == v && u[0..] == u;
    assert Matches(Entry(b, v[1..]), u[c..]) <==> Matches(v, u);
    hide Matches;
    assert Contains(b.node, v[1..], q) == (|| (v[1..] == [] && q == b.node.payload && q.methods != 0)
                                           || exists j :: 0 <= j < |b.node.edges| && Through(b.node, j, v[1..], q));
  }

  /** Main result on meaning: where wildcards stand for whole segments, the search answers
      exactly when some route matches, and then with the most specific one. */
  lemma MostSpecificWins(roots: map<byte, Trie>, u: seq<byte>) returns (w: seq<byte>)
    requires Request(u)
    requires RootsPlaced(roots) && RootsOrdered(roots) && RootsSegmented(roots)
    ensures match FindRoot(roots, u)
            case None => forall v, q :: !Matching(roots, v, q, u)
            case Some(p) =>
              && Matching(roots, w, p, u)
              && forall v, q :: Matching(roots, v, q, u) ==> v == w || MoreSpecific(w, v)
  {
    if u == [] {
      w := [];
      forall v, q ensures !Matching(roots, v, q, u) {
        NothingMatchesEmpty(roots, v, q);
      }
    } else {
      var literal := RootBest(roots, u[0], u);
      var star := RootBest(roots, STAR, u);
      var greedy := RootBest(roots, GREEDY, u);
      hide Find, Matches, Matching, MoreSpecific, RootsSegmented, RootsOrdered, RootsPlaced;
      var i;
      if u[0] in roots && Find(Branch([u[0]], roots[u[0]]), u, 1).Some? {
        i, w := u[0], literal;
      } else if STAR in roots && Find(Branch([STAR], roots[STAR]), u, 0).Some? {
        i, w := STAR, star;
      } else {
        i, w := GREEDY, greedy;
      }
      forall v, q | Matching(roots, v, q, u)
        ensures FindRoot(roots, u).Some? && (v == w || MoreSpecific(w, v))
      {
        FirstByteMatches(roots, v, q, u);
        if v[0] != w[0] && FindRoot(roots, u).Some? {
          FirstByteDecides(w, v);
        }
      }
    }
  }

  lemma FirstByteMatches(roots: map<byte, Trie>, v: seq<byte>, q: Payload, u: seq<byte>)
    requires Matching(roots, v, q, u)
    ensures v != [] && (IsWild(v[0]) || (u != [] && v[0] == u[0]))
  {
  }

  lemma FirstByteDecides(w: seq<byte>, v: seq<byte>)
    requires w != [] && v != [] && Rank(w[0]) < Rank(v[0])
    ensures MoreSpecific(w, v)
  {
    assert DiffersAt(w, v, 0);
  }

  lemma ContainedThrough(t: Trie, w: seq<byte>, p: Payload) returns (i: nat)
    requires w != [] && Contains(t, w, p)
    ensures i < |t.edges| && Through(t, i, w, p)
  {
    i :| 0 <= i < |t.edges| && Through(t, i, w, p);
  }

  lemma NothingMatchesEmpty(roots: map<byte, Trie>, v: seq<byte>, q: Payload)
    requires RootsSegmented(roots)
    ensures !Matching(roots, v, q, [])
  {
    if RootContains(roots, v, q) && |v| > 1 {
      var b := Branch([v[0]], roots[v[0]]);
      assert Segmented(b) && Contains(b.node, v[1..], q);
      var i := ContainedThrough(b.node, v[1..], q);
      assert SegmentedEdge(b, i) && Segmented(b.node.edges[i]);
      assert v[1] == v[1..][0] == b.node.edges[i].Head();
      if b.Wild() {
        assert !Matches(v[1..], []);
      }
    }
  }
}
