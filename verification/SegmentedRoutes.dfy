/**
 For which route sets wildcards stand for segments in the compressed tries, told on the routes
 alone: whenever routes go on behind a wildcard, it is a `*`, and all routes that go on from
 there go on with the same literal up to a '/'.
 */
module SegmentedRoutes {
  import opened Common
  import opened RouteTrie
  import opened RouteMeaning
  import opened BuildTree
  import opened Compress
  import opened CompressedTrie
  import opened MergedRoutes
  import opened HostReversal

  /** `g` is a literal up to a '/', and what goes on from `w` goes on with it. */
  ghost predicate Shares(routes: Routes, w: seq<byte>, g: seq<byte>) {
    && g != [] && LiteralBytes(g) && g[|g| - 1] == SLASH
    && forall p :: p in routes && w < p ==> w + g <= p
  }

  ghost predicate SharesSlash(routes: Routes, w: seq<byte>) {
    exists g :: Shares(routes, w, g)
  }

  ghost predicate GoesOn(routes: Routes, w: seq<byte>) {
    exists p :: p in routes && w < p
  }

  ghost predicate EndsWild(w: seq<byte>) {
    w != [] && IsWild(w[|w| - 1])
  }

  ghost predicate SegmentsTold(routes: Routes) {
    forall w :: EndsWild(w) && GoesOn(routes, w) ==> w[|w| - 1] == STAR && SharesSlash(routes, w)
  }

  /** Patterns whose inner wildcards are whole segments are such. */
  lemma WholeSegmentsTold(routes: Routes)
    requires forall p :: p in routes ==> SegmentPattern(p)
    ensures SegmentsTold(routes)
  {
    forall w | EndsWild(w) && GoesOn(routes, w) ensures w[|w| - 1] == STAR && SharesSlash(routes, w) {
      var g: seq<byte> := [SLASH];
      forall p | p in routes && w < p ensures w[|w| - 1] == STAR && w + g <= p {
        assert p[|w| - 1] == w[|w| - 1] && p[..|w| + 1] == w + [p[|w|]];
      }
      assert Shares(routes, w, g);
    }
  }

  // ---------------------------------------------------------------- then the tries are segmented

  /** Such routes merge no wildcard. */
  lemma NothingMerged(routes: Routes, w: seq<byte>)
    requires SegmentsTold(routes)
    ensures !MergedAt(routes, w)
  {
    if MergedAt(routes, w) {
      var c :| MergedWith(routes, w, c);
      var z := w + [c];
      var b, b' :| b != b' && Continues(routes, z, b) && Continues(routes, z, b');
      var p :| p in routes && z + [b] <= p;
      var p' :| p' in routes && z + [b'] <= p';
      assert EndsWild(z) && z < p && z < p' && GoesOn(routes, z);
      var g :| Shares(routes, z, g);
      SameNext(z, g, p, b);
      SameNext(z, g, p', b');
    }
  }

  lemma SameNext(z: seq<byte>, g: seq<byte>, p: seq<byte>, b: byte)
    requires g != [] && z + g <= p && z + [b] <= p
    ensures b == g[0]
  {
    assert p[|z|] == b && p[|z|] == g[0];
  }

  /** Nodes inside the shared literal are dropped. */
  lemma InsideDropped(v: View, x: BuildNode, w: seq<byte>, g: seq<byte>)
    requires Spells(v) && Bytewise(v) && Covered(v) && x in v
    requires Shares(Dictionary(v), w, g) && w != [] && w < v[x].word < w + g
    ensures !Kept(v, x)
  {
    hide Spells, Bytewise, Dictionary, Covered;
    var routes, z := Dictionary(v), v[x].word;
    var c := g[|z| - |w|];
    assert z[|z| - 1] == g[|z| - 1 - |w|];
    EndsRouteIff(v, x);
    forall p | p in routes && z <= p ensures z + [c] <= p {
      assert w < p && p[..|w + g|] == w + g;
    }
    assert Covered(v) ==> OnTheWay(routes, z) by { CoveredAt(v, x); }
    var p :| p in routes && z <= p;
    assert Continues(routes, z, c);
    forall b | Continues(routes, z, b) ensures b == c {
      var p' :| p' in routes && z + [b] <= p';
      assert z <= p' && p'[|z|] == b && (z + [c])[|z|] == c;
    }
    OnlyContinuation(v, x, c);
  }

  lemma CoveredAt(v: View, x: BuildNode)
    requires Covered(v) && x in v
    ensures OnTheWay(Dictionary(v), v[x].word)
  {
  }

  /** What lies behind a wildcard node: nothing, or it is a `*` and one literal with a '/'. */
  ghost predicate SegmentBehind(v: View, y: BuildNode)
    requires y in v && v[y].word != []
  {
    v[y].edges != [] ==>
      && v[y].word[|v[y].word| - 1] == STAR && |v[y].edges| == 1
      && v[y].edges[0].fragment != [] && !IsWild(v[y].edges[0].Head()) && SLASH in v[y].edges[0].fragment
  }

  lemma BehindWildcard(v: View, v': View, y: BuildNode)
    requires Spells(v) && Bytewise(v) && Covered(v) && Compressed(v, v') && SegmentsTold(Dictionary(v))
    requires y in v' && EndsWild(v'[y].word)
    ensures SegmentBehind(v', y)
  {
    hide Spells, Bytewise, Dictionary, Covered, Kept, Shares, Compressed;
    if v'[y].edges != [] {
      LeftSpells(v, v');
      var p := EdgeOnRoute(v, v', y, 0);
      var g :| Shares(Dictionary(v), v'[y].word, g);
      SharedIsLiteral(Dictionary(v), v'[y].word, g);
      forall i | 0 <= i < |v'[y].edges|
        ensures v'[y].edges[i].fragment != [] && v'[y].edges[i].Head() == g[0] && SLASH in v'[y].edges[i].fragment
      {
        EdgeShares(v, v', y, i, g);
      }
      OneEdge(v', y, g[0]);
    }
  }

  lemma SharedIsLiteral(routes: Routes, w: seq<byte>, g: seq<byte>)
    requires Shares(routes, w, g)
    ensures g != [] && !IsWild(g[0])
  {
  }

  lemma OneEdge(v: View, y: BuildNode, b: byte)
    requires Spells(v) && y in v && forall i :: 0 <= i < |v[y].edges| ==> v[y].edges[i].Head() == b
    ensures |v[y].edges| <= 1
  {
    hide Spells;
    if |v[y].edges| > 1 {
      var e, e' := v[y].edges[0], v[y].edges[1];
      HeadsDiffer(v, y);
    }
  }

  lemma EdgeOnRoute(v: View, v': View, y: BuildNode, i: nat) returns (p: seq<byte>)
    requires Covered(v) && Compressed(v, v') && y in v' && i < |v'[y].edges|
    ensures v'[y].edges[i].fragment != [] && v'[y].edges[i].node in v'
    ensures v'[v'[y].edges[i].node].word == v'[y].word + v'[y].edges[i].fragment
    ensures p in Dictionary(v) && v'[y].word + v'[y].edges[i].fragment <= p && v'[y].word < p
    ensures GoesOn(Dictionary(v), v'[y].word)
  {
    hide CellOk, Toward, Dictionary;
    EdgeGoesOn(v', y, i);
    CoveredAt(v, v'[y].edges[i].node);
    p :| p in Dictionary(v) && v[v'[y].edges[i].node].word <= p;
  }

  lemma EdgeShares(v: View, v': View, y: BuildNode, i: nat, g: seq<byte>)
    requires Spells(v) && Bytewise(v) && Covered(v) && Compressed(v, v') && y in v' && i < |v'[y].edges|
    requires EndsWild(v'[y].word) && Shares(Dictionary(v), v'[y].word, g)
    ensures var e := v'[y].edges[i]; e.fragment != [] && e.Head() == g[0] && SLASH in e.fragment
  {
    hide Spells, Bytewise, Dictionary, Covered, Kept;
    var w, f, x := v'[y].word, v'[y].edges[i].fragment, v'[y].edges[i].node;
    var p := EdgeOnRoute(v, v', y, i);
    assert w + g <= p && w + f <= p;
    assert p[|w|] == f[0] && p[|w|] == g[0];
    if |f| < |g| {
      Nested(w, f, g, p);
      assert Settled(v, v', x);
      InsideDropped(v, x, w, g);
    } else {
      assert f[|g| - 1] == p[|w| + |g| - 1] == g[|g| - 1];
    }
  }

  lemma Nested(w: seq<byte>, f: seq<byte>, g: seq<byte>, p: seq<byte>)
    requires w + f <= p && w + g <= p && f != [] && |f| < |g|
    ensures w < w + f < w + g
  {
    assert w + f == p[..|w + f|] && w + g == p[..|w + g|];
    assert (w + g)[..|w + f|] == w + f;
  }

  lemma {:induction false} SegmentedBelow(v: View, v': View, x: BuildNode, f: seq<byte>, limit: nat)
    requires Spells(v) && Bytewise(v) && Covered(v) && Compressed(v, v') && SegmentsTold(Dictionary(v))
    requires Limited(v', limit) && x in v' && Isolated(v')
    requires 0 < |f| <= |v'[x].word| && f == v'[x].word[|v'[x].word| - |f|..]
    requires if IsWild(f[0]) then |f| == 1 else LiteralBytes(f)
    ensures Segmented(Branch(f, TrieOf(v', x, limit)))
    decreases limit - |v'[x].word|
  {
    hide TrieOf, Spells, Bytewise, Dictionary, Covered, Kept, SegmentsTold;
    var b := Branch(f, TrieOf(v', x, limit));
    TrieAt(v', x, limit);
    forall i | 0 <= i < |b.node.edges| ensures SegmentedEdge(b, i) {
      var e := v'[x].edges[i];
      assert b.node.edges[i] == Branch(e.fragment, TrieOf(v', e.node, limit));
      assert v'[e.node].word[|v'[x].word|..] == e.fragment;
      assert !IsWild(e.fragment[0]) ==> LiteralBytes(e.fragment);
      assert e.Head() == e.fragment[0];
      SegmentedBelow(v, v', e.node, e.fragment, limit);
    }
    if b.Wild() && b.node.edges != [] {
      assert v'[x].word[|v'[x].word| - 1] == f[0];
      BehindWildcard(v, v', x);
    }
  }

  // ---------------------------------------------------------------- and only then

  /** Every node of segmented tries is segmented. */
  lemma {:induction false} SegmentedAt(v: View, n: BuildNode, f: seq<byte>, limit: nat, y: BuildNode)
    returns (h: seq<byte>)
    requires Spells(v) && Limited(v, limit) && n in v && y in v && v[n].word <= v[y].word
    requires 0 < |f| <= |v[n].word| && f == v[n].word[|v[n].word| - |f|..]
    requires Segmented(Branch(f, TrieOf(v, n, limit)))
    ensures 0 < |h| <= |v[y].word| && h == v[y].word[|v[y].word| - |h|..]
    ensures Segmented(Branch(h, TrieOf(v, y, limit)))
    decreases limit - |v[n].word|
  {
    hide TrieOf, Spells;
    if n == y {
      h := f;
    } else {
      TrieAt(v, n, limit);
      var i := EdgeToward(v, n, y);
      var b, e := Branch(f, TrieOf(v, n, limit)), v[n].edges[i];
      assert SegmentedEdge(b, i) && b.node.edges[i] == Branch(e.fragment, TrieOf(v, e.node, limit));
      assert v[e.node].word[|v[n].word|..] == e.fragment;
      h := SegmentedAt(v, e.node, e.fragment, limit, y);
    }
  }

  lemma EdgeToward(v: View, n: BuildNode, y: BuildNode) returns (i: nat)
    requires Spells(v) && n in v && y in v && v[n].word <= v[y].word && n != y
    ensures i < |v[n].edges| && v[n].edges[i].node in v && v[v[n].edges[i].node].word <= v[y].word
  {
    BelowSomeEdge(v, n, y);
    i :| 0 <= i < |v[n].edges| && v[n].edges[i].node in v && v[v[n].edges[i].node].word <= v[y].word;
  }

  /** What a segmented wildcard node shows about the routes that go on from it. */
  lemma SharedBehind(v: View, y: BuildNode, h: seq<byte>, limit: nat)
    requires Spells(v) && Limited(v, limit) && y in v && EndsWild(v[y].word) && GoesOn(Dictionary(v), v[y].word)
    requires 0 < |h| <= |v[y].word| && h == v[y].word[|v[y].word| - |h|..]
    requires Segmented(Branch(h, TrieOf(v, y, limit)))
    ensures v[y].word[|v[y].word| - 1] == STAR && SharesSlash(Dictionary(v), v[y].word)
  {
    hide TrieOf, Spells, Dictionary, FirstIndex;
    var b, w := Branch(h, TrieOf(v, y, limit)), v[y].word;
    TrieAt(v, y, limit);
    assert h[|h| - 1] == w[|w| - 1];
    forall p | p in Dictionary(v) && w < p ensures v[y].edges != [] && w + v[y].edges[0].fragment <= p {
      OverEdge(v, y, p);
    }
    var p :| p in Dictionary(v) && w < p;
    var f := v[y].edges[0].fragment;
    assert b.node.edges[0].fragment == f && SegmentedEdge(b, 0);
    assert b.Wild() && Segmented(b.node.edges[0]) && SLASH in f;
    assert LiteralBytes(f);
    var m := FirstIndex(f, SLASH);
    assert f[..|f|] == f;
    assert f[..m + 1][m] == SLASH;
    forall p | p in Dictionary(v) && w < p ensures w + f[..m + 1] <= p {
      assert w + f[..m + 1] <= w + f;
    }
    assert Shares(Dictionary(v), w, f[..m + 1]);
  }

  lemma OverEdge(v: View, y: BuildNode, p: seq<byte>)
    requires Spells(v) && y in v && p in Dictionary(v) && v[y].word < p && |v[y].edges| <= 1
    ensures v[y].edges != [] && v[y].word + v[y].edges[0].fragment <= p
  {
    hide Dictionary;
    var m: BuildNode := DictionaryNode(v, p);
    var i := EdgeToward(v, y, m);
    EdgeGoesOn(v, y, i);
  }

  /** Exactly when wildcards stand for segments in the compressed tries. */
  lemma SegmentedIff(roots: seq<Option<BuildEdge>>, v: View, v': View, limit: nat)
    requires RootsOk(roots, v) && RootsOk(roots, v') && Spells(v) && Bytewise(v) && Covered(v) && Compressed(v, v')
    requires Limited(v', limit)
    ensures RootsSegmented(TriesOf(roots, v', limit)) <==> SegmentsTold(Dictionary(v))
  {
    hide *;
    LeftSpells(v, v');
    if SegmentsTold(Dictionary(v)) {
      ToldSegmented(roots, v, v', limit);
    }
    if RootsSegmented(TriesOf(roots, v', limit)) {
      SegmentedTold(roots, v, v', limit);
    }
  }

  lemma ToldSegmented(roots: seq<Option<BuildEdge>>, v: View, v': View, limit: nat)
    requires RootsOk(roots, v) && RootsOk(roots, v') && Spells(v) && Bytewise(v) && Covered(v) && Compressed(v, v')
    requires Limited(v', limit) && SegmentsTold(Dictionary(v))
    ensures RootsSegmented(TriesOf(roots, v', limit))
  {
    hide Spells, Bytewise, Dictionary, Covered, SegmentsTold, TrieOf, Segmented, MergesWildcard, MergedAt, Isolated;
    hide Kept;
    forall x | x in v ensures !MergesWildcard(v, x) {
      NothingMerged(Dictionary(v), v[x].word);
      MergedIff(v, x);
    }
    IsolatedIff(roots, v, v');
    var ts := TriesOf(roots, v', limit);
    forall i: byte | i in ts ensures Segmented(Branch([i], ts[i])) {
      assert RootOk(roots, v', i);
      SegmentedBelow(v, v', roots[i].value.node, [i], limit);
    }
  }

  lemma SegmentedTold(roots: seq<Option<BuildEdge>>, v: View, v': View, limit: nat)
    requires RootsOk(roots, v) && RootsOk(roots, v') && Spells(v) && Bytewise(v) && Covered(v) && Compressed(v, v')
    requires Limited(v', limit) && RootsSegmented(TriesOf(roots, v', limit))
    ensures SegmentsTold(Dictionary(v))
  {
    hide Spells, Bytewise, Dictionary, Covered, SharesSlash, GoesOn, Compressed, TriesOf, RootsOk, Limited;
    hide RootsSegmented;
    forall w | EndsWild(w) && GoesOn(Dictionary(v), w)
      ensures w[|w| - 1] == STAR && SharesSlash(Dictionary(v), w)
    {
      SharedAt(roots, v, v', limit, w);
    }
  }

  lemma SharedAt(roots: seq<Option<BuildEdge>>, v: View, v': View, limit: nat, w: seq<byte>)
    requires RootsOk(roots, v) && RootsOk(roots, v') && Spells(v) && Bytewise(v) && Compressed(v, v')
    requires Limited(v', limit) && RootsSegmented(TriesOf(roots, v', limit))
    requires EndsWild(w) && GoesOn(Dictionary(v), w)
    ensures w[|w| - 1] == STAR && SharesSlash(Dictionary(v), w)
  {
    hide Spells, Bytewise, Dictionary, TrieOf, TriesOf, Segmented, SharesSlash, GoesOn, EndsWild, RootsOk, Limited;
    var y := WildcardKept(roots, v, v', w);
    LeftSpells(v, v');
    hide Compressed;
    WildNotEmpty(w);
    var root := RootAt(roots, v', limit, y);
    var h := SegmentedAt(v', root, [w[0]], limit, y);
    SharedBehind(v', y, h, limit);
    SameRoutes(v, v');
  }

  lemma SameRoutes(v: View, v': View)
    requires Compressed(v, v')
    ensures Dictionary(v') == Dictionary(v)
  {
  }

  lemma RootAt(roots: seq<Option<BuildEdge>>, v: View, limit: nat, y: BuildNode) returns (root: BuildNode)
    requires RootsOk(roots, v) && Spells(v) && Limited(v, limit) && y in v && v[y].word != []
    ensures root in v && v[root].word == [v[y].word[0]] && v[root].word <= v[y].word
    ensures v[y].word[0] in TriesOf(roots, v, limit)
    ensures TriesOf(roots, v, limit)[v[y].word[0]] == TrieOf(v, root, limit)
  {
    hide TrieOf, Spells;
    assert RootOk(roots, v, v[y].word[0]);
    root := roots[v[y].word[0]].value.node;
  }

  lemma WildNotEmpty(w: seq<byte>)
    requires EndsWild(w)
    ensures w != []
  {
  }

  lemma WildcardKept(roots: seq<Option<BuildEdge>>, v: View, v': View, w: seq<byte>) returns (y: BuildNode)
    requires RootsOk(roots, v) && Spells(v) && Bytewise(v) && Compressed(v, v')
    requires EndsWild(w) && GoesOn(Dictionary(v), w)
    ensures y in v' && v'[y].word == w
  {
    hide CellOk, Toward, Dictionary, Bytewise, RootsOk;
    var p :| p in Dictionary(v) && w < p;
    var m: BuildNode := DictionaryNode(v, p);
    y := PrefixNode(roots, v, m, |w|);
    assert Kept(v, y) && Settled(v, v', y);
  }
}
