/**
 The routes that compression loses.  A node that ends no route, does not end with a wildcard,
 and is only gone on from by one wildcard that several routes go on from, is merged with that
 wildcard.  No request takes the merged edge, so no route behind it ever answers; and every
 edge can be taken by some request exactly when there is no such node.
 */
module MergedRoutes {
  import opened Common
  import opened RouteTrie
  import opened RouteRefinement
  import opened RouteMeaning
  import opened BuildTree
  import opened Compress
  import opened CompressedTrie

  type Routes = map<seq<byte>, Payload>

  /** Some route goes on from `w` with byte `b`. */
  ghost predicate Continues(routes: Routes, w: seq<byte>, b: byte) {
    exists p :: p in routes && w + [b] <= p
  }

  /** Several routes that go on differently from `w`. */
  ghost predicate Branches(routes: Routes, w: seq<byte>) {
    exists b, b' :: b != b' && Continues(routes, w, b) && Continues(routes, w, b')
  }

  /** Pattern prefix `w` is merged with wildcard `c` behind it: told on the routes alone. */
  ghost predicate MergedWith(routes: Routes, w: seq<byte>, c: byte) {
    && |w| > 1 && !IsWild(w[|w| - 1]) && w !in routes
    && IsWild(c) && Continues(routes, w, c) && (forall b :: Continues(routes, w, b) ==> b == c)
    && Branches(routes, w + [c])
  }

  ghost predicate MergedAt(routes: Routes, w: seq<byte>) {
    exists c :: MergedWith(routes, w, c)
  }

  /** Route `w` passes a merged node. */
  ghost predicate Passes(routes: Routes, w: seq<byte>) {
    exists k :: 0 <= k < |w| && MergedAt(routes, w[..k])
  }

  /** Every word of the trie is on the way to a route. */
  ghost predicate Covered(v: View) {
    forall n :: n in v ==> OnTheWay(Dictionary(v), v[n].word)
  }

  ghost predicate OnTheWay(routes: Routes, w: seq<byte>) {
    exists p :: p in routes && w <= p
  }

  // ---------------------------------------------------------------- the nodes, told by the routes

  lemma EdgeContinues(v: View, x: BuildNode, j: nat)
    requires Spells(v) && Bytewise(v) && Covered(v) && x in v && j < |v[x].edges|
    ensures Continues(Dictionary(v), v[x].word, v[x].edges[j].Head())
    ensures v[x].edges[j].node in v && v[v[x].edges[j].node].word == v[x].word + [v[x].edges[j].Head()]
  {
    hide Dictionary;
    assert CellOk(v, x) && EdgeSpells(v, x, j);
    var e := v[x].edges[j];
    assert e.fragment == [e.Head()];
    assert OnTheWay(Dictionary(v), v[e.node].word);
  }

  lemma ContinuesByEdge(v: View, x: BuildNode, b: byte) returns (j: nat)
    requires Spells(v) && x in v && Continues(Dictionary(v), v[x].word, b)
    ensures j < |v[x].edges| && v[x].edges[j].Head() == b
  {
    hide Dictionary;
    var p :| p in Dictionary(v) && v[x].word + [b] <= p;
    var m: BuildNode := DictionaryNode(v, p);
    assert v[x].word < v[m].word && Toward(v, x, m) && CellOk(v, x);
    j :| Leads(v, x, m, j);
    LeadingByte(v, x, m, j);
    assert v[m].word[|v[x].word|] == b;
  }

  /** A node has one edge for each byte that its word is gone on with. */
  lemma OnlyContinuation(v: View, x: BuildNode, c: byte)
    requires Spells(v) && Bytewise(v) && Covered(v) && x in v
    ensures (|v[x].edges| == 1 && v[x].edges[0].Head() == c) <==>
              Continues(Dictionary(v), v[x].word, c) && forall b :: Continues(Dictionary(v), v[x].word, b) ==> b == c
  {
    hide Spells, Dictionary, Continues, Bytewise, Covered;
    HeadsDiffer(v, x);
    forall j | 0 <= j < |v[x].edges| ensures Continues(Dictionary(v), v[x].word, v[x].edges[j].Head()) {
      EdgeContinues(v, x, j);
    }
    forall b | Continues(Dictionary(v), v[x].word, b)
      ensures exists j :: 0 <= j < |v[x].edges| && v[x].edges[j].Head() == b
    {
      var j := ContinuesByEdge(v, x, b);
    }
    assert |v[x].edges| > 1 ==> v[x].edges[0].Head() != v[x].edges[1].Head();
  }

  lemma BranchesIff(v: View, x: BuildNode)
    requires Spells(v) && Bytewise(v) && Covered(v) && x in v
    ensures |v[x].edges| > 1 <==> Branches(Dictionary(v), v[x].word)
  {
    hide Spells, Dictionary, Continues, Bytewise, Covered;
    HeadsDiffer(v, x);
    if |v[x].edges| > 1 {
      EdgeContinues(v, x, 0);
      EdgeContinues(v, x, 1);
    }
    if Branches(Dictionary(v), v[x].word) {
      var b, b' :| b != b' && Continues(Dictionary(v), v[x].word, b) && Continues(Dictionary(v), v[x].word, b');
      var j := ContinuesByEdge(v, x, b);
      var j' := ContinuesByEdge(v, x, b');
    }
  }

  /** The nodes that get merged are those the routes tell. */
  lemma MergedIff(v: View, x: BuildNode)
    requires Spells(v) && Bytewise(v) && Covered(v) && x in v
    ensures MergesWildcard(v, x) <==> MergedAt(Dictionary(v), v[x].word)
  {
    hide Spells, Dictionary, Continues, Bytewise, Covered, Branches;
    var routes, w := Dictionary(v), v[x].word;
    EndsRouteIff(v, x);
    assert w != [] by {
      WordsStart(v);
    }
    if |v[x].edges| == 1 {
      var c := v[x].edges[0].Head();
      EdgeContinues(v, x, 0);
      OnlyContinuation(v, x, c);
      BranchesIff(v, v[x].edges[0].node);
      assert MergesWildcard(v, x) <==> MergedWith(routes, w, c);
    }
    forall c | MergedWith(routes, w, c) ensures |v[x].edges| == 1 && v[x].edges[0].Head() == c {
      OnlyContinuation(v, x, c);
    }
  }

  lemma EndsRouteIff(v: View, x: BuildNode)
    requires Spells(v) && x in v
    ensures v[x].payload.methods != 0 <==> v[x].word in Dictionary(v)
  {
  }

  /** A prefix the routes tell to be merged is a node. */
  lemma MergedNode(roots: seq<Option<BuildEdge>>, v: View, w: seq<byte>) returns (x: BuildNode)
    requires RootsOk(roots, v) && Spells(v) && Bytewise(v) && MergedAt(Dictionary(v), w)
    ensures x in v && v[x].word == w
  {
    hide CellOk, Toward, Dictionary, Bytewise, RootsOk, Branches;
    var c :| MergedWith(Dictionary(v), w, c);
    var p :| p in Dictionary(v) && w + [c] <= p;
    var m: BuildNode := DictionaryNode(v, p);
    x := PrefixNode(roots, v, m, |w|);
  }

  // ---------------------------------------------------------------- lost routes

  lemma LeftSpells(v: View, v': View)
    requires Compressed(v, v')
    ensures Spells(v')
  {
  }

  /** No route that requests can reach from `n` lies behind a merged node. */
  lemma {:induction false} ReachesAvoids(v: View, v': View, n: BuildNode, limit: nat, w: seq<byte>, p: Payload,
                                         x: BuildNode)
    requires Spells(v) && Bytewise(v) && Compressed(v, v') && Limited(v', limit) && n in v'
    requires Reaches(TrieOf(v', n, limit), w, p)
    requires x in v && MergesWildcard(v, x)
    ensures !(v'[n].word <= v[x].word < v'[n].word + w)
    decreases limit - |v'[n].word|
  {
    hide TrieOf, Spells, Bytewise, Dictionary, Kept;
    var t := TrieOf(v', n, limit);
    TrieAt(v', n, limit);
    assert x !in v' by {
      assert Settled(v, v', x);
    }
    if v'[n].word <= v[x].word < v'[n].word + w {
      DroppedWord(v, v', x, n);
      var i :| 0 <= i < |t.edges| && ReachesThrough(t, i, w, p);
      var f, y := v'[n].edges[i].fragment, v'[n].edges[i].node;
      DroppedWord(v, v', x, y);
      InsideFragment(v, v', n, i, x);
      SplitsAt(v'[n].word, f, w, v[x].word);
      ReachesAvoids(v, v', y, limit, w[|f|..], p, x);
    }
  }

  lemma DroppedWord(v: View, v': View, x: BuildNode, n: BuildNode)
    requires Spells(v) && Compressed(v, v') && x in v && x !in v' && n in v'
    ensures v'[n].word != v[x].word
  {
    hide CellOk, Toward, Dictionary;
  }

  /** A merged node strictly inside a fragment leaves a wildcard in it. */
  lemma InsideFragment(v: View, v': View, n: BuildNode, i: nat, x: BuildNode)
    requires Spells(v) && Bytewise(v) && Compressed(v, v') && n in v' && i < |v'[n].edges|
    requires v'[n].edges[i].node in v'
    requires x in v && MergesWildcard(v, x)
    ensures v'[n].word < v[x].word < v'[n].word + v'[n].edges[i].fragment ==> !Live(v'[n].edges[i].fragment)
  {
    hide Spells, Bytewise, Dictionary, Toward, Kept;
    var f, y := v'[n].edges[i].fragment, v'[n].edges[i].node;
    EdgeGoesOn(v', n, i);
    if v'[n].word < v[x].word < v'[n].word + f {
      assert v[x].word < v[y].word;
      OnlyEdgeByte(v, x, y);
      var k := |v[x].word| - |v'[n].word|;
      assert f[k] == v[y].word[|v[x].word|];
    }
  }

  /** A word between two others lies inside the first piece or behind it. */
  lemma SplitsAt(a: seq<byte>, f: seq<byte>, w: seq<byte>, x: seq<byte>)
    requires f <= w && a < x < a + w
    ensures x < a + f || (a + f <= x && x < a + f + w[|f|..])
  {
    assert a + w == a + f + w[|f|..];
    assert x == (a + w)[..|x|];
    if |x| >= |a + f| {
      assert (a + w)[..|x|][..|a + f|] == a + f;
    } else {
      assert (a + f)[..|x|] == (a + w)[..|x|];
    }
  }

  /** What the search answers with never passes a merged node. */
  lemma ReachedAvoidsMerged(roots: seq<Option<BuildEdge>>, v: View, v': View, limit: nat, w: seq<byte>, p: Payload)
    requires RootsOk(roots, v) && RootsOk(roots, v') && Spells(v) && Bytewise(v) && Compressed(v, v') && Covered(v)
    requires Limited(v', limit) && RootReaches(TriesOf(roots, v', limit), w, p)
    ensures !Passes(Dictionary(v), w)
  {
    hide Spells, Bytewise, Dictionary, MergedAt, Reaches, Covered;
    assert RootOk(roots, v', w[0]);
    var root := roots[w[0]].value.node;
    assert v'[root].word == [w[0]];
    forall k | 0 <= k < |w| ensures !MergedAt(Dictionary(v), w[..k]) {
      if MergedAt(Dictionary(v), w[..k]) {
        var x := MergedNode(roots, v, w[..k]);
        MergedIff(v, x);
        MergedLength(Dictionary(v), w[..k]);
        assert [w[0]] + w[1..] == w && [w[0]] <= w[..k];
        ReachesAvoids(v, v', root, limit, w[1..], p, x);
      }
    }
  }

  lemma MergedLength(routes: Routes, w: seq<byte>)
    requires MergedAt(routes, w)
    ensures |w| > 1
  {
  }

  /** A route below `n` that passes no merged node from there on is reached. */
  lemma {:induction false} UnmergedReached(roots: seq<Option<BuildEdge>>, v: View, v': View, n: BuildNode, limit: nat,
                                           w: seq<byte>, p: Payload)
    requires RootsOk(roots, v) && Spells(v) && Bytewise(v) && Compressed(v, v') && Limited(v', limit) && n in v'
    requires Contains(TrieOf(v', n, limit), w, p)
    requires forall x :: x in v && v'[n].word <= v[x].word < v'[n].word + w ==> !MergesWildcard(v, x)
    ensures Reaches(TrieOf(v', n, limit), w, p)
    decreases limit - |v'[n].word|
  {
    hide TrieOf, Spells, Bytewise, Dictionary, Kept, RootsOk;
    var t := TrieOf(v', n, limit);
    TrieAt(v', n, limit);
    if !(w == [] && p == t.payload && p.methods != 0) {
      var i :| 0 <= i < |t.edges| && Through(t, i, w, p);
      var f, y := v'[n].edges[i].fragment, v'[n].edges[i].node;
      assert v'[n].word + w == v'[y].word + w[|f|..];
      UnmergedFragment(roots, v, v', n, i, w);
      UnmergedReached(roots, v, v', y, limit, w[|f|..], p);
      assert ReachesThrough(t, i, w, p);
    }
  }

  lemma UnmergedFragment(roots: seq<Option<BuildEdge>>, v: View, v': View, n: BuildNode, i: nat, w: seq<byte>)
    requires RootsOk(roots, v) && Spells(v) && Bytewise(v) && Compressed(v, v') && n in v' && i < |v'[n].edges|
    requires v'[n].edges[i].fragment <= w
    requires forall x :: x in v && v'[n].word <= v[x].word < v'[n].word + w ==> !MergesWildcard(v, x)
    ensures Live(v'[n].edges[i].fragment)
  {
    hide Spells, Bytewise, Dictionary, Kept, RootsOk, Compressed, MergesWildcard;
    var f := v'[n].edges[i].fragment;
    if !Live(f) {
      var k :| 0 <= k < |f| && IsWild(f[k]);
      assert f[..k] == w[..k];
      var x := FragmentNotIsolated(roots, v, v', n, i, k);
    }
  }

  /** Exactly the routes that pass no merged node lie along edges that requests can take. */
  lemma ReachedIff(roots: seq<Option<BuildEdge>>, v: View, v': View, limit: nat, w: seq<byte>, p: Payload)
    requires RootsOk(roots, v) && RootsOk(roots, v') && Spells(v) && Bytewise(v) && Compressed(v, v') && Covered(v)
    requires Limited(v', limit)
    ensures RootReaches(TriesOf(roots, v', limit), w, p) <==>
              w in Dictionary(v) && Dictionary(v)[w] == p && !Passes(Dictionary(v), w)
  {
    hide Spells, Bytewise, Dictionary, MergedAt, Reaches, Contains, Covered, MergesWildcard;
    var ts := TriesOf(roots, v', limit);
    TriesHoldDictionary(roots, v', limit, w, p);
    if RootReaches(ts, w, p) {
      ReachedIsContained(ts[w[0]], w[1..], p);
      ReachedAvoidsMerged(roots, v, v', limit, w, p);
    }
    if RootContains(ts, w, p) && !Passes(Dictionary(v), w) {
      assert RootOk(roots, v', w[0]);
      var root := roots[w[0]].value.node;
      assert [w[0]] + w[1..] == w;
      forall x | x in v && v'[root].word <= v[x].word < v'[root].word + w[1..] ensures !MergesWildcard(v, x) {
        MergedIff(v, x);
        assert v[x].word == w[..|v[x].word|];
      }
      UnmergedReached(roots, v, v', root, limit, w[1..], p);
    }
  }

  /** Every answer of the compiled tries is a matching route that passes no merged node. */
  lemma AnswersAvoidMerged(roots: seq<Option<BuildEdge>>, v: View, v': View, limit: nat, u: seq<byte>, p: Payload)
    returns (w: seq<byte>)
    requires RootsOk(roots, v) && RootsOk(roots, v') && Spells(v) && Bytewise(v) && Compressed(v, v') && Covered(v)
    requires Limited(v', limit) && RootsPlaced(TriesOf(roots, v', limit))
    requires Request(u) && FindRoot(TriesOf(roots, v', limit), u) == Some(p)
    ensures RootContains(TriesOf(roots, v', limit), w, p) && Matches(w, u) && !Passes(Dictionary(v), w)
  {
    hide Spells, Bytewise, Dictionary, RootsOk, RootsPlaced, FindRoot, RootReaches, RootContains, Matches, Covered;
    hide Passes;
    w := SearchSound(TriesOf(roots, v', limit), u, p);
    ReachedAvoidsMerged(roots, v, v', limit, w, p);
  }

  // ---------------------------------------------------------------- edges that can be taken

  /** Some request, at some cursor, takes a child with fragment `f` below an edge with head `head`. */
  ghost predicate Takeable(head: byte, f: seq<byte>) {
    (|f| == 1 && IsWild(f[0])) || exists u, c: nat :: Request(u) && c <= |u| && Locate(head, f, u, c).Some?
  }

  lemma TakeableIff(head: byte, f: seq<byte>)
    requires f != []
    ensures Takeable(head, f) <==> (|f| == 1 && IsWild(f[0])) || Request(f)
  {
    hide IndexOf;
    if u, c: nat :| Request(u) && c <= |u| && Locate(head, f, u, c).Some? {
      var at := Locate(head, f, u, c).value;
      forall i | 0 <= i < |f| ensures f[i] >= FIRST_LITERAL {
        assert f[i] == u[at - |f|..at][i] == u[at - |f| + i];
      }
    }
    if Request(f) {
      assert OccursAt(f, f, 0) by {
        assert f[0..|f|] == f;
      }
      assert IndexOf(f, f, 0) == Some(0);
      assert f[0..0 + |f|] == f;
      assert Locate(head, f, f, 0).Some?;
    }
  }

  /** Every edge below `b` can be taken. */
  ghost predicate AllTakeable(b: Branch)
    decreases b
  {
    forall i :: 0 <= i < |b.node.edges| ==> EdgeTakeable(b, i)
  }

  ghost predicate EdgeTakeable(b: Branch, i: nat)
    requires i < |b.node.edges|
    decreases b, 0
  {
    Takeable(b.Head(), b.node.edges[i].fragment) && AllTakeable(b.node.edges[i])
  }

  ghost predicate RootsTakeable(roots: map<byte, Trie>) {
    forall i: byte :: i in roots ==> AllTakeable(Branch([i], roots[i]))
  }

  /** Words are text and wildcards. */
  ghost predicate Textual(v: View) {
    forall n :: n in v ==> 0 !in v[n].word
  }

  /** The fragments of the edges of `m` are lone wildcards or literals. */
  ghost predicate LiveEdges(v: View, m: BuildNode)
    requires m in v
  {
    forall j :: 0 <= j < |v[m].edges| ==> Live(v[m].edges[j].fragment)
  }

  /** All edges from `n` on down are live. */
  ghost predicate LiveBelow(v: View, n: BuildNode)
    requires n in v
  {
    forall m :: m in v && v[n].word <= v[m].word ==> LiveEdges(v, m)
  }

  lemma {:induction false} TakeableBelow(v: View, n: BuildNode, f: seq<byte>, limit: nat)
    requires Spells(v) && Limited(v, limit) && n in v && Textual(v)
    ensures AllTakeable(Branch(f, TrieOf(v, n, limit))) <==> LiveBelow(v, n)
    decreases limit - |v[n].word|
  {
    hide TrieOf, Spells, Takeable, LiveEdges, LiveBelow;
    var b := Branch(f, TrieOf(v, n, limit));
    TrieAt(v, n, limit);
    forall i | 0 <= i < |b.node.edges|
      ensures EdgeTakeable(b, i) <==> Live(v[n].edges[i].fragment) && LiveBelow(v, v[n].edges[i].node)
    {
      var e := v[n].edges[i];
      LiveIsTakeable(v, n, i, b.Head());
      TakeableBelow(v, e.node, e.fragment, limit);
    }
    LiveBelowStep(v, n);
  }

  lemma LiveBelowStep(v: View, n: BuildNode)
    requires Spells(v) && n in v
    ensures forall i :: 0 <= i < |v[n].edges| ==> v[n].edges[i].node in v
    ensures LiveBelow(v, n) <==>
            forall i :: 0 <= i < |v[n].edges| ==> Live(v[n].edges[i].fragment) && LiveBelow(v, v[n].edges[i].node)
  {
    hide Spells, LiveEdges, Live;
    LiveEdgesIs(v, n);
    forall i | 0 <= i < |v[n].edges| ensures v[n].edges[i].node in v && v[n].word < v[v[n].edges[i].node].word {
      EdgeGoesOn(v, n, i);
    }
    forall m | m in v && v[n].word <= v[m].word && m != n
      ensures exists i :: 0 <= i < |v[n].edges| && v[v[n].edges[i].node].word <= v[m].word
    {
      BelowSomeEdge(v, n, m);
    }
  }

  lemma {:induction false} TrieHeaded(v: View, n: BuildNode, limit: nat)
    requires Spells(v) && Limited(v, limit) && n in v && Textual(v)
    ensures Headed(TrieOf(v, n, limit))
    decreases limit - |v[n].word|
  {
    hide TrieOf, Spells;
    var t := TrieOf(v, n, limit);
    TrieAt(v, n, limit);
    forall i | 0 <= i < |t.edges| ensures HeadedEdge(t, i) {
      var e := v[n].edges[i];
      assert v[e.node].word[|v[n].word|] == e.fragment[0];
      TrieHeaded(v, e.node, limit);
    }
  }

  /** Without zero bytes in the words no fragment starts with one. */
  lemma TriesHeaded(roots: seq<Option<BuildEdge>>, v: View, limit: nat)
    requires RootsOk(roots, v) && Spells(v) && Limited(v, limit) && Textual(v)
    ensures RootsHeaded(TriesOf(roots, v, limit))
  {
    hide Spells, TrieOf;
    var ts := TriesOf(roots, v, limit);
    forall i: byte | i in ts ensures i != 0 && Headed(ts[i]) {
      assert RootOk(roots, v, i);
      assert v[roots[i].value.node].word[0] == i;
      TrieHeaded(v, roots[i].value.node, limit);
    }
  }

  lemma LiveEdgesIs(v: View, m: BuildNode)
    requires m in v
    ensures LiveEdges(v, m) <==> forall j :: 0 <= j < |v[m].edges| ==> Live(v[m].edges[j].fragment)
  {
  }

  lemma BelowSomeEdge(v: View, n: BuildNode, m: BuildNode)
    requires Spells(v) && n in v && m in v && v[n].word <= v[m].word && m != n
    ensures exists i :: 0 <= i < |v[n].edges| && v[n].edges[i].node in v && v[v[n].edges[i].node].word <= v[m].word
  {
    assert v[n].word != v[m].word && Toward(v, n, m);
    var i: nat :| Leads(v, n, m, i);
  }

  lemma LiveIsTakeable(v: View, n: BuildNode, i: nat, head: byte)
    requires Spells(v) && n in v && i < |v[n].edges| && Textual(v)
    ensures Takeable(head, v[n].edges[i].fragment) <==> Live(v[n].edges[i].fragment)
  {
    hide Takeable, Spells;
    var f := v[n].edges[i].fragment;
    EdgeGoesOn(v, n, i);
    var w := v[v[n].edges[i].node].word;
    assert w == v[n].word + f;
    forall k | 0 <= k < |f| ensures f[k] != 0 {
      assert f[k] == w[|v[n].word| + k];
    }
    assert f != [];
    TakeableIff(head, f);
  }

  /** Every edge of the compiled tries can be taken by some request exactly when wildcards are
      isolated, that is, when no node merges one. */
  lemma TakeableIffIsolated(roots: seq<Option<BuildEdge>>, v: View, v': View, limit: nat)
    requires RootsOk(roots, v) && RootsOk(roots, v') && Spells(v) && Bytewise(v) && Compressed(v, v')
    requires Limited(v', limit) && Textual(v')
    ensures RootsTakeable(TriesOf(roots, v', limit)) <==> Isolated(v')
    ensures RootsTakeable(TriesOf(roots, v', limit)) <==> forall x :: x in v ==> !MergesWildcard(v, x)
  {
    hide Spells, Bytewise, Dictionary, AllTakeable, MergesWildcard, Textual;
    IsolatedIff(roots, v, v');
    var ts := TriesOf(roots, v', limit);
    forall i: byte | i in ts
      ensures AllTakeable(Branch([i], ts[i])) <==> forall m :: m in v' && [i] <= v'[m].word ==> LiveEdges(v', m)
    {
      assert RootOk(roots, v', i);
      TakeableBelow(v', roots[i].value.node, [i], limit);
    }
    WordsStart(v');
    forall m | m in v' ensures v'[m].word[0] in ts && [v'[m].word[0]] <= v'[m].word {
      assert RootOk(roots, v', v'[m].word[0]);
    }
    assert (forall m :: m in v' ==> LiveEdges(v', m)) <==> Isolated(v') by {
      LiveIffIsolated(v');
    }
  }

  lemma LiveIffIsolated(v: View)
    requires Spells(v)
    ensures (forall m :: m in v ==> LiveEdges(v, m)) <==> Isolated(v)
  {
    hide Spells;
    forall m | m in v ensures LiveEdges(v, m) <==> AloneEdges(v, m) {
      forall j | 0 <= j < |v[m].edges| ensures v[m].edges[j].fragment != [] {
        EdgeGoesOn(v, m, j);
      }
    }
  }

  ghost predicate AloneEdges(v: View, m: BuildNode)
    requires m in v
  {
    forall j, i :: 0 <= j < |v[m].edges| && 0 <= i < |v[m].edges[j].fragment| && IsWild(v[m].edges[j].fragment[i]) ==>
      |v[m].edges[j].fragment| == 1
  }
}
