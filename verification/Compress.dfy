/**
 Path compression of the byte trie, in place.  Which nodes survive is stated exactly, on the
 trie as it was; the routes it holds stay the same.
 */
module Compress {
  import opened Common
  import opened RouteTrie
  import opened BuildTree

  // ---------------------------------------------------------------- merging an edge into its parent

  /** Edge `j` of `n` swallows the only edge of the node it leads to. */
  ghost function Merged(v: View, n: BuildNode, j: nat): View
    requires n in v && j < |v[n].edges|
  {
    var e := v[n].edges[j];
    if e.node in v && |v[e.node].edges| == 1 then
      var next := v[e.node].edges[0];
      (v - {e.node})[n := v[n].(edges := v[n].edges[j := BuildEdge(e.fragment + next.fragment, next.node)])]
    else v
  }

  /** No two nodes have an edge to the same node. */
  lemma UniqueParent(v: View, m: BuildNode, i: nat, n: BuildNode, j: nat)
    requires Spells(v) && m in v && n in v && i < |v[m].edges| && j < |v[n].edges|
    requires v[m].edges[i].node == v[n].edges[j].node
    ensures m == n && i == j
  {
    assert CellOk(v, m) && CellOk(v, n) && EdgeSpells(v, m, i) && EdgeSpells(v, n, j);
    if |v[m].word| < |v[n].word| {
      ShorterParent(v, m, i, n, j);
    } else if |v[n].word| < |v[m].word| {
      ShorterParent(v, n, j, m, i);
    } else {
      var x := v[m].edges[i].node;
      assert v[m].word == v[x].word[..|v[m].word|] == v[n].word;
    }
  }

  lemma ShorterParent(v: View, m: BuildNode, i: nat, n: BuildNode, j: nat)
    requires Spells(v) && m in v && n in v && i < |v[m].edges| && j < |v[n].edges|
    requires v[m].edges[i].node == v[n].edges[j].node
    ensures !(|v[m].word| < |v[n].word|)
  {
    assert CellOk(v, m) && CellOk(v, n) && EdgeSpells(v, m, i) && EdgeSpells(v, n, j);
    var x := v[m].edges[i].node;
    if |v[m].word| < |v[n].word| {
      assert v[m].word == v[x].word[..|v[m].word|] && v[n].word == v[x].word[..|v[n].word|];
      assert v[m].word < v[n].word;
      assert Toward(v, m, n);
      var k: nat :| Leads(v, m, n, k);
      LeadingByte(v, m, n, k);
    }
  }

  lemma EdgeGoesOn(v: View, n: BuildNode, j: nat)
    requires Spells(v) && n in v && j < |v[n].edges|
    ensures var x := v[n].edges[j].node;
            x in v && v[n].word < v[x].word && x != n && v[x].word == v[n].word + v[n].edges[j].fragment
  {
    assert CellOk(v, n) && EdgeSpells(v, n, j);
  }

  lemma MergedCellOk(v: View, n: BuildNode, j: nat, m: BuildNode)
    requires Spells(v) && n in v && j < |v[n].edges| && v[n].edges[j].node in v
    requires |v[v[n].edges[j].node].edges| == 1
    requires m in v && m != v[n].edges[j].node
    ensures m in Merged(v, n, j) && CellOk(Merged(v, n, j), m)
  {
    var x := v[n].edges[j].node;
    var v' := Merged(v, n, j);
    EdgeGoesOn(v, n, j);
    assert CellOk(v, m);
    forall i | 0 <= i < |v'[m].edges| ensures EdgeSpells(v', m, i) {
      MergedEdgeSpells(v, n, j, m, i);
    }
    if m == n {
      assert CellOk(v, x) && EdgeSpells(v, x, 0) && EdgeSpells(v, n, j);
      assert v[n].edges[j].Head() == (v[n].edges[j].fragment + v[x].edges[0].fragment)[0];
    }
  }

  lemma MergedEdgeSpells(v: View, n: BuildNode, j: nat, m: BuildNode, i: nat)
    requires Spells(v) && n in v && j < |v[n].edges| && v[n].edges[j].node in v
    requires |v[v[n].edges[j].node].edges| == 1
    requires m in v && m != v[n].edges[j].node && i < |v[m].edges|
    ensures EdgeSpells(Merged(v, n, j), m, i)
  {
    hide Toward, Injective;
    var x := v[n].edges[j].node;
    EdgeGoesOn(v, m, i);
    if v[m].edges[i].node == x {
      UniqueParent(v, m, i, n, j);
      EdgeGoesOn(v, x, 0);
      assert v[n].word + (v[n].edges[j].fragment + v[x].edges[0].fragment) == v[x].word + v[x].edges[0].fragment;
    } else {
      assert CellOk(v, m) && EdgeSpells(v, m, i);
    }
  }

  lemma MergedLinks(v: View, n: BuildNode, j: nat, m: BuildNode, k: BuildNode)
    requires Spells(v) && n in v && j < |v[n].edges| && v[n].edges[j].node in v
    requires |v[v[n].edges[j].node].edges| == 1
    requires var v' := Merged(v, n, j); m in v' && k in v' && v'[m].word < v'[k].word
    ensures Toward(Merged(v, n, j), m, k)
  {
    var x := v[n].edges[j].node;
    var v' := Merged(v, n, j);
    assert CellOk(v, n) && EdgeSpells(v, n, j) && CellOk(v, x) && EdgeSpells(v, x, 0);
    assert n != x && k != x && m != x;
    assert Toward(v, m, k);
    var i: nat :| Leads(v, m, k, i);
    if v[m].edges[i].node == x {
      UniqueParent(v, m, i, n, j);
      assert v[x].word < v[k].word;
      assert Toward(v, x, k);
      var l: nat :| Leads(v, x, k, l);
      assert v[x].edges[0].node != x;
      assert Leads(v', m, k, i);
    } else {
      assert Leads(v', m, k, i);
    }
  }

  /** Merging past a node that ends no route keeps the trie and its routes. */
  lemma MergedSpells(v: View, n: BuildNode, j: nat)
    requires Spells(v) && n in v && j < |v[n].edges| && v[n].edges[j].node in v
    requires var x := v[v[n].edges[j].node]; |x.edges| == 1 && x.payload.methods == 0
    ensures var v' := Merged(v, n, j);
            Spells(v') && Dictionary(v') == Dictionary(v)
  {
    var v' := Merged(v, n, j);
    EdgeGoesOn(v, n, j);
    hide CellOk, Toward, Dictionary;
    forall m | m in v' ensures CellOk(v', m) {
      MergedCellOk(v, n, j, m);
    }
    forall m, k | m in v' && k in v' && v'[m].word < v'[k].word ensures Toward(v', m, k) {
      MergedLinks(v, n, j, m, k);
    }
    SameDictionary(v, v');
  }

  // ---------------------------------------------------------------- sorting a node's edges

  /** `sorted` lists the edges of `edges`, each at place `order` says, none twice. */
  ghost predicate Reordered(edges: seq<BuildEdge>, sorted: seq<BuildEdge>, order: seq<nat>) {
    && |sorted| == |edges| == |order|
    && (forall a :: 0 <= a < |order| ==> order[a] < |edges| && sorted[a] == edges[order[a]])
    && (forall a, b :: 0 <= a < b < |order| ==> order[a] != order[b])
    && (forall e :: e in edges ==> e in sorted)
  }

  ghost predicate ByRank(edges: seq<BuildEdge>) {
    forall a, b :: 0 <= a < b < |edges| ==> Rank(edges[a].Head()) <= Rank(edges[b].Head())
  }

  /** A stable sort that puts literals before `*` before `**`. */
  method SortEdges(edges: seq<BuildEdge>) returns (sorted: seq<BuildEdge>, ghost order: seq<nat>)
    ensures Reordered(edges, sorted, order) && ByRank(sorted)
  {
    sorted, order := [], [];
    var i := 0;
    while i < |edges|
      invariant 0 <= i <= |edges|
      invariant Reordered(edges[..i], sorted, order) && ByRank(sorted)
    {
      var k := |sorted|;
      while k > 0 && Rank(sorted[k - 1].Head()) > Rank(edges[i].Head())
        invariant 0 <= k <= |sorted|
        invariant forall a :: k <= a < |sorted| ==> Rank(sorted[a].Head()) > Rank(edges[i].Head())
      {
        k := k - 1;
      }
      Inserted(edges, i, sorted, order, k);
      sorted := sorted[..k] + [edges[i]] + sorted[k..];
      order := order[..k] + [i] + order[k..];
      i := i + 1;
    }
    assert edges[..i] == edges;
  }

  lemma Inserted(edges: seq<BuildEdge>, i: nat, sorted: seq<BuildEdge>, order: seq<nat>, k: nat)
    requires i < |edges| && Reordered(edges[..i], sorted, order) && ByRank(sorted) && k <= i
    requires k > 0 ==> Rank(sorted[k - 1].Head()) <= Rank(edges[i].Head())
    requires forall a :: k <= a < |sorted| ==> Rank(sorted[a].Head()) > Rank(edges[i].Head())
    ensures var s := sorted[..k] + [edges[i]] + sorted[k..];
            Reordered(edges[..i + 1], s, order[..k] + [i] + order[k..]) && ByRank(s)
  {
    InsertedByRank(sorted, edges[i], k);
    InsertedOrder(edges, i, sorted, order, k);
    forall e | e in edges[..i + 1] ensures e in sorted[..k] + [edges[i]] + sorted[k..] {
      assert edges[..i + 1] == edges[..i] + [edges[i]];
      assert sorted == sorted[..k] + sorted[k..];
      assert e != edges[i] ==> e in edges[..i] && e in sorted;
    }
  }

  lemma InsertedByRank(sorted: seq<BuildEdge>, e: BuildEdge, k: nat)
    requires ByRank(sorted) && k <= |sorted|
    requires k > 0 ==> Rank(sorted[k - 1].Head()) <= Rank(e.Head())
    requires forall a :: k <= a < |sorted| ==> Rank(sorted[a].Head()) > Rank(e.Head())
    ensures ByRank(sorted[..k] + [e] + sorted[k..])
  {
    var s := sorted[..k] + [e] + sorted[k..];
    forall a, b | 0 <= a < b < |s| ensures Rank(s[a].Head()) <= Rank(s[b].Head()) {
      assert s[a] == if a < k then sorted[a] else if a == k then e else sorted[a - 1];
      assert s[b] == if b < k then sorted[b] else if b == k then e else sorted[b - 1];
    }
  }

  lemma InsertedOrder(edges: seq<BuildEdge>, i: nat, sorted: seq<BuildEdge>, order: seq<nat>, k: nat)
    requires i < |edges| && Reordered(edges[..i], sorted, order) && k <= i
    ensures var s, o := sorted[..k] + [edges[i]] + sorted[k..], order[..k] + [i] + order[k..];
            && (forall a :: 0 <= a < |o| ==> o[a] <= i && s[a] == edges[o[a]])
            && (forall a, b :: 0 <= a < b < |o| ==> o[a] != o[b])
  {
    var s, o := sorted[..k] + [edges[i]] + sorted[k..], order[..k] + [i] + order[k..];
    forall a | 0 <= a < |o| ensures o[a] <= i && s[a] == edges[o[a]] {
      assert o[a] == if a < k then order[a] else if a == k then i else order[a - 1];
    }
    forall a, b | 0 <= a < b < |o| ensures o[a] != o[b] {
      assert o[a] == if a < k then order[a] else if a == k then i else order[a - 1];
      assert o[b] == if b < k then order[b] else if b == k then i else order[b - 1];
    }
  }

  /** Reordering one node's edges keeps the trie and its routes. */
  lemma ReorderedSpells(v: View, n: BuildNode, sorted: seq<BuildEdge>, order: seq<nat>)
    requires Spells(v) && n in v && Reordered(v[n].edges, sorted, order)
    ensures var v' := v[n := v[n].(edges := sorted)];
            Spells(v') && Dictionary(v') == Dictionary(v)
  {
    var v' := v[n := v[n].(edges := sorted)];
    hide CellOk, Toward, Dictionary, Reordered;
    forall m | m in v' ensures CellOk(v', m) {
      if m == n { ReorderedCellOk(v, n, sorted, order); } else { CellStays(v, v', m); }
    }
    forall m, k | m in v' && k in v' && v'[m].word < v'[k].word ensures Toward(v', m, k) {
      if m == n { ReorderedLinks(v, n, sorted, order, k); } else { LinkStays(v, v', m, k); }
    }
    SameDictionary(v, v');
  }

  lemma ReorderedCellOk(v: View, n: BuildNode, sorted: seq<BuildEdge>, order: seq<nat>)
    requires Spells(v) && n in v && Reordered(v[n].edges, sorted, order)
    ensures CellOk(v[n := v[n].(edges := sorted)], n)
  {
    var v' := v[n := v[n].(edges := sorted)];
    assert CellOk(v, n);
    forall j | 0 <= j < |sorted| ensures EdgeSpells(v', n, j) {
      assert EdgeSpells(v, n, order[j]);
    }
    forall i, j | 0 <= i < j < |sorted| ensures sorted[i].Head() != sorted[j].Head() {
      assert order[i] != order[j];
    }
  }

  lemma ReorderedLinks(v: View, n: BuildNode, sorted: seq<BuildEdge>, order: seq<nat>, k: BuildNode)
    requires Spells(v) && n in v && k in v && Reordered(v[n].edges, sorted, order) && Toward(v, n, k)
    ensures Toward(v[n := v[n].(edges := sorted)], n, k)
  {
    var j: nat :| Leads(v, n, k, j);
    assert v[n].edges[j] in v[n].edges;
    var a :| 0 <= a < |sorted| && sorted[a] == v[n].edges[j];
    assert Leads(v[n := v[n].(edges := sorted)], n, k, a);
  }

  // ---------------------------------------------------------------- what compression does

  /** The nodes that compression keeps, told on the trie as it was before. */
  ghost predicate Kept(v: View, m: BuildNode)
    requires m in v
  {
    var c := v[m];
    || |c.word| <= 1
    || IsWild(c.word[|c.word| - 1])
    || |c.edges| != 1
    || c.payload.methods != 0
    || (IsWild(c.edges[0].Head()) && c.edges[0].node in v && |v[c.edges[0].node].edges| <= 1)
  }

  /** Nodes only disappear, and keep their words and routes. */
  ghost predicate Shrunk(v: View, v': View) {
    v'.Keys <= v.Keys && forall m :: m in v' ==> v'[m].word == v[m].word && v'[m].payload == v[m].payload
  }

  ghost predicate Same(v: View, v': View, m: BuildNode)
    requires m in v
  {
    m in v' && v'[m] == v[m]
  }

  /** Node `m` is compressed: kept or not as it must, and with its edges in order. */
  ghost predicate Settled(v: View, v': View, m: BuildNode)
    requires m in v
  {
    (m in v' <==> Kept(v, m)) && (m in v' ==> ByRank(v'[m].edges))
  }

  /** Everything below the target of edge `j` of `n` is compressed, and nothing else changed
      but what that edge carries after its first byte. */
  ghost predicate EdgeDone(v: View, v': View, n: BuildNode, j: nat)
    requires n in v && j < |v[n].edges| && v[n].edges[j].node in v
  {
    var w := v[v[n].edges[j].node].word;
    && Shrunk(v, v')
    && (forall m :: m in v && m != n && !(w <= v[m].word) ==> Same(v, v', m))
    && (forall m :: m in v && w <= v[m].word ==> Settled(v, v', m))
    && n in v' && j < |v'[n].edges| && v'[n].edges == v[n].edges[j := v'[n].edges[j]]
    && v'[n].edges[j].Head() == v[n].edges[j].Head()
  }

  /** Everything below node `n` is compressed, its own edges are in order, and nothing
      else changed. */
  ghost predicate NodeDone(v: View, v': View, n: BuildNode)
    requires n in v
  {
    && Shrunk(v, v')
    && (forall m :: m in v && !(v[n].word <= v[m].word) ==> Same(v, v', m))
    && (forall m :: m in v && v[n].word < v[m].word ==> Settled(v, v', m))
    && n in v' && |v'[n].edges| == |v[n].edges| && ByRank(v'[n].edges)
  }

  ghost predicate BytewiseFrom(v: View, w: seq<byte>) {
    forall m, j :: m in v && w <= v[m].word && 0 <= j < |v[m].edges| ==> |v[m].edges[j].fragment| == 1
  }

  ghost predicate Limited(v: View, limit: nat) {
    forall m :: m in v ==> |v[m].word| <= limit
  }

  /** What lies below a node that has one edge lies below that edge. */
  lemma BelowOnlyEdge(v: View, x: BuildNode, m: BuildNode)
    requires Spells(v) && x in v && m in v && v[x].word <= v[m].word
    requires |v[x].edges| <= 1
    ensures m == x || (|v[x].edges| == 1 && v[v[x].edges[0].node].word <= v[m].word)
  {
    if m != x {
      assert v[x].word != v[m].word;
      assert Toward(v, x, m);
      var k: nat :| Leads(v, x, m, k);
    }
  }

  lemma EdgeToLeaf(v: View, n: BuildNode, j: nat)
    requires Spells(v) && n in v && j < |v[n].edges| && v[n].edges[j].node in v
    requires v[v[n].edges[j].node].edges == []
    ensures EdgeDone(v, v, n, j)
  {
    var x := v[n].edges[j].node;
    forall m | m in v && v[x].word <= v[m].word ensures Settled(v, v, m) {
      BelowOnlyEdge(v, x, m);
    }
  }

  lemma EdgeToOne(v: View, v': View, n: BuildNode, j: nat)
    requires Spells(v) && n in v && j < |v[n].edges| && v[n].edges[j].node in v
    requires var x := v[n].edges[j].node;
             |v[x].edges| == 1 && v[x].edges[0].node in v && EdgeDone(v, v', x, 0) && Kept(v, x)
    ensures EdgeDone(v, v', n, j)
  {
    var x := v[n].edges[j].node;
    EdgeGoesOn(v, n, j);
    EdgeGoesOn(v, x, 0);
    var y := v[x].edges[0].node;
    forall m | m in v && v[x].word <= v[m].word ensures Settled(v, v', m) {
      BelowOnlyEdge(v, x, m);
      assert m != x ==> v[y].word <= v[m].word;
    }
    assert Same(v, v', n);
  }

  lemma EdgeMerges(v: View, v1: View, n: BuildNode, j: nat)
    requires Spells(v) && n in v && j < |v[n].edges| && v[n].edges[j].node in v
    requires v[n].edges[j].fragment != []
    requires var x := v[n].edges[j].node;
             |v[x].edges| == 1 && v[x].edges[0].node in v && EdgeDone(v, v1, x, 0) && !Kept(v, x)
    ensures n in v1 && j < |v1[n].edges| && EdgeDone(v, Merged(v1, n, j), n, j)
  {
    var x := v[n].edges[j].node;
    EdgeGoesOn(v, n, j);
    EdgeGoesOn(v, x, 0);
    var y := v[x].edges[0].node;
    assert Same(v, v1, n);
    var v' := Merged(v1, n, j);
    forall m | m in v && v[x].word <= v[m].word ensures Settled(v, v', m) {
      BelowOnlyEdge(v, x, m);
      assert m != x ==> v[y].word <= v[m].word && Settled(v, v1, m);
    }
    forall m | m in v && m != n && !(v[x].word <= v[m].word) ensures Same(v, v', m) {
      assert Same(v, v1, m);
    }
  }

  lemma EdgeToMany(v: View, v': View, n: BuildNode, j: nat)
    requires Spells(v) && n in v && j < |v[n].edges| && v[n].edges[j].node in v
    requires var x := v[n].edges[j].node; NodeDone(v, v', x) && |v[x].edges| > 1
    ensures EdgeDone(v, v', n, j)
  {
    var x := v[n].edges[j].node;
    EdgeGoesOn(v, n, j);
    assert Same(v, v', n);
    forall m | m in v && v[x].word <= v[m].word ensures Settled(v, v', m) {
      assert m != x ==> v[x].word != v[m].word;
    }
  }

  // ---------------------------------------------------------------- the edges of one node

  /** `m` lies below the target of edge `k` of `n`. */
  ghost predicate Below(v: View, n: BuildNode, k: nat, m: BuildNode)
    requires n in v && m in v && k < |v[n].edges|
  {
    v[n].edges[k].node in v && v[v[n].edges[k].node].word <= v[m].word
  }

  /** Edges before `i` are done, the others and all that lies elsewhere are untouched. */
  ghost predicate EdgesDone(v: View, u: View, n: BuildNode, i: nat)
    requires n in v
  {
    && Shrunk(v, u) && n in u && |u[n].edges| == |v[n].edges|
    && (forall k :: 0 <= k < |v[n].edges| ==> u[n].edges[k].Head() == v[n].edges[k].Head())
    && (forall k :: i <= k < |v[n].edges| ==> u[n].edges[k] == v[n].edges[k])
    && (forall m :: m in v && !(v[n].word <= v[m].word) ==> Same(v, u, m))
    && (forall k, m :: i <= k < |v[n].edges| && m in v && Below(v, n, k, m) ==> Same(v, u, m))
    && (forall k, m :: 0 <= k < i && k < |v[n].edges| && m in v && Below(v, n, k, m) ==> Settled(v, u, m))
  }

  lemma BelowDisjoint(v: View, n: BuildNode, i: nat, k: nat, m: BuildNode)
    requires Spells(v) && n in v && m in v && i < |v[n].edges| && k < |v[n].edges|
    requires Below(v, n, i, m) && Below(v, n, k, m)
    ensures i == k && v[n].word < v[m].word
  {
    assert CellOk(v, n) && Leads(v, n, m, i) && Leads(v, n, m, k);
    LeadingByte(v, n, m, i);
    LeadingByte(v, n, m, k);
    EdgeGoesOn(v, n, i);
  }

  /** Below an untouched edge, what is kept is told the same before and after. */
  lemma KeptBelow(v: View, u: View, n: BuildNode, i: nat, m: BuildNode)
    requires Spells(v) && n in v && i < |v[n].edges| && EdgesDone(v, u, n, i)
    requires m in v && Below(v, n, i, m)
    ensures m in u && (Kept(u, m) <==> Kept(v, m))
  {
    hide Spells;
    assert Same(v, u, m);
    if |v[m].edges| == 1 {
      EdgeGoesOn(v, m, 0);
      assert Below(v, n, i, v[m].edges[0].node);
      assert Same(v, u, v[m].edges[0].node);
    }
  }

  /** Compressing edge `i` of `n` finishes it. */
  lemma EdgesStep(v: View, u: View, u': View, n: BuildNode, i: nat)
    requires Spells(v) && n in v && i < |v[n].edges| && EdgesDone(v, u, n, i)
    requires u[n].edges[i].node in u && EdgeDone(u, u', n, i)
    ensures EdgesDone(v, u', n, i + 1)
  {
    var x := v[n].edges[i].node;
    EdgeGoesOn(v, n, i);
    assert u[x].word == v[x].word && u[n].word == v[n].word;
    forall m | m in v && !(v[n].word <= v[m].word) ensures Same(v, u', m) {
      assert Same(v, u, m);
      assert !(u[x].word <= u[m].word);
      assert Same(u, u', m);
    }
    forall k, m | i + 1 <= k < |v[n].edges| && m in v && Below(v, n, k, m) ensures Same(v, u', m) {
      assert Same(v, u, m);
      if Below(v, n, i, m) { BelowDisjoint(v, n, i, k, m); }
      BelowDisjoint(v, n, k, k, m);
      assert Same(u, u', m);
    }
    forall k, m | 0 <= k < i + 1 && k < |v[n].edges| && m in v && Below(v, n, k, m) ensures Settled(v, u', m) {
      BelowDisjoint(v, n, k, k, m);
      if k == i {
        KeptBelow(v, u, n, i, m);
        assert Settled(u, u', m);
      } else {
        assert Settled(v, u, m);
        if Below(v, n, i, m) { BelowDisjoint(v, n, i, k, m); }
        if m in u { assert Same(u, u', m); }
      }
    }
  }

  lemma EdgesStart(v: View, n: BuildNode)
    requires n in v
    ensures EdgesDone(v, v, n, 0)
  {
  }

  /** When all edges are done and sorted, so is the node. */
  lemma EdgesFinish(v: View, u: View, n: BuildNode, sorted: seq<BuildEdge>)
    requires Spells(v) && n in v && EdgesDone(v, u, n, |v[n].edges|)
    requires |sorted| == |u[n].edges| && ByRank(sorted)
    ensures NodeDone(v, u[n := u[n].(edges := sorted)], n)
  {
    var v' := u[n := u[n].(edges := sorted)];
    forall m | m in v && v[n].word < v[m].word ensures Settled(v, v', m) {
      assert Toward(v, n, m);
      var k: nat :| Leads(v, n, m, k);
      assert Below(v, n, k, m);
      assert Settled(v, u, m);
    }
    forall m | m in v && !(v[n].word <= v[m].word) ensures Same(v, v', m) {
      assert Same(v, u, m);
    }
  }

  /** What `CompressEdge` needs to be called on edge `i`. */
  lemma EdgeReady(v: View, u: View, n: BuildNode, i: nat)
    requires Spells(v) && n in v && i < |v[n].edges| && EdgesDone(v, u, n, i) && BytewiseFrom(v, v[n].word)
    ensures u[n].edges[i].node in u && |u[n].edges[i].fragment| == 1
    ensures u[u[n].edges[i].node].word == v[v[n].edges[i].node].word && v[n].word < v[v[n].edges[i].node].word
    ensures BytewiseFrom(u, u[u[n].edges[i].node].word)
  {
    var x := v[n].edges[i].node;
    EdgeGoesOn(v, n, i);
    assert Below(v, n, i, x) && Same(v, u, x);
    forall m, j | m in u && u[x].word <= u[m].word && 0 <= j < |u[m].edges| ensures |u[m].edges[j].fragment| == 1 {
      assert Below(v, n, i, m) && Same(v, u, m);
    }
  }

  // ---------------------------------------------------------------- the compressor

  method CompressEdge(n: BuildNode, j: nat, ghost v: View, ghost limit: nat) returns (ok: bool, ghost v': View)
    requires Spells(v) && Mirrors(v) && n in v && j < |v[n].edges| && v[n].edges[j].node in v
    requires BytewiseFrom(v, v[v[n].edges[j].node].word) && |v[n].edges[j].fragment| == 1 && Limited(v, limit)
    modifies v.Keys
    ensures Spells(v') && Mirrors(v') && EdgeDone(v, v', n, j) && Dictionary(v') == Dictionary(v)
    ensures ok == !(IsWild(v[n].edges[j].Head()) && |v[v[n].edges[j].node].edges| <= 1)
    decreases limit - |v[v[n].edges[j].node].word|, 1
  {
    hide Spells, Dictionary, EdgeDone, NodeDone, BytewiseFrom, Limited;
    var e := n.edges[j];
    var isWildcard := IsWild(e.fragment[0]);
    if |e.node.edges| == 0 {
      EdgeToLeaf(v, n, j);
      v' := v;
      ok := !isWildcard;
    } else if |e.node.edges| == 1 {
      OnlyEdgeReady(v, n, j, limit);
      var childOk;
      childOk, v' := CompressEdge(e.node, 0, v, limit);
      OnlyEdgeDone(v, v', n, j);
      if isWildcard {
        EdgeToOne(v, v', n, j);
        ok := false;
      } else {
        if childOk && e.node.payload.methods == 0 {
          var child := e.node.edges[0];
          ghost var v1 := v';
          EdgeMerges(v, v1, n, j);
          MergedSpells(v1, n, j);
          v' := Merged(v1, n, j);
          n.edges := n.edges[j := BuildEdge(e.fragment + child.fragment, child.node)];
        } else {
          EdgeToOne(v, v', n, j);
        }
        ok := true;
      }
    } else {
      v' := CompressNode(e.node, v, limit);
      EdgeToMany(v, v', n, j);
      ok := true;
    }
  }

  lemma OnlyEdgeReady(v: View, n: BuildNode, j: nat, limit: nat)
    requires Spells(v) && n in v && j < |v[n].edges| && v[n].edges[j].node in v && Limited(v, limit)
    requires BytewiseFrom(v, v[v[n].edges[j].node].word) && |v[n].edges[j].fragment| == 1
    requires |v[v[n].edges[j].node].edges| == 1
    ensures var x := v[n].edges[j].node;
            && v[x].edges[0].node in v && |v[x].edges[0].fragment| == 1
            && |v[x].word| < |v[v[x].edges[0].node].word| <= limit
            && BytewiseFrom(v, v[v[x].edges[0].node].word)
            && v[x].word[|v[x].word| - 1] == v[n].edges[j].Head() && 1 < |v[x].word|
  {
    var x := v[n].edges[j].node;
    EdgeGoesOn(v, n, j);
    EdgeGoesOn(v, x, 0);
    assert CellOk(v, n);
  }

  lemma OnlyEdgeDone(v: View, v': View, n: BuildNode, j: nat)
    requires Spells(v) && n in v && j < |v[n].edges| && v[n].edges[j].node in v
    requires var x := v[n].edges[j].node; |v[x].edges| == 1 && v[x].edges[0].node in v && EdgeDone(v, v', x, 0)
    ensures var x := v[n].edges[j].node;
            && x in v' && v'[x].payload == v[x].payload && |v'[x].edges| == 1
            && n in v' && v'[n] == v[n]
  {
    var x := v[n].edges[j].node;
    EdgeGoesOn(v, n, j);
    EdgeGoesOn(v, x, 0);
    assert Same(v, v', n);
  }

  method CompressNode(n: BuildNode, ghost v: View, ghost limit: nat) returns (ghost v': View)
    requires Spells(v) && Mirrors(v) && n in v && BytewiseFrom(v, v[n].word) && Limited(v, limit)
    modifies v.Keys
    ensures Spells(v') && Mirrors(v') && NodeDone(v, v', n) && Dictionary(v') == Dictionary(v)
    decreases limit - |v[n].word|, 0
  {
    hide Spells, Dictionary, EdgeDone, NodeDone, BytewiseFrom, Limited;
    v' := v;
    EdgesStart(v, n);
    var i := 0;
    while i < |n.edges|
      invariant Spells(v') && Mirrors(v') && EdgesDone(v, v', n, i) && Dictionary(v') == Dictionary(v)
      invariant 0 <= i <= |v[n].edges|
    {
      ghost var u := v';
      EdgeReady(v, u, n, i);
      LimitedShrinks(v, u, n, i, limit);
      var ok;
      ok, v' := CompressEdge(n, i, u, limit);
      EdgesStep(v, u, v', n, i);
      i := i + 1;
    }
    var sorted;
    ghost var order;
    sorted, order := SortEdges(n.edges);
    EdgesFinish(v, v', n, sorted);
    ReorderedSpells(v', n, sorted, order);
    n.edges := sorted;
    v' := v'[n := v'[n].(edges := sorted)];
  }

  lemma LimitedShrinks(v: View, u: View, n: BuildNode, i: nat, limit: nat)
    requires Limited(v, limit) && n in v && EdgesDone(v, u, n, i)
    requires i < |v[n].edges| && v[n].edges[i].node in v
    ensures Limited(u, limit) && |v[v[n].edges[i].node].word| <= limit
  {
  }

  // ---------------------------------------------------------------- the whole trie

  /** The roots before `i` are compressed, those from `i` on untouched. */
  ghost predicate RootsCompressed(v: View, u: View, i: nat) {
    && Shrunk(v, u)
    && (forall m :: m in v ==> v[m].word != [])
    && (forall m :: m in v && v[m].word[0] >= i ==> Same(v, u, m))
    && (forall m :: m in v && v[m].word[0] < i ==> Settled(v, u, m))
  }

  /** What compression makes of a trie: the kept nodes, in order, with the same routes. */
  ghost predicate Compressed(v: View, v': View) {
    && Spells(v') && Dictionary(v') == Dictionary(v) && Shrunk(v, v')
    && forall m :: m in v ==> Settled(v, v', m)
  }

  lemma RootStep(v: View, u: View, u': View, n: BuildNode, i: byte)
    requires Spells(v) && RootsCompressed(v, u, i)
    requires n in u && u[n].word == [i] && NodeDone(u, u', n)
    ensures RootsCompressed(v, u', i + 1)
  {
    forall m | m in v && v[m].word[0] >= i + 1 ensures Same(v, u', m) {
      assert Same(v, u, m) && !(u[n].word <= u[m].word);
      assert Same(u, u', m);
    }
    forall m | m in v && v[m].word[0] < i + 1 ensures Settled(v, u', m) {
      if v[m].word[0] == i {
        RootKept(v, u, m, i);
        assert u[n].word <= u[m].word;
        if u[m].word == u[n].word {
          assert m == n;
        } else {
          assert Settled(u, u', m);
        }
      } else {
        assert Settled(v, u, m);
        if m in u {
          assert !(u[n].word <= u[m].word);
          assert Same(u, u', m);
        }
      }
    }
  }

  lemma RootKept(v: View, u: View, m: BuildNode, i: nat)
    requires Spells(v) && RootsCompressed(v, u, i) && m in v && v[m].word[0] >= i
    ensures m in u && u[m] == v[m] && (Kept(u, m) <==> Kept(v, m))
  {
    assert Same(v, u, m);
    if |v[m].edges| == 1 {
      EdgeGoesOn(v, m, 0);
      assert Same(v, u, v[m].edges[0].node);
    }
  }

  lemma RootSkipped(roots: seq<Option<BuildEdge>>, v: View, u: View, i: byte)
    requires RootsOk(roots, v) && roots[i].None? && RootsCompressed(v, u, i)
    ensures RootsCompressed(v, u, i + 1)
  {
    assert RootOk(roots, v, i);
  }

  lemma RootReady(roots: seq<Option<BuildEdge>>, v: View, u: View, i: byte, limit: nat)
    requires RootsOk(roots, v) && roots[i].Some? && RootsCompressed(v, u, i)
    requires Bytewise(v) && Limited(v, limit)
    ensures roots[i].value.node in u && u[roots[i].value.node].word == [i]
    ensures BytewiseFrom(u, [i]) && Limited(u, limit)
  {
    assert RootOk(roots, v, i);
    assert Same(v, u, roots[i].value.node);
    forall m, j | m in u && [i] <= u[m].word && 0 <= j < |u[m].edges| ensures |u[m].edges[j].fragment| == 1 {
      assert Same(v, u, m);
    }
  }

  lemma RootsStillOk(roots: seq<Option<BuildEdge>>, v: View, v': View)
    requires RootsOk(roots, v) && RootsCompressed(v, v', 256)
    ensures RootsOk(roots, v')
  {
    forall i: byte ensures RootOk(roots, v', i) {
      assert RootOk(roots, v, i);
      if roots[i].Some? {
        assert Settled(v, v', roots[i].value.node);
      }
    }
  }

  /** Compress below every root. */
  method CompressRoots(roots: array<Option<BuildEdge>>, ghost v: View, ghost limit: nat) returns (ghost v': View)
    requires roots.Length == 256 && RootsOk(roots[..], v) && Plain(v) && Limited(v, limit)
    modifies v.Keys
    ensures RootsOk(roots[..], v') && Mirrors(v') && Compressed(v, v')
  {
    WordsStart(v);
    assert RootsCompressed(v, v, 0);
    hide Spells, Dictionary, NodeDone, BytewiseFrom, Limited, RootsCompressed, RootsOk;
    v' := v;
    var i := 0;
    while i < 256
      invariant 0 <= i <= 256
      invariant Spells(v') && Mirrors(v') && Dictionary(v') == Dictionary(v)
      invariant RootsCompressed(v, v', i) && v'.Keys <= v.Keys
    {
      match roots[i] {
        case None =>
          RootSkipped(roots[..], v, v', i);
        case Some(root) =>
          ghost var u := v';
          RootReady(roots[..], v, u, i, limit);
          v' := CompressNode(root.node, u, limit);
          RootStep(v, u, v', root.node, i);
          NodeShrinks(u, v', root.node);
      }
      i := i + 1;
    }
    RootsStillOk(roots[..], v, v');
    AllCompressed(v, v');
  }

  lemma NodeShrinks(v: View, v': View, n: BuildNode)
    requires n in v && NodeDone(v, v', n)
    ensures v'.Keys <= v.Keys
  {
  }

  lemma AllCompressed(v: View, v': View)
    requires Spells(v') && Dictionary(v') == Dictionary(v) && RootsCompressed(v, v', 256)
    ensures Compressed(v, v')
  {
  }
}
