/** How far compiling a trie makes the pools grow: by a bounded amount per pattern byte. */
module PoolGrowth {
  import opened Common
  import opened RouteTrie
  import opened RoutePools

  /** The number of pattern bytes on the edges from `b` down, its own included. */
  ghost function Weight(b: Branch): nat
    decreases b
  {
    |b.fragment| + WeightFrom(b.node, 0)
  }

  /** The same for the edges of `t` from number `i` on. */
  ghost function WeightFrom(t: Trie, i: nat): nat
    requires i <= |t.edges|
    decreases t, |t.edges| - i
  {
    if i == |t.edges| then 0 else Weight(t.edges[i]) + WeightFrom(t, i + 1)
  }

  /** The number of pattern bytes below the first `i` roots, their own included. */
  ghost function RootsWeight(ts: map<byte, Trie>, i: nat): nat
    requires i <= ROOT_EDGES
  {
    if i == 0 then 0
    else RootsWeight(ts, i - 1) + if i - 1 in ts then Weight(Branch([i - 1], ts[i - 1])) else 0
  }

  /** From `p` to `q` at most `nodes` nodes and `edges` edges, and as many fragment bytes as
      nodes, were appended. */
  ghost predicate GrownBy(p: Pools, q: Pools, nodes: int, edges: int) {
    && |q.nodes| <= |p.nodes| + nodes
    && |q.edges| <= |p.edges| + edges
    && |q.frags| <= |p.frags| + nodes
  }

  /** The growth from the edges of `t` from number `i` on, and from branch `b`. */
  ghost predicate GrownFrom(p: Pools, q: Pools, t: Trie, i: nat) {
    i <= |t.edges| && GrownBy(p, q, 2 * WeightFrom(t, i), 3 * WeightFrom(t, i) - (|t.edges| - i))
  }

  ghost predicate GrownOne(p: Pools, q: Pools, b: Branch) {
    GrownBy(p, q, 2 * Weight(b), 3 * Weight(b) - 1)
  }

  lemma GrownStart(p: Pools, t: Trie)
    ensures GrownFrom(p, p, t, |t.edges|)
  {
  }

  lemma GrownStep(p: Pools, q: Pools, r: Pools, t: Trie, i: nat)
    requires i < |t.edges| && GrownFrom(p, q, t, i + 1) && GrownOne(q, r, t.edges[i])
    ensures GrownFrom(p, r, t, i)
  {
  }

  /** A node over its children, with its clone and both failure links. */
  lemma GrownNode(p: Pools, linked: Pools, q: Pools, r: Pools, b: Branch)
    requires b.fragment != []
    requires GrownBy(p, linked, 1, 1) && |linked.frags| == |p.frags| && GrownFrom(linked, q, b.node, 0)
    requires |r.nodes| == |q.nodes| + 1 && |r.edges| <= |q.edges| + |b.node.edges| + 1
             && |r.frags| <= |q.frags| + |b.fragment|
    ensures GrownOne(p, r, b)
  {
  }

  // ---------------------------------------------------------------- all roots

  /** The pools are no larger than the first `i` roots allow for. */
  ghost predicate WithinRoots(p: Pools, ts: map<byte, Trie>, i: nat) {
    && i <= ROOT_EDGES
    && |p.nodes| <= 1 + 2 * RootsWeight(ts, i) && |p.edges| <= ROOT_EDGES + 3 * RootsWeight(ts, i)
    && |p.frags| <= 2 + 2 * RootsWeight(ts, i)
  }

  lemma RootsStart(p: Pools, ts: map<byte, Trie>)
    requires |p.nodes| == 1 && |p.edges| == ROOT_EDGES && |p.frags| == 2
    ensures WithinRoots(p, ts, 0)
  {
  }

  lemma RootSkipped(p: Pools, ts: map<byte, Trie>, i: byte)
    requires WithinRoots(p, ts, i) && i !in ts
    ensures WithinRoots(p, ts, i + 1)
  {
  }

  lemma RootGrown(p: Pools, q: Pools, ts: map<byte, Trie>, i: byte, edges: seq<Edge>)
    requires WithinRoots(p, ts, i) && i in ts && GrownOne(p, q, Branch([i], ts[i])) && |edges| == |q.edges|
    ensures WithinRoots(q.(edges := edges), ts, i + 1)
  {
    hide Weight;
  }

  /** Light tries fit the index types, whatever their shape. */
  lemma LightFits(p: Pools, ts: map<byte, Trie>)
    requires WithinRoots(p, ts, ROOT_EDGES) && ROOT_EDGES + 3 * RootsWeight(ts, ROOT_EDGES) < 0x1_0000
    ensures Fits(p)
  {
    hide RootsWeight;
  }
}
