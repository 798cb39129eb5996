/** The flattened route tree, its compiler and its search loop. */
module RouteTrees {
  import opened Common
  import opened RouteTrie
  import opened RoutePools
  import opened RouteRefinement
  import opened BuildTree
  import opened ActionTable
  import opened PoolGrowth

  /** Failure link `g` may be handed to branch `b` that ends at pattern prefix `w`. */
  ghost predicate Inheritable(p: Pools, g: Graft, b: Branch, w: seq<byte>, depth: nat) {
    b.fragment != [] && (g.Graft? ==>
      && (if g.checkpoint < 0 then g.length + |b.fragment| <= |w| else g.length <= |w|)
      && g.Behind(b.fragment, depth).checkpoint < depth
      && (Fits(p) ==> GraftOk(p, g, |p.nodes|)))
  }

  /** Child `k` of the branch is compiled into `edges[k]`. */
  ghost predicate ChildDone(p: Pools, b: Branch, link: Graft, depth: nat, edges: seq<Edge>, k: nat)
    requires k < |edges| == |b.node.edges|
  {
    var child := b.node.edges[k];
    && child.fragment != []
    && Compiled(p, child, Inherited(b, edges, link, k).Behind(child.fragment, Deeper(child, depth)),
                Deeper(child, depth), edges[k])
  }

  /** Everything a branch must meet to be compiled under failure link `g`. */
  ghost predicate Ready(p: Pools, g: Graft, e: BuildEdge, b: Branch, nodes: set<BuildNode>, w: seq<byte>, depth: nat)
    reads nodes
  {
    var fragment := b.fragment;
    e.fragment == fragment && Represents(e.node, b.node, nodes) && Placed(b, w, depth) && Inheritable(p, g, b, w, depth)
  }

  /** The failure link in force left of child `i`: the next wildcard child, else `link`. */
  ghost function Fallback(b: Branch, edges: seq<Edge>, link: Graft, i: nat): Graft
    requires i <= |edges| == |b.node.edges|
  {
    var j := NextWild(b.node.edges, i);
    if j < |edges| then Graft(edges[j], -1, 0) else link
  }

  /** Children `i..` are compiled into `edges[i..]`. */
  ghost predicate Done(p: Pools, b: Branch, link: Graft, depth: nat, edges: seq<Edge>, i: nat) {
    && i <= |edges| == |b.node.edges|
    && GraftOk(p, link, |p.nodes|)
    && GraftOk(p, Fallback(b, edges, link, i), |p.nodes|)
    && forall k :: i <= k < |edges| ==> ChildDone(p, b, link, depth, edges, k)
  }

  lemma FallbackStep(b: Branch, edges: seq<Edge>, link: Graft, i: nat, edge: Edge)
    requires i < |edges| == |b.node.edges|
    ensures Fallback(b, edges[i := edge], link, i)
         == if b.node.edges[i].Wild() then Graft(edge, -1, 0) else Fallback(b, edges, link, i + 1)
  {
  }

  lemma FallbackOk(p: Pools, b: Branch, link: Graft, depth: nat, edges: seq<Edge>, i: nat)
    requires Done(p, b, link, depth, edges, i)
    ensures GraftOk(p, Fallback(b, edges, link, i), |p.nodes|)
  {
  }

  /** Later children stay compiled while the pools grow and the next slot is filled. */
  lemma DoneStep(p: Pools, q: Pools, b: Branch, link: Graft, depth: nat, edges: seq<Edge>, i: nat, edge: Edge,
                 edges': seq<Edge>)
    requires Extends(p, q) && i < |edges| && edges' == edges[i := edge]
    requires Done(p, b, link, depth, edges, i + 1)
    requires var child := b.node.edges[i];
             && child.fragment != []
             && Compiled(q, child, Fallback(b, edges, link, i + 1).Behind(child.fragment, Deeper(child, depth)),
                         Deeper(child, depth), edge)
    ensures Done(q, b, link, depth, edges', i)
  {
    assert ChildDone(q, b, link, depth, edges', i);
    assert q.frags[edge.offset] == q.frags[edge.offset..edge.end][0];
    forall k | i < k < |edges'| ensures ChildDone(q, b, link, depth, edges', k) {
      var child := b.node.edges[k];
      assert ChildDone(p, b, link, depth, edges, k);
      CompiledExtends(p, q, child, Inherited(b, edges, link, k).Behind(child.fragment, Deeper(child, depth)),
        Deeper(child, depth), edges[k]);
    }
  }

  /** Failure link `g` can be packed, and leads from `depth` wildcards deep, behind prefix `w`. */
  ghost predicate Usable(p: Pools, g: Graft, w: seq<byte>, depth: nat) {
    && g.Packable()
    && (g.Graft? ==> g.length <= |w| && g.checkpoint < depth)
    && (Fits(p) ==> GraftOk(p, g, |p.nodes|))
  }

  lemma OwnUsable(p: Pools, g: Graft, b: Branch, w: seq<byte>, depth: nat)
    requires Placed(b, w, depth) && Inheritable(p, g, b, w, depth)
    ensures Usable(p, g.Behind(b.fragment, depth), w, depth)
  {
  }

  lemma ChildReady(p: Pools, link: Graft, n: BuildNode, b: Branch, nodes: set<BuildNode>, w: seq<byte>, depth: nat,
                   edges: seq<Edge>, i: nat)
    requires Represents(n, b.node, nodes) && Placed(b, w, depth) && i < |b.node.edges|
    requires link.Graft? ==> link.length <= |w| && link.checkpoint < depth
    requires |edges| == |b.node.edges|
    requires Fits(p) ==> Done(p, b, link, depth, edges, i + 1)
    ensures var child := b.node.edges[i];
            && child.fragment != []
            && Ready(p, Fallback(b, edges, link, i + 1), n.edges[i], child, nodes,
                     w + child.fragment, Deeper(child, depth))
  {
    ChildPlaced(b, w, depth, i);
    if Fits(p) {
      FallbackOk(p, b, link, depth, edges, i + 1);
    }
  }

  /** Pools `q` are `p` with a node for `fragment` appended, which `e` leads to. */
  ghost predicate Appended(p: Pools, q: Pools, fragment: seq<byte>, payload: Payload, edges: seq<Edge>, e: Edge) {
    && Extends(p, q) && 0 < |p.nodes| < |q.nodes|
    && e.rollback == 0 && e.target == |p.nodes|
    && FragmentAt(q, e, fragment)
    && Out(q, e) == edges
    && var n := q.nodes[e.target];
       n.payload == payload && ROOT_EDGES <= n.edgeOffset && n.edgeOffset + n.edgeCount <= |q.edges|
  }

  lemma TailIs<T>(a: seq<T>, b: seq<T>)
    ensures (a + b)[|a|..|a + b|] == b
  {
  }

  lemma NodeAppended(p: Pools, q: Pools, fragment: seq<byte>, payload: Payload, edges: seq<Edge>, e: Edge)
    requires p.nodes != [] && ROOT_EDGES <= |p.edges| && p.frags <= q.frags && Fits(q) && q.edges == p.edges + edges
    requires q.nodes == p.nodes + [RouteNode(payload, |p.edges|, |edges|)]
    requires e.rollback == 0 && e.target == |p.nodes| && FragmentAt(q, e, fragment)
    ensures Appended(p, q, fragment, payload, edges, e)
  {
    assert q.edges[|p.edges|..][..|edges|] == edges;
  }

  /** The failure link that a node for branch `b` gets. */
  ghost predicate LinkFor(p: Pools, b: Branch, own: Graft, link: Graft, depth: nat) {
    if NeedsClone(b) then link.Graft? && link == Graft(link.target, depth - 1, 0) && CloneOk(p, b, own, link.target)
    else link == own
  }

  lemma LinkExtends(p: Pools, q: Pools, b: Branch, own: Graft, link: Graft, depth: nat)
    requires Extends(p, q) && LinkFor(p, b, own, link, depth)
    ensures LinkFor(q, b, own, link, depth)
  {
    if NeedsClone(b) {
      OutExtends(p, q, link.target);
    }
  }

  /** A node appended over compiled children, with the failure link last, is compiled. */
  lemma NodeAssembled(p: Pools, q: Pools, b: Branch, own: Graft, link: Graft, depth: nat, edges: seq<Edge>, e: Edge)
    requires b.fragment != [] && Done(p, b, link, depth, edges, 0)
    requires link.Packable() && LinkFor(p, b, own, link, depth)
    requires Appended(p, q, b.fragment, b.node.payload, if link.Graft? then edges + [link.ToEdge()] else edges, e)
    ensures Compiled(q, b, own, depth, e)
  {
    var out := Out(q, e);
    if link.Graft? {
      assert out[|edges|] == link.ToEdge();
      assert out[|edges|].(rollback := 0) == link.target;
    }
    assert Link(q, b, own, depth, e) == link;
    LinkExtends(p, q, b, own, link, depth);
    assert NodeCompiled(q, b, own, depth, e);
    forall i | 0 <= i < |b.node.edges| ensures ChildCompiled(q, b, own, depth, e, i) {
      assert ChildDone(p, b, link, depth, edges, i);
      var child := b.node.edges[i];
      assert Inherited(b, out, link, i) == Inherited(b, edges, link, i);
      CompiledExtends(p, q, child, Inherited(b, edges, link, i).Behind(child.fragment, Deeper(child, depth)),
        Deeper(child, depth), edges[i]);
    }
  }

  /** What a run that does not panic tells about the edge it is at. */
  lemma RunStep(p: Pools, u: seq<byte>, e: Edge, c: int, starts: seq<int>)
    requires Run(p, u, e, c, starts) != Panic
    ensures EdgeOk(p, e, |p.nodes|) && 0 <= c <= |u|
    ensures var n := p.nodes[e.target];
            && n.edgeOffset + n.edgeCount <= |p.edges|
            && Run(p, u, e, c, starts) == if Accepts(p, e, n, u, c) then Found(n.payload)
                                          else Scan(p, u, e, c, starts, 0)
  {
  }

  /** What a scan that does not panic tells about the next outgoing edge. */
  lemma ScanStep(p: Pools, u: seq<byte>, e: Edge, c: int, starts: seq<int>, k: nat)
    requires EdgeOk(p, e, |p.nodes|) && 0 <= c <= |u|
    requires p.nodes[e.target].edgeOffset + p.nodes[e.target].edgeCount <= |p.edges|
    requires k < p.nodes[e.target].edgeCount
    requires Scan(p, u, e, c, starts, k) != Panic
    ensures var child := p.edges[p.nodes[e.target].edgeOffset + k];
            && EdgeOk(p, child, e.target)
            && if WildEdge(p, child) then
                 var (c', starts') := Jump(child.rollback, c, starts);
                 && (child.rollback < 0 ==> (-1 - child.rollback) % CHECKPOINT_BASE < |starts|)
                 && 0 <= c' && |starts'| < MAX_WILDCARDS
                 && Scan(p, u, e, c, starts, k) == Run(p, u, child.(rollback := 0), c', starts' + [c'])
               else
                 var at := Locate(p.frags[e.offset], p.frags[child.offset..child.end], u, c);
                 Scan(p, u, e, c, starts, k) == if at.Some? then Run(p, u, child.(rollback := 0), at.value, starts)
                                                else Scan(p, u, e, c, starts, k + 1)
  {
  }

  lemma ScanEnds(p: Pools, u: seq<byte>, e: Edge, c: int, starts: seq<int>)
    requires EdgeOk(p, e, |p.nodes|) && 0 <= c <= |u|
    requires p.nodes[e.target].edgeOffset + p.nodes[e.target].edgeCount <= |p.edges|
    ensures Scan(p, u, e, c, starts, p.nodes[e.target].edgeCount) == NotFound
  {
  }

  ghost predicate RootsRepresent(roots: array<Option<BuildEdge>>, ts: map<byte, Trie>, nodes: set<BuildNode>)
    reads roots, nodes
  {
    roots.Length == ROOT_EDGES && forall i: byte :: RootRepresents(roots[i], i, ts, nodes)
  }

  ghost predicate RootRepresents(root: Option<BuildEdge>, i: byte, ts: map<byte, Trie>, nodes: set<BuildNode>)
    reads nodes
  {
    match root
    case None => i !in ts
    case Some(e) => i in ts && e.fragment == [i] && Represents(e.node, ts[i], nodes)
  }

  /** Roots before `i` are compiled, later slots are free, `fallback` backs up root `i`. */
  ghost predicate RootsDone(p: Pools, ts: map<byte, Trie>, fallback: Graft, i: nat) {
    && ROOT_EDGES <= |p.edges|
    && (forall k: byte :: i <= k ==> p.edges[k].target == 0)
    && (fallback.Graft? ==> fallback == Graft(fallback.target, -1, 0))
    && (Fits(p) ==>
          && GraftOk(p, fallback, |p.nodes|)
          && (i < ROOT_EDGES ==> fallback == RootGraft(p, ts, i))
          && forall k: byte :: k < i ==> RootCompiled(p, ts, k))
  }

  lemma RootAbsent(p: Pools, ts: map<byte, Trie>, fallback: Graft, i: byte)
    requires RootsDone(p, ts, fallback, i) && i !in ts
    ensures RootsDone(p, ts, fallback, i + 1)
  {
    assert RootCompiled(p, ts, i);
  }

  lemma RootReady(p: Pools, ts: map<byte, Trie>, fallback: Graft, i: byte, root: Option<BuildEdge>,
                  nodes: set<BuildNode>)
    requires RootsDone(p, ts, fallback, i) && RootsPlaced(ts)
    requires root.Some? && RootRepresents(root, i, ts, nodes)
    ensures i in ts && root.value.fragment == [i]
    ensures Ready(p, fallback, root.value, Branch([i], ts[i]), nodes, [i], RootDepth(i))
  {
    assert RootPlaced(ts, i);
  }

  lemma RootStays(p: Pools, q: Pools, ts: map<byte, Trie>, k: byte)
    requires Extends(p, q) && ROOT_EDGES <= |p.edges| && RootCompiled(p, ts, k)
    requires forall j: byte :: j <= k ==> q.edges[j] == p.edges[j]
    ensures RootCompiled(q, ts, k)
  {
    if k in ts {
      assert RootGraft(q, ts, k) == RootGraft(p, ts, k);
      CompiledExtends(p, q, Branch([k], ts[k]), RootGraft(p, ts, k).Behind([k], RootDepth(k)), RootDepth(k),
        p.edges[k]);
    }
  }

  lemma RootFilled(p: Pools, m: Pools, q: Pools, ts: map<byte, Trie>, fallback: Graft, i: byte, edge: Edge)
    requires RootsDone(p, ts, fallback, i) && i in ts && Grows(p, m)
    requires q == m.(edges := m.edges[i := edge])
    requires Fits(m) ==> Compiled(m, Branch([i], ts[i]), fallback.Behind([i], RootDepth(i)), RootDepth(i), edge)
    ensures RootsDone(q, ts, if IsWild(i) then Graft(edge, -1, 0) else fallback, i + 1)
  {
    hide Compiled, GraftOk;
    forall k: byte | k != i ensures q.edges[k] == p.edges[k] {
      assert p.edges[k] == p.edges[..ROOT_EDGES][k] == m.edges[..ROOT_EDGES][k] == m.edges[k];
    }
    if Fits(q) {
      CompiledExtends(m, q, Branch([i], ts[i]), fallback.Behind([i], RootDepth(i)), RootDepth(i), edge);
      CompiledGraftOk(q, Branch([i], ts[i]), fallback.Behind([i], RootDepth(i)), RootDepth(i), edge);
      GraftOkExtends(p, q, fallback);
      forall k: byte | k < i ensures RootCompiled(q, ts, k) {
        assert RootCompiled(p, ts, k);
        RootStays(p, q, ts, k);
      }
      assert RootGraft(q, ts, i) == RootGraft(p, ts, i);
      assert RootCompiled(q, ts, i);
    }
  }

  lemma CompiledGraftOk(p: Pools, b: Branch, own: Graft, depth: nat, e: Edge)
    requires Compiled(p, b, own, depth, e)
    ensures e.target < |p.nodes|
    ensures b.Wild() ==> GraftOk(p, Graft(e, -1, 0), |p.nodes|)
  {
    assert p.frags[e.offset] == p.frags[e.offset..e.end][0];
  }

  lemma GraftOkExtends(p: Pools, q: Pools, g: Graft)
    requires Extends(p, q) && GraftOk(p, g, |p.nodes|)
    ensures GraftOk(q, g, |q.nodes|)
  {
  }

  lemma AllRootsDone(p: Pools, ts: map<byte, Trie>, fallback: Graft)
    requires RootsDone(p, ts, fallback, ROOT_EDGES)
    ensures Fits(p) ==> Holds(p, ts)
  {
  }

  class RouteTree {
    var nodePool: seq<RouteNode>
    var edgePool: seq<Edge>
    var fragmentPool: seq<byte>
    var actionsRegistry: seq<byte>
    var actionMetadata: seq<uint32>

    constructor ()
      ensures actionsRegistry == [] && actionMetadata == []
    {
      nodePool, edgePool, fragmentPool := [], [], [];
      actionsRegistry, actionMetadata := [], [];
      tries := map[];
    }

    ghost function Flat(): Pools
      reads this
    {
      Pools(nodePool, edgePool, fragmentPool)
    }

    ghost predicate Base()
      reads this
    {
      nodePool != [] && ROOT_EDGES <= |edgePool| && [GREEDY, STAR] <= fragmentPool
    }

    method FlattenNode(e: BuildEdge, inherited: Graft, depth: nat,
                       ghost b: Branch, ghost nodes: set<BuildNode>, ghost w: seq<byte>)
      returns (edge: Edge)
      requires Base()
      requires Ready(Flat(), inherited, e, b, nodes, w, depth)
      modifies `nodePool, `edgePool, `fragmentPool
      ensures Base() && Grows(old(Flat()), Flat()) && |old(nodePool)| < |nodePool|
      ensures Fits(Flat()) ==> Compiled(Flat(), b, inherited.Behind(b.fragment, depth), depth, edge)
      ensures GrownOne(old(Flat()), Flat(), b)
      decreases b, 1
    {
      var own := inherited.Behind(e.fragment, depth);
      OwnUsable(Flat(), inherited, b, w, depth);
      hide Compiled, CloneOk, Done, Appended, Shaped, Bounded, GrownFrom, GrownOne, GrownBy;
      var link := MakeLink(b, own, depth, e.fragment, e.node.payload, e.node.edges != [], w);
      ghost var linked := Flat();
      var edges := FlattenChildren(e.node, link, depth, b, nodes, w);
      ghost var before := Flat();
      edge := AppendNode(e.fragment, e.node.payload, if link.Graft? then edges + [link.ToEdge()] else edges);
      GrownNode(old(Flat()), linked, before, Flat(), b);
      if Fits(Flat()) {
        LinkExtends(linked, before, b, own, link, depth);
        NodeAssembled(before, Flat(), b, own, link, depth, edges, edge);
      }
    }

    /** The children of `n`, last first, each under the next wildcard sibling's failure link. */
    method FlattenChildren(n: BuildNode, link: Graft, depth: nat,
                           ghost b: Branch, ghost nodes: set<BuildNode>, ghost w: seq<byte>)
      returns (edges: seq<Edge>)
      requires Base()
      requires Represents(n, b.node, nodes) && Placed(b, w, depth)
      requires Usable(Flat(), link, w, depth)
      modifies `nodePool, `edgePool, `fragmentPool
      ensures Base() && Grows(old(Flat()), Flat())
      ensures Fits(Flat()) ==> Done(Flat(), b, link, depth, edges, 0)
      ensures |edges| == |b.node.edges|
      ensures GrownFrom(old(Flat()), Flat(), b.node, 0)
      decreases b, 0, 1
    {
      var childFallback := link;
      edges := seq(|n.edges|, i => Edge(0, 0, 0, 0));
      var i := |n.edges|;
      assert Fallback(b, edges, link, i) == link;
      GrownStart(Flat(), b.node);
      hide Compiled, Done, Fallback, Shaped, Bounded, GrownFrom, GrownOne;
      while i > 0
        invariant Base() && Grows(old(Flat()), Flat())
        invariant 0 <= i <= |edges| == |b.node.edges|
        invariant childFallback == Fallback(b, edges, link, i)
        invariant Fits(Flat()) ==> Done(Flat(), b, link, depth, edges, i)
        invariant GrownFrom(old(Flat()), Flat(), b.node, i)
      {
        i := i - 1;
        ghost var before := Flat();
        var childEdge;
        childEdge, childFallback := FlattenChild(n, i, link, childFallback, depth, b, nodes, w, edges);
        edges := edges[i := childEdge];
        GrownStep(old(Flat()), before, Flat(), b.node, i);
      }
    }

    /** One child, under the failure link in force right of it. */
    method FlattenChild(n: BuildNode, i: nat, ghost link: Graft, childFallback: Graft, depth: nat,
                        ghost b: Branch, ghost nodes: set<BuildNode>, ghost w: seq<byte>, ghost edges: seq<Edge>)
      returns (childEdge: Edge, nextFallback: Graft)
      requires Base()
      requires Represents(n, b.node, nodes) && Placed(b, w, depth)
      requires i < |n.edges| == |edges|
      requires childFallback == Fallback(b, edges, link, i + 1)
      requires link.Graft? ==> link.length <= |w| && link.checkpoint < depth
      requires Fits(Flat()) ==> Done(Flat(), b, link, depth, edges, i + 1)
      modifies `nodePool, `edgePool, `fragmentPool
      ensures Base() && Grows(old(Flat()), Flat())
      ensures nextFallback == Fallback(b, edges[i := childEdge], link, i)
      ensures Fits(Flat()) ==> Done(Flat(), b, link, depth, edges[i := childEdge], i)
      ensures GrownOne(old(Flat()), Flat(), b.node.edges[i])
      decreases b, 0, 0
    {
      hide Compiled, ChildDone, Placed, GraftOk;
      ghost var before := Flat();
      ChildReady(before, link, n, b, nodes, w, depth, edges, i);
      var child := n.edges[i];
      var childDepth := if IsWild(child.fragment[0]) then depth + 1 else depth;
      childEdge := FlattenNode(child, childFallback, childDepth, b.node.edges[i], nodes, w + child.fragment);
      nextFallback := if IsWild(child.fragment[0]) then Graft(childEdge, -1, 0) else childFallback;
      if Fits(Flat()) {
        DoneStep(before, Flat(), b, link, depth, edges, i, childEdge, edges[i := childEdge]);
      }
      FallbackStep(b, edges, link, i, childEdge);
    }

    /** The fragments of wildcards are the first two bytes of the pool; others are appended. */
    method AppendFragment(fragment: seq<byte>) returns (offset: uint32, end: uint32)
      requires [GREEDY, STAR] <= fragmentPool
      requires fragment != [] && (IsWild(fragment[0]) ==> |fragment| == 1)
      modifies `fragmentPool
      ensures old(fragmentPool) <= fragmentPool
      ensures |fragmentPool| == |old(fragmentPool)| + if IsWild(fragment[0]) then 0 else |fragment|
      ensures |fragmentPool| < 0x1_0000_0000 ==>
                offset < end <= |fragmentPool| && fragmentPool[offset..end] == fragment
    {
      if IsWild(fragment[0]) {
        offset, end := fragment[0] - 1, fragment[0];
        assert fragmentPool[offset..end] == fragment;
      } else {
        offset := |fragmentPool| % 0x1_0000_0000;
        TailIs(fragmentPool, fragment);
        fragmentPool := fragmentPool + fragment;
        end := |fragmentPool| % 0x1_0000_0000;
      }
    }

    /** A node with its edges and its fragment, at the ends of the pools. */
    method AppendNode(fragment: seq<byte>, payload: Payload, edges: seq<Edge>) returns (edge: Edge)
      requires Base()
      requires fragment != [] && (IsWild(fragment[0]) ==> |fragment| == 1)
      modifies `nodePool, `edgePool, `fragmentPool
      ensures Base() && Grows(old(Flat()), Flat()) && |nodePool| == |old(nodePool)| + 1
      ensures edge.rollback == 0 && |edgePool| == |old(edgePool)| + |edges|
      ensures |fragmentPool| == |old(fragmentPool)| + if IsWild(fragment[0]) then 0 else |fragment|
      ensures Fits(Flat()) ==> Appended(old(Flat()), Flat(), fragment, payload, edges, edge)
    {
      hide Appended;
      var edgeOffset := |edgePool| % 0x1_0000;
      edgePool := edgePool + edges;
      var edgeCount := |edges| % 0x1_0000;
      var offset, end := AppendFragment(fragment);
      var nodeID := |nodePool| % 0x1_0000_0000;
      nodePool := nodePool + [RouteNode(payload, edgeOffset, edgeCount)];
      edge := Edge(nodeID, offset, end, 0);
      if Fits(Flat()) {
        NodeAppended(old(Flat()), Flat(), fragment, payload, edges, edge);
      }
    }

    /** A wildcard route with edges of its own is accepted through a separate node, reached
        by a failure link back to the start of the wildcard's gap. */
    method MakeLink(ghost b: Branch, own: Graft, depth: nat, fragment: seq<byte>, payload: Payload, hasEdges: bool,
                    ghost w: seq<byte>)
      returns (link: Graft)
      requires Base()
      requires fragment == b.fragment != [] && payload == b.node.payload && hasEdges == (b.node.edges != [])
      requires Usable(Flat(), own, w, depth) && (b.Wild() ==> 0 < depth <= MAX_WILDCARDS)
      modifies `nodePool, `edgePool, `fragmentPool
      ensures Base() && Grows(old(Flat()), Flat()) && |old(nodePool)| <= |nodePool|
      ensures Usable(Flat(), link, w, depth)
      ensures Fits(Flat()) ==> LinkFor(Flat(), b, own, link, depth)
      ensures GrownBy(old(Flat()), Flat(), 1, 1) && |fragmentPool| == |old(fragmentPool)|
    {
      link := own;
      if IsWild(fragment[0]) && payload.methods != 0 && hasEdges {
        var target := AppendNode([fragment[0]], payload, if own.Graft? then [own.ToEdge()] else []);
        link := Graft(target, depth - 1, 0);
        assert Fits(Flat()) ==> fragmentPool[target.offset] == fragmentPool[target.offset..target.end][0];
      }
    }

    /** Compile every root; wildcard roots come first and back up those after them. */
    method Finalize(roots: array<Option<BuildEdge>>, ghost ts: map<byte, Trie>, ghost nodes: set<BuildNode>)
      requires RootsRepresent(roots, ts, nodes) && RootsPlaced(ts)
      modifies `nodePool, `edgePool, `fragmentPool, `tries
      ensures tries == ts && (Fits(Flat()) ==> Valid())
      ensures ROOT_EDGES + 3 * RootsWeight(ts, ROOT_EDGES) < 0x1_0000 ==> Fits(Flat())
    {
      nodePool := [RouteNode(Payload(0, 0, 0), 0, 0)];
      edgePool := seq(ROOT_EDGES, i => Edge(0, 0, 0, 0));
      fragmentPool := [GREEDY, STAR];
      tries := ts;
      var fallback := NoGraft;
      var i := 0;
      assert RootsDone(Flat(), tries, fallback, i);
      RootsStart(Flat(), ts);
      hide RootsDone, RootsPlaced, WithinRoots, RootRepresents, RootsWeight, Fits, Holds;
      while i < ROOT_EDGES
        invariant 0 <= i <= ROOT_EDGES && Base() && tries == ts
        invariant RootsDone(Flat(), ts, fallback, i) && WithinRoots(Flat(), ts, i)
      {
        fallback := FinalizeRoot(roots[i], i, fallback, ts, nodes);
        i := i + 1;
      }
      AllRootsDone(Flat(), ts, fallback);
      if ROOT_EDGES + 3 * RootsWeight(ts, ROOT_EDGES) < 0x1_0000 {
        LightFits(Flat(), ts);
      }
    }

    /** Compile root `i` into its slot, if there is one. */
    method FinalizeRoot(root: Option<BuildEdge>, i: byte, fallback: Graft,
                        ghost ts: map<byte, Trie>, ghost nodes: set<BuildNode>)
      returns (next: Graft)
      requires Base() && RootRepresents(root, i, ts, nodes) && RootsPlaced(ts)
      requires RootsDone(Flat(), ts, fallback, i) && WithinRoots(Flat(), ts, i)
      modifies `nodePool, `edgePool, `fragmentPool
      ensures Base() && RootsDone(Flat(), ts, next, i + 1) && WithinRoots(Flat(), ts, i + 1)
    {
      hide RootsDone, RootsPlaced, Ready, Compiled, WithinRoots, GrownOne;
      ghost var before := Flat();
      if root.None? {
        RootAbsent(before, ts, fallback, i);
        RootSkipped(before, ts, i);
        return fallback;
      }
      RootReady(before, ts, fallback, i, root, nodes);
      var depth := if IsWild(root.value.fragment[0]) then 1 else 0;
      var edge := FlattenNode(root.value, fallback, depth, Branch([i], ts[i]), nodes, [i]);
      ghost var middle := Flat();
      edgePool := edgePool[i := edge];
      next := if IsWild(root.value.fragment[0]) then Graft(edge, -1, 0) else fallback;
      RootFilled(before, middle, Flat(), ts, fallback, i, edge);
      RootGrown(before, middle, ts, i, edgePool);
    }

    /** The table sizes that the code's 32-bit indices can hold. */
    ghost predicate TablesFit()
      reads `actionsRegistry, `actionMetadata
    {
      |actionsRegistry| < 0x1_0000_0000 && |actionMetadata| < 0x1_0000_0000
    }

    /** A name with its length in front, in chunks of at most 255. */
    static method EncodeChunk(action: Name) returns (actionChunk: seq<byte>)
      ensures actionChunk == EncodeName(action)
    {
      hide LengthBytes;
      actionChunk := [];
      var remaining := |action|;
      while true
        invariant 0 <= remaining
        invariant actionChunk + LengthBytes(remaining) == LengthBytes(|action|)
        decreases remaining
      {
        LengthStep(remaining, actionChunk);
        var chunkLen := if remaining < LENGTH_CHUNK then remaining else LENGTH_CHUNK;
        actionChunk := actionChunk + [chunkLen];
        if chunkLen < LENGTH_CHUNK {
          break;
        }
        remaining := remaining - chunkLen;
      }
      actionChunk := actionChunk + action;
    }

    /** The action id of a name, with its record appended the first time it is seen. */
    method GetOrCreateActionID(action: Name, ids: map<Name, uint32>, analyze: Analyzer)
      returns (actionID: uint32, ids': map<Name, uint32>)
      requires TablesFit() ==> MapOk(actionsRegistry, actionMetadata, ids, analyze)
      modifies `actionsRegistry, `actionMetadata
      ensures old(actionsRegistry) <= actionsRegistry && old(actionMetadata) <= actionMetadata
      ensures TablesFit() ==>
                && MapOk(actionsRegistry, actionMetadata, ids', analyze)
                && ActionAt(actionsRegistry, actionMetadata, actionID, action, analyze(action))
      ensures |actionsRegistry| <= |old(actionsRegistry)| + NameCost(action, analyze)
      ensures |actionMetadata| <= |old(actionMetadata)| + NameCost(action, analyze)
    {
      hide MapOk, ActionAt, NameCost, LengthBytes, EncodeName;
      NameFits(action, analyze);
      ids' := ids;
      if action in ids {
        if TablesFit() {
          MapGives(actionsRegistry, actionMetadata, ids, analyze, action);
        }
        return ids[action], ids;
      }
      ghost var r, m := actionsRegistry, actionMetadata;
      var id := |actionsRegistry| % 0x1_0000_0000;
      var actionChunk := EncodeChunk(action);
      actionsRegistry := actionsRegistry + actionChunk;
      actionID := |actionMetadata| % 0x1_0000_0000;
      var ops := analyze(action);
      actionMetadata := actionMetadata + ([id, |ops| % 0x1_0000_0000] + ops);
      ids' := ids[action := actionID];
      if TablesFit() {
        ActionAppended(r, m, action, ops);
        assert m + ([|r|, |ops|] + ops) == m + [|r|, |ops|] + ops;
        MapStays(r, m, actionsRegistry, actionMetadata, ids, analyze);
        MapEntered(actionsRegistry, actionMetadata, ids, analyze, action, actionID);
      }
    }

    /** The name stored at `index`; an index behind the registry has none. */
    method GetActionName(index: uint32) returns (name: Name)
      requires |actionsRegistry| < 0x1_0000_0000
      requires index < |actionsRegistry| ==> exists n :: NameAt(actionsRegistry, index, n)
      ensures index >= |actionsRegistry| ==> name == []
      ensures forall n :: NameAt(actionsRegistry, index, n) ==> name == n
    {
      var regLen := |actionsRegistry|;
      if index >= regLen {
        return [];
      }
      ghost var stored :| NameAt(actionsRegistry, index, stored);
      var curr, length: int := index, 0;
      assert actionsRegistry[curr..][..|EncodeName(stored)|] == EncodeName(stored);
      hide LengthBytes, NameAt;
      while true
        invariant index <= curr < regLen && 0 <= length <= |stored|
        invariant LengthBytes(|stored| - length) + stored <= actionsRegistry[curr..]
        decreases regLen - curr
      {
        LengthRead(|stored| - length, stored, actionsRegistry[curr..]);
        var l := actionsRegistry[curr];
        assert actionsRegistry[curr..][1..] == actionsRegistry[curr + 1..];
        length := length + l;
        curr := curr + 1;
        if l < LENGTH_CHUNK {
          break;
        }
      }
      var start, end := curr, curr + length;
      assert stored <= actionsRegistry[start..] && length == |stored|;
      if end > regLen || start > end {
        return [];
      }
      name := actionsRegistry[start..end];
      assert name == stored;
      forall n | NameAt(actionsRegistry, index, n) ensures name == n {
        NamesUnique(actionsRegistry, index, n, stored);
      }
    }

    /** An action's stored name and interpolation operations. */
    method ReadAction(metaIndex: uint32, ghost action: Name, ghost stored: seq<uint32>)
      returns (name: Name, ops: seq<uint32>)
      requires TablesFit() && ActionAt(actionsRegistry, actionMetadata, metaIndex, action, stored)
      ensures name == action && ops == stored
    {
      var nameIndex := actionMetadata[metaIndex];
      name := GetActionName(nameIndex);
      var opCount := actionMetadata[metaIndex + 1];
      var offset: int := metaIndex + 2;
      ops := actionMetadata[offset..offset + opCount];
    }

    /** How the proxy finds a route's service. */
    method ResolveService(actionIndex: uint32, ghost analyze: Analyzer, ghost service: Name,
                          ghost middlewares: seq<Name>)
      returns (name: Name, ops: seq<uint32>)
      requires TablesFit() && RouteAt(actionsRegistry, actionMetadata, actionIndex, analyze, service, middlewares)
      ensures name == service && ops == analyze(service)
    {
      hide ActionAt;
      var serviceMetadataIndex := actionMetadata[actionIndex];
      name, ops := ReadAction(serviceMetadataIndex, service, analyze(service));
    }

    /** How the proxy reads a route's middlewares, in order. */
    method MiddlewareNames(actionIndex: uint32, ghost analyze: Analyzer, ghost service: Name,
                           ghost middlewares: seq<Name>)
      returns (names: seq<Name>, ops: seq<seq<uint32>>)
      requires TablesFit() && RouteAt(actionsRegistry, actionMetadata, actionIndex, analyze, service, middlewares)
      ensures names == middlewares && |ops| == |middlewares|
      ensures forall k :: 0 <= k < |ops| ==> ops[k] == analyze(middlewares[k])
    {
      hide ActionAt;
      names, ops := [], [];
      var mwCount := actionMetadata[actionIndex + 1];
      if mwCount == 0 {
        return;
      }
      var baseOffset: int := actionIndex + 2;
      var i := 0;
      while i < mwCount
        invariant 0 <= i <= mwCount == |middlewares|
        invariant names == middlewares[..i] && |ops| == i
        invariant forall k :: 0 <= k < i ==> ops[k] == analyze(middlewares[k])
      {
        var mwMetaIndex := actionMetadata[baseOffset + i];
        var rawMwName, mwOps := ReadAction(mwMetaIndex, middlewares[i], analyze(middlewares[i]));
        names := names + [rawMwName];
        ops := ops + [mwOps];
        i := i + 1;
      }
    }

    /** The tries the pools were compiled from. */
    ghost var tries: map<byte, Trie>

    ghost predicate Valid()
      reads this
    {
      Fits(Flat()) && Holds(Flat(), tries) && RootsPlaced(tries)
    }

    /** The search loop: finds what the recursive search of the tries finds. */
    method Search(url: seq<byte>) returns (r: Option<RouteNode>)
      requires Valid() && Searchable(tries, url) && |url| < 0x8000_0000
      ensures match FindRoot(tries, url)
              case Some(payload) => r.Some? && r.value.payload == payload
              case None => r.None?
    {
      SearchRefines(Flat(), tries, url);
      ghost var goal := Start(Flat(), url);
      if |url| == 0 {
        return None;
      }
      var currentEdgeIdx: uint16;
      var cursorCheckpoints := new int[MAX_WILDCARDS](_ => 0);
      var checkpointIdx := 0;
      var cursor := 0;
      if edgePool[url[0]].target != 0 {
        currentEdgeIdx := url[0];
        cursor := cursor + 1;
      } else if edgePool[STAR].target != 0 {
        currentEdgeIdx := STAR;
        checkpointIdx := checkpointIdx + 1;
      } else if edgePool[GREEDY].target != 0 {
        currentEdgeIdx := GREEDY;
        checkpointIdx := checkpointIdx + 1;
      } else {
        return None;
      }
      RootPresent(Flat(), tries, currentEdgeIdx);
      assert cursorCheckpoints[..checkpointIdx] == if checkpointIdx == 0 then [] else [0];
      r := SearchLoop(url, currentEdgeIdx, cursorCheckpoints, checkpointIdx, cursor);
    }

    /** The loop of the search, from the edge the first byte selects. It stays inside every
        pool and array, and ends because each edge leads to a smaller node id. */
    method SearchLoop(url: seq<byte>, firstEdgeIdx: uint16, cursorCheckpoints: array<int>, firstCheckpointIdx: int,
                      firstCursor: int)
      returns (r: Option<RouteNode>)
      requires firstEdgeIdx < |edgePool| && edgePool[firstEdgeIdx].rollback == 0
      requires 0 <= firstCheckpointIdx <= cursorCheckpoints.Length == MAX_WILDCARDS
      requires Run(Flat(), url, edgePool[firstEdgeIdx], firstCursor, cursorCheckpoints[..firstCheckpointIdx]) != Panic
      modifies cursorCheckpoints
      ensures old(Run(Flat(), url, edgePool[firstEdgeIdx], firstCursor, cursorCheckpoints[..firstCheckpointIdx]))
           == if r.Some? then Found(r.value.payload) else NotFound
    {
      hide Run, Scan, Locate;
      var currentEdgeIdx, checkpointIdx, cursor := firstEdgeIdx, firstCheckpointIdx, firstCursor;
      ghost var p, starts := Flat(), cursorCheckpoints[..checkpointIdx];
      ghost var goal := Run(p, url, edgePool[firstEdgeIdx], firstCursor, starts);
      assert edgePool[currentEdgeIdx].(rollback := 0) == edgePool[currentEdgeIdx];
      while true
        invariant 0 <= currentEdgeIdx < |edgePool| && 0 <= checkpointIdx <= MAX_WILDCARDS
        invariant starts == cursorCheckpoints[..checkpointIdx]
        invariant Run(p, url, edgePool[currentEdgeIdx].(rollback := 0), cursor, starts) == goal
        decreases edgePool[currentEdgeIdx].target
      {
        var edge := edgePool[currentEdgeIdx];
        ghost var e := edge.(rollback := 0);
        RunStep(p, url, e, cursor, starts);
        var node := nodePool[edge.target];

        if fragmentPool[edge.offset] >= FIRST_LITERAL {
          if cursor == |url| && node.payload.methods != 0 {
            return Some(node);
          }
        } else if cursor < |url| && node.payload.methods != 0
                  && (node.edgeCount == 0 || edgePool[node.edgeOffset].rollback != 0) {
          return Some(node);
        }

        var matched := false;
        var i := 0;
        while i < node.edgeCount && !matched
          invariant 0 <= i <= node.edgeCount && 0 <= checkpointIdx <= MAX_WILDCARDS
          invariant 0 <= currentEdgeIdx < |edgePool|
          invariant starts == cursorCheckpoints[..checkpointIdx]
          invariant !matched ==> 0 <= cursor <= |url| && Scan(p, url, e, cursor, starts, i) == goal
          invariant matched ==> edgePool[currentEdgeIdx].target < edge.target
          invariant matched ==> Run(p, url, edgePool[currentEdgeIdx].(rollback := 0), cursor, starts) == goal
          decreases !matched, node.edgeCount - i
        {
          ScanStep(p, url, e, cursor, starts, i);
          var childEdgeIdx := node.edgeOffset + i;
          var childEdge := edgePool[childEdgeIdx];
          if IsWild(fragmentPool[childEdge.offset]) {
            if childEdge.rollback >= 0 {
              cursor := cursor - childEdge.rollback;
            } else {
              var packed := -1 - childEdge.rollback;
              checkpointIdx := packed % CHECKPOINT_BASE;
              cursor := cursorCheckpoints[checkpointIdx] - packed / CHECKPOINT_BASE;
              starts := starts[..checkpointIdx];
            }
            cursorCheckpoints[checkpointIdx] := cursor;
            checkpointIdx := checkpointIdx + 1;
            starts := starts + [cursor];
            currentEdgeIdx := childEdgeIdx;
            matched := true;
          } else {
            var childFrag := fragmentPool[childEdge.offset..childEdge.end];
            var at := Locate(fragmentPool[edge.offset], childFrag, url, cursor);
            if at.Some? {
              cursor := at.value;
              currentEdgeIdx := childEdgeIdx;
              matched := true;
            } else {
              i := i + 1;
            }
          }
        }
        if !matched {
          ScanEnds(p, url, e, cursor, starts);
          return None;
        }
      }
    }
  }
}
