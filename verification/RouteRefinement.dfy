/**
 The machine over the pools computes the recursive reference search: whenever the pools
 hold a compiled branch, running its edge gives what `Find` gives, and where `Find` gives
 up the run goes on exactly at the branch's failure link.
 */
module RouteRefinement {
  import opened Common
  import opened RouteTrie
  import opened RoutePools

  ghost predicate Request(u: seq<byte>) {
    forall i :: 0 <= i < |u| ==> u[i] >= FIRST_LITERAL
  }

  /** No fragment below starts with a zero byte, which the pools take for a wildcard. */
  ghost predicate Headed(t: Trie)
    decreases t
  {
    forall i :: 0 <= i < |t.edges| ==> HeadedEdge(t, i)
  }

  ghost predicate HeadedEdge(t: Trie, i: nat)
    requires i < |t.edges|
    decreases t, 0
  {
    t.edges[i].Head() != 0 && Headed(t.edges[i].node)
  }

  ghost predicate RootsHeaded(roots: map<byte, Trie>) {
    0 !in roots && forall i: byte :: i in roots ==> Headed(roots[i])
  }

  /** What the search is proved for: urls with no wildcard byte in front, and no zero byte unless
      no fragment starts with one. */
  ghost predicate Searchable(roots: map<byte, Trie>, u: seq<byte>) {
    (u != [] ==> !IsWild(u[0])) && (0 !in u || RootsHeaded(roots))
  }

  ghost function Answer(found: Option<Payload>, otherwise: Outcome): Outcome {
    if found.Some? then Found(found.value) else otherwise
  }

  /** Branch `b`, lying `depth` wildcards deep at the end of pattern prefix `w`. */
  ghost predicate Placed(b: Branch, w: seq<byte>, depth: nat) {
    && 0 < |b.fragment| <= |w| && w[|w| - |b.fragment|..] == b.fragment
    && (b.Wild() ==> |b.fragment| == 1 && depth > 0)
    && Shaped(b.node) && Bounded(b.node, w)
    && depth <= WildcardCount(w)
  }

  /** The state the machine is in when it enters branch `b`. */
  ghost predicate Entered(b: Branch, own: Graft, depth: nat, u: seq<byte>, c: nat, starts: seq<int>) {
    && (0 !in u || Headed(b.node)) && c <= |u| && |starts| == depth
    && (if b.Wild() then depth > 0 && starts[depth - 1] == c else b.Head() >= FIRST_LITERAL)
    && (own.Graft? ==> own.checkpoint < depth && (b.Wild() ==> own.checkpoint >= 0))
  }

  lemma WildcardCountSingle(b: byte)
    ensures WildcardCount([b]) == if IsWild(b) then 1 else 0
  {
    assert [b][..0] == [];
  }

  /** A child is placed one fragment further; only a wildcard child is one deeper, and a
      wildcard has none. */
  lemma ChildPlaced(b: Branch, w: seq<byte>, depth: nat, i: nat)
    requires Placed(b, w, depth) && i < |b.node.edges|
    ensures var child := b.node.edges[i];
            && Placed(child, w + child.fragment, Deeper(child, depth))
            && !(b.Wild() && child.Wild())
            && depth <= MAX_WILDCARDS && (child.Wild() ==> depth < MAX_WILDCARDS)
  {
    var child := b.node.edges[i];
    var w' := w + child.fragment;
    assert ShapedEdge(b.node, i) && BoundedEdge(b.node, w, i);
    assert Shaped(child.node) && Bounded(child.node, w');
    WildcardCountConcat(w, child.fragment);
    WildcardCountSingle(child.Head());
    assert w'[|w|..] == child.fragment;
    if child.Wild() {
      assert child.fragment == [child.Head()];
    }
    assert w'[|w| - 1] == w[|w| - 1] == b.fragment[|b.fragment| - 1];
  }

  /** The two parts of a rollback field come apart again. */
  lemma PackedRoundTrip(checkpoint: nat, length: nat)
    requires checkpoint < MAX_WILDCARDS
    ensures var packed := checkpoint + length * CHECKPOINT_BASE;
            packed % CHECKPOINT_BASE == checkpoint && packed / CHECKPOINT_BASE == length
  {
  }

  /** Scanning onto a graft edge follows the failure link it was made from. */
  lemma GraftEdgeFollows(p: Pools, u: seq<byte>, e: Edge, c: nat, starts: seq<int>, g: Graft)
    requires EdgeOk(p, e, |p.nodes|) && c <= |u|
    requires var n := p.nodes[e.target];
             && n.edgeOffset + n.edgeCount <= |p.edges| && n.edgeCount > 0
             && g.Graft? && g.Packable()
             && p.edges[n.edgeOffset + n.edgeCount - 1] == g.ToEdge()
    requires GraftOk(p, g, e.target)
    ensures Scan(p, u, e, c, starts, p.nodes[e.target].edgeCount - 1) == Follow(p, g, u, c, starts)
  {
    hide Run, Locate;
    var link := g.ToEdge();
    assert link.(rollback := 0) == g.target;
    if g.checkpoint >= 0 {
      PackedRoundTrip(g.checkpoint, g.length);
    }
  }

  /** Following a child's own failure link from behind its fragment is following the link
      it inherited from its parent's position. */
  lemma BehindFollows(p: Pools, u: seq<byte>, g: Graft, b: Branch, child: Branch, depth: nat, c: nat, at: nat,
                      starts: seq<int>)
    requires child.fragment != [] && |starts| == depth
    requires g.Graft? ==> g.checkpoint < depth
    requires c <= |u|
    requires if child.Wild() then at == c
             else Locate(b.Head(), child.fragment, u, c) == Some(at) && (b.Wild() && g.Graft? ==> g.checkpoint >= 0)
    ensures var own := g.Behind(child.fragment, Deeper(child, depth));
            var starts' := if child.Wild() then starts + [c] else starts;
            Follow(p, own, u, at, starts') == Follow(p, g, u, c, starts)
  {
    if child.Wild() && g.Graft? {
      assert (starts + [c])[..depth] == starts;
      if g.checkpoint >= 0 {
        assert (starts + [c])[..g.checkpoint] == starts[..g.checkpoint];
      }
    }
  }

  /** The clone of a wildcard route accepts a non-empty rest and otherwise goes on at the
      route's own failure link. */
  lemma CloneRun(p: Pools, b: Branch, own: Graft, clone: Edge, depth: nat, u: seq<byte>, c: nat, starts: seq<int>)
    requires b.Wild() && b.node.payload.methods != 0 && clone.rollback == 0
    requires CloneOk(p, b, own, clone)
    requires Entered(b, own, depth, u, c, starts) && depth <= MAX_WILDCARDS
    ensures Follow(p, Graft(clone, depth - 1, 0), u, c, starts)
         == Answer(if c < |u| then Some(b.node.payload) else None, Follow(p, own, u, c, starts))
  {
    assert starts[..depth - 1] + [c] == starts;
    assert p.frags[clone.offset] == p.frags[clone.offset..clone.end][0];
    var n := p.nodes[clone.target];
    assert n.edgeCount == |Out(p, clone)|;
    assert Follow(p, Graft(clone, depth - 1, 0), u, c, starts) == Run(p, u, clone, c, starts);
    assert p.frags[clone.offset] == b.Head();
    if own.Graft? {
      assert Out(p, clone)[0] == p.edges[n.edgeOffset];
      GraftEdgeFollows(p, u, clone, c, starts, own);
      assert Run(p, u, clone, c, starts)
         == Answer(if c < |u| then Some(b.node.payload) else None, Follow(p, own, u, c, starts));
    } else {
      assert Scan(p, u, clone, c, starts, 0) == NotFound;
      assert Run(p, u, clone, c, starts)
         == Answer(if c < |u| then Some(b.node.payload) else None, Follow(p, own, u, c, starts));
    }
  }

  /** Failing behind all real edges of `b`: only its own wildcard rest is left. */
  lemma LinkRun(p: Pools, b: Branch, own: Graft, link: Graft, depth: nat, u: seq<byte>, c: nat, starts: seq<int>)
    requires Entered(b, own, depth, u, c, starts) && depth <= MAX_WILDCARDS
    requires if NeedsClone(b)
             then link.Graft? && link == Graft(link.target, depth - 1, 0) && link.target.rollback == 0
               && CloneOk(p, b, own, link.target)
             else link == own
    requires b.Wild() && b.node.edges == [] && b.node.payload.methods != 0 ==> c == |u|
    ensures Follow(p, link, u, c, starts)
         == Answer(FindFrom(b, |b.node.edges|, u, c), Follow(p, own, u, c, starts))
  {
    if NeedsClone(b) {
      CloneRun(p, b, own, link.target, depth, u, c, starts);
    }
  }

  /** The outgoing edge of `e` that stands for child `k`. */
  ghost predicate ChildEdge(p: Pools, b: Branch, e: Edge, k: nat) {
    && k < |b.node.edges| && b.node.edges[k].fragment != []
    && e.target < |p.nodes|
    && var n := p.nodes[e.target];
       && k < n.edgeCount && k < |Out(p, e)| && n.edgeOffset + n.edgeCount <= |p.edges|
       && var edge := Out(p, e)[k];
          && p.edges[n.edgeOffset + k] == edge
          && EdgeOk(p, edge, e.target) && edge.rollback == 0
          && FragmentAt(p, edge, b.node.edges[k].fragment)
          && p.frags[edge.offset] == b.node.edges[k].Head()
  }

  lemma CompiledChild(p: Pools, b: Branch, own: Graft, depth: nat, e: Edge, k: nat)
    requires Compiled(p, b, own, depth, e) && k < |b.node.edges|
    ensures ChildEdge(p, b, e, k)
    ensures Compiled(p, b.node.edges[k], ChildGraft(p, b, own, depth, e, k), Deeper(b.node.edges[k], depth),
            Out(p, e)[k])
  {
    var child := b.node.edges[k];
    var edge := Out(p, e)[k];
    assert ChildCompiled(p, b, own, depth, e, k);
    assert Compiled(p, child, ChildGraft(p, b, own, depth, e, k), Deeper(child, depth), edge);
    assert p.frags[edge.offset] == p.frags[edge.offset..edge.end][0];
  }

  /** Behind the last real edge the machine meets the graft edge or the end. */
  lemma ScanEnd(p: Pools, b: Branch, own: Graft, depth: nat, e: Edge, u: seq<byte>, c: nat, starts: seq<int>)
    requires NodeCompiled(p, b, own, depth, e) && depth <= MAX_WILDCARDS
    requires Entered(b, own, depth, u, c, starts)
    requires b.Wild() && b.node.edges == [] && b.node.payload.methods != 0 ==> c == |u|
    ensures Scan(p, u, e, c, starts, |b.node.edges|)
         == Answer(FindFrom(b, |b.node.edges|, u, c), Follow(p, own, u, c, starts))
  {
    var n := p.nodes[e.target];
    var out := Out(p, e);
    var link := Link(p, b, own, depth, e);
    LinkRun(p, b, own, link, depth, u, c, starts);
    assert n.edgeCount == |out|;
    if link.Graft? {
      assert out[|b.node.edges|] == p.edges[n.edgeOffset + |b.node.edges|];
      GraftEdgeFollows(p, u, e, c, starts, link);
    }
  }

  /** The failure link a child inherits leads to where a scan behind it would arrive. */
  lemma InheritedFollows(p: Pools, b: Branch, own: Graft, depth: nat, e: Edge,
                         u: seq<byte>, c: nat, starts: seq<int>, k: nat)
    requires NodeCompiled(p, b, own, depth, e) && k < |b.node.edges| && depth <= MAX_WILDCARDS
    requires Entered(b, own, depth, u, c, starts)
    requires var j := NextWild(b.node.edges, k + 1);
             && (j < |b.node.edges| ==> ChildEdge(p, b, e, j) && !b.Wild())
             && Scan(p, u, e, c, starts, j) == Answer(FindFrom(b, j, u, c), Follow(p, own, u, c, starts))
    ensures var g := Inherited(b, Out(p, e), Link(p, b, own, depth, e), k);
            && (g.Graft? ==> g.checkpoint < depth && (b.Wild() ==> g.checkpoint >= 0))
            && Follow(p, g, u, c, starts)
               == Answer(FindFrom(b, NextWild(b.node.edges, k + 1), u, c), Follow(p, own, u, c, starts))
  {
    hide Run, Find, FindFrom, Locate, Scan, ChildEdge;
    var j := NextWild(b.node.edges, k + 1);
    if j == |b.node.edges| {
      LinkRun(p, b, own, Link(p, b, own, depth, e), depth, u, c, starts);
    } else {
      WildSibling(p, b, e, u, c, starts, j);
    }
  }

  /** A link to a wildcard child leads where a scan at that child goes. */
  lemma WildSibling(p: Pools, b: Branch, e: Edge, u: seq<byte>, c: nat, starts: seq<int>, j: nat)
    requires ChildEdge(p, b, e, j) && b.node.edges[j].Wild()
    requires EdgeOk(p, e, |p.nodes|) && c <= |u| && j <= p.nodes[e.target].edgeCount
    requires p.nodes[e.target].edgeOffset + p.nodes[e.target].edgeCount <= |p.edges|
    ensures Follow(p, Graft(Out(p, e)[j], -1, 0), u, c, starts) == Scan(p, u, e, c, starts, j)
  {
    hide Run, Locate;
    assert Out(p, e)[j].(rollback := 0) == Out(p, e)[j];
  }

  /** Main result: running a compiled branch finds what the reference search finds. */
  lemma {:induction false} CompiledRun(p: Pools, b: Branch, own: Graft, depth: nat, e: Edge,
                                       w: seq<byte>, u: seq<byte>, c: nat, starts: seq<int>)
    requires Compiled(p, b, own, depth, e) && Placed(b, w, depth)
    requires Entered(b, own, depth, u, c, starts)
    ensures Run(p, u, e, c, starts) == Answer(Find(b, u, c), Follow(p, own, u, c, starts))
    decreases b, |b.node.edges| + 1, 0
  {
    var n := p.nodes[e.target];
    var out := Out(p, e);
    assert p.frags[e.offset] == p.frags[e.offset..e.end][0] == b.Head();
    assert n.edgeCount == |out| && (out != [] ==> out[0] == p.edges[n.edgeOffset]);
    if b.node.edges != [] {
      CompiledChild(p, b, own, depth, e, 0);
    }
    if !Accepts(p, e, n, u, c) {
      CompiledScan(p, b, own, depth, e, w, u, c, starts, 0);
    }
  }

  lemma {:induction false} CompiledScan(p: Pools, b: Branch, own: Graft, depth: nat, e: Edge,
                                        w: seq<byte>, u: seq<byte>, c: nat, starts: seq<int>, k: nat)
    requires Compiled(p, b, own, depth, e) && Placed(b, w, depth)
    requires Entered(b, own, depth, u, c, starts)
    requires b.Wild() && b.node.edges == [] && b.node.payload.methods != 0 ==> c == |u|
    requires k <= |b.node.edges|
    ensures Scan(p, u, e, c, starts, k) == Answer(FindFrom(b, k, u, c), Follow(p, own, u, c, starts))
    decreases b, |b.node.edges| - k, 1
  {
    hide Run, Scan, Find, FindFrom;
    if k == |b.node.edges| {
      ScanEnd(p, b, own, depth, e, u, c, starts);
    } else {
      CompiledChild(p, b, own, depth, e, k);
      var child := b.node.edges[k];
      var at := if child.Wild() then Some(c) else Locate(b.Head(), child.fragment, u, c);
      if at.None? {
        CompiledScan(p, b, own, depth, e, w, u, c, starts, k + 1);
        ScanSkips(p, b, own, depth, e, u, c, starts, k);
      } else {
        ChildPlaced(b, w, depth, k);
        CompiledFallback(p, b, own, depth, e, w, u, c, starts, k);
        CompiledInner(p, b, own, depth, e, w, u, c, starts, k, at.value);
        ScanCommits(p, b, own, depth, e, u, c, starts, k, at.value);
      }
    }
  }

  /** Where the link that child `k` inherits leads, the later siblings being right. */
  lemma {:induction false} CompiledFallback(p: Pools, b: Branch, own: Graft, depth: nat, e: Edge,
                                            w: seq<byte>, u: seq<byte>, c: nat, starts: seq<int>, k: nat)
    requires Compiled(p, b, own, depth, e) && Placed(b, w, depth)
    requires Entered(b, own, depth, u, c, starts)
    requires b.Wild() && b.node.edges == [] && b.node.payload.methods != 0 ==> c == |u|
    requires k < |b.node.edges|
    ensures var g := Inherited(b, Out(p, e), Link(p, b, own, depth, e), k);
            && (g.Graft? ==> g.checkpoint < depth && (b.Wild() ==> g.checkpoint >= 0))
            && Follow(p, g, u, c, starts)
               == Answer(FindFrom(b, NextWild(b.node.edges, k + 1), u, c), Follow(p, own, u, c, starts))
    decreases b, |b.node.edges| - k, 0
  {
    hide Run, Scan, Find, FindFrom;
    var j := NextWild(b.node.edges, k + 1);
    CompiledScan(p, b, own, depth, e, w, u, c, starts, j);
    if j < |b.node.edges| {
      CompiledChild(p, b, own, depth, e, j);
      ChildPlaced(b, w, depth, j);
    }
    InheritedFollows(p, b, own, depth, e, u, c, starts, k);
  }

  /** The run below child `k`, entered with the cursor at `at`. */
  lemma {:induction false} CompiledInner(p: Pools, b: Branch, own: Graft, depth: nat, e: Edge,
                                         w: seq<byte>, u: seq<byte>, c: nat, starts: seq<int>, k: nat, at: nat)
    requires Compiled(p, b, own, depth, e) && Placed(b, w, depth)
    requires Entered(b, own, depth, u, c, starts)
    requires k < |b.node.edges| && ChildEdge(p, b, e, k)
    requires var child := b.node.edges[k];
             if child.Wild() then at == c && depth < MAX_WILDCARDS
             else Locate(b.Head(), child.fragment, u, c) == Some(at)
    requires var g := Inherited(b, Out(p, e), Link(p, b, own, depth, e), k);
             g.Graft? ==> g.checkpoint < depth && (b.Wild() ==> g.checkpoint >= 0)
    ensures at <= |u|
    ensures var child := b.node.edges[k];
            var starts' := if child.Wild() then starts + [c] else starts;
            Run(p, u, Out(p, e)[k], at, starts')
              == Answer(Find(child, u, at), Follow(p, ChildGraft(p, b, own, depth, e, k), u, at, starts'))
    decreases b, 0, 0
  {
    hide Run, Scan, Find, FindFrom, Follow, IndexOf;
    var child := b.node.edges[k];
    CompiledChild(p, b, own, depth, e, k);
    ChildPlaced(b, w, depth, k);
    if !child.Wild() {
      assert child.Head() == u[at - |child.fragment|..at][0] == u[at - |child.fragment|];
    }
    assert Headed(b.node) ==> HeadedEdge(b.node, k);
    CompiledRun(p, child, ChildGraft(p, b, own, depth, e, k), Deeper(child, depth), Out(p, e)[k], w + child.fragment,
                u, at, if child.Wild() then starts + [c] else starts);
  }

  lemma ScanSkips(p: Pools, b: Branch, own: Graft, depth: nat, e: Edge,
                  u: seq<byte>, c: nat, starts: seq<int>, k: nat)
    requires NodeCompiled(p, b, own, depth, e) && ChildEdge(p, b, e, k) && c <= |u|
    requires !b.node.edges[k].Wild() && Locate(b.Head(), b.node.edges[k].fragment, u, c).None?
    ensures Scan(p, u, e, c, starts, k) == Scan(p, u, e, c, starts, k + 1)
    ensures FindFrom(b, k, u, c) == FindFrom(b, k + 1, u, c)
  {
    assert p.frags[e.offset] == p.frags[e.offset..e.end][0] == b.Head();
  }

  /** The scan commits to child `k` when that is a wildcard or a literal that fits. */
  lemma ScanCommits(p: Pools, b: Branch, own: Graft, depth: nat, e: Edge,
                    u: seq<byte>, c: nat, starts: seq<int>, k: nat, at: nat)
    requires NodeCompiled(p, b, own, depth, e) && depth < MAX_WILDCARDS + 1
    requires ChildEdge(p, b, e, k)
    requires Entered(b, own, depth, u, c, starts)
    requires var child := b.node.edges[k];
             var g := Inherited(b, Out(p, e), Link(p, b, own, depth, e), k);
             var starts' := if child.Wild() then starts + [c] else starts;
             && (g.Graft? ==> g.checkpoint < depth && (b.Wild() ==> g.checkpoint >= 0))
             && (if child.Wild() then at == c && depth < MAX_WILDCARDS
                 else Locate(b.Head(), child.fragment, u, c) == Some(at))
             && Follow(p, g, u, c, starts)
                == Answer(FindFrom(b, NextWild(b.node.edges, k + 1), u, c), Follow(p, own, u, c, starts))
             && at <= |u|
             && Run(p, u, Out(p, e)[k], at, starts')
                == Answer(Find(child, u, at), Follow(p, ChildGraft(p, b, own, depth, e, k), u, at, starts'))
    ensures Scan(p, u, e, c, starts, k) == Answer(FindFrom(b, k, u, c), Follow(p, own, u, c, starts))
  {
    hide Run, Scan, Find, FindFrom, Locate, Follow;
    var child := b.node.edges[k];
    BehindFollows(p, u, Inherited(b, Out(p, e), Link(p, b, own, depth, e), k), b, child, depth, c, at, starts);
    assert p.frags[e.offset] == p.frags[e.offset..e.end][0] == b.Head();
    FindTakes(b, u, c, k, at);
    ScanTakes(p, b, e, u, c, starts, k, at);
  }

  /** The search tries child `k` and then the wildcards behind it. */
  lemma FindTakes(b: Branch, u: seq<byte>, c: nat, k: nat, at: nat)
    requires k < |b.node.edges| && c <= |u| && at <= |u|
    requires var child := b.node.edges[k];
             if child.Wild() then at == c else Locate(b.Head(), child.fragment, u, c) == Some(at)
    ensures var found := Find(b.node.edges[k], u, at);
            FindFrom(b, k, u, c)
            == if found.Some? then found else FindFrom(b, NextWild(b.node.edges, k + 1), u, c)
  {
    hide Find, Locate;
  }

  /** So does the scan: it runs on from child `k`. */
  lemma ScanTakes(p: Pools, b: Branch, e: Edge, u: seq<byte>, c: nat, starts: seq<int>, k: nat, at: nat)
    requires ChildEdge(p, b, e, k) && EdgeOk(p, e, |p.nodes|) && c <= |u| && p.frags[e.offset] == b.Head()
    requires p.nodes[e.target].edgeOffset + p.nodes[e.target].edgeCount <= |p.edges|
    requires var child := b.node.edges[k];
             if child.Wild() then at == c && |starts| < MAX_WILDCARDS
             else Locate(b.Head(), child.fragment, u, c) == Some(at)
    ensures Scan(p, u, e, c, starts, k)
         == Run(p, u, Out(p, e)[k], at, if b.node.edges[k].Wild() then starts + [c] else starts)
  {
    hide Run, Locate;
    var edge := Out(p, e)[k];
    assert edge.(rollback := 0) == edge;
    assert b.node.edges[k].fragment == p.frags[edge.offset..edge.end];
  }

  // ---------------------------------------------------------------- the whole tree

  function RootDepth(i: byte): nat {
    if IsWild(i) then 1 else 0
  }

  /** The failure link that root `i` is compiled under. */
  ghost function RootGraft(p: Pools, roots: map<byte, Trie>, i: byte): Graft
    requires ROOT_EDGES <= |p.edges|
  {
    if STAR < i && STAR in roots then Graft(p.edges[STAR], -1, 0)
    else if GREEDY < i && GREEDY in roots then Graft(p.edges[GREEDY], -1, 0)
    else NoGraft
  }

  ghost predicate RootCompiled(p: Pools, roots: map<byte, Trie>, i: byte)
    requires ROOT_EDGES <= |p.edges|
  {
    if i in roots then
      Compiled(p, Branch([i], roots[i]), RootGraft(p, roots, i).Behind([i], RootDepth(i)), RootDepth(i), p.edges[i])
    else p.edges[i].target == 0
  }

  /** The pools hold exactly the tries `roots`, one for each first byte. */
  ghost predicate Holds(p: Pools, roots: map<byte, Trie>) {
    ROOT_EDGES <= |p.edges| && forall i: byte :: RootCompiled(p, roots, i)
  }

  ghost predicate RootPlaced(roots: map<byte, Trie>, i: byte) {
    i in roots ==> Placed(Branch([i], roots[i]), [i], RootDepth(i))
  }

  ghost predicate RootsPlaced(roots: map<byte, Trie>) {
    forall i: byte :: RootPlaced(roots, i)
  }

  /** Where the search starts, and what comes out of it. */
  ghost function Start(p: Pools, u: seq<byte>): Outcome
    requires ROOT_EDGES <= |p.edges|
  {
    if u == [] then NotFound
    else if p.edges[u[0]].target != 0 then Run(p, u, p.edges[u[0]], 1, [])
    else if p.edges[STAR].target != 0 then Run(p, u, p.edges[STAR], 0, [0])
    else if p.edges[GREEDY].target != 0 then Run(p, u, p.edges[GREEDY], 0, [0])
    else NotFound
  }

  /** A root's failure link leads from the very start of the url. */
  lemma RootFollows(p: Pools, roots: map<byte, Trie>, i: byte, u: seq<byte>)
    requires ROOT_EDGES <= |p.edges|
    ensures Follow(p, RootGraft(p, roots, i).Behind([i], RootDepth(i)), u,
                   if IsWild(i) then 0 else 1, if IsWild(i) then [0] else [])
         == if STAR < i && STAR in roots then Run(p, u, p.edges[STAR], 0, [0])
            else if GREEDY < i && GREEDY in roots then Run(p, u, p.edges[GREEDY], 0, [0])
            else NotFound
  {
    assert [0][..0] == [] && [] + [0] == [0];
  }

  lemma RootRun(p: Pools, roots: map<byte, Trie>, i: byte, u: seq<byte>)
    requires Holds(p, roots) && RootsPlaced(roots) && Searchable(roots, u) && u != [] && i in roots
    requires IsWild(i) || i == u[0]
    ensures var c, starts := if IsWild(i) then 0 else 1, if IsWild(i) then [0] else [];
            Run(p, u, p.edges[i], c, starts)
              == Answer(Find(Branch([i], roots[i]), u, c),
                        Follow(p, RootGraft(p, roots, i).Behind([i], RootDepth(i)), u, c, starts))
  {
    var c, starts := if IsWild(i) then 0 else 1, if IsWild(i) then [0] else [];
    assert RootCompiled(p, roots, i) && RootPlaced(roots, i);
    CompiledRun(p, Branch([i], roots[i]), RootGraft(p, roots, i).Behind([i], RootDepth(i)), RootDepth(i), p.edges[i],
      [i], u, c, starts);
  }

  lemma RootPresent(p: Pools, roots: map<byte, Trie>, i: byte)
    requires Holds(p, roots)
    ensures i in roots <==> p.edges[i].target != 0
    ensures i in roots ==> p.edges[i].rollback == 0
  {
    assert RootCompiled(p, roots, i);
  }

  /** The pools answer every request as the reference search of the tries does; in
      particular no index the machine uses is ever out of range. */
  lemma SearchRefines(p: Pools, roots: map<byte, Trie>, u: seq<byte>)
    requires Holds(p, roots) && RootsPlaced(roots) && Searchable(roots, u)
    ensures Start(p, u) == Answer(FindRoot(roots, u), NotFound)
  {
    if u != [] {
      WildRootsRefine(p, roots, u);
      RootPresent(p, roots, u[0]);
      if u[0] in roots {
        RootRun(p, roots, u[0], u);
        RootFollows(p, roots, u[0], u);
        assert Branch([u[0]], roots[u[0]]).Head() == u[0];
      }
    }
  }

  /** What the wildcard roots leave of the search, `*` before `**`. */
  lemma WildRootsRefine(p: Pools, roots: map<byte, Trie>, u: seq<byte>)
    requires Holds(p, roots) && RootsPlaced(roots) && Searchable(roots, u) && u != []
    ensures STAR in roots <==> p.edges[STAR].target != 0
    ensures GREEDY in roots <==> p.edges[GREEDY].target != 0
    ensures GREEDY in roots ==>
              Run(p, u, p.edges[GREEDY], 0, [0]) == Answer(Find(Branch([GREEDY], roots[GREEDY]), u, 0), NotFound)
    ensures STAR in roots ==>
              Run(p, u, p.edges[STAR], 0, [0])
              == Answer(Find(Branch([STAR], roots[STAR]), u, 0),
                        if GREEDY in roots then Run(p, u, p.edges[GREEDY], 0, [0]) else NotFound)
  {
    RootPresent(p, roots, STAR);
    RootPresent(p, roots, GREEDY);
    RootFollows(p, roots, STAR, u);
    RootFollows(p, roots, GREEDY, u);
    if STAR in roots { RootRun(p, roots, STAR, u); }
    if GREEDY in roots { RootRun(p, roots, GREEDY, u); }
  }
}
