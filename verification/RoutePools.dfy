/**
 The flattened route tree: pools of nodes, edges and fragment bytes, the machine that
 `Search` runs over them, and what it means for the pools to hold a compiled trie.
 */
module RoutePools {
  import opened Common
  import opened RouteTrie

  /** `rollback` is zero on real edges. On a graft edge a positive value is a number of
      bytes to move the cursor back, a negative one the complement of a packed
      (length, checkpoint) pair. */
  datatype Edge = Edge(target: uint32, offset: uint32, end: uint32, rollback: int32)

  datatype RouteNode = RouteNode(payload: Payload, edgeOffset: uint16, edgeCount: uint16)

  datatype Pools = Pools(nodes: seq<RouteNode>, edges: seq<Edge>, frags: seq<byte>)

  const CHECKPOINT_BASE := 256

  /** The edge pool starts with one slot per first byte of a url. */
  const ROOT_EDGES := 256

  /** The pool sizes that the code's index types can hold. */
  predicate Fits(p: Pools) {
    |p.nodes| <= 0x1_0000_0000 && |p.edges| < 0x1_0000 && |p.frags| < 0x1_0000_0000
  }

  /** Compilation only appends to the pools, and fills the root slots. */
  ghost predicate Extends(p: Pools, q: Pools) {
    && p.nodes <= q.nodes && p.frags <= q.frags && |p.edges| <= |q.edges|
    && forall i :: ROOT_EDGES <= i < |p.edges| ==> q.edges[i] == p.edges[i]
  }

  /** Flattening a node appends, and leaves the root slots alone. */
  ghost predicate Grows(p: Pools, q: Pools) {
    Extends(p, q) && ROOT_EDGES <= |p.edges| && p.edges[..ROOT_EDGES] == q.edges[..ROOT_EDGES]
  }

  // ---------------------------------------------------------------- grafts

  /** A failure link: where to go on when nothing below the current edge matches. With
      `checkpoint < 0` the target starts `length` bytes before the cursor, otherwise
      `length` bytes before the start of the checkpoint's wildcard. */
  datatype Graft =
    | NoGraft
    | Graft(target: Edge, checkpoint: int, length: nat)
  {
    /** The failure link as seen behind `fragment`, which lies `depth` wildcards deep. */
    function Behind(fragment: seq<byte>, depth: nat): Graft
      requires fragment != []
    {
      if NoGraft? || checkpoint >= 0 then this
      else if IsWild(fragment[0]) then this.(checkpoint := depth - 1)
      else this.(length := length + |fragment|)
    }

    /** Only such links can be packed into the rollback field. */
    predicate Packable() {
      Graft? ==>
        && length < MAX_ROUTE_LENGTH
        && checkpoint < MAX_WILDCARDS
        && (checkpoint < 0 ==> length > 0)
    }

    function ToEdge(): (e: Edge)
      requires Graft? && Packable()
      ensures e.rollback != 0
      ensures e.(rollback := target.rollback) == target
    {
      target.(rollback := if checkpoint < 0 then length else -(checkpoint + length * CHECKPOINT_BASE) - 1)
    }
  }

  // ---------------------------------------------------------------- the machine

  /** `Panic` stands for every index the code would read or write out of range. */
  datatype Outcome = Found(payload: Payload) | NotFound | Panic

  ghost predicate EdgeOk(p: Pools, e: Edge, below: nat) {
    0 < e.target < below && e.target < |p.nodes| && e.offset < e.end <= |p.frags|
  }

  ghost predicate WildEdge(p: Pools, e: Edge)
    requires e.offset < |p.frags|
  {
    IsWild(p.frags[e.offset])
  }

  /** The search below edge `e` with the cursor at `c`; `starts` holds where each
      wildcard on the way to `e` began, so `|starts|` is the code's checkpoint index. */
  ghost function Run(p: Pools, u: seq<byte>, e: Edge, c: int, starts: seq<int>): Outcome
    decreases e.target, 0x1_0001
  {
    if !EdgeOk(p, e, |p.nodes|) || !(0 <= c <= |u|) then Panic
    else
      var n := p.nodes[e.target];
      if n.edgeOffset + n.edgeCount > |p.edges| then Panic
      else if Accepts(p, e, n, u, c) then Found(n.payload)
      else Scan(p, u, e, c, starts, 0)
  }

  ghost predicate Accepts(p: Pools, e: Edge, n: RouteNode, u: seq<byte>, c: int)
    requires e.offset < |p.frags| && n.edgeOffset + n.edgeCount <= |p.edges|
  {
    if p.frags[e.offset] >= FIRST_LITERAL then c == |u| && n.payload.methods != 0
    else c < |u| && n.payload.methods != 0 && (n.edgeCount == 0 || p.edges[n.edgeOffset].rollback != 0)
  }

  /** The scan over the outgoing edges of `e`'s node, from number `k` on. */
  ghost function Scan(p: Pools, u: seq<byte>, e: Edge, c: int, starts: seq<int>, k: nat): Outcome
    requires EdgeOk(p, e, |p.nodes|) && 0 <= c <= |u|
    requires p.nodes[e.target].edgeOffset + p.nodes[e.target].edgeCount <= |p.edges|
    requires k <= p.nodes[e.target].edgeCount
    decreases e.target, 0x1_0000 - k
  {
    var n := p.nodes[e.target];
    if k == n.edgeCount then NotFound
    else
      var child := p.edges[n.edgeOffset + k];
      if !EdgeOk(p, child, e.target) then Panic
      else if WildEdge(p, child) then
        var (c', starts') := Jump(child.rollback, c, starts);
        Resume(p, u, child.(rollback := 0), c', starts')
      else
        var at := Locate(p.frags[e.offset], p.frags[child.offset..child.end], u, c);
        if at.Some? then Run(p, u, child.(rollback := 0), at.value, starts) else Scan(p, u, e, c, starts, k + 1)
  }

  /** Cursor and remaining checkpoints after following a rollback; a cursor of -1 marks a
      checkpoint that does not exist. */
  ghost function Jump(rollback: int32, c: int, starts: seq<int>): (int, seq<int>) {
    if rollback >= 0 then (c - rollback, starts)
    else
      var packed := -1 - rollback;
      var checkpoint := packed % CHECKPOINT_BASE;
      if checkpoint < |starts| then (starts[checkpoint] - packed / CHECKPOINT_BASE, starts[..checkpoint])
      else (-1, starts)
  }

  /** Enter wildcard edge `e` at cursor `c` and record where its gap starts. */
  ghost function Resume(p: Pools, u: seq<byte>, e: Edge, c: int, starts: seq<int>): Outcome
    decreases e.target, 0x1_0002
  {
    if 0 <= c && |starts| < MAX_WILDCARDS then Run(p, u, e, c, starts + [c]) else Panic
  }

  /** Where a search goes on that failed behind the edge that `g` belongs to. */
  ghost function Follow(p: Pools, g: Graft, u: seq<byte>, c: int, starts: seq<int>): Outcome {
    match g
    case NoGraft => NotFound
    case Graft(target, checkpoint, length) =>
      if checkpoint < 0 then Resume(p, u, target, c - length, starts)
      else if checkpoint < |starts| then Resume(p, u, target, starts[checkpoint] - length, starts[..checkpoint])
      else Panic
  }

  // ---------------------------------------------------------------- compiled tries

  ghost predicate FragmentAt(p: Pools, e: Edge, fragment: seq<byte>) {
    e.offset < e.end <= |p.frags| && p.frags[e.offset..e.end] == fragment
  }

  /** The outgoing edges of `e`'s node. */
  ghost function Out(p: Pools, e: Edge): seq<Edge> {
    if e.target < |p.nodes| && p.nodes[e.target].edgeOffset + p.nodes[e.target].edgeCount <= |p.edges|
    then p.edges[p.nodes[e.target].edgeOffset..][..p.nodes[e.target].edgeCount]
    else []
  }

  /** A wildcard route that also has edges is accepted through a node of its own. */
  ghost predicate NeedsClone(b: Branch) {
    b.Wild() && b.node.payload.methods != 0 && b.node.edges != []
  }

  function Deeper(b: Branch, depth: nat): nat {
    if b.Wild() then depth + 1 else depth
  }

  /** The outgoing edges `out` end with the failure link `link`, if there is one. */
  ghost predicate EndsWith(out: seq<Edge>, count: nat, link: Graft) {
    && link.Packable()
    && |out| == count + (if link.Graft? then 1 else 0)
    && (link.Graft? ==> out[count] == link.ToEdge())
  }

  ghost predicate GraftOk(p: Pools, g: Graft, below: nat) {
    g.Graft? ==> EdgeOk(p, g.target, below) && WildEdge(p, g.target) && g.target.rollback == 0
  }

  /** Node `id` accepts the non-empty rest of wildcard route `b`, else follows `own`. */
  ghost predicate CloneOk(p: Pools, b: Branch, own: Graft, e: Edge) {
    && EdgeOk(p, e, |p.nodes|)
    && FragmentAt(p, e, [b.Head()])
    && p.nodes[e.target].payload == b.node.payload
    && ROOT_EDGES <= p.nodes[e.target].edgeOffset
    && p.nodes[e.target].edgeOffset + p.nodes[e.target].edgeCount <= |p.edges|
    && EndsWith(Out(p, e), 0, own)
    && GraftOk(p, own, e.target)
  }

  /** Edge `e` and its node are right for branch `b`, its children left aside. */
  ghost predicate NodeCompiled(p: Pools, b: Branch, own: Graft, depth: nat, e: Edge) {
    && b.fragment != []
    && EdgeOk(p, e, |p.nodes|)
    && e.rollback == 0
    && FragmentAt(p, e, b.fragment)
    && p.nodes[e.target].payload == b.node.payload
    && ROOT_EDGES <= p.nodes[e.target].edgeOffset
    && p.nodes[e.target].edgeOffset + p.nodes[e.target].edgeCount <= |p.edges|
    && EndsWith(Out(p, e), |b.node.edges|, Link(p, b, own, depth, e))
    && GraftOk(p, Link(p, b, own, depth, e), e.target)
    && (NeedsClone(b) ==> CloneOk(p, b, own, Link(p, b, own, depth, e).target))
  }

  /** The failure link of `e`'s node when branch `b` leaves `own` behind: its clone, found
      through the last outgoing edge, if it needs one. */
  ghost function Link(p: Pools, b: Branch, own: Graft, depth: nat, e: Edge): Graft {
    var out := Out(p, e);
    if NeedsClone(b) && out != [] then Graft(out[|out| - 1].(rollback := 0), depth - 1, 0) else own
  }

  /** The failure link child `i` inherits: the next wildcard sibling, else the node's own. */
  ghost function Inherited(b: Branch, out: seq<Edge>, link: Graft, i: nat): Graft
    requires i < |b.node.edges| <= |out|
  {
    var j := NextWild(b.node.edges, i + 1);
    if j < |b.node.edges| then Graft(out[j], -1, 0) else link
  }

  /** Edge `e` of the pools is branch `b`, compiled with failure link `own` behind its
      fragment and `depth` wildcards on the way to it (itself included). */
  ghost predicate Compiled(p: Pools, b: Branch, own: Graft, depth: nat, e: Edge)
    decreases b
  {
    && NodeCompiled(p, b, own, depth, e)
    && forall i :: 0 <= i < |b.node.edges| ==> ChildCompiled(p, b, own, depth, e, i)
  }

  ghost predicate ChildCompiled(p: Pools, b: Branch, own: Graft, depth: nat, e: Edge, i: nat)
    requires i < |b.node.edges| && NodeCompiled(p, b, own, depth, e)
    decreases b, 0
  {
    var child := b.node.edges[i];
    && child.fragment != []
    && Out(p, e)[i].target < e.target
    && Compiled(p, child, ChildGraft(p, b, own, depth, e, i), Deeper(child, depth), Out(p, e)[i])
  }

  /** The failure link child `i` has behind its fragment. */
  ghost function ChildGraft(p: Pools, b: Branch, own: Graft, depth: nat, e: Edge, i: nat): Graft
    requires i < |b.node.edges| <= |Out(p, e)| && b.node.edges[i].fragment != []
  {
    var child := b.node.edges[i];
    Inherited(b, Out(p, e), Link(p, b, own, depth, e), i).Behind(child.fragment, Deeper(child, depth))
  }

  // ---------------------------------------------------------------- growing pools

  lemma OutExtends(p: Pools, q: Pools, e: Edge)
    requires Extends(p, q) && e.target < |p.nodes|
    requires ROOT_EDGES <= p.nodes[e.target].edgeOffset
    requires p.nodes[e.target].edgeOffset + p.nodes[e.target].edgeCount <= |p.edges|
    ensures Out(q, e) == Out(p, e)
  {
  }

  lemma NodeExtends(p: Pools, q: Pools, b: Branch, own: Graft, depth: nat, e: Edge)
    requires Extends(p, q) && NodeCompiled(p, b, own, depth, e)
    ensures NodeCompiled(q, b, own, depth, e) && Out(q, e) == Out(p, e)
  {
    OutExtends(p, q, e);
    if NeedsClone(b) {
      OutExtends(p, q, Link(p, b, own, depth, e).target);
    }
  }

  /** What is compiled stays compiled while the pools grow. */
  lemma {:induction false} CompiledExtends(p: Pools, q: Pools, b: Branch, own: Graft, depth: nat, e: Edge)
    requires Extends(p, q) && Compiled(p, b, own, depth, e)
    ensures Compiled(q, b, own, depth, e)
    decreases b
  {
    NodeExtends(p, q, b, own, depth, e);
    forall i | 0 <= i < |b.node.edges| ensures ChildCompiled(q, b, own, depth, e, i) {
      assert ChildCompiled(p, b, own, depth, e, i);
      CompiledExtends(p, q, b.node.edges[i], ChildGraft(p, b, own, depth, e, i), Deeper(b.node.edges[i], depth),
        Out(p, e)[i]);
    }
  }
}
