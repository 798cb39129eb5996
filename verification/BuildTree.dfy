/**
 The mutable byte trie that routes are inserted into and that is then path-compressed in
 place.  Proofs keep a view of it, a map from every node to its word (the pattern prefix it
 stands for) and its fields; what the trie is for is the dictionary its words spell.
 */
module BuildTree {
  import opened Common
  import opened RouteTrie

  class BuildNode {
    var edges: seq<BuildEdge>
    var payload: Payload

    constructor ()
      ensures edges == [] && payload == Payload(0, 0, 0)
    {
      edges := [];
      payload := Payload(0, 0, 0);
    }
  }

  datatype BuildEdge = BuildEdge(fragment: seq<byte>, node: BuildNode) {
    function Head(): byte {
      if fragment == [] then 0 else fragment[0]
    }
  }

  /** The nodes reached from `n`, all among `nodes`, have the shape and contents of `t`. */
  ghost predicate Represents(n: BuildNode, t: Trie, nodes: set<BuildNode>)
    reads nodes
    decreases t
  {
    && n in nodes
    && n.payload == t.payload
    && |n.edges| == |t.edges|
    && forall i :: 0 <= i < |t.edges| ==>
         n.edges[i].fragment == t.edges[i].fragment && Represents(n.edges[i].node, t.edges[i].node, nodes)
  }

  // ---------------------------------------------------------------- views

  datatype Cell = Cell(word: seq<byte>, edges: seq<BuildEdge>, payload: Payload)

  type View = map<BuildNode, Cell>

  ghost predicate Mirrors(v: View)
    reads v.Keys
  {
    forall n :: n in v ==> n.edges == v[n].edges && n.payload == v[n].payload
  }

  /** Edge `j` of node `n` spells on from `n`'s word. */
  ghost predicate EdgeSpells(v: View, n: BuildNode, j: nat)
    requires n in v && j < |v[n].edges|
  {
    var e := v[n].edges[j];
    e.fragment != [] && e.node in v && v[e.node].word == v[n].word + e.fragment
  }

  ghost predicate CellOk(v: View, n: BuildNode)
    requires n in v
  {
    && v[n].word != []
    && (forall j :: 0 <= j < |v[n].edges| ==> EdgeSpells(v, n, j))
    && (forall i, j :: 0 <= i < j < |v[n].edges| ==> v[n].edges[i].Head() != v[n].edges[j].Head())
  }

  /** Some edge of `m` leads towards the longer word of `n`. */
  ghost predicate Leads(v: View, m: BuildNode, n: BuildNode, j: nat)
    requires m in v && n in v
  {
    j < |v[m].edges| && v[m].edges[j].node in v && v[v[m].edges[j].node].word <= v[n].word
  }

  ghost predicate Toward(v: View, m: BuildNode, n: BuildNode)
    requires m in v && n in v
  {
    exists j :: Leads(v, m, n, j)
  }

  ghost predicate Injective(v: View) {
    forall m, n :: m in v && n in v && v[m].word == v[n].word ==> m == n
  }

  /** The view is a trie: words follow edges, and differ, and edges reach every word. */
  ghost predicate Spells(v: View) {
    && (forall n :: n in v ==> CellOk(v, n))
    && (forall m, n :: m in v && n in v && v[m].word < v[n].word ==> Toward(v, m, n))
    && Injective(v)
  }

  /** The routes the trie holds. */
  ghost function Dictionary(v: View): map<seq<byte>, Payload> {
    if Injective(v) then map n | n in v && v[n].payload.methods != 0 :: v[n].word := v[n].payload else map[]
  }

  /** Before compression every fragment is a single byte. */
  ghost predicate Bytewise(v: View) {
    forall n, j :: n in v && 0 <= j < |v[n].edges| ==> |v[n].edges[j].fragment| == 1
  }

  ghost predicate RootOk(roots: seq<Option<BuildEdge>>, v: View, i: byte)
    requires |roots| == 256
  {
    match roots[i]
    case None => forall n :: n in v && v[n].word != [] ==> v[n].word[0] != i
    case Some(e) => e.fragment == [i] && e.node in v && v[e.node].word == [i]
  }

  ghost predicate RootsOk(roots: seq<Option<BuildEdge>>, v: View) {
    |roots| == 256 && forall i: byte :: RootOk(roots, v, i)
  }

  // ---------------------------------------------------------------- single changes

  ghost function WithChild(v: View, n: BuildNode, b: byte, child: BuildNode): View
    requires n in v
  {
    v[n := v[n].(edges := v[n].edges + [BuildEdge([b], child)])][child := Cell(v[n].word + [b], [], Payload(0, 0, 0))]
  }

  /** An edge that leads to a word starts with the byte that the word goes on with. */
  lemma LeadingByte(v: View, n: BuildNode, m: BuildNode, j: nat)
    requires n in v && m in v && CellOk(v, n) && Leads(v, n, m, j)
    ensures var f := v[n].edges[j].fragment;
            && f != [] && |v[n].word| < |v[m].word| && f[0] == v[m].word[|v[n].word|]
            && (|f| == 1 ==> f == [v[m].word[|v[n].word|]])
  {
    assert EdgeSpells(v, n, j);
    var f := v[n].edges[j].fragment;
    assert f[0] == (v[n].word + f)[|v[n].word|];
  }

  /** Views that agree on all route-bearing nodes have the same dictionary. */
  lemma SameDictionary(v: View, v': View)
    requires Injective(v) && Injective(v')
    requires forall n :: n in v && v[n].payload.methods != 0 ==>
             n in v' && v'[n].word == v[n].word && v'[n].payload == v[n].payload
    requires forall n :: n in v' && v'[n].payload.methods != 0 ==>
             n in v && v'[n].word == v[n].word && v'[n].payload == v[n].payload
    ensures Dictionary(v') == Dictionary(v)
  {
  }

  /** Without an edge for `b`, no word goes on from `n` with `b`. */
  lemma NoWordBehind(v: View, n: BuildNode, b: byte, m: BuildNode)
    requires Spells(v) && Bytewise(v) && n in v && m in v
    requires forall j :: 0 <= j < |v[n].edges| ==> v[n].edges[j].fragment != [b]
    ensures !(v[n].word + [b] <= v[m].word)
  {
    if v[n].word + [b] <= v[m].word {
      assert Toward(v, n, m);
      var j: nat :| Leads(v, n, m, j);
      LeadingByte(v, n, m, j);
    }
  }

  lemma ChildCellsOk(v: View, n: BuildNode, b: byte, child: BuildNode, m: BuildNode)
    requires Spells(v) && Bytewise(v) && n in v && child !in v && m in WithChild(v, n, b, child)
    requires forall j :: 0 <= j < |v[n].edges| ==> v[n].edges[j].fragment != [b]
    ensures CellOk(WithChild(v, n, b, child), m)
  {
    var v' := WithChild(v, n, b, child);
    if m in v {
      assert CellOk(v, m);
      forall j | 0 <= j < |v'[m].edges| ensures EdgeSpells(v', m, j) {
        if j < |v[m].edges| { assert EdgeSpells(v, m, j); }
      }
      forall i, j | 0 <= i < j < |v'[m].edges| ensures v'[m].edges[i].Head() != v'[m].edges[j].Head() {
        assert EdgeSpells(v, m, i);
        assert |v[m].edges[i].fragment| == 1;
        if j < |v[m].edges| { assert EdgeSpells(v, m, j); }
      }
    }
  }

  lemma ChildLinks(v: View, n: BuildNode, b: byte, child: BuildNode, m: BuildNode, k: BuildNode)
    requires Spells(v) && Bytewise(v) && n in v && child !in v
    requires forall j :: 0 <= j < |v[n].edges| ==> v[n].edges[j].fragment != [b]
    requires var v' := WithChild(v, n, b, child); m in v' && k in v' && v'[m].word < v'[k].word
    ensures Toward(WithChild(v, n, b, child), m, k)
  {
    var v' := WithChild(v, n, b, child);
    var target := if k == child then n else k;
    if m == child {
      NoWordBehind(v, n, b, k);
    } else if m == n && k == child {
      assert Leads(v', m, k, |v[n].edges|);
    } else {
      if k == child {
        assert v[m].word <= v[n].word;
        assert v[m].word != v[n].word;
      }
      assert Toward(v, m, target);
      var j: nat :| Leads(v, m, target, j);
      assert Leads(v', m, k, j);
    }
  }

  lemma ChildBytewise(v: View, n: BuildNode, b: byte, child: BuildNode)
    requires Bytewise(v) && n in v && child !in v
    ensures Bytewise(WithChild(v, n, b, child))
  {
  }

  /** A new edge for a byte that `n` has no edge for. */
  lemma ChildAdded(v: View, n: BuildNode, b: byte, child: BuildNode)
    requires Spells(v) && Bytewise(v) && n in v && child !in v
    requires forall j :: 0 <= j < |v[n].edges| ==> v[n].edges[j].fragment != [b]
    ensures var v' := WithChild(v, n, b, child);
            Spells(v') && Bytewise(v') && Dictionary(v') == Dictionary(v)
  {
    hide CellOk, Toward, Dictionary, Bytewise;
    var v' := WithChild(v, n, b, child);
    forall m | m in v' ensures CellOk(v', m) {
      ChildCellsOk(v, n, b, child, m);
    }
    forall m, k | m in v' && k in v' && v'[m].word < v'[k].word ensures Toward(v', m, k) {
      ChildLinks(v, n, b, child, m, k);
    }
    forall m | m in v ensures v[m].word != v'[child].word {
      NoWordBehind(v, n, b, m);
    }
    ChildBytewise(v, n, b, child);
    SameDictionary(v, v');
  }

  ghost function WithRoot(v: View, b: byte, child: BuildNode): View {
    v[child := Cell([b], [], Payload(0, 0, 0))]
  }

  /** A root for a byte that no word starts with. */
  lemma RootAdded(v: View, b: byte, child: BuildNode)
    requires Spells(v) && Bytewise(v) && child !in v
    requires forall m :: m in v ==> v[m].word != [] && v[m].word[0] != b
    ensures var v' := WithRoot(v, b, child);
            Spells(v') && Bytewise(v') && Dictionary(v') == Dictionary(v)
  {
    hide Dictionary, CellOk, Toward, Bytewise;
    var v' := WithRoot(v, b, child);
    forall m | m in v' ensures CellOk(v', m) {
      if m in v { CellStays(v, v', m); } else { RootCellOk(v, b, child); }
    }
    forall m, k | m in v' && k in v' && v'[m].word < v'[k].word ensures Toward(v', m, k) {
      assert m != child && k != child;
      LinkStays(v, v', m, k);
    }
    SameDictionary(v, v');
    RootBytewise(v, b, child);
  }

  lemma RootBytewise(v: View, b: byte, child: BuildNode)
    requires Bytewise(v) && child !in v
    ensures Bytewise(WithRoot(v, b, child))
  {
  }

  lemma RootCellOk(v: View, b: byte, child: BuildNode)
    ensures CellOk(WithRoot(v, b, child), child)
  {
  }

  /** A cell whose fields, and whose targets' words, stay the same stays right. */
  lemma CellStays(v: View, v': View, m: BuildNode)
    requires m in v && m in v' && CellOk(v, m)
    requires v'[m].word == v[m].word && v'[m].edges == v[m].edges
    requires forall n :: n in v ==> n in v' && v'[n].word == v[n].word
    ensures CellOk(v', m)
  {
    forall j | 0 <= j < |v'[m].edges| ensures EdgeSpells(v', m, j) {
      assert EdgeSpells(v, m, j);
    }
  }

  lemma LinkStays(v: View, v': View, m: BuildNode, k: BuildNode)
    requires m in v && k in v && m in v' && k in v' && Toward(v, m, k)
    requires v'[m].edges == v[m].edges && v'[k].word == v[k].word
    requires forall n :: n in v ==> n in v' && v'[n].word == v[n].word
    ensures Toward(v', m, k)
  {
    var j: nat :| Leads(v, m, k, j);
    assert Leads(v', m, k, j);
  }

  ghost function WithPayload(v: View, n: BuildNode, p: Payload): View
    requires n in v
  {
    v[n := v[n].(payload := p)]
  }

  /** Writing a route at a node enters it in the dictionary, over any earlier one. */
  lemma PayloadSet(v: View, n: BuildNode, p: Payload)
    requires Spells(v) && Bytewise(v) && n in v && p.methods != 0
    ensures var v' := WithPayload(v, n, p);
            Spells(v') && Bytewise(v') && Dictionary(v') == Dictionary(v)[v[n].word := p]
  {
    hide CellOk, Toward, Dictionary;
    var v' := WithPayload(v, n, p);
    forall m | m in v' ensures CellOk(v', m) {
      CellStays(v, v', m);
    }
    forall m, k | m in v' && k in v' && v'[m].word < v'[k].word ensures Toward(v', m, k) {
      LinkStays(v, v', m, k);
    }
    PayloadEntered(v, n, p);
  }

  lemma PayloadEntered(v: View, n: BuildNode, p: Payload)
    requires Injective(v) && n in v && p.methods != 0
    ensures Dictionary(WithPayload(v, n, p)) == Dictionary(v)[v[n].word := p]
  {
    var v' := WithPayload(v, n, p);
    assert forall m :: m in v ==> v'[m].word == v[m].word;
    assert Injective(v');
    var d, d' := Dictionary(v)[v[n].word := p], Dictionary(v');
    forall w ensures w in d' <==> w in d {
      if w in d && w != v[n].word {
        var m: BuildNode :| m in v && v[m].payload.methods != 0 && v[m].word == w;
        assert m in v' && v'[m].payload.methods != 0 && v'[m].word == w;
      }
      if w == v[n].word {
        assert n in v' && v'[n].payload.methods != 0 && v'[n].word == w;
      }
    }
  }

  // ---------------------------------------------------------------- insertion

  /** A node that ends no route carries nothing. */
  ghost predicate Blank(v: View) {
    forall n :: n in v && v[n].payload.methods == 0 ==> v[n].payload == Payload(0, 0, 0)
  }

  /** `v'` is `v` with nodes for prefixes of `url` added. */
  ghost predicate GrownFor(v: View, v': View, url: seq<byte>) {
    && v.Keys <= v'.Keys
    && (Blank(v) ==> Blank(v'))
    && (forall n :: n in v ==> v'[n].word == v[n].word)
    && (forall n :: n in v' && n !in v ==> v'[n].word <= url)
  }

  /** The view mirrors a well-formed, uncompressed trie. */
  ghost predicate Plain(v: View)
    reads v.Keys
  {
    Spells(v) && Bytewise(v) && Mirrors(v)
  }

  /** The child of `n` for byte `next`, appended if there is none yet. */
  method Descend(n: BuildNode, next: byte, ghost v: View) returns (child: BuildNode, ghost v': View)
    requires Plain(v) && n in v
    modifies n
    ensures Plain(v') && fresh(v'.Keys - v.Keys) && Dictionary(v') == Dictionary(v)
    ensures GrownFor(v, v', v[n].word + [next]) && |v'| <= |v| + 1
    ensures child in v' && v'[child].word == v[n].word + [next]
  {
    hide Spells, Bytewise, Dictionary, GrownFor;
    var j := 0;
    while j < |n.edges| && n.edges[j].Head() != next
      invariant 0 <= j <= |n.edges|
      invariant forall k :: 0 <= k < j ==> n.edges[k].fragment != [next]
    {
      j := j + 1;
    }
    v' := v;
    if j == |n.edges| {
      child, v' := AppendChild(n, next, v);
    } else {
      child := n.edges[j].node;
      ChildWord(v, n, j, next);
      GrownTrans(v, v, v, v[n].word + [next], v[n].word + [next]);
    }
  }

  /** A new child of `n` for a byte that `n` has no edge for. */
  method AppendChild(n: BuildNode, next: byte, ghost v: View) returns (child: BuildNode, ghost v': View)
    requires Plain(v) && n in v && forall k :: 0 <= k < |n.edges| ==> n.edges[k].fragment != [next]
    modifies n
    ensures Plain(v') && fresh(v'.Keys - v.Keys) && Dictionary(v') == Dictionary(v)
    ensures GrownFor(v, v', v[n].word + [next]) && |v'| <= |v| + 1
    ensures child in v' && v'[child].word == v[n].word + [next]
  {
    hide Spells, Bytewise, Dictionary, GrownFor, WithChild;
    child := new BuildNode();
    n.edges := n.edges + [BuildEdge([next], child)];
    ChildAdded(v, n, next, child);
    ChildGrows(v, n, next, child);
    ChildView(v, n, next, child);
    v' := WithChild(v, n, next, child);
    assert v'.Keys - v.Keys == {child};
    forall m | m in v' ensures m.edges == v'[m].edges && m.payload == v'[m].payload {
      if m in v && m != n {
        assert v'[m] == v[m];
      }
    }
  }

  lemma ChildView(v: View, n: BuildNode, next: byte, child: BuildNode)
    requires n in v && child !in v
    ensures var v' := WithChild(v, n, next, child);
            && v'.Keys == v.Keys + {child} && v'[child] == Cell(v[n].word + [next], [], Payload(0, 0, 0))
            && v'[n] == v[n].(edges := v[n].edges + [BuildEdge([next], child)])
            && forall m :: m in v && m != n ==> v'[m] == v[m]
  {
  }

  lemma ChildGrows(v: View, n: BuildNode, next: byte, child: BuildNode)
    requires n in v && child !in v
    ensures GrownFor(v, WithChild(v, n, next, child), v[n].word + [next])
    ensures |WithChild(v, n, next, child)| == |v| + 1
  {
    assert WithChild(v, n, next, child).Keys == v.Keys + {child};
  }

  lemma ChildWord(v: View, n: BuildNode, j: nat, next: byte)
    requires Spells(v) && Bytewise(v) && n in v && j < |v[n].edges| && v[n].edges[j].Head() == next
    ensures v[n].edges[j].node in v && v[v[n].edges[j].node].word == v[n].word + [next]
  {
    assert CellOk(v, n) && EdgeSpells(v, n, j);
    assert v[n].edges[j].fragment == [next];
  }

  lemma RootsStay(roots: seq<Option<BuildEdge>>, v: View, v': View, url: seq<byte>)
    requires RootsOk(roots, v) && url != [] && roots[url[0]].Some? && GrownFor(v, v', url)
    ensures RootsOk(roots, v')
  {
    forall i: byte ensures RootOk(roots, v', i) {
      assert RootOk(roots, v, i);
    }
  }

  /** Enter a route: walk along its bytes, add what is missing, write the leaf. */
  method Insert(roots: array<Option<BuildEdge>>, url: seq<byte>, payload: Payload, ghost v: View)
    returns (leaf: Option<BuildNode>, ghost v': View)
    requires roots.Length == 256 && RootsOk(roots[..], v) && Plain(v) && payload.methods != 0
    modifies roots, v.Keys
    ensures RootsOk(roots[..], v') && Plain(v') && fresh(v'.Keys - v.Keys) && GrownFor(v, v', url)
    ensures |v'| <= |v| + |url|
    ensures url == [] ==> leaf.None? && v' == v && roots[..] == old(roots[..])
    ensures url != [] ==>
              && leaf.Some? && leaf.value in v' && v'[leaf.value].word == url
              && Dictionary(v') == Dictionary(v)[url := payload]
  {
    hide Spells, Bytewise, Mirrors, Dictionary, RootsOk, GrownFor;
    v' := v;
    if |url| == 0 {
      GrownTrans(v, v, v, url, url);
      return None, v;
    }
    var currNode;
    currNode, v' := EnsureRoot(roots, url[0], v);
    assert url[..1] == [url[0]];
    GrownTrans(v, v, v', url, [url[0]]);
    ghost var rooted := v';
    currNode, v' := WalkDown(currNode, url, v');
    GrownTrans(v, rooted, v', url, url);
    RootsStay(roots[..], rooted, v', url);
    ghost var before := v';
    v' := SetPayload(currNode, payload, v');
    GrownTrans(v, before, v', url, url);
    RootsStay(roots[..], before, v', url);
    leaf := Some(currNode);
  }

  /** From the root of `url` along its bytes to the node of `url`. */
  method WalkDown(root: BuildNode, url: seq<byte>, ghost v: View) returns (currNode: BuildNode, ghost v': View)
    requires Plain(v) && url != [] && root in v && v[root].word == url[..1]
    modifies v.Keys
    ensures Plain(v') && fresh(v'.Keys - v.Keys) && GrownFor(v, v', url)
    ensures |v'| <= |v| + |url| - 1 && Dictionary(v') == Dictionary(v)
    ensures currNode in v' && v'[currNode].word == url
  {
    hide Spells, Bytewise, Mirrors, Dictionary, GrownFor;
    currNode, v' := root, v;
    GrownTrans(v, v, v, url, url);
    var i := 1;
    while i < |url|
      invariant 1 <= i <= |url|
      invariant Plain(v') && fresh(v'.Keys - v.Keys) && GrownFor(v, v', url)
      invariant currNode in v' && v'[currNode].word == url[..i] && |v'| <= |v| + i - 1
      invariant Dictionary(v') == Dictionary(v)
    {
      ghost var before := v';
      assert url[..i] + [url[i]] == url[..i + 1] <= url;
      currNode, v' := Descend(currNode, url[i], v');
      GrownTrans(v, before, v', url, url[..i + 1]);
      i := i + 1;
    }
    assert url[..i] == url;
  }

  method SetPayload(n: BuildNode, payload: Payload, ghost v: View) returns (ghost v': View)
    requires Plain(v) && n in v && payload.methods != 0
    modifies n
    ensures Plain(v') && v'.Keys == v.Keys && |v'| == |v| && GrownFor(v, v', v[n].word)
    ensures n in v' && v'[n].word == v[n].word
    ensures Dictionary(v') == Dictionary(v)[v[n].word := payload]
  {
    hide Spells, Bytewise, Dictionary, GrownFor;
    n.payload := payload;
    PayloadSet(v, n, payload);
    PayloadGrows(v, n, payload);
    v' := WithPayload(v, n, payload);
  }

  lemma PayloadGrows(v: View, n: BuildNode, p: Payload)
    requires n in v && p.methods != 0
    ensures GrownFor(v, WithPayload(v, n, p), v[n].word) && |WithPayload(v, n, p)| == |v|
  {
    assert WithPayload(v, n, p).Keys == v.Keys;
  }

  /** Growth adds up; growing by nothing is growth. */
  lemma GrownTrans(v: View, v1: View, v2: View, url: seq<byte>, part: seq<byte>)
    requires part <= url
    requires v1 == v || GrownFor(v, v1, url)
    requires v2 == v1 || GrownFor(v1, v2, part)
    ensures GrownFor(v, v2, url)
  {
  }

  /** The root for first byte `b`, created if its slot is empty. */
  method EnsureRoot(roots: array<Option<BuildEdge>>, b: byte, ghost v: View) returns (root: BuildNode, ghost v': View)
    requires RootsOk(roots[..], v) && Plain(v)
    modifies roots
    ensures RootsOk(roots[..], v') && Plain(v') && fresh(v'.Keys - v.Keys)
    ensures GrownFor(v, v', [b]) && |v'| <= |v| + 1 && roots[b].Some? && Dictionary(v') == Dictionary(v)
    ensures root in v' && v'[root].word == [b]
  {
    hide Spells, Bytewise, Dictionary, GrownFor;
    v' := v;
    assert RootOk(roots[..], v, b);
    GrownTrans(v, v, v, [b], [b]);
    if roots[b].None? {
      root := new BuildNode();
      WordsStart(v);
      RootAdded(v, b, root);
      RootGrows(v, b, root);
      v' := WithRoot(v, b, root);
      RootSlotFilled(roots[..], v, b, root);
      roots[b] := Some(BuildEdge([b], root));
    } else {
      root := roots[b].value.node;
    }
  }

  lemma RootGrows(v: View, b: byte, root: BuildNode)
    requires root !in v
    ensures GrownFor(v, WithRoot(v, b, root), [b])
    ensures |WithRoot(v, b, root)| == |v| + 1
  {
    assert WithRoot(v, b, root).Keys == v.Keys + {root};
  }

  lemma WordsStart(v: View)
    requires Spells(v)
    ensures forall n :: n in v ==> v[n].word != []
  {
    forall n | n in v ensures v[n].word != [] {
      assert CellOk(v, n);
    }
  }

  lemma RootSlotFilled(roots: seq<Option<BuildEdge>>, v: View, b: byte, root: BuildNode)
    requires RootsOk(roots, v) && root !in v
    ensures RootsOk(roots[b as int := Some(BuildEdge([b], root))], WithRoot(v, b, root))
  {
    var roots' := roots[b as int := Some(BuildEdge([b], root))];
    forall i: byte ensures RootOk(roots', WithRoot(v, b, root), i) {
      assert RootOk(roots, v, i);
    }
  }
}
