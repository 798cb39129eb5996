/**
 The trie that a compressed build tree stands for: it holds exactly the routes of the
 dictionary, has the shape the route compiler relies on, and keeps every wildcard in a
 fragment of its own exactly when no wildcard was merged into its parent.
 */
module CompressedTrie {
  import opened Common
  import opened RouteTrie
  import opened RouteRefinement
  import opened BuildTree
  import opened Compress
  import opened RouteMeaning

  /** The trie below node `n`; `limit` bounds the length of words. */
  ghost function TrieOf(v: View, n: BuildNode, limit: nat): Trie
    requires Spells(v) && Limited(v, limit) && n in v
    decreases limit - |v[n].word|
  {
    Trie(seq(|v[n].edges|, j requires 0 <= j < |v[n].edges| => BranchOf(v, n, j, limit)), v[n].payload)
  }

  ghost function BranchOf(v: View, n: BuildNode, j: nat, limit: nat): Branch
    requires Spells(v) && Limited(v, limit) && n in v && j < |v[n].edges|
    decreases limit - |v[n].word|, 0
  {
    EdgeGoesOn(v, n, j);
    Branch(v[n].edges[j].fragment, TrieOf(v, v[n].edges[j].node, limit))
  }

  ghost function TriesOf(roots: seq<Option<BuildEdge>>, v: View, limit: nat): map<byte, Trie>
    requires RootsOk(roots, v) && Spells(v) && Limited(v, limit)
  {
    map i: byte | roots[i].Some? :: (assert RootOk(roots, v, i); TrieOf(v, roots[i].value.node, limit))
  }

  /** One level of the trie below `n`. */
  lemma TrieAt(v: View, n: BuildNode, limit: nat)
    requires Spells(v) && Limited(v, limit) && n in v
    ensures var t := TrieOf(v, n, limit);
            && t.payload == v[n].payload && |t.edges| == |v[n].edges|
            && forall i :: 0 <= i < |t.edges| ==>
                 && v[n].edges[i].node in v && v[n].edges[i].fragment != []
                 && v[v[n].edges[i].node].word == v[n].word + v[n].edges[i].fragment
                 && |v[n].word| < |v[v[n].edges[i].node].word| <= limit
                 && t.edges[i] == Branch(v[n].edges[i].fragment, TrieOf(v, v[n].edges[i].node, limit))
  {
    var t := TrieOf(v, n, limit);
    forall i | 0 <= i < |t.edges|
      ensures
        && v[n].edges[i].node in v && v[n].edges[i].fragment != []
        && v[v[n].edges[i].node].word == v[n].word + v[n].edges[i].fragment
        && |v[n].word| < |v[v[n].edges[i].node].word| <= limit
        && t.edges[i] == Branch(v[n].edges[i].fragment, TrieOf(v, v[n].edges[i].node, limit))
    {
      EdgeGoesOn(v, n, i);
      assert t.edges[i] == BranchOf(v, n, i, limit);
    }
  }

  lemma {:induction false} TrieRepresents(v: View, n: BuildNode, limit: nat)
    requires Spells(v) && Limited(v, limit) && n in v && Mirrors(v)
    ensures Represents(n, TrieOf(v, n, limit), v.Keys)
    decreases limit - |v[n].word|
  {
    hide TrieOf, Spells;
    var t := TrieOf(v, n, limit);
    TrieAt(v, n, limit);
    forall i | 0 <= i < |t.edges|
      ensures n.edges[i].fragment == t.edges[i].fragment && Represents(n.edges[i].node, t.edges[i].node, v.Keys)
    {
      TrieRepresents(v, v[n].edges[i].node, limit);
    }
  }

  // ---------------------------------------------------------------- the dictionary

  /** Node `m` ends a route that goes on from `n` with `w`. */
  ghost predicate Ends(v: View, n: BuildNode, m: BuildNode, w: seq<byte>, p: Payload)
    requires n in v
  {
    m in v && v[m].word == v[n].word + w && v[m].payload == p && p.methods != 0
  }

  lemma {:induction false} ContainsEnds(v: View, n: BuildNode, limit: nat, w: seq<byte>, p: Payload)
    returns (m: BuildNode)
    requires Spells(v) && Limited(v, limit) && n in v && Contains(TrieOf(v, n, limit), w, p)
    ensures Ends(v, n, m, w, p)
    decreases limit - |v[n].word|
  {
    hide TrieOf, Spells;
    var t := TrieOf(v, n, limit);
    TrieAt(v, n, limit);
    if w == [] && p == t.payload && p.methods != 0 {
      m := n;
      assert v[n].word + w == v[n].word;
    } else {
      var i :| 0 <= i < |t.edges| && Through(t, i, w, p);
      var x, f := v[n].edges[i].node, v[n].edges[i].fragment;
      assert Contains(t.edges[i].node, w[|f|..], p);
      m := ContainsEnds(v, x, limit, w[|f|..], p);
      assert v[x].word + w[|f|..] == v[n].word + w;
    }
  }

  lemma CancelPrefix(a: seq<byte>, f: seq<byte>, w: seq<byte>)
    requires a + f <= a + w
    ensures f <= w && a + w == (a + f) + w[|f|..]
  {
    assert w == (a + w)[|a|..] && f == (a + f)[|a|..] == (a + w)[..|a + f|][|a|..];
    assert f == w[..|f|];
  }

  lemma {:induction false} EndsContains(v: View, n: BuildNode, limit: nat, m: BuildNode, w: seq<byte>, p: Payload)
    requires Spells(v) && Limited(v, limit) && n in v && Ends(v, n, m, w, p)
    ensures Contains(TrieOf(v, n, limit), w, p)
    decreases limit - |v[n].word|
  {
    hide TrieOf;
    var t := TrieOf(v, n, limit);
    TrieAt(v, n, limit);
    if w == [] {
      assert v[n].word + w == v[n].word;
      assert m == n;
    } else {
      assert Toward(v, n, m);
      var i: nat :| Leads(v, n, m, i);
      var x, f := v[n].edges[i].node, v[n].edges[i].fragment;
      CancelPrefix(v[n].word, f, w);
      EndsContains(v, x, limit, m, w[|f|..], p);
      assert Through(t, i, w, p);
    }
  }

  /** The compiled tries hold exactly the routes of the dictionary. */
  lemma TriesHoldDictionary(roots: seq<Option<BuildEdge>>, v: View, limit: nat, w: seq<byte>, p: Payload)
    requires RootsOk(roots, v) && Spells(v) && Limited(v, limit)
    ensures RootContains(TriesOf(roots, v, limit), w, p) <==> w in Dictionary(v) && Dictionary(v)[w] == p
  {
    hide Contains;
    var ts := TriesOf(roots, v, limit);
    if RootContains(ts, w, p) {
      assert RootOk(roots, v, w[0]);
      var m := ContainsEnds(v, roots[w[0]].value.node, limit, w[1..], p);
      assert v[m].word == [w[0]] + w[1..] == w;
      InDictionary(v, m);
    }
    if w in Dictionary(v) && Dictionary(v)[w] == p {
      var m: BuildNode := DictionaryNode(v, w);
      assert CellOk(v, m) && RootOk(roots, v, w[0]);
      assert [w[0]] + w[1..] == w;
      EndsContains(v, roots[w[0]].value.node, limit, m, w[1..], p);
    }
  }

  lemma InDictionary(v: View, m: BuildNode)
    requires Injective(v) && m in v && v[m].payload.methods != 0
    ensures v[m].word in Dictionary(v) && Dictionary(v)[v[m].word] == v[m].payload
  {
  }

  lemma DictionaryNode(v: View, w: seq<byte>) returns (m: BuildNode)
    requires Injective(v) && w in Dictionary(v)
    ensures m in v && v[m].word == w && v[m].payload == Dictionary(v)[w] && v[m].payload.methods != 0
  {
    m :| m in v && v[m].payload.methods != 0 && v[m].word == w;
  }

  // ---------------------------------------------------------------- shape

  ghost predicate WildcardsAlone(v: View) {
    forall n, j :: n in v && 0 <= j < |v[n].edges| && IsWild(v[n].edges[j].Head()) ==> |v[n].edges[j].fragment| == 1
  }

  ghost predicate AllByRank(v: View) {
    forall n :: n in v ==> ByRank(v[n].edges)
  }

  ghost predicate AllAdmissible(v: View) {
    forall n :: n in v ==> Admissible(v[n].word)
  }

  lemma HeadsDiffer(v: View, n: BuildNode)
    requires Spells(v) && n in v
    ensures forall i, j :: 0 <= i < j < |v[n].edges| ==> v[n].edges[i].Head() != v[n].edges[j].Head()
  {
    assert CellOk(v, n);
  }

  lemma {:induction false} TrieShaped(v: View, n: BuildNode, limit: nat)
    requires Spells(v) && Limited(v, limit) && n in v && WildcardsAlone(v)
    ensures Shaped(TrieOf(v, n, limit))
    decreases limit - |v[n].word|
  {
    hide TrieOf, Spells;
    var t := TrieOf(v, n, limit);
    TrieAt(v, n, limit);
    HeadsDiffer(v, n);
    forall i | 0 <= i < |t.edges| ensures ShapedEdge(t, i) {
      TrieShaped(v, v[n].edges[i].node, limit);
      forall j | i < j < |t.edges| ensures t.edges[j].Head() != t.edges[i].Head() {
        assert t.edges[j].Head() == v[n].edges[j].Head() && t.edges[i].Head() == v[n].edges[i].Head();
      }
    }
  }

  lemma {:induction false} TrieOrdered(v: View, n: BuildNode, limit: nat)
    requires Spells(v) && Limited(v, limit) && n in v && AllByRank(v)
    ensures Ordered(TrieOf(v, n, limit))
    decreases limit - |v[n].word|
  {
    hide TrieOf, Spells;
    var t := TrieOf(v, n, limit);
    TrieAt(v, n, limit);
    forall i | 0 <= i < |t.edges| ensures t.edges[i].Head() == v[n].edges[i].Head() && Ordered(t.edges[i].node) {
      TrieOrdered(v, v[n].edges[i].node, limit);
    }
  }

  lemma {:induction false} TrieBounded(v: View, n: BuildNode, limit: nat)
    requires Spells(v) && Limited(v, limit) && n in v && AllAdmissible(v)
    ensures Bounded(TrieOf(v, n, limit), v[n].word)
    decreases limit - |v[n].word|
  {
    hide TrieOf, Spells;
    var t := TrieOf(v, n, limit);
    TrieAt(v, n, limit);
    forall i | 0 <= i < |t.edges| ensures BoundedEdge(t, v[n].word, i) {
      TrieBounded(v, v[n].edges[i].node, limit);
    }
  }

  lemma TriesPlaced(roots: seq<Option<BuildEdge>>, v: View, limit: nat)
    requires RootsOk(roots, v) && Spells(v) && Limited(v, limit)
    requires WildcardsAlone(v) && AllByRank(v) && AllAdmissible(v)
    ensures RootsPlaced(TriesOf(roots, v, limit)) && RootsOrdered(TriesOf(roots, v, limit))
  {
    var ts := TriesOf(roots, v, limit);
    forall i: byte ensures RootPlaced(ts, i) && (i in ts ==> Ordered(ts[i])) {
      assert RootOk(roots, v, i);
      if i in ts {
        var n := roots[i].value.node;
        TrieShaped(v, n, limit);
        TrieOrdered(v, n, limit);
        TrieBounded(v, n, limit);
        WildcardCountSingle(i);
      }
    }
  }

  // ---------------------------------------------------------------- isolated wildcards

  /** Every prefix of a word is a word of the uncompressed trie. */
  lemma {:induction false} PrefixNode(roots: seq<Option<BuildEdge>>, v: View, m: BuildNode, len: nat)
    returns (y: BuildNode)
    requires RootsOk(roots, v) && Spells(v) && Bytewise(v) && m in v && 1 <= len <= |v[m].word|
    ensures y in v && v[y].word == v[m].word[..len]
    decreases len
  {
    if len == 1 {
      assert CellOk(v, m) && RootOk(roots, v, v[m].word[0]);
      y := roots[v[m].word[0]].value.node;
    } else {
      var x := PrefixNode(roots, v, m, len - 1);
      assert Toward(v, x, m);
      var i: nat :| Leads(v, x, m, i);
      EdgeGoesOn(v, x, i);
      y := v[x].edges[i].node;
      assert |v[y].word| == len;
    }
  }

  /** What a fragment of the compressed trie spells over is no word of it any more. */
  lemma NothingBetween(v: View, n: BuildNode, j: nat, y: BuildNode)
    requires Spells(v) && n in v && j < |v[n].edges| && y in v
    requires v[n].edges[j].node in v && v[n].word < v[y].word <= v[v[n].edges[j].node].word
    ensures v[y].word == v[v[n].edges[j].node].word
  {
    var x := v[n].edges[j].node;
    EdgeGoesOn(v, n, j);
    assert CellOk(v, n) && Toward(v, n, y);
    var i: nat :| Leads(v, n, y, i);
    LeadingByte(v, n, y, i);
    assert Leads(v, n, x, j);
    LeadingByte(v, n, x, j);
    assert v[y].word[|v[n].word|] == v[x].word[|v[n].word|];
    assert i == j;
  }

  /** A kept node that lies on a fragment ends it. */
  lemma KeptEndsFragment(roots: seq<Option<BuildEdge>>, v: View, v': View, n: BuildNode, j: nat, len: nat)
    returns (y: BuildNode)
    requires RootsOk(roots, v) && Spells(v) && Bytewise(v) && Compressed(v, v')
    requires n in v' && j < |v'[n].edges| && 1 <= len <= |v'[n].edges[j].fragment|
    ensures y in v && v[y].word == v'[n].word + v'[n].edges[j].fragment[..len]
    ensures Kept(v, y) ==> len == |v'[n].edges[j].fragment|
  {
    hide CellOk, Toward, Bytewise, RootsOk, Dictionary, Kept;
    var f := v'[n].edges[j].fragment;
    EdgeGoesOn(v', n, j);
    var x := v'[n].edges[j].node;
    assert v'[x].word == v[x].word;
    y := PrefixNode(roots, v, x, |v'[n].word| + len);
    assert (v'[n].word + f)[..|v'[n].word| + len] == v'[n].word + f[..len];
    if Kept(v, y) {
      assert Settled(v, v', y);
      NothingBetween(v', n, j, y);
    }
  }

  /** In the compressed trie a fragment that starts with a wildcard is that wildcard alone,
      whatever the routes. */
  lemma StartingWildcardAlone(roots: seq<Option<BuildEdge>>, v: View, v': View)
    requires RootsOk(roots, v) && Spells(v) && Bytewise(v) && Compressed(v, v')
    ensures WildcardsAlone(v')
  {
    hide Bytewise, RootsOk, Dictionary, Toward, Settled;
    forall n, j | n in v' && 0 <= j < |v'[n].edges| && IsWild(v'[n].edges[j].Head())
      ensures |v'[n].edges[j].fragment| == 1
    {
      EdgeGoesOn(v', n, j);
      var f := v'[n].edges[j].fragment;
      assert CellOk(v', n) && EdgeSpells(v', n, j);
      var y := KeptEndsFragment(roots, v, v', n, j, 1);
      assert v[y].word[|v[y].word| - 1] == f[..1][0] == f[0];
      assert Kept(v, y);
    }
  }

  /** Wildcards are isolated: no fragment holds a wildcard next to something else. */
  ghost predicate Isolated(v: View) {
    forall n, j, i ::
      && n in v && 0 <= j < |v[n].edges| && 0 <= i < |v[n].edges[j].fragment|
      && IsWild(v[n].edges[j].fragment[i])
      ==> |v[n].edges[j].fragment| == 1
  }

  /** Node `x` gets merged with the wildcard edge behind it: it is no root, ends no route,
      does not end with a wildcard, and its only edge is a wildcard with several edges. */
  ghost predicate MergesWildcard(v: View, x: BuildNode)
    requires x in v
  {
    !Kept(v, x) && IsWild(v[x].edges[0].Head())
  }

  /** An edge of the compressed trie that leads exactly to `y`. */
  lemma {:induction false} EdgeTo(v: View, r: BuildNode, y: BuildNode) returns (n: BuildNode, j: nat)
    requires Spells(v) && r in v && y in v && v[r].word < v[y].word
    ensures n in v && j < |v[n].edges| && v[n].edges[j].node == y
    decreases |v[y].word| - |v[r].word|
  {
    assert Toward(v, r, y);
    var i: nat :| Leads(v, r, y, i);
    EdgeGoesOn(v, r, i);
    var x := v[r].edges[i].node;
    if v[x].word == v[y].word {
      n, j := r, i;
    } else {
      n, j := EdgeTo(v, x, y);
    }
  }

  /** The wildcard node behind a merged node is kept, the merged node is not. */
  lemma MergedTarget(v: View, v': View, x: BuildNode) returns (y: BuildNode)
    requires Spells(v) && Bytewise(v) && Compressed(v, v')
    requires x in v && MergesWildcard(v, x)
    ensures x !in v' && y in v' && |v[y].word| > 1 && v[y].word[..|v[y].word| - 1] == v[x].word
    ensures v'[y].word == v[y].word && IsWild(v[y].word[|v[y].word| - 1])
  {
    EdgeGoesOn(v, x, 0);
    assert CellOk(v, x) && EdgeSpells(v, x, 0) && Settled(v, v', x);
    y := v[x].edges[0].node;
    assert |v[x].edges[0].fragment| == 1;
    assert v[y].word[|v[y].word| - 1] == v[x].edges[0].Head();
    assert Kept(v, y) && Settled(v, v', y);
  }

  lemma IsolationFails(roots: seq<Option<BuildEdge>>, v: View, v': View, x: BuildNode)
    requires RootsOk(roots, v) && RootsOk(roots, v') && Spells(v) && Bytewise(v) && Compressed(v, v')
    requires x in v && MergesWildcard(v, x)
    ensures !Isolated(v')
  {
    hide CellOk, Toward, RootsOk, Bytewise, Kept, Isolated, Dictionary;
    var y := MergedTarget(v, v', x);
    var root := RootAbove(roots, v', y);
    var n, j := EdgeTo(v', root, y);
    DroppedIsNot(v, v', x, n);
    WildcardEndsFragment(v', n, j, v[x].word);
  }

  lemma RootAbove(roots: seq<Option<BuildEdge>>, v: View, y: BuildNode) returns (root: BuildNode)
    requires RootsOk(roots, v) && y in v && |v[y].word| > 1
    ensures root in v && v[root].word < v[y].word
  {
    assert RootOk(roots, v, v[y].word[0]);
    root := roots[v[y].word[0]].value.node;
    assert v[root].word == [v[y].word[0]] == v[y].word[..1];
  }

  lemma DroppedIsNot(v: View, v': View, x: BuildNode, n: BuildNode)
    requires Spells(v) && Compressed(v, v') && x in v && x !in v' && n in v'
    ensures v'[n].word != v[x].word
  {
    hide CellOk, Toward, Dictionary;
  }

  /** An edge that ends with a wildcard and starts above the place right before it. */
  lemma WildcardEndsFragment(v: View, n: BuildNode, j: nat, w: seq<byte>)
    requires Spells(v) && n in v && j < |v[n].edges| && v[n].edges[j].node in v && v[n].word != w
    requires var t := v[v[n].edges[j].node].word; t != [] && IsWild(t[|t| - 1]) && t[..|t| - 1] == w
    ensures !Isolated(v)
  {
    EdgeGoesOn(v, n, j);
    hide Spells;
    var f := v[n].edges[j].fragment;
    var t := v[n].word + f;
    assert f[|f| - 1] == t[|t| - 1];
  }

  lemma FragmentNotIsolated(roots: seq<Option<BuildEdge>>, v: View, v': View, n: BuildNode, j: nat, i: nat)
    returns (x: BuildNode)
    requires RootsOk(roots, v) && Spells(v) && Bytewise(v) && Compressed(v, v')
    requires n in v' && j < |v'[n].edges| && i < |v'[n].edges[j].fragment| && IsWild(v'[n].edges[j].fragment[i])
    requires |v'[n].edges[j].fragment| > 1
    ensures x in v && MergesWildcard(v, x) && v[x].word == v'[n].word + v'[n].edges[j].fragment[..i]
  {
    hide Dictionary, RootsOk, Bytewise, Compressed;
    var f := v'[n].edges[j].fragment;
    StartingWildcardAlone(roots, v, v');
    var y := KeptEndsFragment(roots, v, v', n, j, i + 1);
    assert v[y].word[|v[y].word| - 1] == f[..i + 1][i] == f[i];
    assert Kept(v, y) && i == |f| - 1;
    x := KeptEndsFragment(roots, v, v', n, j, i);
    assert v[x].word == v'[n].word + f[..i];
    assert f[..i + 1] == f[..i] + [f[i]];
    assert v[x].word < v[y].word && v[y].word[|v[x].word|] == f[i];
    OnlyEdgeByte(v, x, y);
  }

  lemma OnlyEdgeByte(v: View, x: BuildNode, y: BuildNode)
    requires Spells(v) && x in v && y in v && v[x].word < v[y].word && !Kept(v, x)
    ensures v[x].edges[0].Head() == v[y].word[|v[x].word|]
  {
    assert CellOk(v, x) && Toward(v, x, y);
    var k: nat :| Leads(v, x, y, k);
    LeadingByte(v, x, y, k);
  }

  /** Exactly when wildcards stay isolated: when no node merges one. */
  lemma IsolatedIff(roots: seq<Option<BuildEdge>>, v: View, v': View)
    requires RootsOk(roots, v) && RootsOk(roots, v') && Spells(v) && Bytewise(v) && Compressed(v, v')
    ensures Isolated(v') <==> forall x :: x in v ==> !MergesWildcard(v, x)
  {
    if x: BuildNode :| x in v && MergesWildcard(v, x) {
      IsolationFails(roots, v, v', x);
    }
    forall n, j, i | n in v' && 0 <= j < |v'[n].edges| && 0 <= i < |v'[n].edges[j].fragment|
                     && IsWild(v'[n].edges[j].fragment[i]) && |v'[n].edges[j].fragment| != 1
      ensures exists x :: x in v && MergesWildcard(v, x)
    {
      var x := FragmentNotIsolated(roots, v, v', n, j, i);
    }
  }

  // ---------------------------------------------------------------- whole-segment wildcards

  /** In pattern `w` every wildcard that is followed by something is a `*` before a '/'. */
  ghost predicate SegmentPattern(w: seq<byte>) {
    forall i :: 0 <= i < |w| - 1 && IsWild(w[i]) ==> w[i] == STAR && w[i + 1] == SLASH
  }
}
