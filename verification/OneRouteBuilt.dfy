/**
 Inserting one route and compressing gives exactly the tries that `OneRoute` is about, with any
 number of wildcards.
 */
module OneRouteBuilt {
  import opened Common
  import opened RouteTrie
  import opened BuildTree
  import opened Compress
  import opened CompressedTrie
  import opened MergedRoutes
  import opened ShortestGaps
  import opened OneRoute

  /** The trie `v` holds the route `q`, and nothing besides. */
  ghost predicate HoldsOne(v: View, q: seq<byte>, p: Payload) {
    && Spells(v) && Bytewise(v) && Blank(v) && Covered(v)
    && q != [] && p.methods != 0 && Dictionary(v) == map[q := p]
  }

  lemma WordsOnRoute(v: View, q: seq<byte>, p: Payload, x: BuildNode)
    requires HoldsOne(v, q, p) && x in v
    ensures v[x].word != [] && v[x].word <= q
    ensures v[x].payload == if v[x].word == q then p else NO_ROUTE
  {
    hide Spells, Bytewise, Dictionary;
    WordsStart(v);
    EndsRouteIff(v, x);
    assert OnTheWay(Dictionary(v), v[x].word);
    if v[x].payload.methods != 0 {
      PayloadIs(v, x);
    }
  }

  lemma PayloadIs(v: View, x: BuildNode)
    requires Spells(v) && x in v && v[x].payload.methods != 0
    ensures v[x].word in Dictionary(v) && Dictionary(v)[v[x].word] == v[x].payload
  {
    hide CellOk, Toward;
    InDictionary(v, x);
  }

  /** A node on the way has one edge, by the route's next byte; the last has none. */
  lemma EdgesOnRoute(v: View, q: seq<byte>, p: Payload, x: BuildNode)
    requires HoldsOne(v, q, p) && x in v
    ensures if v[x].word == q then v[x].edges == []
            else |v[x].word| < |q| && |v[x].edges| == 1 && v[x].edges[0].Head() == q[|v[x].word|]
  {
    hide Spells, Bytewise, Dictionary;
    var z := v[x].word;
    WordsOnRoute(v, q, p, x);
    forall b ensures Continues(Dictionary(v), z, b) <==> z + [b] <= q {
    }
    if z == q {
      if v[x].edges != [] {
        EdgeContinues(v, x, 0);
      }
    } else {
      var c := q[|z|];
      assert z + [c] <= q;
      OnlyContinuation(v, x, c);
    }
  }

  /** Where compression keeps a node of the route: behind its first byte, at its end, and on both
      sides of every wildcard. */
  ghost predicate Boundary(q: seq<byte>, k: int) {
    0 < k <= |q| && (k == 1 || k == |q| || IsWild(q[k - 1]) || IsWild(q[k]))
  }

  lemma KeptOnRoute(v: View, q: seq<byte>, p: Payload, x: BuildNode)
    requires HoldsOne(v, q, p) && x in v
    ensures Kept(v, x) <==> Boundary(q, |v[x].word|)
  {
    hide Spells, Bytewise, Dictionary, Blank, Covered;
    var z := v[x].word;
    WordsOnRoute(v, q, p, x);
    EdgesOnRoute(v, q, p, x);
    assert z[|z| - 1] == q[|z| - 1];
    if z != q {
      EdgeContinues(v, x, 0);
      EdgesOnRoute(v, q, p, v[x].edges[0].node);
    }
  }

  /** Between two neighbouring nodes of the compressed way lies one edge. */
  lemma NextNode(v: View, n: BuildNode, m: BuildNode, q: seq<byte>)
    requires Spells(v) && n in v && m in v && v[n].word < v[m].word
    requires forall x :: x in v ==> v[x].word <= q
    requires forall x :: x in v ==> !(v[n].word < v[x].word < v[m].word)
    ensures v[n].edges == [BuildEdge(v[m].word[|v[n].word|..], m)]
  {
    assert Toward(v, n, m);
    var j: nat :| Leads(v, n, m, j);
    EdgeGoesOn(v, n, j);
    var y := v[n].edges[j].node;
    assert v[y].word == v[m].word && y == m;
    assert v[m].word[|v[n].word|..] == v[n].edges[j].fragment;
    HeadsDiffer(v, n);
    if |v[n].edges| > 1 {
      SameHead(v, n, q, 0);
      SameHead(v, n, q, 1);
    }
  }

  lemma SameHead(v: View, n: BuildNode, q: seq<byte>, j: nat)
    requires Spells(v) && n in v && j < |v[n].edges| && forall x :: x in v ==> v[x].word <= q
    ensures |v[n].word| < |q| && v[n].edges[j].Head() == q[|v[n].word|]
  {
    hide Spells;
    EdgeGoesOn(v, n, j);
    var f, y := v[n].edges[j].fragment, v[n].edges[j].node;
    assert f != [] && v[y].word == v[n].word + f && v[y].word <= q;
    assert v[y].word[|v[n].word|] == f[0] == q[|v[n].word|];
  }

  lemma TrieOfNext(v: View, n: BuildNode, m: BuildNode, q: seq<byte>, limit: nat)
    requires Spells(v) && Limited(v, limit) && n in v && m in v && v[n].word < v[m].word
    requires forall x :: x in v ==> v[x].word <= q
    requires forall x :: x in v ==> !(v[n].word < v[x].word < v[m].word)
    ensures TrieOf(v, n, limit) == Trie([Branch(v[m].word[|v[n].word|..], TrieOf(v, m, limit))], v[n].payload)
  {
    hide TrieOf, Spells;
    NextNode(v, n, m, q);
    TrieAt(v, n, limit);
    assert TrieOf(v, n, limit).edges == [Branch(v[m].word[|v[n].word|..], TrieOf(v, m, limit))];
  }

  lemma TrieOfLast(v: View, n: BuildNode, q: seq<byte>, limit: nat)
    requires Spells(v) && Limited(v, limit) && n in v && v[n].word == q
    requires forall x :: x in v ==> v[x].word <= q
    ensures TrieOf(v, n, limit) == Trie([], v[n].payload)
  {
    hide TrieOf, Spells;
    if v[n].edges != [] {
      SameHead(v, n, q, 0);
    }
    TrieAt(v, n, limit);
    assert TrieOf(v, n, limit).edges == [];
  }

  // ---------------------------------------------------------------- the compressed tries

  /** The node of a prefix of the route where compression keeps one. */
  lemma KeptNode(roots: seq<Option<BuildEdge>>, v: View, v': View, q: seq<byte>, p: Payload, len: nat)
    returns (x: BuildNode)
    requires RootsOk(roots, v) && HoldsOne(v, q, p) && Compressed(v, v') && Boundary(q, len)
    ensures x in v' && v'[x].word == q[..len]
  {
    hide CellOk, Toward, Bytewise, Kept, RootsOk, Dictionary, Blank, Covered;
    var m: BuildNode := DictionaryNode(v, q);
    x := PrefixNode(roots, v, m, len);
    KeptOnRoute(v, q, p, x);
    assert Settled(v, v', x);
  }

  /** All nodes left are such. */
  lemma OnlyKept(v: View, v': View, q: seq<byte>, p: Payload)
    requires HoldsOne(v, q, p) && Compressed(v, v')
    ensures forall x :: x in v' ==> v'[x].word <= q && Boundary(q, |v'[x].word|)
    ensures forall x :: x in v' ==> v'[x].payload == if v'[x].word == q then p else NO_ROUTE
  {
    hide Spells, Bytewise, Kept, Dictionary, Blank, Covered, Boundary;
    forall x | x in v'
      ensures v'[x].word <= q && Boundary(q, |v'[x].word|)
      ensures v'[x].payload == if v'[x].word == q then p else NO_ROUTE
    {
      assert x in v && Settled(v, v', x);
      KeptOnRoute(v, q, p, x);
      WordsOnRoute(v, q, p, x);
    }
  }

  /** From one boundary to the next is one piece. */
  lemma NextBoundary(q: seq<byte>, k: nat)
    requires 0 < k < |q|
    ensures var n := PieceLength(q[k..]);
            Boundary(q, k + n) && forall j :: k < j < k + n ==> !Boundary(q, j)
  {
    var s := q[k..];
    var n := PieceLength(s);
    assert s[n - 1] == q[k + n - 1] && (k + n < |q| ==> s[n] == q[k + n]);
    forall j | k < j < k + n ensures !Boundary(q, j) {
      assert Front(s)[j - k] == s[j - k] == q[j] && Front(s)[j - 1 - k] == s[j - 1 - k] == q[j - 1];
    }
  }

  /** Below every node that is left lies the chain of the rest of the route. */
  lemma {:induction false} BuiltBelow(roots: seq<Option<BuildEdge>>, v: View, v': View, q: seq<byte>, p: Payload,
                                      limit: nat, n: BuildNode)
    requires RootsOk(roots, v) && HoldsOne(v, q, p) && Compressed(v, v') && Limited(v', limit) && n in v'
    ensures v'[n].word <= q && TrieOf(v', n, limit) == Chain(q[|v'[n].word|..], p)
    decreases |q| - |v'[n].word|
  {
    hide Spells, Kept, RootsOk, TrieOf, Dictionary, Limited, Boundary, HoldsOne, Compressed, Chain, PieceLength;
    LeftSpells(v, v');
    OnlyKept(v, v', q, p);
    var k := |v'[n].word|;
    if v'[n].word == q {
      TrieOfLast(v', n, q, limit);
      ChainEnds(q, p);
    } else {
      WordNotEmpty(v', n);
      NextBoundary(q, k);
      ChainGoesOn(q, k, p);
      var m := KeptNode(roots, v, v', q, p, k + PieceLength(q[k..]));
      PrefixStep(v'[n].word, v'[m].word, q);
      NoneBetween(v', q, n, m);
      TrieOfNext(v', n, m, q, limit);
      BuiltBelow(roots, v, v', q, p, limit, m);
    }
  }

  lemma ChainEnds(q: seq<byte>, p: Payload)
    ensures Chain(q[|q|..], p) == Trie([], p)
  {
  }

  lemma ChainGoesOn(q: seq<byte>, k: nat, p: Payload)
    requires k < |q|
    ensures var len := PieceLength(q[k..]);
            Chain(q[k..], p) == Trie([Branch(q[..k + len][k..], Chain(q[k + len..], p))], NO_ROUTE)
  {
    hide PieceLength;
    var len := PieceLength(q[k..]);
    assert q[k..][..len] == q[..k + len][k..] && q[k..][len..] == q[k + len..];
  }

  lemma PrefixStep(a: seq<byte>, b: seq<byte>, q: seq<byte>)
    requires a <= q && b <= q && |a| < |b|
    ensures a < b && b == q[..|b|] && a == q[..|a|]
  {
    assert b[..|a|] == a;
  }

  lemma NoneBetween(v: View, q: seq<byte>, n: BuildNode, m: BuildNode)
    requires n in v && m in v && forall x :: x in v ==> Boundary(q, |v[x].word|)
    requires forall j :: |v[n].word| < j < |v[m].word| ==> !Boundary(q, j)
    ensures forall x :: x in v ==> !(v[n].word < v[x].word < v[m].word)
  {
    hide Boundary;
  }

  lemma WordNotEmpty(v: View, n: BuildNode)
    requires Spells(v) && n in v
    ensures v[n].word != []
  {
    WordsStart(v);
  }

  lemma OnlyRoot(roots: seq<Option<BuildEdge>>, v: View, q: seq<byte>, root: BuildNode)
    requires RootsOk(roots, v) && root in v && q != [] && v[root].word == q[..1]
    requires forall x :: x in v ==> v[x].word <= q
    ensures forall i: byte :: roots[i].Some? <==> i == q[0]
    ensures Injective(v) ==> roots[q[0]].value.node == root
  {
    forall i: byte ensures roots[i].Some? <==> i == q[0] {
      assert RootOk(roots, v, i);
      assert q[..1] == [q[0]];
    }
    assert RootOk(roots, v, q[0]);
  }

  /** What is built from the one route are the tries of that route. */
  lemma BuiltFromOne(roots: seq<Option<BuildEdge>>, v: View, v': View, q: seq<byte>, p: Payload, limit: nat)
    requires RootsOk(roots, v) && RootsOk(roots, v') && HoldsOne(v, q, p) && Compressed(v, v') && Limited(v', limit)
    ensures TriesOf(roots, v', limit) == TriesFor(q, p)
  {
    hide CellOk, Toward, Bytewise, Kept, TrieOf, Dictionary, Blank, Covered, Limited, Chain;
    OnlyKept(v, v', q, p);
    var root := KeptNode(roots, v, v', q, p, 1);
    OnlyRoot(roots, v', q, root);
    BuiltBelow(roots, v, v', q, p, limit, root);
    var ts := TriesOf(roots, v', limit);
    assert ts.Keys == {q[0]};
    assert ts[q[0]] == TrieOf(v', root, limit);
  }
}
