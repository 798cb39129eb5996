/** The compiled tries weigh no more than the nodes that insertion made: compression keeps
    every pattern byte on one edge. */
module TrieWeight {
  import opened Common
  import opened RouteTrie
  import opened RoutePools
  import opened BuildTree
  import opened Compress
  import opened CompressedTrie
  import opened PoolGrowth

  /** The nodes whose words go on from `w`, or are `w`. */
  ghost function From(v: View, w: seq<byte>): set<BuildNode> {
    set n | n in v && w <= v[n].word
  }

  /** The nodes whose words go on from `w` with another byte. */
  ghost function Behind(v: View, w: seq<byte>): set<BuildNode> {
    set n | n in v && w < v[n].word
  }

  /** What lies from one end of a piece on is the piece's bytes and what lies behind it. */
  lemma {:induction false} PieceCounts(roots: seq<Option<BuildEdge>>, v: View, m: BuildNode, w: seq<byte>)
    requires RootsOk(roots, v) && Spells(v) && Bytewise(v) && m in v
    requires w != [] && w <= v[m].word
    ensures |From(v, w)| >= |v[m].word| - |w| + 1 + |Behind(v, v[m].word)|
    decreases |v[m].word| - |w|
  {
    hide Spells, Bytewise, RootsOk;
    var y := PrefixNode(roots, v, m, |w|);
    assert v[y].word == w;
    if w == v[m].word {
      assert From(v, w) >= Behind(v, w) + {y};
      SubsetCount(Behind(v, w) + {y}, From(v, w));
    } else {
      var w' := v[m].word[..|w| + 1];
      PieceCounts(roots, v, m, w');
      assert w < w';
      assert From(v, w) >= From(v, w') + {y};
      SubsetCount(From(v, w') + {y}, From(v, w));
    }
  }

  lemma {:induction false} SubsetCount<T>(a: set<T>, b: set<T>)
    requires a <= b
    ensures |a| <= |b|
    decreases |a|
  {
    if a != {} {
      var x :| x in a;
      SubsetCount(a - {x}, b - {x});
    }
  }

  lemma DisjointCount<T>(a: set<T>, b: set<T>, c: set<T>)
    requires a <= c && b <= c && a !! b
    ensures |a| + |b| <= |c|
  {
    SubsetCount(a + b, c);
  }

  /** The edges below a compressed node weigh no more than the nodes behind it. */
  lemma {:induction false} WeightBehind(roots: seq<Option<BuildEdge>>, v: View, v': View, n: BuildNode, limit: nat,
                                        i: nat, s: set<BuildNode>)
    requires RootsOk(roots, v) && Spells(v) && Bytewise(v) && Compressed(v, v') && Limited(v', limit) && n in v'
    requires i <= |TrieOf(v', n, limit).edges| == |v'[n].edges| && n in v && v[n].word == v'[n].word
    requires forall j :: i <= j < |v'[n].edges| ==> From(v, v[n].word + [v'[n].edges[j].Head()]) <= s
    ensures WeightFrom(TrieOf(v', n, limit), i) <= |s|
    decreases limit - |v'[n].word|, |v'[n].edges| - i
  {
    hide TrieOf, Spells, Bytewise, RootsOk, Dictionary, Kept, From;
    var t := TrieOf(v', n, limit);
    TrieAt(v', n, limit);
    if i < |t.edges| {
      var f, y := v'[n].edges[i].fragment, v'[n].edges[i].node;
      var w, here := v[n].word + [f[0]], From(v, v[n].word + [f[0]]);
      assert y in v && v[y].word == v'[y].word by {
        assert Shrunk(v, v');
      }
      TrieAt(v', y, limit);
      PieceCounts(roots, v, y, w);
      BehindCovers(v, v', y);
      WeightBehind(roots, v, v', y, limit, 0, Behind(v, v[y].word));
      forall j | i < j < |v'[n].edges| ensures From(v, v[n].word + [v'[n].edges[j].Head()]) <= s - here {
        HeadsDiffer(v', n);
        Apart(v, v[n].word, f[0], v'[n].edges[j].Head());
      }
      WeightBehind(roots, v, v', n, limit, i + 1, s - here);
      DisjointCount(here, s - here, s);
    }
  }

  lemma Apart(v: View, w: seq<byte>, a: byte, b: byte)
    requires a != b
    ensures From(v, w + [a]) !! From(v, w + [b])
  {
    forall n | n in v && w + [a] <= v[n].word ensures !(w + [b] <= v[n].word) {
      assert v[n].word[|w|] == a;
    }
  }

  lemma BehindCovers(v: View, v': View, y: BuildNode)
    requires y in v'
    ensures forall b: byte :: From(v, v'[y].word + [b]) <= Behind(v, v'[y].word)
  {
  }

  /** The nodes below the first `i` roots. */
  ghost function FirstRoots(v: View, i: nat): set<BuildNode> {
    set n | n in v && v[n].word != [] && v[n].word[0] < i
  }

  lemma FirstRootsCount(v: View, i: nat)
    ensures |FirstRoots(v, i)| <= |v|
  {
    SubsetCount(FirstRoots(v, i), v.Keys);
    assert |v.Keys| == |v|;
  }

  /** The nodes below root `b` come in addition to those below earlier roots. */
  lemma NextRootCounts(v: View, b: byte)
    ensures |FirstRoots(v, b)| + |From(v, [b])| <= |FirstRoots(v, b + 1)|
    ensures |FirstRoots(v, b)| <= |FirstRoots(v, b + 1)|
  {
    DisjointCount(FirstRoots(v, b), From(v, [b]), FirstRoots(v, b + 1));
  }

  /** Together the compressed tries weigh no more than insertion made nodes. */
  lemma {:induction false} RootsWeightBound(roots: seq<Option<BuildEdge>>, v: View, v': View, limit: nat, i: nat)
    requires RootsOk(roots, v) && RootsOk(roots, v') && Spells(v) && Bytewise(v) && Compressed(v, v')
             && Limited(v', limit)
    requires i <= ROOT_EDGES
    ensures RootsWeight(TriesOf(roots, v', limit), i) <= |FirstRoots(v, i)| <= |v|
  {
    hide Spells, Bytewise, Compressed, TrieOf, Weight, FirstRoots, From, RootOk;
    FirstRootsCount(v, i);
    if i > 0 {
      var b: byte := i - 1;
      RootsWeightBound(roots, v, v', limit, b);
      NextRootCounts(v, b);
      if roots[b].Some? {
        RootWeight(roots, v, v', limit, b);
      }
    }
  }

  lemma RootWeight(roots: seq<Option<BuildEdge>>, v: View, v': View, limit: nat, b: byte)
    requires RootsOk(roots, v) && RootsOk(roots, v') && Spells(v) && Bytewise(v) && Compressed(v, v')
             && Limited(v', limit)
    requires roots[b].Some?
    ensures Weight(Branch([b], TriesOf(roots, v', limit)[b])) <= |From(v, [b])|
  {
    hide Spells, Bytewise, Dictionary, Kept, TrieOf, From, Behind;
    assert RootOk(roots, v', b) && RootOk(roots, v, b);
    var n := roots[b].value.node;
    TrieAt(v', n, limit);
    BehindCovers(v, v', n);
    WeightBehind(roots, v, v', n, limit, 0, Behind(v, [b]));
    PieceCounts(roots, v, n, [b]);
  }
}
