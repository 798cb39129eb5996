/**
 The tries of a single route, and what the search finds in them: exactly the urls that the
 route matches with the shortest gaps.
 */
module OneRoute {
  import opened Common
  import opened RouteTrie
  import opened RouteRefinement
  import opened RouteMeaning
  import opened ShortestGaps

  const NO_ROUTE := Payload(0, 0, 0)

  /** The length of the piece that `q` starts with: a wildcard, or a literal up to the next one. */
  ghost function PieceLength(q: seq<byte>): (n: nat)
    requires q != []
    ensures 0 < n <= |q| && if IsWild(q[0]) then n == 1 else q[..n] == Front(q)
  {
    if IsWild(q[0]) then 1 else |Front(q)|
  }

  /** One edge for each piece. */
  ghost function Chain(q: seq<byte>, p: Payload): Trie
    decreases |q|
  {
    if q == [] then Trie([], p)
    else
      var n := PieceLength(q);
      Trie([Branch(q[..n], Chain(q[n..], p))], NO_ROUTE)
  }

  /** The tries of route `q`; the first byte has the root to itself. */
  ghost function TriesFor(q: seq<byte>, p: Payload): map<byte, Trie>
    requires q != []
  {
    map[q[0] := Chain(q[1..], p)]
  }

  // ---------------------------------------------------------------- the search

  lemma FindEnd(b: Branch, p: Payload, u: seq<byte>, c: nat)
    requires b.node == Trie([], p) && p.methods != 0 && c <= |u|
    ensures Find(b, u, c) == if (if b.Wild() then c < |u| else c == |u|) then Some(p) else None
  {
    assert FindFrom(b, 0, u, c) == if b.Wild() && c < |u| then Some(p) else None;
  }

  /** At a node without a route that has one edge the search takes that edge or fails. */
  lemma FindOnly(b: Branch, child: Branch, u: seq<byte>, c: nat)
    requires b.node == Trie([child], NO_ROUTE) && c <= |u|
    ensures Find(b, u, c) ==
      var at := if child.Wild() then Some(c) else Locate(b.Head(), child.fragment, u, c);
      if at.Some? then Find(child, u, at.value) else None
  {
    hide Locate;
    assert FindFrom(b, 1, u, c) == None;
    assert b.node.edges[0] == child;
    assert NextWild(b.node.edges, 1) == 1;
  }

  /** The next '/' is not before `at` exactly when there is none in between. */
  lemma SlashAfter(u: seq<byte>, c: nat, at: nat)
    requires c <= at <= |u|
    ensures var slash := IndexOf(u, [SLASH], c); (slash.None? || at <= slash.value) <==> SLASH !in u[c..at]
  {
    hide IndexOf;
    var slash, gap := IndexOf(u, [SLASH], c), u[c..at];
    forall j | 0 <= j < |gap| ensures OccursAt(u, [SLASH], c + j) <==> gap[j] == SLASH {
      assert u[c + j..c + j + 1] == [gap[j]];
    }
    if slash.Some? && slash.value < at {
      assert gap[slash.value - c] == SLASH;
    }
  }

  lemma OccursFrom(u: seq<byte>, f: seq<byte>, c: nat, k: int)
    requires c <= |u|
    ensures OccursAt(u[c..], f, k) <==> 0 <= k && OccursAt(u, f, c + k)
  {
    if 0 <= k && c + k + |f| <= |u| {
      assert u[c..][k..k + |f|] == u[c + k..c + k + |f|];
    }
  }

  /** Behind a wildcard the search commits to the first occurrence that its gap allows. */
  lemma LocateFirst(h: byte, f: seq<byte>, u: seq<byte>, c: nat)
    requires IsWild(h) && c <= |u|
    ensures var found := IndexOf(u, f, c);
            if found.None? then Locate(h, f, u, c).None? && forall k :: !OccursAt(u[c..], f, k)
            else var k := found.value - c;
                 FirstAt(u[c..], f, k)
                 && Locate(h, f, u, c) == if Gap(h, u[c..], k) then Some(found.value + |f|) else None
  {
    hide IndexOf, OccursAt;
    forall k ensures OccursAt(u[c..], f, k) <==> 0 <= k && OccursAt(u, f, c + k) {
      OccursFrom(u, f, c, k);
    }
    var found := IndexOf(u, f, c);
    if found.Some? {
      Inside(u, f, found.value);
      GapTo(h, f, u, c, found.value);
    }
  }

  lemma GapTo(h: byte, f: seq<byte>, u: seq<byte>, c: nat, at: nat)
    requires IsWild(h) && c <= at <= |u| && IndexOf(u, f, c) == Some(at)
    ensures Locate(h, f, u, c) == if Gap(h, u[c..], at - c) then Some(at + |f|) else None
  {
    hide IndexOf, OccursAt;
    SlashAfter(u, c, at);
    assert u[c..][..at - c] == u[c..at];
  }

  lemma Inside(u: seq<byte>, f: seq<byte>, k: nat)
    requires OccursAt(u, f, k)
    ensures k + |f| <= |u|
  {
  }

  /** What the search below `b` is to find of `q`, the pattern from there on. */
  ghost predicate FoundBelow(b: Branch, q: seq<byte>, u: seq<byte>) {
    Shortest(if b.Wild() then [b.Head()] + q else q, u)
  }

  /** Below every edge of the chain the search finds just the shortest gaps. */
  lemma {:induction false} ChainFinds(b: Branch, q: seq<byte>, p: Payload, u: seq<byte>, c: nat)
    requires b.node == Chain(q, p) && p.methods != 0 && c <= |u|
    requires NoAdjacentWildcards(q) && (b.Wild() && q != [] ==> !IsWild(q[0]))
    ensures Find(b, u, c) == if FoundBelow(b, q, u[c..]) then Some(p) else None
    decreases |q|
  {
    hide Find, Shortest, Locate, NoAdjacentWildcards;
    if q == [] {
      FindEnd(b, p, u, c);
      EmptyBelow(b, u[c..]);
    } else {
      var n := PieceLength(q);
      var f, rest := q[..n], q[n..];
      var child := Branch(f, Chain(rest, p));
      FindOnly(b, child, u, c);
      PieceApart(q);
      if child.Wild() {
        ChainFinds(child, rest, p, u, c);
        assert [q[0]] + rest == q;
      } else {
        var at := Locate(b.Head(), f, u, c);
        assert f + rest == q;
        TakesLiteral(b, f, rest, u, c);
        if at.Some? {
          ChainFinds(child, rest, p, u, at.value);
        }
      }
    }
  }

  lemma EmptyBelow(b: Branch, u: seq<byte>)
    ensures FoundBelow(b, [], u) <==> if b.Wild() then u != [] else u == []
  {
  }

  lemma PieceApart(q: seq<byte>)
    requires q != [] && NoAdjacentWildcards(q)
    ensures var n := PieceLength(q);
            && NoAdjacentWildcards(q[n..])
            && (IsWild(q[0]) && n < |q| ==> !IsWild(q[n]))
            && (!IsWild(q[0]) ==> LiteralBytes(q[..n]) && (n < |q| ==> IsWild(q[n])))
  {
    var n := PieceLength(q);
    forall i | 0 < i < |q[n..]| ensures !(IsWild(q[n..][i - 1]) && IsWild(q[n..][i])) {
      assert q[n..][i] == q[n + i] && q[n..][i - 1] == q[n + i - 1];
    }
  }

  /** Taking a literal edge: behind a literal it must stand at the cursor. */
  lemma TakesLiteral(b: Branch, f: seq<byte>, rest: seq<byte>, u: seq<byte>, c: nat)
    requires c <= |u| && f != [] && LiteralBytes(f) && (rest != [] ==> IsWild(rest[0]))
    ensures var at := Locate(b.Head(), f, u, c);
            FoundBelow(b, f + rest, u[c..]) <==> at.Some? && Shortest(rest, u[at.value..])
  {
    hide Shortest, Locate;
    var at := Locate(b.Head(), f, u, c);
    if b.Wild() {
      LocateFirst(b.Head(), f, u, c);
      var found := IndexOf(u, f, c);
      assert [b.Head()] + (f + rest) == [b.Head()] + f + rest;
      if found.Some? {
        var k := found.value - c;
        ShortestAt(b.Head(), f, rest, u[c..], k);
        assert u[c..][k + |f|..] == u[found.value + |f|..];
      } else if FoundBelow(b, f + rest, u[c..]) {
        var k := ShortestSomewhere(b.Head(), f, rest, u[c..]);
      }
    } else {
      LiteralShortest(f, rest, u[c..]);
      LocateLiteral(b.Head(), f, u, c);
      if at.Some? {
        assert u[c..][|f|..] == u[at.value..];
      }
    }
  }

  lemma LocateLiteral(h: byte, f: seq<byte>, u: seq<byte>, c: nat)
    requires !IsWild(h) && c <= |u|
    ensures Locate(h, f, u, c) == if f <= u[c..] then Some(c + |f|) else None
  {
    if c + |f| <= |u| {
      assert u[c..][..|f|] == u[c..c + |f|];
    }
  }

  /** In the tries of one route, with any number of wildcards, a url is found if and only if the
      route matches it with the shortest gaps. */
  lemma FoundIff(q: seq<byte>, p: Payload, u: seq<byte>)
    requires q != [] && NoAdjacentWildcards(q) && p.methods != 0 && Request(u)
    ensures FindRoot(TriesFor(q, p), u) == if Shortest(q, u) then Some(p) else None
  {
    hide Find, Shortest, Chain;
    var b := Branch([q[0]], Chain(q[1..], p));
    RootApart(q);
    if u == [] {
      NothingShortest(q);
    } else if IsWild(q[0]) {
      ChainFinds(b, q[1..], p, u, 0);
      assert [q[0]] + q[1..] == q && u[0..] == u;
    } else {
      OneByte(q, u);
      if u[0] == q[0] {
        ChainFinds(b, q[1..], p, u, 1);
      }
    }
  }

  lemma RootApart(q: seq<byte>)
    requires q != [] && NoAdjacentWildcards(q)
    ensures NoAdjacentWildcards(q[1..]) && (IsWild(q[0]) && |q| > 1 ==> !IsWild(q[1]))
  {
    forall i | 0 < i < |q[1..]| ensures !(IsWild(q[1..][i - 1]) && IsWild(q[1..][i])) {
      assert q[1..][i] == q[1 + i] && q[1..][i - 1] == q[i];
    }
  }

  lemma OneByte(q: seq<byte>, u: seq<byte>)
    requires q != [] && !IsWild(q[0]) && u != []
    ensures Shortest(q, u) <==> u[0] == q[0] && Shortest(q[1..], u[1..])
  {
  }

  lemma NothingShortest(q: seq<byte>)
    requires q != [] && NoAdjacentWildcards(q)
    ensures !Shortest(q, [])
  {
    if |q| > 1 {
      assert q[1..][0] == q[1];
    }
  }

  /** The search finds every url the route matches if and only if: behind a `**`, every `*` that
      something follows has exactly "/" behind it; and the route has no wildcard, ends with one,
      or has no `**` and a '/' behind its last `*`. */
  lemma AllFoundIff(q: seq<byte>, p: Payload)
    requires q != [] && NoAdjacentWildcards(q) && p.methods != 0
    ensures (forall u | Request(u) && Matches(q, u) :: FindRoot(TriesFor(q, p), u).Some?) <==> 0 in q || AllFound(q)
  {
    hide FindRoot, Shortest, Matches, AllFound, TriesFor;
    AllShortestIff(q);
    forall u | Request(u) ensures FindRoot(TriesFor(q, p), u).Some? <==> Shortest(q, u) {
      FoundIff(q, p, u);
    }
  }
}
