/**
 Three route lists, built and searched: urls that a declared route matches and that are not
 found.  For single routes `RouteBuild.OneRouteAllFoundIff` says exactly which miss a url; for
 all route lists `RouteBuild.PassingRoutesLost` says which routes answer nothing.
 */
module RouteLimits {
  import opened Common
  import opened RouteTrie
  import opened RouteRefinement
  import opened RoutePools
  import opened RoutePatterns
  import opened RouteTrees
  import opened RouteBuild
  import opened MergedRoutes
  import RouteMeaning
  import opened ShortestGaps
  import opened ActionTable
  import opened HostReversal

  const A: byte := 97
  const B: byte := 98
  const C: byte := 99
  const X: byte := 120
  const METHOD: uint16 := 1

  /** A declaration of `url` for service "a". */
  function Route(url: seq<byte>): RawNode {
    RawNode(url, [A], [], METHOD, 0)
  }

  function NoOperations(name: Name): seq<uint32> {
    []
  }

  /** At most two short routes: nothing is wrong with them, and their tree is small. */
  ghost predicate Short(raws: seq<RawNode>) {
    1 <= |raws| <= 2 && forall k :: 0 <= k < |raws| ==> ShortRoute(raws[k])
  }

  ghost predicate ShortRoute(raw: RawNode) {
    raw == Route(raw.url) && |raw.url| <= 8 && PlainUrl(raw.url)
  }

  lemma ShortIsFine(raws: seq<RawNode>, error: Option<BuildError>)
    requires Short(raws)
    ensures Small(raws, NoOperations) && !FirstProblem(raws, error)
  {
    forall k | 0 <= k < |raws| ensures Problem(raws[k], k).None? {
      assert ShortRoute(raws[k]);
    }
    ShortCosts(raws);
  }

  lemma {:induction false} ShortCosts(raws: seq<RawNode>)
    requires forall k :: 0 <= k < |raws| ==> ShortRoute(raws[k])
    ensures UrlBytes(raws) <= 8 * |raws| && RecordsCost(raws, NoOperations) <= 6 * |raws|
  {
    if raws != [] {
      ShortCosts(raws[..|raws| - 1]);
      ShortCost(raws[|raws| - 1]);
    }
  }

  lemma ShortCost(raw: RawNode)
    requires ShortRoute(raw)
    ensures RecordCost(raw, NoOperations) == 6 && |raw.url| <= 8
  {
  }

  /** The tree of short routes. */
  method BuildShort(raws: seq<RawNode>) returns (t: RouteTree, ghost actions: seq<uint32>)
    requires Short(raws)
    ensures fresh(t) && |actions| == |raws| && BuiltFor(t, raws, actions, NoOperations)
  {
    assert forall k :: 0 <= k < |raws| ==> ShortRoute(raws[k]);
    hide BuiltFor, FirstProblem, Small;
    var tree, error;
    tree, error, actions := Build(raws, NoOperations);
    ShortIsFine(raws, error);
    t := tree;
  }

  lemma CanSearch(t: RouteTree, raws: seq<RawNode>, actions: seq<uint32>)
    requires |actions| == |raws| && BuiltFor(t, raws, actions, NoOperations)
    ensures t.Valid()
  {
  }

  // ---------------------------------------------------------------- first occurrences

  /** The pattern `*b`. */
  const STAR_B: seq<byte> := [STAR, B]

  /** The url "bab". */
  const BAB: seq<byte> := [B, A, B]

  lemma StarBPattern()
    ensures Pattern([ASTERISK, B]) == STAR_B
  {
    assert [ASTERISK, B][1..] == [B] && [B][1..] == [];
    assert Collapse([B]) == [B];
    assert RunLength([B], ASTERISK) == 0;
    assert Collapse([ASTERISK, B]) == STAR_B;
    assert STAR_B[1..] == [B];
    NoHost(STAR_B);
  }

  /** Without dots and slashes there is nothing to reverse. */
  lemma NoHost(u: seq<byte>)
    requires SLASH !in u && DOT !in u
    ensures HostReversed(u) == u
  {
  }

  /** The route `*b` matches "bab", but its tree does not find it: the search commits to the
      first "b" behind the wildcard. */
  method FirstOccurrenceMisses() returns (found: Option<RouteNode>, ghost routes: Routes)
    ensures STAR_B in routes && Matches(STAR_B, BAB)
    ensures found.None?
  {
    var raws := [Route([ASTERISK, B])];
    var t, actions := BuildShort(raws);
    routes := RoutesOf(raws, actions);
    hide FindRoot, Matches, RoutesOf, Pattern, BuiltFor;
    CanSearch(t, raws, actions);
    BabMissed(t, raws, actions);
    BabSearchable(t.tries);
    hide Searchable, RouteTree.Valid;
    found := t.Search(BAB);
  }

  lemma BabSearchable(ts: map<byte, Trie>)
    ensures Searchable(ts, BAB) && |BAB| < 0x8000_0000
  {
  }

  lemma BabMissed(t: RouteTree, raws: seq<RawNode>, actions: seq<uint32>)
    requires raws == [Route([ASTERISK, B])] && |actions| == 1 && BuiltFor(t, raws, actions, NoOperations)
    ensures STAR_B in RoutesOf(raws, actions) && Matches(STAR_B, BAB) && FindRoot(t.tries, BAB) == None
  {
    hide BuiltFor, Pattern, FindRoot, Matches;
    StarBPattern();
    var p := Payload(actions[0], METHOD, 0);
    var b: seq<byte> := [B];
    assert raws[..0] == [] && actions[..0] == [];
    assert [STAR] + b + [] == STAR_B;
    assert RoutesOf(raws, actions) == map[STAR_B := p];
    OneRouteFoundIff(t, raws, actions, NoOperations, STAR_B, p, BAB);
    assert BAB[0..1] == b && BAB[2..3] == b && BAB[3..] == [];
    ShortestAt(STAR, b, [], BAB, 0);
    EmptyRest(BAB[1..]);
    MatchesWith(STAR, b, [], BAB, 2);
  }

  // ---------------------------------------------------------------- a star behind a greedy wildcard

  // The pattern "**/a*b/", as it is written and compiled, and the url "x/ay/ab/".
  const GREEDY_THEN_STAR_URL: seq<byte> := [ASTERISK, ASTERISK, SLASH, A, ASTERISK, B, SLASH]
  const GREEDY_THEN_STAR: seq<byte> := [GREEDY, SLASH, A, STAR, B, SLASH]
  const X_AY_AB: seq<byte> := [X, SLASH, A, 121, SLASH, A, B, SLASH]

  lemma GreedyThenStarPattern()
    ensures Pattern(GREEDY_THEN_STAR_URL) == GREEDY_THEN_STAR
  {
    hide Collapse, ReverseLabels;
    CollapsedGreedy();
    var host: seq<byte> := [GREEDY];
    assert FirstIndex(GREEDY_THEN_STAR, SLASH) == 1 && GREEDY_THEN_STAR[..1] == host;
    OneLabel(host);
  }

  lemma OneLabel(h: seq<byte>)
    requires DOT !in h
    ensures ReverseLabels(h) == h
  {
  }

  lemma CollapsedGreedy()
    ensures Collapse(GREEDY_THEN_STAR_URL) == GREEDY_THEN_STAR
  {
    var tail: seq<byte> := [SLASH, A, ASTERISK, B, SLASH];
    assert GREEDY_THEN_STAR_URL[1..][1..] == tail && RunLength(tail, ASTERISK) == 0;
    assert RunLength(GREEDY_THEN_STAR_URL[1..], ASTERISK) == 1 && RunLength(GREEDY_THEN_STAR_URL, ASTERISK) == 2;
    assert GREEDY_THEN_STAR_URL[2..] == tail;
    CollapsedTail(tail);
  }

  lemma CollapsedTail(tail: seq<byte>)
    requires tail == [SLASH, A, ASTERISK, B, SLASH]
    ensures Collapse(tail) == [SLASH, A, STAR, B, SLASH]
  {
    assert tail[1..][1..] == [ASTERISK, B, SLASH];
    StarThenText();
    assert Collapse(tail[1..]) == [A] + Collapse(tail[1..][1..]);
  }

  lemma StarThenText()
    ensures Collapse([ASTERISK, B, SLASH]) == [STAR, B, SLASH]
  {
    assert [ASTERISK, B, SLASH][1..] == [B, SLASH] && [B, SLASH][1..] == [SLASH] && [SLASH][1..] == [];
    assert Collapse([SLASH]) == [SLASH] && Collapse([B, SLASH]) == [B, SLASH];
    assert RunLength([B, SLASH], ASTERISK) == 0 && RunLength([ASTERISK, B, SLASH], ASTERISK) == 1;
  }

  // The route "**/a*b/" matches "x/ay/ab/", but its tree does not find it: the search commits to
  // the first "/a" behind the `**`, and the `*` cannot pass the '/' that follows.
  method StarBehindGreedyMisses() returns (found: Option<RouteNode>, ghost routes: Routes)
    ensures GREEDY_THEN_STAR in routes && Matches(GREEDY_THEN_STAR, X_AY_AB)
    ensures found.None?
  {
    var raws := [Route(GREEDY_THEN_STAR_URL)];
    var t, actions := BuildShort(raws);
    routes := RoutesOf(raws, actions);
    hide FindRoot, Matches, RoutesOf, Pattern, BuiltFor;
    CanSearch(t, raws, actions);
    StarMissed(t, raws, actions);
    XSearchable(t.tries);
    hide Searchable, RouteTree.Valid;
    found := t.Search(X_AY_AB);
  }

  lemma XSearchable(ts: map<byte, Trie>)
    ensures Searchable(ts, X_AY_AB) && |X_AY_AB| < 0x8000_0000
  {
  }

  lemma StarMissed(t: RouteTree, raws: seq<RawNode>, actions: seq<uint32>)
    requires raws == [Route(GREEDY_THEN_STAR_URL)] && |actions| == 1 && BuiltFor(t, raws, actions, NoOperations)
    ensures GREEDY_THEN_STAR in RoutesOf(raws, actions) && Matches(GREEDY_THEN_STAR, X_AY_AB)
    ensures FindRoot(t.tries, X_AY_AB) == None
  {
    hide BuiltFor, Pattern, FindRoot, Matches, Shortest;
    GreedyThenStarPattern();
    var p := Payload(actions[0], METHOD, 0);
    assert raws[..0] == [] && actions[..0] == [];
    assert RoutesOf(raws, actions) == map[GREEDY_THEN_STAR := p];
    OneRouteFoundIff(t, raws, actions, NoOperations, GREEDY_THEN_STAR, p, X_AY_AB);
    MatchedNotShortest();
  }

  lemma MatchedNotShortest()
    ensures Matches(GREEDY_THEN_STAR, X_AY_AB) && !Shortest(GREEDY_THEN_STAR, X_AY_AB)
  {
    hide Matches, Shortest;
    var slashA, bSlash, u: seq<byte> := [SLASH, A], [B, SLASH], X_AY_AB;
    var rest := [STAR] + bSlash + [];
    assert [GREEDY] + slashA + rest == GREEDY_THEN_STAR;
    // the match: "x/ay" for the `**`, nothing for the `*`
    assert u[4..6] == slashA && u[6..] == bSlash && bSlash[0..2] == bSlash && bSlash[2..] == [];
    EmptyRest([]);
    MatchesWith(STAR, bSlash, [], bSlash, 0);
    MatchesWith(GREEDY, slashA, rest, u, 4);
    // the search: the first "/a" is at 1, and "b/" only occurs behind a '/'
    var v: seq<byte> := [121, SLASH, A, B, SLASH];
    assert u[0..2][0] == X && u[1..3] == slashA && u[3..] == v;
    ShortestAt(GREEDY, slashA, rest, u, 1);
    assert v[0..2][0] != B && v[1..3][0] != B && v[2..4][0] != B && v[3..5] == bSlash && v[..3][1] == SLASH;
    ShortestAt(STAR, bSlash, [], v, 3);
  }

  // ---------------------------------------------------------------- merged wildcards

  /** The patterns "/a*b" and "/a*c", and the url "/axb". */
  const STAR_THEN_B: seq<byte> := [SLASH, A, STAR, B]
  const STAR_THEN_C: seq<byte> := [SLASH, A, STAR, C]
  const AXB: seq<byte> := [SLASH, A, X, B]

  lemma BehindSlashPattern(last: byte)
    requires last == B || last == C
    ensures Pattern([SLASH, A, ASTERISK, last]) == [SLASH, A, STAR, last]
  {
    var url: seq<byte> := [SLASH, A, ASTERISK, last];
    assert url[1..] == [A, ASTERISK, last] && url[1..][1..] == [ASTERISK, last];
    assert [ASTERISK, last][1..] == [last] && [last][1..] == [];
    assert RunLength([last], ASTERISK) == 0 && Collapse([last]) == [last];
    assert Collapse([ASTERISK, last]) == [STAR, last];
    assert Collapse([A, ASTERISK, last]) == [A, STAR, last];
    assert Collapse(url) == [SLASH, A, STAR, last];
    assert Collapse(url)[..0] == [];
  }

  /** With these two routes the node of "/a" is merged with the wildcard behind it. */
  lemma SharedWildcardMerges(routes: Routes)
    requires routes.Keys == {STAR_THEN_B, STAR_THEN_C}
    ensures MergedAt(routes, [SLASH, A]) && Passes(routes, STAR_THEN_B) && Passes(routes, STAR_THEN_C)
  {
    var w: seq<byte> := [SLASH, A];
    assert w + [STAR] <= STAR_THEN_B && STAR_THEN_B in routes && STAR_THEN_C in routes;
    assert w + [STAR] + [B] == STAR_THEN_B && w + [STAR] + [C] == STAR_THEN_C;
    assert Continues(routes, w + [STAR], B) && Continues(routes, w + [STAR], C);
    forall b | Continues(routes, w, b) ensures b == STAR {
      var p :| p in routes && w + [b] <= p;
      assert p[2] == b;
    }
    assert MergedWith(routes, w, STAR);
    assert STAR_THEN_B[..2] == w && STAR_THEN_C[..2] == w;
  }

  /** So their tree answers no request at all, although "/axb" matches the first. */
  method SharedWildcardLosesRoutes(u: seq<byte>) returns (found: Option<RouteNode>, ghost routes: Routes)
    requires Request(u) && |u| < 0x8000_0000
    ensures routes.Keys == {STAR_THEN_B, STAR_THEN_C} && Matches(STAR_THEN_B, AXB)
    ensures found.None?
  {
    var raws := [Route([SLASH, A, ASTERISK, B]), Route([SLASH, A, ASTERISK, C])];
    var t, actions := BuildShort(raws);
    routes := RoutesOf(raws, actions);
    hide FindRoot, Matches, RoutesOf, Pattern, BuiltFor;
    CanSearch(t, raws, actions);
    NothingAnswered(t, raws, actions, u);
    StarMatchesX();
    RequestSearchable(t.tries, u);
    hide Searchable, RouteTree.Valid;
    found := t.Search(u);
  }

  lemma RequestSearchable(ts: map<byte, Trie>, u: seq<byte>)
    requires Request(u)
    ensures Searchable(ts, u)
  {
  }

  lemma NothingAnswered(t: RouteTree, raws: seq<RawNode>, actions: seq<uint32>, u: seq<byte>)
    requires raws == [Route([SLASH, A, ASTERISK, B]), Route([SLASH, A, ASTERISK, C])] && |actions| == 2
    requires BuiltFor(t, raws, actions, NoOperations) && Request(u)
    ensures RoutesOf(raws, actions).Keys == {STAR_THEN_B, STAR_THEN_C} && FindRoot(t.tries, u) == None
  {
    hide BuiltFor, Pattern, FindRoot, Matches, MergedAt, Passes, RoutesOf;
    var routes := RoutesOf(raws, actions);
    TwoRoutes(raws, actions);
    SharedWildcardMerges(routes);
    if FindRoot(t.tries, u).Some? {
      var w := AnswersAreRoutes(t, raws, actions, NoOperations, u, FindRoot(t.tries, u).value);
      PassingRoutesLost(t, raws, actions, NoOperations, w, u);
    }
  }

  lemma TwoRoutes(raws: seq<RawNode>, actions: seq<uint32>)
    requires raws == [Route([SLASH, A, ASTERISK, B]), Route([SLASH, A, ASTERISK, C])] && |actions| == 2
    ensures RoutesOf(raws, actions).Keys == {STAR_THEN_B, STAR_THEN_C}
  {
    hide Pattern;
    BehindSlashPattern(B);
    BehindSlashPattern(C);
    RoutesOfNext(raws, 0, [], actions[0]);
    RoutesOfNext(raws, 1, [actions[0]], actions[1]);
    assert raws[..0] == [] && raws[..2] == raws && [actions[0]] + [actions[1]] == actions
           && [] + [actions[0]] == [actions[0]];
  }

  lemma StarMatchesX()
    ensures Matches(STAR_THEN_B, AXB)
  {
    var a, b: seq<byte> := [SLASH, A], [B];
    assert [STAR] + b + [] == [STAR, B] && a + [STAR, B] == STAR_THEN_B;
    assert AXB[2..] == [X, B] && [X, B][1..2] == b && [X, B][2..] == [] && [X, B][..1] == [X];
    EmptyRest([]);
    MatchesWith(STAR, b, [], [X, B], 1);
    RouteMeaning.LiteralPrefix(a, [STAR, B], AXB);
  }
}
