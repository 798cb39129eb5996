/** From route declarations to a route tree that can be searched. */
module RouteBuild {
  import opened Common
  import opened RouteTrie
  import opened RoutePools
  import opened RouteRefinement
  import opened RouteMeaning
  import opened RoutePatterns
  import opened RouteTrees
  import opened BuildTree
  import opened Compress
  import opened CompressedTrie
  import opened HostReversal
  import opened ActionTable
  import opened TrieWeight
  import opened MergedRoutes
  import opened SegmentedRoutes
  import opened ShortestGaps
  import opened OneRoute
  import opened OneRouteBuilt

  /** A route declaration; method list and tags are given as the masks they parse to. */
  datatype RawNode = RawNode(url: seq<byte>, service: Name, middlewares: seq<Name>, methods: uint16, tags: uint16)

  datatype BuildError = NoRoutes | TooManyWildcards(index: nat) | NoMethods(index: nat)

  /** The problem with a declaration, if it has one. */
  ghost function Problem(raw: RawNode, index: nat): Option<BuildError> {
    if WildcardCount(Collapse(raw.url)) > MAX_WILDCARDS then Some(TooManyWildcards(index))
    else if raw.methods == 0 then Some(NoMethods(index))
    else None
  }

  /** The routes of a list of declarations: later ones override earlier ones of the same
      pattern, and an empty url routes nothing. */
  ghost function RoutesOf(raws: seq<RawNode>, actions: seq<uint32>): (routes: map<seq<byte>, Payload>)
    requires |actions| == |raws|
    ensures [] !in routes
  {
    if raws == [] then map[]
    else
      var last := |raws| - 1;
      var earlier := RoutesOf(raws[..last], actions[..last]);
      var p := Pattern(raws[last].url);
      if p == [] then earlier
      else earlier[p := Payload(actions[last], raws[last].methods, raws[last].tags)]
  }

  /** Every word is a prefix of some declared pattern. */
  ghost predicate Declared(v: View, raws: seq<RawNode>) {
    forall n :: n in v ==> DeclaredWord(v[n].word, raws)
  }

  ghost predicate DeclaredWord(w: seq<byte>, raws: seq<RawNode>) {
    exists k :: 0 <= k < |raws| && w <= Pattern(raws[k].url)
  }

  ghost predicate AllSound(raws: seq<RawNode>) {
    forall k :: 0 <= k < |raws| ==> PlainUrl(raws[k].url) && Problem(raws[k], k).None?
  }

  ghost predicate RecordsOk(registry: seq<byte>, metadata: seq<uint32>, analyze: Analyzer, raws: seq<RawNode>,
                            actions: seq<uint32>) {
    && |actions| == |raws|
    && (forall k :: 0 <= k < |raws| ==>
       RouteAt(registry, metadata, actions[k], analyze, raws[k].service, raws[k].middlewares))
    && Increasing(actions)
  }

  /** Every declaration has an action of its own. */
  ghost predicate Increasing(actions: seq<uint32>) {
    forall j, k :: 0 <= j < k < |actions| ==> actions[j] < actions[k]
  }

  /** The room the record of a route takes at most, in either table. */
  function RecordCost(raw: RawNode, analyze: Analyzer): nat {
    2 + NameCost(raw.service, analyze) + NamesCost(raw.middlewares, analyze)
  }

  function RecordsCost(raws: seq<RawNode>, analyze: Analyzer): nat {
    if raws == [] then 0 else RecordsCost(raws[..|raws| - 1], analyze) + RecordCost(raws[|raws| - 1], analyze)
  }

  function UrlBytes(raws: seq<RawNode>): nat {
    if raws == [] then 0 else UrlBytes(raws[..|raws| - 1]) + |raws[|raws| - 1].url|
  }

  /** Declarations whose tree surely fits the index types. */
  predicate Small(raws: seq<RawNode>, analyze: Analyzer) {
    ROOT_EDGES + 3 * UrlBytes(raws) < 0x1_0000 && RecordsCost(raws, analyze) < 0x1_0000_0000
  }

  method CountWildcards(url: seq<byte>) returns (count: nat)
    ensures count == WildcardCount(url)
  {
    count := 0;
    for i := 0 to |url|
      invariant count == WildcardCount(url[..i])
    {
      assert url[..i + 1][..i] == url[..i];
      if IsWild(url[i]) {
        count := count + 1;
      }
    }
    assert url[..|url|] == url;
  }

  /** The record of one route: its service, and its middlewares in order. */
  method AppendRoute(t: RouteTree, raw: RawNode, ids: map<Name, uint32>, analyze: Analyzer)
    returns (actionIndex: uint32, ids': map<Name, uint32>)
    requires t.TablesFit() ==> MapOk(t.actionsRegistry, t.actionMetadata, ids, analyze)
    modifies t`actionsRegistry, t`actionMetadata
    ensures old(t.actionsRegistry) <= t.actionsRegistry && old(t.actionMetadata) <= t.actionMetadata
    ensures t.TablesFit() ==>
              && MapOk(t.actionsRegistry, t.actionMetadata, ids', analyze)
              && RouteAt(t.actionsRegistry, t.actionMetadata, actionIndex, analyze, raw.service, raw.middlewares)
              && |old(t.actionMetadata)| <= actionIndex
    ensures |t.actionsRegistry| <= |old(t.actionsRegistry)| + RecordCost(raw, analyze)
    ensures |t.actionMetadata| <= |old(t.actionMetadata)| + RecordCost(raw, analyze)
  {
    hide MapOk, ActionAt, RouteAt, NameCost, NamesCost;
    NamesCostStart(raw.middlewares, analyze);
    var svcID;
    svcID, ids' := t.GetOrCreateActionID(raw.service, ids, analyze);
    ghost var cost := NameCost(raw.service, analyze);
    var mwIDs := [];
    var i := 0;
    while i < |raw.middlewares|
      invariant 0 <= i == |mwIDs| <= |raw.middlewares|
      invariant old(t.actionsRegistry) <= t.actionsRegistry && old(t.actionMetadata) <= t.actionMetadata
      invariant |t.actionsRegistry| <= |old(t.actionsRegistry)| + cost
                && |t.actionMetadata| <= |old(t.actionMetadata)| + cost - i
      invariant cost == NameCost(raw.service, analyze) + NamesCost(raw.middlewares[..i], analyze)
      invariant t.TablesFit() ==>
                  && MapOk(t.actionsRegistry, t.actionMetadata, ids', analyze)
                  && ActionAt(t.actionsRegistry, t.actionMetadata, svcID, raw.service, analyze(raw.service))
                  && forall k :: 0 <= k < i ==>
                       ActionAt(t.actionsRegistry, t.actionMetadata, mwIDs[k], raw.middlewares[k],
                                analyze(raw.middlewares[k]))
    {
      ghost var r, m := t.actionsRegistry, t.actionMetadata;
      var mwID;
      mwID, ids' := t.GetOrCreateActionID(raw.middlewares[i], ids', analyze);
      if t.TablesFit() {
        ActionStays(r, m, t.actionsRegistry, t.actionMetadata, svcID, raw.service, analyze(raw.service));
        ActionsStay(r, m, t.actionsRegistry, t.actionMetadata, mwIDs, raw.middlewares, analyze);
      }
      mwIDs := mwIDs + [mwID];
      NamesCostStep(raw.middlewares, i, analyze);
      cost := cost + NameCost(raw.middlewares[i], analyze) + 1;
      i := i + 1;
    }
    assert raw.middlewares[..i] == raw.middlewares;
    ghost var r, m := t.actionsRegistry, t.actionMetadata;
    actionIndex := |t.actionMetadata| % 0x1_0000_0000;
    t.actionMetadata := t.actionMetadata + ([svcID, |mwIDs| % 0x1_0000_0000] + mwIDs);
    if t.TablesFit() {
      MapStays(r, m, t.actionsRegistry, t.actionMetadata, ids', analyze);
      RouteAppended(r, m, analyze, raw.service, raw.middlewares, svcID, mwIDs);
    }
  }

  lemma ActionsStay(r: seq<byte>, m: seq<uint32>, r': seq<byte>, m': seq<uint32>, ids: seq<uint32>, names: seq<Name>,
                    analyze: Analyzer)
    requires r <= r' && m <= m' && |ids| <= |names|
    requires forall k :: 0 <= k < |ids| ==> ActionAt(r, m, ids[k], names[k], analyze(names[k]))
    ensures forall k :: 0 <= k < |ids| ==> ActionAt(r', m', ids[k], names[k], analyze(names[k]))
  {
    forall k | 0 <= k < |ids| ensures ActionAt(r', m', ids[k], names[k], analyze(names[k])) {
      ActionStays(r, m, r', m', ids[k], names[k], analyze(names[k]));
    }
  }

  /** The compiled pattern of a url, with the host reversed in place. */
  method CompilePattern(collapsed: seq<byte>) returns (pattern: seq<byte>)
    ensures pattern == HostReversed(collapsed)
  {
    var url := new byte[|collapsed|](i requires 0 <= i < |collapsed| => collapsed[i]);
    assert url[..] == collapsed;
    ReverseHost(url);
    pattern := url[..];
  }

  // ---------------------------------------------------------------- bookkeeping

  lemma RoutesOfNext(raws: seq<RawNode>, i: nat, actions: seq<uint32>, action: uint32)
    requires i < |raws| && |actions| == i
    ensures RoutesOf(raws[..i + 1], actions + [action])
         == if Pattern(raws[i].url) == [] then RoutesOf(raws[..i], actions)
            else RoutesOf(raws[..i], actions)[Pattern(raws[i].url) := Payload(action, raws[i].methods, raws[i].tags)]
  {
    assert raws[..i + 1][..i] == raws[..i];
    assert (actions + [action])[..i] == actions;
  }

  lemma DeclaredNext(v: View, v': View, raws: seq<RawNode>, i: nat)
    requires i < |raws| && Declared(v, raws[..i]) && GrownFor(v, v', Pattern(raws[i].url))
    ensures Declared(v', raws[..i + 1]) && (Blank(v) ==> Blank(v'))
  {
    forall n | n in v' ensures DeclaredWord(v'[n].word, raws[..i + 1]) {
      if n in v {
        assert DeclaredWord(v[n].word, raws[..i]);
        var k :| 0 <= k < |raws[..i]| && v[n].word <= Pattern(raws[..i][k].url);
        assert raws[..i][k] == raws[..i + 1][k];
      } else {
        assert raws[..i + 1][i] == raws[i];
      }
    }
  }

  /** What one more declaration adds to the bounds. */
  lemma SizesNext(raws: seq<RawNode>, i: nat, analyze: Analyzer)
    requires i < |raws|
    ensures UrlBytes(raws[..i + 1]) >= UrlBytes(raws[..i]) + |Pattern(raws[i].url)|
    ensures RecordsCost(raws[..i + 1], analyze) == RecordsCost(raws[..i], analyze) + RecordCost(raws[i], analyze)
  {
    assert raws[..i + 1][..i] == raws[..i];
    HostReversedMultiset(Collapse(raws[i].url));
  }

  lemma RecordInside(r: seq<byte>, m: seq<uint32>, index: int, analyze: Analyzer, service: Name, middlewares: seq<Name>)
    requires RouteAt(r, m, index, analyze, service, middlewares)
    ensures index < |m|
  {
  }

  lemma RecordsNext(r: seq<byte>, m: seq<uint32>, r': seq<byte>, m': seq<uint32>, analyze: Analyzer,
                    raws: seq<RawNode>, i: nat, actions: seq<uint32>, action: uint32)
    requires i < |raws| && r <= r' && m <= m' && RecordsOk(r, m, analyze, raws[..i], actions)
    requires RouteAt(r', m', action, analyze, raws[i].service, raws[i].middlewares) && |m| <= action
    ensures RecordsOk(r', m', analyze, raws[..i + 1], actions + [action])
  {
    hide RouteAt;
    var actions' := actions + [action];
    forall j | 0 <= j < i ensures actions[j] < action {
      assert RouteAt(r, m, actions[j], analyze, raws[..i][j].service, raws[..i][j].middlewares);
      RecordInside(r, m, actions[j], analyze, raws[..i][j].service, raws[..i][j].middlewares);
    }
    forall k | 0 <= k < |raws[..i + 1]|
      ensures RouteAt(r', m', actions'[k], analyze, raws[..i + 1][k].service, raws[..i + 1][k].middlewares)
    {
      if k < i {
        assert raws[..i][k] == raws[..i + 1][k];
        RouteStays(r, m, r', m', actions[k], analyze, raws[k].service, raws[k].middlewares);
      }
    }
  }

  /** Prefixes of sound declarations' patterns are admissible. */
  lemma WordsOk(v: View, raws: seq<RawNode>)
    requires Declared(v, raws) && AllSound(raws)
    ensures AllAdmissible(v) && Limited(v, MAX_ROUTE_LENGTH)
  {
    forall n | n in v ensures Admissible(v[n].word) {
      assert DeclaredWord(v[n].word, raws);
      var k :| 0 <= k < |raws| && v[n].word <= Pattern(raws[k].url);
      var p := Pattern(raws[k].url);
      assert Problem(raws[k], k).None?;
      PatternAdmissible(raws[k].url);
      PrefixAdmissible(p, |v[n].word|);
      assert p[..|v[n].word|] == v[n].word;
    }
  }

  // ---------------------------------------------------------------- the build

  /** What a successful build promises, as long as its pools fit their index types. */
  ghost predicate BuiltFor(t: RouteTree, raws: seq<RawNode>, actions: seq<uint32>, analyze: Analyzer)
    reads t
  {
    && t.Valid() && RootsOrdered(t.tries)
    && RecordsOk(t.actionsRegistry, t.actionMetadata, analyze, raws, actions)
    && (forall w, p :: RootContains(t.tries, w, p) <==> w in RoutesOf(raws, actions) && RoutesOf(raws, actions)[w] == p)
    && AllSound(raws)
    && (RootsSegmented(t.tries) <==> SegmentsTold(RoutesOf(raws, actions)))
    && AvoidsMerged(t.tries, RoutesOf(raws, actions))
    && OneOnly(t.tries, RoutesOf(raws, actions))
    && (Zeroless(raws) ==> TakeableTold(t.tries, RoutesOf(raws, actions)) && RootsHeaded(t.tries))
  }

  /** Route `w` matches `u`, and no merged node lies on it. */
  ghost predicate Unmerged(routes: Routes, w: seq<byte>, p: Payload, u: seq<byte>) {
    w in routes && routes[w] == p && Matches(w, u) && !Passes(routes, w)
  }

  /** Every answer is such a route. */
  ghost predicate AvoidsMerged(ts: map<byte, Trie>, routes: Routes) {
    forall u, p :: Request(u) && FindRoot(ts, u) == Some(p) ==> exists w :: Unmerged(routes, w, p, u)
  }

  /** One route alone is built into just its tries. */
  ghost predicate OneOnly(ts: map<byte, Trie>, routes: Routes) {
    forall q, p: Payload :: q != [] && p.methods != 0 && routes == map[q := p] ==> ts == TriesFor(q, p)
  }

  /** Every edge can be taken exactly when the routes merge no wildcard. */
  ghost predicate TakeableTold(ts: map<byte, Trie>, routes: Routes) {
    RootsTakeable(ts) <==> forall w :: !MergedAt(routes, w)
  }

  ghost predicate Zeroless(raws: seq<RawNode>) {
    forall k :: 0 <= k < |raws| ==> 0 !in raws[k].url
  }

  /** No more nodes and records than the declarations allow for. */
  ghost predicate Sized(t: RouteTree, v: View, raws: seq<RawNode>, analyze: Analyzer)
    reads t`actionsRegistry, t`actionMetadata
  {
    && |v| <= UrlBytes(raws)
    && |t.actionsRegistry| <= RecordsCost(raws, analyze) && |t.actionMetadata| <= RecordsCost(raws, analyze)
  }

  /** The loop state of the build after the first `i` declarations. */
  ghost predicate Building(t: RouteTree, roots: array<Option<BuildEdge>>, ids: map<Name, uint32>, analyze: Analyzer,
                           v: View, raws: seq<RawNode>, i: nat, actions: seq<uint32>)
    reads t`actionsRegistry, t`actionMetadata, roots, v.Keys
  {
    && roots.Length == 256 && i <= |raws| && |actions| == i
    && RootsOk(roots[..], v) && Plain(v)
    && Dictionary(v) == RoutesOf(raws[..i], actions)
    && Declared(v, raws[..i]) && Blank(v)
    && Sized(t, v, raws[..i], analyze)
    && (t.TablesFit() ==>
          && MapOk(t.actionsRegistry, t.actionMetadata, ids, analyze)
          && RecordsOk(t.actionsRegistry, t.actionMetadata, analyze, raws[..i], actions))
  }

  /** Add one declaration that has no problem. */
  method AddRoute(t: RouteTree, roots: array<Option<BuildEdge>>, ids: map<Name, uint32>, analyze: Analyzer,
                  collapsed: seq<byte>, ghost v: View, raws: seq<RawNode>, i: nat, ghost actions: seq<uint32>)
    returns (ids': map<Name, uint32>, ghost v': View, ghost action: uint32)
    requires i < |raws| && collapsed == Collapse(raws[i].url) && raws[i].methods != 0
    requires Building(t, roots, ids, analyze, v, raws, i, actions)
    modifies t`actionsRegistry, t`actionMetadata, roots, v.Keys
    ensures fresh(v'.Keys - v.Keys)
    ensures Building(t, roots, ids', analyze, v', raws, i + 1, actions + [action])
  {
    hide RootsOk, Spells, Bytewise, Mirrors, Dictionary, Declared, MapOk, RecordsOk, RouteAt, RoutesOf, Blank;
    hide UrlBytes, RecordsCost, RecordCost, GrownFor;
    SizesNext(raws, i, analyze);
    ghost var r, m := t.actionsRegistry, t.actionMetadata;
    var url := CompilePattern(collapsed);
    var actionIndex;
    actionIndex, ids' := AppendRoute(t, raws[i], ids, analyze);
    var leaf;
    leaf, v' := Insert(roots, url, Payload(actionIndex, raws[i].methods, raws[i].tags), v);
    action := actionIndex;
    RoutesOfNext(raws, i, actions, action);
    DeclaredNext(v, v', raws, i);
    if t.TablesFit() {
      RecordsNext(r, m, t.actionsRegistry, t.actionMetadata, analyze, raws, i, actions, action);
    }
  }

  lemma BuildStarts(t: RouteTree, roots: array<Option<BuildEdge>>, analyze: Analyzer, raws: seq<RawNode>)
    requires roots.Length == 256 && forall i :: 0 <= i < 256 ==> roots[i].None?
    requires t.actionsRegistry == [] && t.actionMetadata == []
    ensures Building(t, roots, map[], analyze, map[], raws, 0, [])
  {
    hide RootsOk, Spells, Bytewise, Dictionary, Blank, RouteAt, ActionAt;
    assert raws[..0] == [];
    NothingBuilt(roots[..]);
  }

  lemma NothingBuilt(roots: seq<Option<BuildEdge>>)
    requires |roots| == 256 && forall i :: 0 <= i < 256 ==> roots[i].None?
    ensures RootsOk(roots, map[]) && Spells(map[]) && Bytewise(map[]) && Blank(map[])
    ensures Dictionary(map[]) == map[]
  {
    forall i: byte ensures RootOk(roots, map[], i) {
    }
  }

  /** Compress what was inserted and flatten it into the tree's pools. */
  method FinishBuild(t: RouteTree, roots: array<Option<BuildEdge>>, ghost ids: map<Name, uint32>,
                     ghost analyze: Analyzer, ghost v: View, ghost raws: seq<RawNode>, ghost actions: seq<uint32>)
    requires Building(t, roots, ids, analyze, v, raws, |raws|, actions) && AllSound(raws)
    modifies t, v.Keys
    ensures Fits(t.Flat()) && t.TablesFit() ==> BuiltFor(t, raws, actions, analyze)
    ensures Small(raws, analyze) ==> Fits(t.Flat()) && t.TablesFit()
  {
    hide RootsOk, Spells, Bytewise, Mirrors, Dictionary, Declared, MapOk, RecordsOk, RouteAt, RoutesOf, AllSound;
    hide Compressed, Blank, UrlBytes, RecordsCost, AvoidsMerged, OneOnly, TakeableTold, Zeroless, RootsPlaced;
    hide RootContains, RootsOrdered, RootsSegmented, SegmentsTold;
    assert raws[..|raws|] == raws;
    WordsOk(v, raws);
    ghost var v' := CompressRoots(roots, v, MAX_ROUTE_LENGTH);
    Outcome(roots[..], v, v', raws, actions);
    AnswersTold(roots[..], v, v', raws, actions);
    RootsWeightBound(roots[..], v, v', MAX_ROUTE_LENGTH, ROOT_EDGES);
    ghost var tries := TriesOf(roots[..], v', MAX_ROUTE_LENGTH);
    TriesRepresent(roots, v', MAX_ROUTE_LENGTH);
    t.Finalize(roots, tries, v'.Keys);
  }

  /** Everything the search relies on holds of the compressed tries. */
  lemma Outcome(roots: seq<Option<BuildEdge>>, v: View, v': View, raws: seq<RawNode>, actions: seq<uint32>)
    requires RootsOk(roots, v) && RootsOk(roots, v') && Spells(v) && Bytewise(v) && Compressed(v, v')
    requires Declared(v, raws) && AllSound(raws) && |actions| == |raws| && Dictionary(v) == RoutesOf(raws, actions)
    ensures Spells(v') && Limited(v', MAX_ROUTE_LENGTH) && Declared(v', raws)
    ensures var ts := TriesOf(roots, v', MAX_ROUTE_LENGTH);
            && RootsPlaced(ts) && RootsOrdered(ts)
            && (forall w, p :: RootContains(ts, w, p) <==>
               w in RoutesOf(raws, actions) && RoutesOf(raws, actions)[w] == p)
  {
    hide Spells, RootsOk, Bytewise, Dictionary, AllSound, RootContains;
    WordsOk(v, raws);
    Survivors(v, v', raws);
    WordsOk(v', raws);
    StartingWildcardAlone(roots, v, v');
    TriesPlaced(roots, v', MAX_ROUTE_LENGTH);
    var ts := TriesOf(roots, v', MAX_ROUTE_LENGTH);
    forall w, p ensures RootContains(ts, w, p) <==> w in RoutesOf(raws, actions) && RoutesOf(raws, actions)[w] == p {
      TriesHoldDictionary(roots, v', MAX_ROUTE_LENGTH, w, p);
    }
  }

  /** What the routes alone tell of the answers. */
  lemma AnswersTold(roots: seq<Option<BuildEdge>>, v: View, v': View, raws: seq<RawNode>, actions: seq<uint32>)
    requires RootsOk(roots, v) && RootsOk(roots, v') && Spells(v) && Bytewise(v) && Blank(v) && Compressed(v, v')
    requires Declared(v, raws) && AllSound(raws) && |actions| == |raws| && Dictionary(v) == RoutesOf(raws, actions)
    requires Limited(v', MAX_ROUTE_LENGTH)
    ensures var ts, routes := TriesOf(roots, v', MAX_ROUTE_LENGTH), RoutesOf(raws, actions);
            && AvoidsMerged(ts, routes) && OneOnly(ts, routes)
            && (Zeroless(raws) ==> TakeableTold(ts, routes) && RootsHeaded(ts))
            && (RootsSegmented(ts) <==> SegmentsTold(routes))
  {
    hide *;
    DeclaredCovered(v, raws, actions);
    Outcome(roots, v, v', raws, actions);
    AvoidsMergedNodes(roots, v, v');
    OneOnlyBuilt(roots, v, v');
    SegmentsBuilt(roots, v, v');
    if Zeroless(raws) {
      TakeableAsTold(roots, v, v', raws);
    }
  }

  lemma AvoidsMergedNodes(roots: seq<Option<BuildEdge>>, v: View, v': View)
    requires RootsOk(roots, v) && RootsOk(roots, v') && Spells(v) && Bytewise(v) && Compressed(v, v') && Covered(v)
    requires Limited(v', MAX_ROUTE_LENGTH) && RootsPlaced(TriesOf(roots, v', MAX_ROUTE_LENGTH))
    ensures AvoidsMerged(TriesOf(roots, v', MAX_ROUTE_LENGTH), Dictionary(v))
  {
    hide Spells, Bytewise, Dictionary, RootsOk, RootsPlaced, FindRoot, RootContains, Matches, Covered, Passes, Kept;
    var ts := TriesOf(roots, v', MAX_ROUTE_LENGTH);
    forall u, p | Request(u) && FindRoot(ts, u) == Some(p) ensures exists w :: Unmerged(Dictionary(v), w, p, u) {
      var w := AnswersAvoidMerged(roots, v, v', MAX_ROUTE_LENGTH, u, p);
      TriesHoldDictionary(roots, v', MAX_ROUTE_LENGTH, w, p);
      assert Unmerged(Dictionary(v), w, p, u);
    }
  }

  lemma OneOnlyBuilt(roots: seq<Option<BuildEdge>>, v: View, v': View)
    requires RootsOk(roots, v) && RootsOk(roots, v') && Spells(v) && Bytewise(v) && Blank(v) && Compressed(v, v')
             && Covered(v)
    requires Limited(v', MAX_ROUTE_LENGTH)
    ensures OneOnly(TriesOf(roots, v', MAX_ROUTE_LENGTH), Dictionary(v))
  {
    hide Spells, Bytewise, Dictionary, RootsOk, Covered, Blank, TriesFor;
    var ts := TriesOf(roots, v', MAX_ROUTE_LENGTH);
    forall q, p: Payload | q != [] && p.methods != 0 && Dictionary(v) == map[q := p] ensures ts == TriesFor(q, p) {
      BuiltFromOne(roots, v, v', q, p, MAX_ROUTE_LENGTH);
    }
  }

  lemma SegmentsBuilt(roots: seq<Option<BuildEdge>>, v: View, v': View)
    requires RootsOk(roots, v) && RootsOk(roots, v') && Spells(v) && Bytewise(v) && Compressed(v, v') && Covered(v)
    requires Limited(v', MAX_ROUTE_LENGTH)
    ensures RootsSegmented(TriesOf(roots, v', MAX_ROUTE_LENGTH)) <==> SegmentsTold(Dictionary(v))
  {
    hide Spells, Bytewise, Dictionary, RootsOk, Covered, Compressed, RootsSegmented, SegmentsTold, TriesOf, Limited;
    SegmentedIff(roots, v, v', MAX_ROUTE_LENGTH);
  }

  lemma TakeableAsTold(roots: seq<Option<BuildEdge>>, v: View, v': View, raws: seq<RawNode>)
    requires RootsOk(roots, v) && RootsOk(roots, v') && Spells(v) && Bytewise(v) && Compressed(v, v') && Covered(v)
    requires Limited(v', MAX_ROUTE_LENGTH) && Declared(v', raws) && Zeroless(raws)
    ensures TakeableTold(TriesOf(roots, v', MAX_ROUTE_LENGTH), Dictionary(v))
    ensures RootsHeaded(TriesOf(roots, v', MAX_ROUTE_LENGTH))
  {
    hide Spells, Bytewise, Dictionary, RootsOk, Covered, RootsTakeable, MergesWildcard, MergedAt, Declared, Zeroless;
    WordsTextual(v', raws);
    TakeableIffIsolated(roots, v, v', MAX_ROUTE_LENGTH);
    TriesHeaded(roots, v', MAX_ROUTE_LENGTH);
    forall x | x in v ensures MergesWildcard(v, x) <==> MergedAt(Dictionary(v), v[x].word) {
      MergedIff(v, x);
    }
    forall w | MergedAt(Dictionary(v), w) ensures exists x :: x in v && MergesWildcard(v, x) {
      var x := MergedNode(roots, v, w);
    }
  }

  lemma WordsTextual(v: View, raws: seq<RawNode>)
    requires Declared(v, raws) && Zeroless(raws)
    ensures Textual(v)
  {
    hide Pattern;
    forall n | n in v ensures 0 !in v[n].word {
      assert DeclaredWord(v[n].word, raws);
      var k :| 0 <= k < |raws| && v[n].word <= Pattern(raws[k].url);
      PatternZeroless(raws[k].url);
    }
  }

  lemma PatternZeroless(url: seq<byte>)
    requires 0 !in url
    ensures 0 !in Pattern(url)
  {
    CollapseZeroless(url);
    HostReversedMultiset(Collapse(url));
    assert multiset(Collapse(url))[0] == 0;
    assert multiset(Pattern(url))[0] == 0;
  }

  lemma {:induction false} CollapseZeroless(url: seq<byte>)
    requires 0 !in url
    ensures 0 !in Collapse(url)
    decreases |url|
  {
    if url != [] {
      CollapseZeroless(url[if url[0] == ASTERISK then RunLength(url, ASTERISK) else 1..]);
    }
  }

  /** The words of the trie are on the way to routes. */
  lemma DeclaredCovered(v: View, raws: seq<RawNode>, actions: seq<uint32>)
    requires Spells(v) && Declared(v, raws) && |actions| == |raws| && Dictionary(v) == RoutesOf(raws, actions)
    ensures Covered(v)
  {
    hide Spells, Dictionary, RoutesOf, Pattern;
    WordsStart(v);
    forall n | n in v ensures OnTheWay(Dictionary(v), v[n].word) {
      assert DeclaredWord(v[n].word, raws);
      var k :| 0 <= k < |raws| && v[n].word <= Pattern(raws[k].url);
      PatternRouted(raws, actions, k);
    }
  }

  lemma {:induction false} PatternRouted(raws: seq<RawNode>, actions: seq<uint32>, k: nat)
    requires |actions| == |raws| && k < |raws| && Pattern(raws[k].url) != []
    ensures Pattern(raws[k].url) in RoutesOf(raws, actions)
    decreases |raws|
  {
    hide Pattern;
    if k < |raws| - 1 {
      assert raws[..|raws| - 1][k] == raws[k];
      PatternRouted(raws[..|raws| - 1], actions[..|raws| - 1], k);
    }
  }

  lemma Survivors(v: View, v': View, raws: seq<RawNode>)
    requires Compressed(v, v') && Declared(v, raws)
    ensures Spells(v') && Dictionary(v') == Dictionary(v) && Declared(v', raws) && AllByRank(v')
  {
    hide Spells, Dictionary;
    forall n | n in v' ensures DeclaredWord(v'[n].word, raws) && ByRank(v'[n].edges) {
      assert DeclaredWord(v[n].word, raws) && Settled(v, v', n);
    }
  }

  lemma TriesRepresent(roots: array<Option<BuildEdge>>, v: View, limit: nat)
    requires RootsOk(roots[..], v) && Spells(v) && Limited(v, limit) && Mirrors(v)
    ensures RootsRepresent(roots, TriesOf(roots[..], v, limit), v.Keys)
  {
    hide Spells, Limited, Mirrors;
    var ts := TriesOf(roots[..], v, limit);
    forall i: byte ensures RootRepresents(roots[i], i, ts, v.Keys) {
      assert RootOk(roots[..], v, i);
      if roots[i].Some? {
        TrieRepresents(v, roots[i].value.node, limit);
      }
    }
  }

  /** Build a route tree, or report the first declaration with a problem. */
  method Build(raws: seq<RawNode>, analyze: Analyzer)
    returns (t: RouteTree?, error: Option<BuildError>, ghost actions: seq<uint32>)
    requires forall k :: 0 <= k < |raws| ==> PlainUrl(raws[k].url)
    ensures raws == [] ==> t == null && error == Some(NoRoutes)
    ensures raws != [] && error.None? ==>
              && t != null && fresh(t) && AllSound(raws) && |actions| == |raws|
              && (Fits(t.Flat()) && t.TablesFit() ==> BuiltFor(t, raws, actions, analyze))
              && (Small(raws, analyze) ==> BuiltFor(t, raws, actions, analyze))
    ensures raws != [] && error.Some? ==> t == null && FirstProblem(raws, error)
    ensures error.None? <==>
              && raws != []
              && forall k :: 0 <= k < |raws| ==> WildcardCount(Collapse(raws[k].url)) <= 32 && raws[k].methods != 0
    ensures match error
            case Some(TooManyWildcards(k)) => k < |raws| && WildcardCount(Collapse(raws[k].url)) > 32
            case Some(NoMethods(k)) =>
              k < |raws| && WildcardCount(Collapse(raws[k].url)) <= 32 && raws[k].methods == 0
            case _ => true
  {
    if |raws| == 0 {
      return null, Some(NoRoutes), [];
    }
    var tree := new RouteTree();
    var roots := new Option<BuildEdge>[256](_ => None);
    BuildStarts(tree, roots, analyze, raws);
    hide Building, AllSound, BuiltFor, FirstProblem, Small, Fits;
    ghost var v, ids;
    error, actions, ids, v := AddRoutes(tree, roots, analyze, raws);
    SoundIff(raws);
    if error.Some? {
      ProblemTold(raws, error);
      return null, error, actions;
    }
    FinishBuild(tree, roots, ids, analyze, v, raws, actions);
    t := tree;
  }

  /** The error is the problem of the first declaration that has one. */
  ghost predicate FirstProblem(raws: seq<RawNode>, error: Option<BuildError>) {
    error.Some? && exists k :: 0 <= k < |raws| && Problem(raws[k], k) == error && AllSound(raws[..k])
  }

  method AddRoutes(tree: RouteTree, roots: array<Option<BuildEdge>>, analyze: Analyzer, raws: seq<RawNode>)
    returns (error: Option<BuildError>, ghost actions: seq<uint32>, ghost ids': map<Name, uint32>, ghost v: View)
    requires forall k :: 0 <= k < |raws| ==> PlainUrl(raws[k].url)
    requires Building(tree, roots, map[], analyze, map[], raws, 0, [])
    modifies tree`actionsRegistry, tree`actionMetadata, roots
    ensures fresh(v.Keys)
    ensures error.None? ==> AllSound(raws) && Building(tree, roots, ids', analyze, v, raws, |raws|, actions)
    ensures error.Some? ==> FirstProblem(raws, error)
  {
    hide Building, Problem, AllSound;
    var ids: map<Name, uint32> := map[];
    actions, v := [], map[];
    SoundStart(raws);
    for i := 0 to |raws|
      invariant fresh(v.Keys) && |actions| == i
      invariant Building(tree, roots, ids, analyze, v, raws, i, actions)
      invariant AllSound(raws[..i])
    {
      var url := Collapse(raws[i].url);
      var wildcards := CountWildcards(url);
      ProblemIs(raws[i], i);
      if wildcards > MAX_WILDCARDS {
        return Some(TooManyWildcards(i)), actions, ids, v;
      }
      if raws[i].methods == 0 {
        return Some(NoMethods(i)), actions, ids, v;
      }
      ghost var action;
      ids, v, action := AddRoute(tree, roots, ids, analyze, url, v, raws, i, actions);
      actions := actions + [action];
      SoundNext(raws, i);
    }
    assert raws[..|raws|] == raws;
    error, ids' := None, ids;
  }

  lemma SoundIff(raws: seq<RawNode>)
    requires forall k :: 0 <= k < |raws| ==> PlainUrl(raws[k].url)
    ensures AllSound(raws) <==>
            forall k :: 0 <= k < |raws| ==> WildcardCount(Collapse(raws[k].url)) <= 32 && raws[k].methods != 0
  {
    hide Collapse, WildcardCount, PlainUrl;
  }

  lemma ProblemTold(raws: seq<RawNode>, error: Option<BuildError>)
    requires FirstProblem(raws, error)
    ensures !AllSound(raws) && error != Some(NoRoutes)
    ensures match error
            case Some(TooManyWildcards(k)) => k < |raws| && WildcardCount(Collapse(raws[k].url)) > 32
            case Some(NoMethods(k)) =>
              k < |raws| && WildcardCount(Collapse(raws[k].url)) <= 32 && raws[k].methods == 0
            case _ => true
  {
    hide Collapse, WildcardCount, PlainUrl;
  }

  lemma SoundStart(raws: seq<RawNode>)
    ensures AllSound(raws[..0])
  {
  }

  lemma ProblemIs(raw: RawNode, index: nat)
    ensures Problem(raw, index)
         == if WildcardCount(Collapse(raw.url)) > MAX_WILDCARDS then Some(TooManyWildcards(index))
            else if raw.methods == 0 then Some(NoMethods(index))
            else None
  {
  }

  lemma SoundNext(raws: seq<RawNode>, i: nat)
    requires i < |raws| && AllSound(raws[..i]) && PlainUrl(raws[i].url) && Problem(raws[i], i).None?
    ensures AllSound(raws[..i + 1])
  {
    var sound := raws[..i + 1];
    forall k | 0 <= k < |sound| ensures PlainUrl(sound[k].url) && Problem(sound[k], k).None? {
      if k < i { assert sound[k] == raws[..i][k]; }
    }
  }

  // ---------------------------------------------------------------- what a built tree answers

  /** Some declared route that matches `u` left payload `p`. */
  ghost predicate DeclaredMatch(raws: seq<RawNode>, actions: seq<uint32>, w: seq<byte>, p: Payload, u: seq<byte>)
    requires |actions| == |raws|
  {
    w in RoutesOf(raws, actions) && RoutesOf(raws, actions)[w] == p && Matches(w, u)
  }

  /** Every answer is the payload of a declared route that matches the url. */
  lemma AnswersAreRoutes(t: RouteTree, raws: seq<RawNode>, actions: seq<uint32>, analyze: Analyzer, u: seq<byte>,
                         p: Payload)
    returns (w: seq<byte>)
    requires |actions| == |raws| && BuiltFor(t, raws, actions, analyze) && Request(u)
    requires FindRoot(t.tries, u) == Some(p)
    ensures DeclaredMatch(raws, actions, w, p, u)
  {
    w := SearchSound(t.tries, u, p);
  }

  /** A declared route without wildcards answers its own url. */
  lemma LiteralRoutesAnswer(t: RouteTree, raws: seq<RawNode>, actions: seq<uint32>, analyze: Analyzer, u: seq<byte>)
    requires |actions| == |raws| && BuiltFor(t, raws, actions, analyze) && Request(u)
    requires u in RoutesOf(raws, actions)
    ensures FindRoot(t.tries, u) == Some(RoutesOf(raws, actions)[u])
  {
    ExactRouteWins(t.tries, u, RoutesOf(raws, actions)[u]);
  }

  /** When behind every inner wildcard, a `*`, the routes that go on share a literal up to a '/', a
      url is answered exactly when a declared route matches it, and then by the most specific one. */
  lemma SegmentRoutesAnswer(t: RouteTree, raws: seq<RawNode>, actions: seq<uint32>, analyze: Analyzer, u: seq<byte>)
    returns (w: seq<byte>)
    requires |actions| == |raws| && BuiltFor(t, raws, actions, analyze) && Request(u)
    requires SegmentsTold(RoutesOf(raws, actions))
    ensures match FindRoot(t.tries, u)
            case None => forall v, q :: !DeclaredMatch(raws, actions, v, q, u)
            case Some(p) =>
              && DeclaredMatch(raws, actions, w, p, u)
              && forall v, q :: DeclaredMatch(raws, actions, v, q, u) ==> v == w || MoreSpecific(w, v)
  {
    hide FindRoot, Matches, MoreSpecific, RoutesOf, RecordsOk, AvoidsMerged, OneOnly, TakeableTold, Fits, Holds;
    hide RootsPlaced, RootsSegmented, RootsOrdered, SegmentsTold, Pattern, Zeroless, RootContains, AllSound;
    w := MostSpecificWins(t.tries, u);
    forall v, q ensures DeclaredMatch(raws, actions, v, q, u) <==> Matching(t.tries, v, q, u) {
      assert RootContains(t.tries, v, q) <==> v in RoutesOf(raws, actions) && RoutesOf(raws, actions)[v] == q;
    }
  }

  /** Declarations whose inner wildcards are whole segments meet that. */
  lemma WholeSegments(raws: seq<RawNode>, actions: seq<uint32>)
    requires |actions| == |raws| && forall k :: 0 <= k < |raws| ==> SegmentPattern(Pattern(raws[k].url))
    ensures SegmentsTold(RoutesOf(raws, actions))
  {
    hide RoutesOf, Pattern, SegmentPattern, SegmentsTold;
    forall q | q in RoutesOf(raws, actions) ensures SegmentPattern(q) {
      var k := RoutesAreDeclared(raws, actions, q);
    }
    WholeSegmentsTold(RoutesOf(raws, actions));
  }

  /** A declared route that passes a merged node answers no request at all. */
  lemma PassingRoutesLost(t: RouteTree, raws: seq<RawNode>, actions: seq<uint32>, analyze: Analyzer, w: seq<byte>,
                          u: seq<byte>)
    requires |actions| == |raws| && BuiltFor(t, raws, actions, analyze) && Request(u)
    requires w in RoutesOf(raws, actions) && Passes(RoutesOf(raws, actions), w)
    ensures FindRoot(t.tries, u) != Some(RoutesOf(raws, actions)[w])
  {
    hide FindRoot, Matches, RoutesOf, RouteAt, OneOnly, TakeableTold, Fits, Holds, RootsPlaced, Passes, Pattern;
    hide RootContains;
    var routes := RoutesOf(raws, actions);
    if FindRoot(t.tries, u) == Some(routes[w]) {
      var w' :| Unmerged(routes, w', routes[w], u);
      RoutesDiffer(raws, actions, w, w');
    }
  }

  /** No two routes leave the same payload. */
  lemma RoutesDiffer(raws: seq<RawNode>, actions: seq<uint32>, w: seq<byte>, w': seq<byte>)
    requires |actions| == |raws| && Increasing(actions)
    requires w in RoutesOf(raws, actions) && w' in RoutesOf(raws, actions)
    requires RoutesOf(raws, actions)[w] == RoutesOf(raws, actions)[w']
    ensures w == w'
  {
    hide RoutesOf, Pattern;
    var k := RoutesAreDeclared(raws, actions, w);
    var k' := RoutesAreDeclared(raws, actions, w');
    LastDeclarationWins(raws, actions, w, k);
    LastDeclarationWins(raws, actions, w', k');
  }

  /** What is stored for a list of sound declarations can be searched for. */
  lemma RouteGood(raws: seq<RawNode>, actions: seq<uint32>, q: seq<byte>)
    requires |actions| == |raws| && AllSound(raws) && q in RoutesOf(raws, actions)
    ensures q != [] && NoAdjacentWildcards(q) && RoutesOf(raws, actions)[q].methods != 0
  {
    hide RoutesOf, Pattern;
    var k := RoutesAreDeclared(raws, actions, q);
    LastDeclarationWins(raws, actions, q, k);
    assert Problem(raws[k], k).None?;
    PatternAdmissible(raws[k].url);
  }

  /** A tree built from one route, with any number of wildcards, finds a url if and only if the
      route matches it with the shortest gaps. */
  lemma OneRouteFoundIff(t: RouteTree, raws: seq<RawNode>, actions: seq<uint32>, analyze: Analyzer,
                         q: seq<byte>, p: Payload, u: seq<byte>)
    requires |actions| == |raws| && BuiltFor(t, raws, actions, analyze) && Request(u)
    requires RoutesOf(raws, actions) == map[q := p]
    ensures FindRoot(t.tries, u) == if Shortest(q, u) then Some(p) else None
  {
    OneRouteTries(t, raws, actions, analyze, q, p);
    hide *;
    FoundIff(q, p, u);
  }

  /** It finds every url that its route matches if and only if: behind a `**`, every `*` that
      something follows has exactly "/" behind it; and the route has no wildcard, ends with one,
      or has no `**` and a '/' behind its last `*`. */
  lemma OneRouteAllFoundIff(t: RouteTree, raws: seq<RawNode>, actions: seq<uint32>, analyze: Analyzer,
                            q: seq<byte>, p: Payload)
    requires |actions| == |raws| && BuiltFor(t, raws, actions, analyze)
    requires RoutesOf(raws, actions) == map[q := p]
    ensures (forall u | Request(u) && Matches(q, u) :: FindRoot(t.tries, u).Some?) <==> 0 in q || AllFound(q)
  {
    OneRouteTries(t, raws, actions, analyze, q, p);
    hide *;
    AllFoundIff(q, p);
  }

  lemma OneRouteTries(t: RouteTree, raws: seq<RawNode>, actions: seq<uint32>, analyze: Analyzer,
                      q: seq<byte>, p: Payload)
    requires |actions| == |raws| && BuiltFor(t, raws, actions, analyze)
    requires RoutesOf(raws, actions) == map[q := p]
    ensures q != [] && NoAdjacentWildcards(q) && p.methods != 0 && t.tries == TriesFor(q, p)
  {
    hide RecordsOk, AvoidsMerged, TakeableTold, Fits, Holds, RootsPlaced, Pattern, RootContains, RoutesOf, TriesFor;
    hide AllSound, NoAdjacentWildcards, SegmentsTold, RootsSegmented, Zeroless;
    RouteGood(raws, actions, q);
  }

  /** Declaration `k` is the last one with pattern `w`. */
  ghost predicate LastWith(raws: seq<RawNode>, w: seq<byte>, k: int) {
    && 0 <= k < |raws| && Pattern(raws[k].url) == w
    && forall j :: k < j < |raws| ==> Pattern(raws[j].url) != w
  }

  /** The routes are the declarations: each pattern has the payload of its last declaration. */
  lemma {:induction false} LastDeclarationWins(raws: seq<RawNode>, actions: seq<uint32>, w: seq<byte>, k: nat)
    requires |actions| == |raws| && w != [] && LastWith(raws, w, k)
    ensures w in RoutesOf(raws, actions)
    ensures RoutesOf(raws, actions)[w] == Payload(actions[k], raws[k].methods, raws[k].tags)
    decreases |raws|
  {
    hide Pattern;
    var last := |raws| - 1;
    if k < last {
      var earlier := raws[..last];
      assert earlier[k] == raws[k];
      forall j | k < j < |earlier| ensures Pattern(earlier[j].url) != w {
        assert earlier[j] == raws[j];
      }
      LastDeclarationWins(earlier, actions[..last], w, k);
    }
  }

  lemma {:induction false} RoutesAreDeclared(raws: seq<RawNode>, actions: seq<uint32>, w: seq<byte>) returns (k: nat)
    requires |actions| == |raws| && w in RoutesOf(raws, actions)
    ensures w != [] && LastWith(raws, w, k)
    decreases |raws|
  {
    hide Pattern;
    var last := |raws| - 1;
    if Pattern(raws[last].url) == w {
      k := last;
    } else {
      var earlier := raws[..last];
      k := RoutesAreDeclared(earlier, actions[..last], w);
      forall j | k < j < |raws| ensures Pattern(raws[j].url) != w {
        if j < last { assert raws[j] == earlier[j]; }
      }
    }
  }
}
