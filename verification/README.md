# A model of the nautrouds proxy

This Dafny project models the parts of nautrouds that keep state or transform programs, and
proves what they promise. `dafny verify dfyconfig.toml` checks all of it.

**Routes (`internal/rtree`).** Route declarations are inserted into a byte trie of linked
nodes, the trie is compressed in place, and the result is flattened into three pools in which
backtracking is precompiled as failure links. `RouteTrie` is the reference: finite tries and a
recursive backtracking search. `BuildTree` and `Compress` work on the linked nodes, under a
ghost view that gives every node its word; `CompressedTrie` reads tries off them;
`RoutePools`, `RouteRefinement` and `RouteTree` are the machine, the proof that it computes the
recursive search, and the code that fills and runs it; `RouteMeaning` says what the search
means; `PoolGrowth` and `TrieWeight` bound the pools by the declarations; `RouteBuild` joins
everything. Where the search finds less than the patterns match is settled in three parts:
`ShortestGaps`, `OneRoute` and `OneRouteBuilt` say exactly for which single routes, with any
number of wildcards; `MergedRoutes` says exactly which routes of any set compression puts out
of reach; `SegmentedRoutes` says exactly when the segment theorem applies. `RouteLimits` builds
three trees that do miss a url. `RoutePatterns`, `HostReversal` and `ActionTable` are the url
compiler and the table of services and middlewares.

**Registry (`internal/core/registry`).** Serving sets, unhealthy sets, the node map, cached
balancers and failure reports. `RegistryState` is the registry as a value with its invariant:
exactly the registered nodes that are not set aside serve, no set is empty, and every serving
set's balancer is what a fresh build would give. `ServiceSets` and `Registry` are the classes;
each public method of `Registry` is an atomic step that keeps `Sound`, which adds that no
failure is lost. `FailureProtocol` takes reconnection and promotion apart and says for whole
runs when none is lost, `FailureHistory` which histories lose one. `RegistryScans` states scans
by membership and shows that they compose; `SocketPaths` is what a socket's path tells of its
service and weight; `StrategyMarkers` and `ScanHandlers` add the strategy markers.

**Balancing and serving.** `SmoothSchedule` is the arithmetic of smooth weighted round robin,
`Balancing` the two balancers, `RetryLoop` the loop that serves one request while others raise
and clear flags, `RequestServing` the two together. `DirtyServices` is the watcher's wake-up
protocol over all interleavings.

**Ntufile front end.** `BracketExpansion` and `BracketPatterns` are the expansion of
alternatives against what patterns denote; `TokenSteps`, `CommentLines` and
`Tokenizer` are the tokenizer, `TokenParts` says what its parts are like, and `TokenReading` and
`TokenLines` that what is written is what is read, on one line and over several.

Functions of the code that loop or change state are methods here, each tied to a function on
values, and the theorems are about those functions. Where the code and its documentation
disagree the code is followed: the documentation says that `*` matches any segment with
backtracking, and the code does not backtrack over a gap, it commits to the first occurrence of
what follows; for whole segments that is the same.

## Model

| member | source | states |
|---|---|---|
| RouteTrie.IndexOf | internal/rtree/search.go:112-122 | the first occurrence at or after a place, or the fact that there is none |
| RouteTrie.Locate | internal/rtree/search.go:109-139 | where a child's fragment commits: behind a literal exactly at the cursor, behind a wildcard where the fragment stands after a gap that wildcard may skip |
| RouteTrie.WildcardCountConcat | internal/rtree/build.go:98-106 | wildcards are counted piece by piece, so the count along a tree path is the count of its pattern |
| RouteTrie.MatchesIff | internal/rtree/search.go:71-147 | what it is to match: a url matches a pattern if and only if it is the pattern filled in, every literal by itself, a `*` with something behind it by anything without a '/', a `**` by anything, and a wildcard at the end by anything but nothing |
| RoutePools.Graft.ToEdge | internal/rtree/build.go:253-264 | a packable failure link changes nothing but the roll-back and never makes it the zero reserved for real edges, so the code's panic is unreachable |
| RoutePools.CompiledExtends | internal/rtree/build.go:306-388 | compiled code stays valid when the pools only grow |
| RouteRefinement.PackedRoundTrip | internal/rtree/build.go:258-258 | checkpoint and length come apart again from the packed roll-back |
| RouteRefinement.ChildPlaced | internal/rtree/build.go:345-363 | a child lies one fragment further, a wildcard child one checkpoint deeper, and never more than 32 deep |
| RouteRefinement.GraftEdgeFollows | internal/rtree/search.go:94-107 | running onto a graft edge restores exactly the cursor and checkpoints the failure link means |
| RouteRefinement.BehindFollows | internal/rtree/build.go:266-276 | following the inherited link from behind a fragment is following it from the branch point: every roll-back lands on the exact branch position |
| RouteRefinement.CloneRun | internal/rtree/build.go:313-333 | the accept clone of a wildcard route accepts a non-empty rest and otherwise goes on at the route's own failure link |
| RouteRefinement.LinkRun | internal/rtree/build.go:313-334 | behind all real children only the wildcard's own rest is left, then the inherited link |
| RouteRefinement.CompiledRun | internal/rtree/search.go:71-146 | main refinement: for every compiled branch, entered with as many saved cursors as wildcards on its path, the machine gives what the recursive search gives and, where that fails, goes on exactly at the branch's failure link; it never panics |
| RouteRefinement.CompiledScan | internal/rtree/search.go:87-141 | the same from the k-th child on |
| RouteRefinement.CompiledFallback | internal/rtree/build.go:336-359 | the same from the failure link built while the children are flattened from last to first |
| RouteRefinement.WildRootsRefine | internal/rtree/build.go:278-304 | the chain of the two wildcard roots |
| RouteRefinement.SearchRefines | internal/rtree/search.go:44-147 | for every url with no wildcard byte in front and, unless no fragment starts with one, no zero byte, and every tree of placed roots, the run over the pools answers exactly like the recursive search of the tries |
| RouteTrees.NodeAssembled | internal/rtree/build.go:313-388 | the parts appended for one node make it compiled |
| RouteTrees.RouteTree.FlattenNode | internal/rtree/build.go:306-388 | flattening only appends to the pools, and what it appends is a compiled copy of the branch with its failure link; it grows them by at most two nodes and three edges per pattern byte |
| RouteTrees.RouteTree.FlattenChildren | internal/rtree/build.go:336-355 | children compiled from last to first, each with the link its later wildcard siblings leave |
| RouteTrees.RouteTree.MakeLink | internal/rtree/build.go:306-334 | the node's own failure link, with the accept clone when it is a wildcard route with children |
| RouteTrees.RouteTree.AppendNode | internal/rtree/build.go:358-387 | one node, its edges and its fragment at the ends of the three pools |
| RouteTrees.RouteTree.FinalizeRoot | internal/rtree/build.go:286-303 | one root compiled into its slot under the wildcards before it |
| RouteTrees.RouteTree.Finalize | internal/rtree/build.go:278-304 | all roots compiled into their slots, `**` before `*` before the literals, each falling back to the wildcards before it; tries of fewer than (2^16 - 256) / 3 pattern bytes fit the index types |
| RouteTrees.RouteTree.Search | internal/rtree/search.go:44-69 | the search returns the route that the recursive search of the tries finds, or nothing, for every url with no wildcard byte in front and, unless no fragment starts with one, no zero byte |
| RouteTrees.RouteTree.SearchLoop | internal/rtree/search.go:71-146 | the loop computes the run, stays inside every pool and the 32 checkpoints, and ends because each edge leads to a smaller node id |
| RouteMeaning.FindSound | internal/rtree/search.go:71-147 | whatever the search finds below a branch is a route of it whose pattern really matches the rest of the url |
| RouteMeaning.SearchSound | internal/rtree/search.go:44-147 | soundness: a returned payload belongs to a stored pattern that matches the url, literals in order, `*` gaps free of '/', a trailing wildcard covering a non-empty rest; and it lies along fragments that are lone wildcards or literals |
| RouteMeaning.FindExact | internal/rtree/search.go:131-138 | a literal route below a branch is found by its own text |
| RouteMeaning.ExactRouteWins | internal/rtree/search.go:57-60 | a route without wildcards always answers its own url |
| RouteMeaning.FindBest | internal/rtree/search.go:85-146 | below a branch whose wildcards stand for segments, the search fails only if nothing matches, and finds the most specific match |
| RouteMeaning.FindFromBest | internal/rtree/search.go:87-141 | the same from the i-th child on |
| RouteMeaning.MostSpecificWins | internal/rtree/search.go:44-147 | with segment wildcards the search answers if and only if some route matches, with a route more specific than every other match |
| ShortestGaps.ShortestMatches | internal/rtree/search.go:108-140 | a url that a pattern matches with every gap as short as the literal behind it allows is a url it matches |
| ShortestGaps.Early | internal/rtree/search.go:108-140 | the exchange: where the pattern meets the condition, a search that stopped at first occurrences, and so is ahead of the match, still comes to its end |
| ShortestGaps.Stuck | internal/rtree/search.go:108-140 | where it does not, behind a `**`: for every literal in front there is a url whose second part the pattern matches and at whose first part the search is stuck |
| ShortestGaps.Missed | internal/rtree/search.go:108-140 | and so a url that the pattern matches, but not with shortest gaps |
| ShortestGaps.AllShortestIff | internal/rtree/search.go:108-140 | for every pattern with any number of wildcards: all requests it matches are matched with shortest gaps if and only if every `*` behind a `**` that something follows has exactly "/" behind it, and the pattern has no wildcard, ends with one, or has no `**` and a '/' behind its last `*`; a pattern with a zero byte matches no request |
| ShortestGaps.OneGapIff | internal/rtree/search.go:108-140 | with one wildcard: the pattern matches, and the literal behind the wildcard does not occur before the url's end |
| ShortestGaps.OneGapAllFound | internal/rtree/search.go:108-140 | with one wildcard the condition is that it is a `*` and the literal behind it contains a '/' |
| OneRoute.ChainFinds | internal/rtree/search.go:71-146 | below every edge of a route's tries the search finds exactly the shortest gaps of the rest of the route |
| OneRoute.FoundIff | internal/rtree/search.go:44-147 | in the tries of one route a url is found if and only if the route matches it with shortest gaps |
| OneRoute.AllFoundIff | internal/rtree/search.go:44-147 | and every matching request is found if and only if the route meets that condition |
| OneRouteBuilt.KeptOnRoute | internal/rtree/build.go:193-219 | on the way of a single route compression keeps the root, the nodes on both sides of every wildcard and the last, and no other |
| OneRouteBuilt.BuiltFromOne | internal/rtree/build.go:144-245 | inserting one route and compressing gives exactly those tries |
| RouteBuild.OneRouteFoundIff | internal/rtree/search.go:44-147 | so a tree built from one route, with any number of wildcards, finds a url if and only if the route matches it with shortest gaps |
| RouteBuild.OneRouteAllFoundIff | internal/rtree/search.go:44-147 | and finds every request its route matches if and only if the route meets that condition, which is read off the pattern |
| RouteLimits.StarBehindGreedyMisses | internal/rtree/search.go:111-120 | an input that fails: `**/a*b/` is built and searched for "x/ay/ab/", which it matches and the search does not find |
| RouteLimits.FirstOccurrenceMisses | internal/rtree/search.go:111-120 | the input that fails: `*b` is built and searched for "bab", which it matches and the search does not find |
| MergedRoutes.MergedIff | internal/rtree/build.go:215-217 | the nodes that compression merges with the wildcard behind them, told on the routes alone: prefixes longer than one byte that are no route, do not end with a wildcard, are only gone on from with one wildcard, and several routes part behind that wildcard |
| MergedRoutes.TakeableIff | internal/rtree/search.go:108-139 | a child can be taken by some request, at some cursor, exactly when its fragment is a lone wildcard or holds no byte below 3 |
| MergedRoutes.ReachesAvoids | internal/rtree/build.go:193-219 | below a compressed node no route that requests can reach goes through a merged node |
| MergedRoutes.ReachedIff | internal/rtree/build.go:193-219 | for every route set: the routes that lie along edges requests can take are exactly the routes that pass no merged node |
| MergedRoutes.AnswersAvoidMerged | internal/rtree/search.go:44-147 | for every route set: what the compressed tries answer is a stored matching pattern that passes no merged node |
| MergedRoutes.TakeableIffIsolated | internal/rtree/build.go:193-219 | every edge of the compressed tries can be taken by some request if and only if wildcards are isolated, that is, if and only if no node is merged with a wildcard |
| RouteBuild.AnswersTold | internal/rtree/build.go:34-96 | the same of a build, told on the declared routes: answers pass no merged node, and without zero bytes every edge can be taken if and only if the routes merge no wildcard |
| RouteBuild.PassingRoutesLost | internal/rtree/search.go:44-147 | for every route list: a declared route that passes a merged node answers no request at all |
| RouteBuild.RoutesDiffer | internal/rtree/build.go:72-81 | no two declared routes leave the same payload, so an answer names its route |
| RouteLimits.SharedWildcardMerges | internal/rtree/build.go:215-217 | with `/a*b` and `/a*c` the prefix `/a` is merged with its wildcard, and both routes pass it |
| RouteLimits.SharedWildcardLosesRoutes | internal/rtree/build.go:193-219 | the input that fails: the two are built, and whatever the request the search returns nothing, although `/a*b` matches "/axb" |
| BuildTree.Insert | internal/rtree/build.go:144-181 | inserting a pattern sets its entry of the tree's dictionary and changes no other |
| BuildTree.WalkDown | internal/rtree/build.go:155-172 | the walk along the pattern's bytes ends at the pattern's node, the dictionary as before, at most one new node per byte |
| BuildTree.Descend | internal/rtree/build.go:155-172 | one byte further, along an old edge or a new one, the dictionary as before |
| BuildTree.SetPayload | internal/rtree/build.go:174-178 | only this pattern's entry changes |
| BuildTree.ChildAdded | internal/rtree/build.go:163-170 | a new empty child keeps every node's word unique and spelled by its path |
| BuildTree.PayloadEntered | internal/rtree/build.go:174-178 | the dictionary after a payload is set |
| Compress.CompressEdge | internal/rtree/build.go:193-219 | one edge, its single-child chain merged: every node's word and the dictionary are kept; the flag is false exactly for a wildcard edge with at most one child |
| Compress.CompressNode | internal/rtree/build.go:221-245 | one node: its edges compressed and put in search order, every node's word and the dictionary kept |
| Compress.SortEdges | internal/rtree/build.go:221-245 | a stable reordering: literals before `*` before `**` |
| Compress.CompressRoots | internal/rtree/build.go:183-191 | all roots; every surviving node is settled and every route survives |
| Compress.MergedSpells | internal/rtree/build.go:196-214 | joining two fragments keeps every node's word |
| Compress.UniqueParent | internal/rtree/build.go:144-181 | in a tree that spells its words a node has one parent edge |
| Compress.ReorderedSpells | internal/rtree/build.go:234-243 | reordering edges keeps every node's word |
| CompressedTrie.TrieRepresents | internal/rtree/build.go:27-32 | the linked nodes represent a finite trie |
| CompressedTrie.TriesHoldDictionary | internal/rtree/build.go:144-245 | the tries contain exactly the dictionary's patterns with their payloads |
| CompressedTrie.TriesPlaced | internal/rtree/build.go:193-245 | the tries have all the refinement relies on: wildcards alone in the fragments they start, children in search order, at most 32 wildcards on a path |
| CompressedTrie.StartingWildcardAlone | internal/rtree/build.go:193-219 | a fragment that starts with a wildcard is that wildcard alone, for all route sets |
| CompressedTrie.IsolatedIff | internal/rtree/build.go:215-217 | wildcards end up in fragments of their own if and only if there is no node that is no root, ends no route, does not end with a wildcard and whose only edge is a wildcard with two or more edges |
| SegmentedRoutes.SegmentedIff | internal/rtree/build.go:193-245 | exactly when the most specific route wins by `MostSpecificWins`: the compressed tries are segmented if and only if, whenever routes go on behind a wildcard, it is a `*` and all that go on from there go on with the same literal up to a '/' |
| SegmentedRoutes.WholeSegmentsTold | internal/rtree/build.go:193-245 | so it is when every inner wildcard is a whole segment |
| RoutePatterns.CollapseIsolates | internal/rtree/build.go:50-51 | collapsing runs of stars leaves no two wildcards side by side |
| RoutePatterns.HostKeepsApart | internal/rtree/build.go:57-57 | nor does reversing the host |
| RoutePatterns.PatternAdmissible | internal/rtree/build.go:50-57 | a plain url within the wildcard limit compiles to an admissible pattern |
| RoutePatterns.CollapseRun | internal/rtree/build.go:50-51 | a whole run of stars becomes one `*` when it is one star and one `**` when it is more, whatever stands around it |
| RoutePatterns.CollapseConcat | internal/rtree/build.go:50-51 | texts between which no run is cut are collapsed one by one |
| RoutePatterns.PatternIs | internal/rtree/build.go:50-57 | the pattern of a url: its labels in reverse order and its tail, each with its stars collapsed |
| RoutePatterns.WildcardsCounted | internal/rtree/build.go:98-106 | the count is the number of places that hold a wildcard byte |
| HostReversal.ReverseHost | internal/rtree/common.go:42-63 | in place: for all labels without '.' and '/' joined by '.', and every tail that is empty or starts with '/', the labels stand in reverse order and the tail is as it was |
| HostReversal.HostReversedIs | internal/rtree/common.go:42-63 | the same on the value of the url |
| HostReversal.HostParts | internal/rtree/common.go:43-52 | and every url consists of such labels and such a tail |
| HostReversal.TurnHost | internal/rtree/common.go:53-62 | the two passes over the host together reverse the labels |
| HostReversal.ReverseRange | internal/rtree/common.go:53-54 | a slice reversed in place, nothing else changed |
| HostReversal.TurnReversed | internal/rtree/common.go:53-62 | reversing everything and then each label reverses the order of the labels |
| HostReversal.HostReversedTwice | internal/rtree/common.go:42-63 | host reversal is its own inverse on every byte string |
| HostReversal.HostReversedMultiset | internal/rtree/common.go:42-63 | and keeps the bytes |
| RouteTrees.RouteTree.EncodeChunk | internal/rtree/build.go:114-128 | the written length bytes are the encoding of the name, also at multiples of 255 |
| RouteTrees.RouteTree.GetOrCreateActionID | internal/rtree/build.go:108-142 | the id names a record of this action, every earlier record stays, a known action is reused |
| RouteTrees.RouteTree.GetActionName | internal/rtree/search.go:149-179 | reading at the place of any stored name gives that name |
| RouteTrees.RouteTree.ResolveService | internal/core/proxy/resolve.go:35-52 | decoding a route's action index gives its service and operations |
| RouteTrees.RouteTree.MiddlewareNames | internal/core/proxy/middleware.go:19-30 | and its middlewares, in order |
| ActionTable.EncodeInjective | internal/rtree/build.go:114-128 | whatever follows it, an encoded name is read back as no other name |
| ActionTable.NamesUnique | internal/rtree/search.go:155-178 | at one place at most one name is stored |
| ActionTable.RouteStays | internal/rtree/build.go:66-79 | later records never disturb earlier ones |
| RouteBuild.AppendRoute | internal/rtree/build.go:64-79 | the record of one route, service first, then the middlewares |
| RouteBuild.CountWildcards | internal/rtree/build.go:98-106 | the number of wildcards |
| RouteBuild.CompilePattern | internal/rtree/build.go:57-57 | the url with its host reversed, in the sense of `HostReversedIs` |
| RouteBuild.AddRoute | internal/rtree/build.go:49-89 | one declaration enters the dictionary and the tables, all earlier ones stay |
| RouteBuild.Outcome | internal/rtree/build.go:91-92 | the compressed tries are placed, ordered, and contain exactly the declared routes |
| PoolGrowth.GrownNode | internal/rtree/build.go:306-388 | one node with its clone and its links costs at most two nodes, two edges more than it has children, and its fragment |
| TrieWeight.WeightBehind | internal/rtree/build.go:193-245 | the pattern bytes on the edges below a compressed node are at most as many as insertion made nodes behind it |
| TrieWeight.RootsWeightBound | internal/rtree/build.go:183-191 | together the compressed tries have at most one pattern byte per inserted node |
| RouteBuild.Build | internal/rtree/build.go:34-96 | end to end: the build fails if and only if there is no declaration, or one whose collapsed url has more than 32 wildcards or that has no methods, and the first of these is reported with its kind; otherwise the tree's tries contain exactly the last-write-wins routes and its tables decode to every declaration's service and middlewares; this holds without condition on the result when 256 plus three times the url bytes stays below 2^16 and the names, operations and ids below 2^32 (`Small`), and whenever the pools fit |
| RouteBuild.AnswersAreRoutes | internal/rtree/build.go:34-96 | whatever a built tree answers is a declared route that matches the request |
| RouteBuild.LiteralRoutesAnswer | internal/rtree/build.go:34-96 | a declared route without wildcards answers its own url |
| RouteBuild.SegmentRoutesAnswer | internal/rtree/search.go:44-147 | with routes that share such literals (`/v*-x/y` is one) a request is answered if and only if a declared route matches it, and by the most specific one |
| RouteBuild.WholeSegments | internal/rtree/build.go:34-96 | declarations whose inner wildcards are whole segments are such |
| RouteBuild.LastDeclarationWins | internal/rtree/build.go:81-88 | of several declarations of one pattern the last is stored |
| RouteBuild.RoutesAreDeclared | internal/rtree/build.go:81-88 | every stored route comes from the last declaration of its pattern |
| SmoothSchedule.BestOf | internal/core/registry/loadbalance/roundrobin.go:36-41 | the first place of the largest value |
| SmoothSchedule.RoundsInvariant | internal/core/registry/loadbalance/roundrobin.go:34-44 | after every round the holdings sum to zero, each is what the entry earned less what it paid, and none is a full total behind |
| SmoothSchedule.Fairness | internal/core/registry/loadbalance/roundrobin.go:34-44 | in every prefix of k picks an entry is served less than one turn more, and less than n-1 turns less, than k times its share |
| SmoothSchedule.CycleServesWeights | internal/core/registry/loadbalance/roundrobin.go:34-44 | a full cycle serves every entry exactly by its weight |
| SmoothSchedule.EqualWeightsInOrder | internal/core/registry/loadbalance/roundrobin.go:26-30 | with all weights one the general loop gives the input order |
| Balancing.NewRoundRobin | internal/core/registry/loadbalance/roundrobin.go:13-47 | the loops, and the short cut, build the smooth schedule |
| Balancing.PlayRound | internal/core/registry/loadbalance/roundrobin.go:35-43 | one round in place: all gain their weight, the first best pays the total |
| Balancing.ShortcutAgrees | internal/core/registry/loadbalance/roundrobin.go:26-30 | when the weights add up to the number of nodes the schedule is the list itself |
| Balancing.ScheduleServes | internal/core/registry/loadbalance/roundrobin.go:32-46 | among distinct nodes each is in the schedule as often as its weight and nothing else is |
| Balancing.ScheduleReachesAll | internal/core/registry/loadbalance/roundrobin.go:32-46 | a walk over the list tries every node |
| Balancing.ScheduleFair | internal/core/registry/loadbalance/roundrobin.go:32-46 | wherever the built list is cut, a node has had less than one turn more, and less than n-1 turns less, than its share by weight |
| Balancing.RoundRobin.Get | internal/core/registry/loadbalance/roundrobin.go:49-61 | the whole cycle from one place further, the counter wrapping at 32 bits |
| Balancing.Rotated | internal/core/registry/loadbalance/roundrobin.go:57-60 | a rotation is a permutation |
| Balancing.FirstChoicesGoRound | internal/core/registry/loadbalance/roundrobin.go:55-60 | the first choices of as many calls as the list is long are the whole list |
| Balancing.CallsGoRound | internal/core/registry/loadbalance/roundrobin.go:49-61 | so for the calls themselves, as long as the counter does not wrap |
| Balancing.TurnsAdvance | internal/core/registry/loadbalance/roundrobin.go:55-56 | successive calls start one place further if and only if the counter does not wrap or wraps at a multiple of the length |
| Balancing.SortByLoad | internal/core/registry/loadbalance/leastinflight.go:14-21 | a stable sort by a snapshot of the loads: ordered, a permutation, equal loads in their old order |
| Balancing.TiesKeepOrder | internal/core/registry/loadbalance/leastinflight.go:14-21 | in a stable sort equally loaded nodes stand before one another exactly as they did |
| Balancing.InsertedStably | internal/core/registry/loadbalance/leastinflight.go:14-21 | one step of it |
| Balancing.LeastInFlight.Get | internal/core/registry/loadbalance/leastinflight.go:32-45 | all nodes, least loaded first, ties going round |
| Balancing.LeastInFlight.GetP2C | internal/core/registry/loadbalance/leastinflight.go:47-73 | the two drawn nodes in front, the less loaded first and at equal load the first drawn, then all others in order |
| SocketPaths.WeightRead | internal/core/registry/loadbalance/weight.go:15-30 | a socket named `name@w.ext` with w from 1 to 100 gets the weight w |
| SocketPaths.WeightElse | internal/core/registry/loadbalance/weight.go:15-30 | one without '@', or with anything behind the last '@' that is no number from 1 to 100, gets the weight one |
| SocketPaths.OwnerOfJoin | internal/core/registry/registry.go:266-311 | a socket belongs to the service its directory names |
| ServiceSets.ServiceSet.Replace | internal/core/registry/registry.go:80-86 | positions are again the inverse of the nodes |
| ServiceSets.ServiceSet.HasSameNodes | internal/core/registry/registry.go:94-105 | equal length and every node known |
| ServiceSets.ServiceSet.Add | internal/core/registry/registry.go:107-115 | the node at the end if it is new, positions exact |
| ServiceSets.ServiceSet.Remove | internal/core/registry/registry.go:117-132 | the last node takes the removed one's place, positions exact |
| ServiceSets.ServiceSet.RebuildLoadBalancer | internal/core/registry/registry.go:71-78 | the balancer of the current strategy is a fresh build from the nodes |
| ServiceSets.ResolveForwarders | internal/core/registry/registry.go:53-61 | the forwarders of the registered nodes, in order |
| ServiceSets.RemovedInverse | internal/core/registry/registry.go:117-132 | the swapped index is the exact inverse of the swapped list |
| RegistryState.SwapRemovedMembers | internal/core/registry/registry.go:117-132 | a removal removes exactly one member |
| RegistryState.SameNodesMembers | internal/core/registry/registry.go:94-105 | for lists without repetitions `sameNodes` means the same members, so skipping the rebuild is right |
| RegistryState.UpToDateFrame | internal/core/registry/registry.go:53-78 | registering or forgetting other nodes leaves a balancer up to date |
| RegistryState.RemovedEffect | internal/core/registry/registry.go:391-413 | forgetting a node keeps the invariant and stops exactly that node serving |
| RegistryState.MovedEffect | internal/core/registry/registry.go:187-204 | setting a node aside keeps the invariant and adds exactly that node to the unhealthy ones |
| RegistryState.GoneEffect | internal/core/registry/registry.go:451-454 | forgetting it everywhere |
| RegistryState.PromotedEffect | internal/core/registry/registry.go:465-479 | promotion keeps the invariant, takes exactly that node off the unhealthy ones, keeps every serving set with its strategy, and makes a new one with round robin |
| RegistryState.StrategySetEffect | internal/core/registry/registry.go:481-490 | a new strategy keeps the invariant and changes only that service's strategy |
| RegistryState.InstalledEffect | internal/core/registry/registry.go:364-379 | installing a service's nodes keeps the invariant, also where the rebuild is skipped, and keeps an existing set's strategy |
| Registries.Registry.constructor | internal/core/registry/registry.go:148-160 | an empty registry is sound |
| Registries.Registry.Fail | internal/core/registry/forwarder/forwarder.go:165-170 | the first failure raises the flag and sends one report; soundness, and so that no failure is lost, is kept |
| Registries.Registry.HandleFailure | internal/core/registry/registry.go:162-185 | the oldest report is taken: one about no registered node changes nothing, a refused connection forgets exactly its node, another failure sets exactly its node aside; strategies and soundness kept |
| Registries.Registry.RetryNode | internal/core/registry/registry.go:426-460 | one retry step, nothing between the reconnection and the promotion: promoted with its flag cleared, forgotten, left, or dropped when not registered; soundness kept |
| Registries.Registry.Reconnect | internal/core/registry/forwarder/forwarder.go:320-338 | a reconnection by itself clears the flag and keeps soundness |
| Registries.Registry.PromoteReconnected | internal/core/registry/registry.go:443-445 | the promotion by itself: afterwards the registry is sound if and only if the node is still registered and, when it has failed again, that report is still under way |
| Registries.PromotedSoundIff | internal/core/registry/registry.go:465-479 | the same on the registry's value |
| FailureProtocol.StepSoundIff | internal/core/registry/registry.go:162-463 | uses, reports, reconnections, promotions, removals, scans and strategy changes as steps of their own: a step from a sound state keeps it sound if and only if it is no unfair promotion, of a node gone or failed again with its report already handled |
| FailureProtocol.RunSoundIff | internal/core/registry/registry.go:162-463 | a run of any such steps is sound throughout if and only if every promotion in it is fair |
| FailureProtocol.FailureLostBetween | internal/core/registry/registry.go:438-445 | the input that fails: a node fails between its reconnection and its promotion, that report is handled first, and then the node serves with its flag raised and no report to come |
| FailureHistory.PendingIff | internal/core/registry/registry.go:162-185 | reports are handled in order: one about a node is under way if and only if one sent since a given report is not handled |
| FailureHistory.FairIff | internal/core/registry/registry.go:438-445 | on the history: a promotion that follows a reconnection is fair if and only if the node is registered and its forwarder has not failed without being reconnected since and with every report about it from then on handled |
| FailureHistory.RunSoundHistory | internal/core/registry/registry.go:162-463 | a run that promotes only what it has reconnected is sound throughout if and only if no promotion finds its node gone or a failure of it lost |
| Registries.Registry.RetryUnhealthy | internal/core/registry/registry.go:415-463 | all nodes set aside are retried: what reconnected serves, what is gone is forgotten, what still fails stays aside, the rest is untouched; strategies are kept, new sets have round robin |
| Registries.Registry.RemoveNodeUnsafe | internal/core/registry/registry.go:391-413 | the state after the removal |
| Registries.Registry.MoveToUnhealthyUnsafe | internal/core/registry/registry.go:187-204 | the state after the move |
| Registries.Registry.RemoveFromUnhealthyUnsafe | internal/core/registry/registry.go:502-509 | the state after the removal, an empty set dropped |
| Registries.Registry.PromoteToHealthyUnsafe | internal/core/registry/registry.go:465-479 | the state after the promotion, a missing set made with round robin |
| Registries.Registry.SetStrategy | internal/core/registry/registry.go:481-490 | the state after the change, rebuilt only when it differs |
| Registries.Registry.RegisterFound | internal/core/registry/registry.go:349-362 | new paths get unfailed forwarders of their own with the weight their name asks for, known ones keep theirs, those not set aside are returned |
| Registries.Registry.UpdateService | internal/core/registry/registry.go:364-379 | the serving set becomes the healthy nodes; an unchanged one is left alone, an empty one dropped |
| Registries.Registry.TrimService | internal/core/registry/registry.go:323-340 | the first half of a service scan forgets exactly the service's nodes not found |
| Registries.Registry.ApplyServiceScan | internal/core/registry/registry.go:313-383 | a service scan is a scan of that one service, every registered node has the weight its name asks for, nothing set aside is left that was not found, soundness kept |
| Registries.Registry.ApplyFullScan | internal/core/registry/registry.go:266-311 | a full scan is a scan of all services, with the weights the names ask for; an unhealthy entry of a path neither found nor registered stays; soundness kept |
| Registries.Registry.GetForwarders | internal/core/registry/registry.go:243-260 | by strategy: under round robin the kept list rotated by the advanced cursor; under least in flight a reordering by load in which equally loaded nodes stand as in that rotation; under two choices the two drawn nodes in front, the less loaded first, and the others in order, the cursor left alone; nothing else changed |
| Registries.ListServes | internal/core/registry/registry.go:239-260 | that list holds exactly the registered nodes of the service that are not set aside, each once or as often as its weight |
| Registries.ServingTurns | internal/core/registry/registry.go:139-146 | under round robin a serving node is on the list exactly as often as the weight its socket's name asks for, otherwise once |
| Registries.ReportedSafe | internal/core/registry/registry.go:168-182 | handling a report loses no failure |
| Registries.RetriedSafe | internal/core/registry/registry.go:438-445 | a retry loses no failure, given that reconnecting clears the flag |
| Registries.ScannedSafe | internal/core/registry/registry.go:266-383 | a scan loses no failure |
| Registries.AllRetried | internal/core/registry/registry.go:425-462 | trying every listed node once has the effect of a retry of all |
| RegistryScans.InstallIsAScan | internal/core/registry/registry.go:349-379 | installing what was found is a scan of the service |
| RegistryScans.ScansCompose | internal/core/registry/registry.go:313-383 | two scans of the same disk are one scan of both scopes |
| RegistryScans.TrimThenInstall | internal/core/registry/registry.go:266-311 | forgetting first and installing afterwards is a scan |
| RegistryScans.ScansAgree | internal/core/registry/registry.go:266-383 | a scan's outcome is determined: nodes, forwarders, serving and unhealthy nodes, strategies |
| RegistryScans.RunIsAScan | internal/core/registry/registry.go:313-383 | any run of service scans is one scan of the services named |
| RegistryScans.FullScanAgrees | internal/core/registry/registry.go:266-383 | a full scan agrees with any run of service scans, in any order, that covers every service known or found |
| RegistryScans.HandlerOrderIff | internal/core/watcher/nodescan/scanner.go:113-119 | registry handler and strategy handler end alike in either order if and only if every service whose set is new with the scan is created with the strategy its markers ask for |
| RegistryScans.HandlerOrderDoesNotMatter | internal/core/watcher/nodescan/scanner.go:113-119 | so they do when creation reads the markers as the strategy handler does |
| ScanHandlers.StrategyHandler.ApplyServiceScan | internal/core/registry/strategy.go:68-71 | the service gets its markers' strategy, everything else stays |
| ScanHandlers.StrategyHandler.ApplyFullScan | internal/core/registry/strategy.go:73-82 | every service does |
| ScanHandlers.EitherHandlerFirst | internal/core/watcher/nodescan/scanner.go:149-154 | for every disk: both orders end alike if and only if, for every service whose set is new, the markers the scan lists and those found by name in the service's directory choose the same strategy |
| ScanHandlers.FlatLayoutAgrees | internal/core/watcher/nodescan/scanner.go:149-154 | which is so on every disk with flat service directories |
| StrategyMarkers.CreationAgreesWithMarkers | internal/core/registry/strategy.go:24-56 | asking for the marker files by name and resolving the scanned ones give the same strategy on a flat directory |
| StrategyMarkers.CreationIs | internal/core/registry/strategy.go:24-56 | a set is created by the files `p2c.strategy`, then `least_in_flight.strategy`, of the service's directory, otherwise with round robin |
| StrategyMarkers.ResolvedIs | internal/core/registry/strategy.go:24-56 | and resolved by the scanned marker files of these names, wherever they lie |
| StrategyMarkers.ReadingsAgreeIff | internal/core/registry/strategy.go:24-56 | for all scanned paths and all directory entries: the two readings give the same strategy if and only if `p2c` is in both or neither and, without it, `least_in_flight` is in both or neither |
| StrategyMarkers.WalkAgreesIff | internal/core/registry/strategy.go:24-56 | for a scan that lists at least the directory's own markers: if and only if a scanned `p2c` is the directory's own and a scanned `least_in_flight` is its own or goes behind its own `p2c` |
| StrategyMarkers.NestedMarkerDisagrees | internal/core/registry/strategy.go:40-56 | the input that fails: the only marker is a `p2c` in a sub-directory |
| RetryLoop.Exchange.Forward | internal/core/registry/forwarder/forwarder.go:298-318 | a failed node is not tried; a network error raises the flag and reports once; every outcome and its error, told one by one |
| RetryLoop.Exchange.ForwardToBackend | internal/core/proxy/forward.go:20-54 | every result is what the flags and the network make it at that turn; exactly one response: the node's own if the last turn answered, 413 if its body was too large, 502 for any other error that stops the loop, 503 if none did; the reports and the failed dials are those of the turns taken; at most one failed dial per node more than its flag was cleared meanwhile, at most one for an unsafe method, at most L+1 under a limit L |
| RetryLoop.RetriesBounded | internal/core/proxy/forward.go:27-37 | going on is bounded by the limit, and impossible for an unsafe method |
| RetryLoop.GoesOnIff | internal/core/proxy/forward.go:27-44 | the loop goes on behind given results if and only if all are of failed or unreachable nodes, the unreachable ones none for an unsafe method and no more than the limit |
| RetryLoop.EndsAt | internal/core/proxy/forward.go:20-54 | of all the turns there could be, the loop ends with an answer at turn k if and only if turn k answers, before it are only failed and unreachable nodes, and behind the latter the method is safe and the limit is not passed |
| RequestServing.ServeRequest | internal/core/proxy/forward.go:20-54 | from the registry's list: the request is served by the node at place k, at that turn, if and only if it answers there and only failed or unreachable nodes come before it, of the latter none unless the method is safe and no more than the limit; 503 means that every serving node of the service was tried in vain |
| RequestServing.ServingIsListed | internal/core/proxy/forward.go:22-22 | every serving node is on the list |
| DirtyServices.InvStep | internal/core/watcher/watcher.go:145-186 | every step of every interleaving keeps: a dirty set is remembered, every mark is kept |
| DirtyServices.NothingForgotten | internal/core/watcher/watcher.go:145-194 | so it holds in every run |
| DirtyServices.RestMeansScanned | internal/core/watcher/watcher.go:145-194 | at rest, a scan of every marked service began after its mark |
| DirtyServices.NearerToTheSet | internal/core/watcher/watcher.go:179-194 | every step of the worker brings it nearer to taking the set, no marker's step takes it further away, and only the swap empties the set |
| DirtyServices.NeverStuck | internal/core/watcher/watcher.go:150-186 | while the set is dirty the worker can go on, or a marker's signal brings it nearer |
| DirtyServices.Watcher.Insert | internal/core/watcher/watcher.go:145-152 | a marker's first atomic step: every service but "" and "." is in the dirty set and marked afterwards, and those two change nothing |
| DirtyServices.Watcher.TrySignal | internal/core/watcher/watcher.go:154-157 | its second: the signal is up, whether or not it was |
| DirtyServices.Watcher.ReceiveSignal | internal/core/watcher/watcher.go:179-179 | the worker takes the signal |
| DirtyServices.Watcher.TakeBatch | internal/core/watcher/watcher.go:180-186 | and then the whole set |
| DirtyServices.Watcher.ScanOne | internal/core/watcher/watcher.go:188-194 | and scans it service by service |
| DirtyServices.Watcher.FinishBatch | internal/core/watcher/watcher.go:188-194 | until the batch is empty and it waits again |
| BracketExpansion.UnescapeLiteral | internal/compiler/ruleline/expand.go:16-29 | the loop, with its short cut, removes the escaping backslashes |
| BracketExpansion.SplitByPipe | internal/compiler/ruleline/expand.go:96-126 | the loop cuts at the bars of depth zero |
| BracketExpansion.ExpandField | internal/compiler/ruleline/expand.go:31-94 | the scanning loops and the recursion compute the expansion, and end |
| BracketExpansion.FindMatchingClose | internal/compiler/ruleline/expand.go:48-64 | the bracket that closes the first one |
| BracketPatterns.ExpandPrint | internal/compiler/ruleline/expand.go:31-94 | for every pattern of texts and nested groups, expanding its escaped text gives exactly the strings it denotes, in order |
| BracketPatterns.ExpandAlternatives | internal/compiler/ruleline/expand.go:80-91 | the same for the alternatives of a group |
| BracketPatterns.PatternScans | internal/compiler/ruleline/expand.go:48-64 | a printed pattern is passed over by every scan |
| BracketPatterns.AlternativesSplit | internal/compiler/ruleline/expand.go:96-126 | the content of a group is cut into exactly its alternatives |
| BracketPatterns.ExpandText | internal/compiler/ruleline/expand.go:73-90 | a literal in front goes in front of every string |
| BracketPatterns.SplitJoins | internal/compiler/ruleline/expand.go:96-126 | the parts joined by '|' are the text again, for every text and depth |
| BracketPatterns.RefusedIff | internal/compiler/ruleline/expand.go:66-68 | a field is refused if and only if a bracket is open at its end, a ']' with none open being text |
| BracketPatterns.ExpandsToItself | internal/compiler/ruleline/expand.go:8-29 | a field with no '[' and no backslash in front of '[', ']', '|' or a backslash stands for itself alone |
| BracketPatterns.EscapeDropped | internal/compiler/ruleline/expand.go:16-29 | in front of one of these four the backslash is dropped and the character kept |
| BracketPatterns.CrossedAt | internal/compiler/ruleline/expand.go:80-91 | the order of the results: every alternative with every string behind it, the first varying slowest |
| Tokenizers.Tokenizer.Tokenize | internal/compiler/tokenizer/tokenizer.go:95-306 | the loop over a line computes the line function: the parts, the state kept, or the error |
| Tokenizers.Tokenizer.Step | internal/compiler/tokenizer/tokenizer.go:151-169 | one character, raw strings and positions included |
| Tokenizers.Tokenizer.Dispatch | internal/compiler/tokenizer/tokenizer.go:171-297 | one character outside a raw string |
| Tokenizers.Tokenizer.CloseParen | internal/compiler/tokenizer/tokenizer.go:235-260 | closing the outermost parenthesis completes the call or argument list |
| Tokenizers.Tokenizer.Close | internal/compiler/tokenizer/tokenizer.go:308-319 | what is still open at the end, raw string first, then parentheses, then blocks |
| Tokenizers.TokenizeText | internal/compiler/compiler.go:44-119 | all lines but the comments, and the end: parts well formed, braces balanced, or the first error |
| CommentLines.Detector.IsComment | internal/compiler/commentline/commentline.go:13-32 | one line: whether it is a comment, and whether a block goes on behind it |
| CommentLines.CommentIff | internal/compiler/commentline/commentline.go:13-32 | a line is a comment if and only if it starts with '#', or a line "#*" before it opens a block that no blank line has ended |
| TokenParts.LineOk | internal/compiler/tokenizer/tokenizer.go:95-306 | every part of a line is well formed: texts and names are trimmed plain words, quoted texts have their quotes closed or no backquote in them, arguments are balanced with closed quotes, braces are braces |
| TokenParts.TextOk | internal/compiler/tokenizer/tokenizer.go:95-306 | so is every part of every accepted text, also of those spread over lines |
| TokenReading.LineReads | internal/compiler/tokenizer/tokenizer.go:95-306 | any list of texts, quoted texts, raw texts, calls, argument lists and braces, written on one line with spaces and ';' between them, is read as exactly that list: flag, value, arguments, depth and position, and the blocks then open |
| TokenReading.RowsRead | internal/compiler/compiler.go:44-119 | any text of such lines and of comments gives the parts of all lines in order, or the first unclosed block at its end |
| TokenReading.WrittenAgain | internal/compiler/tokenizer/tokenizer.go:95-306 | the parts of any accepted text, written on one line, are read as the same parts with the same nesting |
| TokenReading.BytesBefore | internal/compiler/tokenizer/tokenizer.go:151-169 | a position counts the bytes of the characters before it |
| TokenLines.SpreadCall | internal/compiler/tokenizer/tokenizer.go:81-107 | a call with a quoted argument on each of its lines, indented at will, is one part, with a comma between two arguments whether one is written or not; what follows is read as if it stood alone |
| TokenLines.SpreadRaw | internal/compiler/tokenizer/tokenizer.go:147-162 | a raw text over several lines is one part with the line ends in it |
| TokenLines.RawLosesComment | internal/compiler/compiler.go:44-119 | which lines of a raw text are kept has this limit: one that starts with '#' is taken for a comment and leaves no trace |
| TokenLines.QuoteBehindText | internal/compiler/tokenizer/tokenizer.go:150-186 | a quoted text right behind a text, without a ';', is a part of its own but carries the place of that text |
| TokenLines.LeftOpen | internal/compiler/tokenizer/tokenizer.go:308-319 | a text that ends within a call or a raw text is refused, at the parenthesis or backquote that opened it |
| TokenLines.ParenRefused | internal/compiler/tokenizer/tokenizer.go:235-243 | behind any readable pieces a ')' that closes nothing refuses the line |
| TokenLines.BraceRefused | internal/compiler/tokenizer/tokenizer.go:261-288 | and so does a '}' that closes nothing |
| TokenLines.QuoteRefused | internal/compiler/tokenizer/tokenizer.go:300-302 | a quote that is not closed on its line |
| TokenLines.BraceInParensRefused | internal/compiler/tokenizer/tokenizer.go:261-269 | and a brace between parentheses |
| TokenLines.CallRefused | internal/compiler/tokenizer/tokenizer.go:81-98 | an open call goes on only with a blank line, a quoted text, a raw one or its parenthesis |
| TokenParts.BracesBalance | internal/compiler/tokenizer/tokenizer.go:261-288 | when all lines and the end are accepted the braces are balanced and every part's depth is its nesting |
| TokenParts.LineNests | internal/compiler/tokenizer/tokenizer.go:261-288 | line by line, from the nesting the line begins in |

## Left out

- `rtree`: the regular expression that collapses stars, method lists and tags (`parseMethods`, `tags.Analyze`) are taken as their results: `Collapse` is written out, the two masks are inputs.
- `rtree`: `slices.SortFunc` is modelled as a stable insertion sort; the code asks for no stability and no two edges of a node compare equal except two literals.
- `rtree`: `interpolate.Analyze` is a function parameter; the estimated fragment length that `compress` returns for a capacity hint, `PrintTree`, log lines and the map that only feeds the override warning are not part of this model.
- RouteBuild.Build: where neither `Small` nor `Fits` and `TablesFit` hold, nothing is promised of the tree: the code narrows indices without a check. Urls without the bytes 1 and 2 and shorter than 2^23 are required, as the packed roll-back needs.
- RouteTrees.RouteTree.Search: urls that start with byte 1 or 2 are outside the contract, and urls that hold a zero byte when a fragment starts with one; the bytes collide with the ones the pools mark fragments with. Routes without zero bytes have no such fragment. What answers mean (`Request`) is proved for urls of bytes from 3 on.
- RouteMeaning.MostSpecificWins: for a single route `RouteBuild.OneRouteAllFoundIff` is exact; for several routes completeness is proved where wildcards stand for segments (`SegmentedRoutes.SegmentedIff`). For several routes outside it soundness, the routes that merging loses and the routes that can be reached are proved, not which urls stay unanswered: that depends on which patterns make up for one another's misses.
- RouteTrees.RouteTree.GetActionName: an index that does not point at a stored name, which the code answers by a bounds check or a panic, is outside the contract; an index behind the registry is inside.
- Registry: each method is one atomic step. Handling a report and a full scan (which takes no lock in the code) are one step each; memory-level races are not part of this model. The raising of a flag and the sending of its report are one step, so the report of a sender blocked on the full channel counts as sent.
- Registries.Registry.RetryUnhealthy: nothing happens between the nodes it retries; with anything in between, `FailureProtocol.RunSoundIff` says when no failure is lost.
- Registry: every socket path belongs to the service its directory names, which holds for a flat layout; a service scan of the code walks sub-directories too, and for nodes in nested directories the two kinds of scan need not agree.
- Registry: `ensureNodePositions` is left out, since every set is created with its positions; locks, metrics, removal of socket files and the getters `NodeCount`, `GetNodes`, `GetState` likewise.
- Forwarder: HTTP, dialling, probing, `ForwardMiddleware` and the in-flight counters; loads are a snapshot, random draws are parameters, a round trip is its outcome.
- RetryLoop.Exchange.ForwardToBackend: what other requests and reconnections do to the flags meanwhile is an input, one set of raised and one of cleared flags before each turn.
- Watcher: file-system events, timers and the full scans and retries the timer starts; they neither read nor write the dirty set.
- BracketExpansion: a character stands for a byte; the error carries the field that was refused, not the formatted message.
- Tokenizers.Tokenizer.Tokenize: a character stands for a rune, so a line is valid UTF-8; nothing is said about the state after an error, at which the compiler stops.
- TokenReading.LineReads: a text and a quoted text behind it stand apart by a ';', since the place of the second is otherwise that of the first (`TokenLines.QuoteBehindText`).
- TokenLines.SpreadRaw: the lines behind the first do not start with '#', since such lines are dropped (`TokenLines.RawLosesComment`).
- Tokenizers.TokenizeText: the compiler also stops at the first error of a rule, tag or middleware line, which are not part of this model.
- Ntufile rules beyond tokenizing and expansion (rule, tag and middleware lines), virtual services, builtin middlewares, the temporary responses and the mmfg client: no property as hard as the ones here.
