/**
 What a scan does to the registry, by membership, and how scans compose: a scan of one
 service, a scan of everything, and any sequence of scans are instances of one relation.
 */
module RegistryScans {
  import opened RegistryState
  import opened SocketPaths

  /** All services. */
  ghost function Everything(): iset<string> {
    iset s: string | 0 <= |s|
  }

  ghost function Listed(services: seq<string>): iset<string> {
    iset s | s in services
  }

  /** `p` is outside the scanned services or was found on disk. */
  ghost predicate Kept(p: string, scope: iset<string>, found: set<string>) {
    OwnerOf(p) in scope ==> p in found
  }

  /** Some serving node of the service is still there: its set, and its strategy, survive. */
  ghost predicate Survives(v: RegistryView, service: string, scope: iset<string>, found: set<string>) {
    exists p :: Up(v, p) && OwnerOf(p) == service && Kept(p, scope, found)
  }

  ghost predicate StrategiesAfter(v: RegistryView, v': RegistryView, scope: iset<string>,
                                  found: set<string>, created: string -> Strategy) {
    forall s | s in v'.services ::
      if Survives(v, s, scope, found)
      then s in v.services && v'.services[s].strategy == v.services[s].strategy
      else v'.services[s].strategy == created(s)
  }

  /** The services of `scope` now have exactly the nodes of theirs that were `found`; the
      other services are as before, a node known before keeps its forwarder, a node set
      aside stays so, and only a set with no surviving node gets its strategy anew. */
  ghost predicate Scanned(v: RegistryView, v': RegistryView, scope: iset<string>,
                          found: set<string>, created: string -> Strategy) {
    && Ok(v')
    && (forall p :: p in v'.nodeMap <==> Kept(p, scope, found) && (p in v.nodeMap || OwnerOf(p) in scope))
    && (forall p | p in v.nodeMap && p in v'.nodeMap :: v'.nodeMap[p] == v.nodeMap[p])
    && (forall p | Kept(p, scope, found) :: Down(v', p) == Down(v, p))
    && StrategiesAfter(v, v', scope, found, created)
  }

  /** The first half of a scan: the nodes of `scope` that were not found are forgotten. */
  ghost predicate Trimmed(v: RegistryView, v': RegistryView, scope: iset<string>, found: set<string>) {
    && Ok(v') && KeepsStrategies(v, v')
    && (forall p :: p in v'.nodeMap <==> p in v.nodeMap && Kept(p, scope, found))
    && (forall p | p in v'.nodeMap :: v'.nodeMap[p] == v.nodeMap[p])
    && (forall p | Kept(p, scope, found) :: Down(v', p) == Down(v, p))
  }

  lemma ServingIff(v: RegistryView, service: string)
    requires Ok(v)
    ensures service in v.services <==> exists p :: Up(v, p) && OwnerOf(p) == service
  {
    hide OwnerOf, UpToDate, ContextOk;
    if service in v.services {
      assert SetOk(v.services[service], service);
      assert Up(v, v.services[service].nodes[0]);
    }
  }

  // ---------------------------------------------------------------- composition

  /** A serving node that is kept goes on serving; outside the scope nothing starts to. */
  lemma ServesOn(v: RegistryView, a: RegistryView, scope: iset<string>, found: set<string>, created: string -> Strategy,
                 p: string)
    requires Ok(v) && Scanned(v, a, scope, found, created)
    ensures Up(v, p) && Kept(p, scope, found) ==> Up(a, p)
    ensures Up(a, p) && OwnerOf(p) !in scope ==> Up(v, p)
  {
    hide OwnerOf, Shape, Up, Down, StrategiesAfter;
    assert Up(v, p) <==> p in v.nodeMap && !Down(v, p);
    assert Up(a, p) <==> p in a.nodeMap && !Down(a, p);
  }

  lemma ComposedStrategy(v: RegistryView, a: RegistryView, b: RegistryView, scope: iset<string>, scope': iset<string>,
                         found: set<string>, created: string -> Strategy, s: string)
    requires Ok(v) && Scanned(v, a, scope, found, created) && Scanned(a, b, scope', found, created)
    requires s in b.services
    ensures if Survives(v, s, scope + scope', found)
            then s in v.services && b.services[s].strategy == v.services[s].strategy
            else b.services[s].strategy == created(s)
  {
    hide OwnerOf, Ok, Up, Down;
    if Survives(v, s, scope + scope', found) {
      var p :| Up(v, p) && OwnerOf(p) == s && Kept(p, scope + scope', found);
      ServesOn(v, a, scope, found, created, p);
      assert Survives(v, s, scope, found) && Survives(a, s, scope', found);
    }
    SurvivesBoth(v, a, scope, scope', found, created, s);
  }

  lemma SurvivesBoth(v: RegistryView, a: RegistryView, scope: iset<string>, scope': iset<string>,
                     found: set<string>, created: string -> Strategy, s: string)
    requires Ok(v) && Scanned(v, a, scope, found, created)
    ensures Survives(v, s, scope, found) && Survives(a, s, scope', found) ==> Survives(v, s, scope + scope', found)
  {
    hide OwnerOf, Ok, Up, Down;
    if Survives(v, s, scope, found) && Survives(a, s, scope', found) {
      var p :| Up(v, p) && OwnerOf(p) == s && Kept(p, scope, found);
      var q :| Up(a, q) && OwnerOf(q) == s && Kept(q, scope', found);
      ServesOn(v, a, scope, found, created, q);
      if s in scope {
        assert Kept(p, scope + scope', found);
      } else {
        assert Kept(q, scope + scope', found);
      }
    }
  }

  /** Scans compose: two scans of the same disk are one scan of both scopes. */
  lemma ScansCompose(v: RegistryView, a: RegistryView, b: RegistryView, scope: iset<string>, scope': iset<string>,
                     found: set<string>, created: string -> Strategy)
    requires Ok(v) && Scanned(v, a, scope, found, created) && Scanned(a, b, scope', found, created)
    ensures Scanned(v, b, scope + scope', found, created)
  {
    hide OwnerOf, Ok, Up, Down, Survives, StrategiesAfter;
    assert StrategiesAfter(v, b, scope + scope', found, created) by {
      ComposedStrategies(v, a, b, scope, scope', found, created);
    }
  }

  lemma ComposedStrategies(v: RegistryView, a: RegistryView, b: RegistryView, scope: iset<string>, scope': iset<string>,
                           found: set<string>, created: string -> Strategy)
    requires Ok(v) && Scanned(v, a, scope, found, created) && Scanned(a, b, scope', found, created)
    ensures StrategiesAfter(v, b, scope + scope', found, created)
  {
    hide OwnerOf, Ok, Up, Down, Survives, Scanned;
    forall s | s in b.services
      ensures if Survives(v, s, scope + scope', found)
              then s in v.services && b.services[s].strategy == v.services[s].strategy
              else b.services[s].strategy == created(s)
    {
      ComposedStrategy(v, a, b, scope, scope', found, created, s);
    }
  }

  /** A scan of nothing. */
  lemma ScanOfNothing(v: RegistryView, found: set<string>, created: string -> Strategy)
    requires Ok(v)
    ensures Scanned(v, v, iset{}, found, created)
  {
    hide OwnerOf, Shape, Up, Down;
    forall s | s in v.services ensures Survives(v, s, iset{}, found) {
      ServingIff(v, s);
      var p :| Up(v, p) && OwnerOf(p) == s;
      assert Kept(p, iset{}, found);
    }
  }

  /** Forgetting first, then installing what was found, is a scan of the whole scope. */
  lemma TrimThenInstall(v: RegistryView, a: RegistryView, b: RegistryView, scope: iset<string>, installed: iset<string>,
                        found: set<string>, created: string -> Strategy)
    requires Ok(v) && Trimmed(v, a, scope, found) && Scanned(a, b, installed, found, created)
    requires installed <= scope && forall p <- found :: OwnerOf(p) in scope ==> OwnerOf(p) in installed
    ensures Scanned(v, b, scope, found, created)
  {
    hide OwnerOf, Ok, Up, Down, Survives, StrategiesAfter, KeepsStrategies;
    TrimmedStrategies(v, a, b, scope, installed, found, created);
  }

  lemma TrimmedStrategies(v: RegistryView, a: RegistryView, b: RegistryView, scope: iset<string>,
                          installed: iset<string>, found: set<string>, created: string -> Strategy)
    requires Ok(v) && Trimmed(v, a, scope, found) && Scanned(a, b, installed, found, created)
    requires installed <= scope && forall p <- found :: OwnerOf(p) in scope ==> OwnerOf(p) in installed
    ensures StrategiesAfter(v, b, scope, found, created)
  {
    hide OwnerOf, Ok, Up, Down, Survives;
    forall s | s in b.services
      ensures Survives(v, s, scope, found) <==> Survives(a, s, installed, found)
      ensures Survives(a, s, installed, found) ==> s in a.services
    {
      TrimmedSurvivors(v, a, scope, installed, found, s);
    }
  }

  lemma TrimmedSurvivors(v: RegistryView, a: RegistryView, scope: iset<string>, installed: iset<string>,
                         found: set<string>, s: string)
    requires Ok(v) && Trimmed(v, a, scope, found)
    requires installed <= scope && forall p <- found :: OwnerOf(p) in scope ==> OwnerOf(p) in installed
    ensures Survives(v, s, scope, found) <==> Survives(a, s, installed, found)
    ensures Survives(a, s, installed, found) ==> s in a.services
  {
    hide OwnerOf, Shape, Down, Up;
    forall p ensures Up(v, p) && Kept(p, scope, found) <==> Up(a, p) && Kept(p, installed, found) {
      assert Up(v, p) <==> p in v.nodeMap && !Down(v, p);
      assert Up(a, p) <==> p in a.nodeMap && !Down(a, p);
    }
    ServingIff(a, s);
  }

  /** Only the services that are known or found matter. */
  lemma ScanOfAll(v: RegistryView, b: RegistryView, scope: iset<string>, found: set<string>,
                  created: string -> Strategy)
    requires Ok(v) && Scanned(v, b, scope, found, created)
    requires forall p | p in v.nodeMap || p in found :: OwnerOf(p) in scope
    ensures Scanned(v, b, Everything(), found, created)
  {
    hide OwnerOf, Shape, Up, Down, Survives, StrategiesAfter;
    ScanOfAllStrategies(v, b, scope, found, created);
  }

  lemma ScanOfAllStrategies(v: RegistryView, b: RegistryView, scope: iset<string>, found: set<string>,
                            created: string -> Strategy)
    requires Ok(v) && Scanned(v, b, scope, found, created)
    requires forall p | p in v.nodeMap || p in found :: OwnerOf(p) in scope
    ensures StrategiesAfter(v, b, Everything(), found, created)
  {
    hide OwnerOf, Shape, Up, Down, Survives;
    forall s | s in b.services
      ensures Survives(v, s, Everything(), found) <==> Survives(v, s, scope, found)
    {
      SameSurvivors(v, s, scope, found);
    }
  }

  lemma SameSurvivors(v: RegistryView, s: string, scope: iset<string>, found: set<string>)
    requires Ok(v) && forall p | p in v.nodeMap || p in found :: OwnerOf(p) in scope
    ensures Survives(v, s, Everything(), found) <==> Survives(v, s, scope, found)
  {
    hide OwnerOf, Shape, Up, Down;
    forall p | Up(v, p) ensures Kept(p, Everything(), found) <==> Kept(p, scope, found) {
      assert p in v.nodeMap;
    }
  }

  /** Installing one service's nodes is a scan of that service. */
  lemma InstallIsAScan(v: RegistryView, nodeMap: map<string, NodeContext>, service: string, listed: seq<string>,
                       healthy: seq<string>, found: set<string>, created: string -> Strategy)
    requires Ok(v) && ToInstall(v, nodeMap, service, listed, healthy)
    requires forall p | OwnerOf(p) == service :: p in listed <==> p in found
    ensures Scanned(v, Installed(v.(nodeMap := nodeMap), service, healthy, created(service)), iset{service}, found,
            created)
  {
    hide OwnerOf, Shape, Up, Installed, Ok, StrategiesAfter;
    InstalledEffect(v, nodeMap, service, listed, healthy, created(service));
    InstalledStrategies(v, nodeMap, service, listed, healthy, found, created);
  }

  lemma InstalledStrategies(v: RegistryView, nodeMap: map<string, NodeContext>, service: string, listed: seq<string>,
                            healthy: seq<string>, found: set<string>, created: string -> Strategy)
    requires Ok(v) && ToInstall(v, nodeMap, service, listed, healthy)
    requires forall p | OwnerOf(p) == service :: p in listed <==> p in found
    ensures StrategiesAfter(v, Installed(v.(nodeMap := nodeMap), service, healthy, created(service)), iset{service},
            found, created)
  {
    hide OwnerOf, Shape, Up, Down, Installed, Survives;
    InstalledEffect(v, nodeMap, service, listed, healthy, created(service));
    forall s ensures Survives(v, s, iset{service}, found) <==> s in v.services {
      hide *;
      InstalledSurvives(v, nodeMap, service, listed, healthy, found, s);
    }
  }

  lemma InstalledSurvives(v: RegistryView, nodeMap: map<string, NodeContext>, service: string, listed: seq<string>,
                          healthy: seq<string>, found: set<string>, s: string)
    requires Ok(v) && ToInstall(v, nodeMap, service, listed, healthy)
    requires forall p | OwnerOf(p) == service :: p in listed <==> p in found
    ensures Survives(v, s, iset{service}, found) <==> s in v.services
  {
    hide OwnerOf, Shape, Up, Down;
    ServingIff(v, s);
    forall p | Up(v, p) && OwnerOf(p) == s ensures Kept(p, iset{service}, found) {
      assert p in v.nodeMap;
    }
  }

  // ---------------------------------------------------------------- forgetting

  /** The nodes of `lost` are registered and set aside no longer; nothing else changed. */
  ghost predicate Forgotten(v: RegistryView, v': RegistryView, lost: set<string>) {
    && Ok(v') && KeepsStrategies(v, v')
    && v'.nodeMap == v.nodeMap - lost
    && forall p :: Down(v', p) <==> Down(v, p) && p !in lost
  }

  lemma ForgetsNothing(v: RegistryView)
    requires Ok(v)
    ensures Forgotten(v, v, {})
  {
    hide Ok, Down;
    assert v.nodeMap - {} == v.nodeMap;
  }

  lemma ForgetsNext(v: RegistryView, a: RegistryView, lost: set<string>, p: string)
    requires Forgotten(v, a, lost)
    ensures Forgotten(v, Gone(a, OwnerOf(p), p), lost + {p})
  {
    hide Ok, Down, Gone, OwnerOf;
    GoneEffect(a, p);
    assert v.nodeMap - lost - {p} == v.nodeMap - (lost + {p});
  }

  lemma ForgetsBoth(v: RegistryView, a: RegistryView, b: RegistryView, lost: set<string>, lost': set<string>)
    requires Forgotten(v, a, lost) && Forgotten(a, b, lost')
    ensures Forgotten(v, b, lost + lost')
  {
    hide Ok, Down;
    assert v.nodeMap - lost - lost' == v.nodeMap - (lost + lost');
  }

  /** Losing exactly the scope's nodes that are not on disk any more. */
  lemma ForgettingTrims(v: RegistryView, a: RegistryView, lost: set<string>, scope: iset<string>, found: set<string>)
    requires Ok(v) && Forgotten(v, a, lost)
    requires forall p <- lost :: !Kept(p, scope, found)
    requires forall p | p in a.nodeMap :: Kept(p, scope, found)
    ensures Trimmed(v, a, scope, found)
  {
    hide Ok, Down, Kept;
  }

  /** After a service's serving nodes and its unhealthy ones were gone through, nothing of it
      is known that was not found. */
  lemma NothingLeft(v: RegistryView, a: RegistryView, b: RegistryView, service: string, found: set<string>,
                    lost: set<string>, lost': set<string>)
    requires Ok(v) && Forgotten(v, a, lost) && Forgotten(a, b, lost')
    requires forall p | OwnerOf(p) == service && Up(v, p) && p !in found :: p in lost
    requires forall p | OwnerOf(p) == service && Down(a, p) && p !in found :: p in lost'
    ensures forall p | OwnerOf(p) == service && p !in found :: p !in b.nodeMap && !Down(b, p)
  {
    hide Shape, OwnerOf, Up, Down;
    forall p | OwnerOf(p) == service && p !in found ensures p !in b.nodeMap && !Down(b, p) {
      assert Up(v, p) <==> p in v.nodeMap && !Down(v, p);
    }
  }

  // ---------------------------------------------------------------- agreement

  /** Two states show the same to a client: the same nodes registered, with the same
      forwarder where it was known in `v`, the same nodes serving and set aside, the same
      services with the same strategies. */
  ghost predicate Agree(v: RegistryView, a: RegistryView, b: RegistryView) {
    && a.nodeMap.Keys == b.nodeMap.Keys
    && (forall p | p in v.nodeMap && p in a.nodeMap :: p in b.nodeMap && a.nodeMap[p] == b.nodeMap[p] == v.nodeMap[p])
    && (forall p :: Up(a, p) == Up(b, p))
    && (forall p | p in a.nodeMap :: Down(a, p) == Down(b, p))
    && (forall s :: s in a.services <==> s in b.services)
    && (forall s | s in a.services && s in b.services :: a.services[s].strategy == b.services[s].strategy)
  }

  /** A scan's outcome is determined. */
  lemma ScansAgree(v: RegistryView, a: RegistryView, b: RegistryView, scope: iset<string>, found: set<string>,
                   created: string -> Strategy)
    requires Ok(v) && Scanned(v, a, scope, found, created) && Scanned(v, b, scope, found, created)
    ensures Agree(v, a, b)
  {
    hide OwnerOf, Shape, Up, Down, Survives;
    forall p ensures Up(a, p) == Up(b, p) && (p in a.nodeMap <==> p in b.nodeMap) {
      assert Up(a, p) <==> p in a.nodeMap && !Down(a, p);
      assert Up(b, p) <==> p in b.nodeMap && !Down(b, p);
    }
    SameServing(a, b);
  }

  lemma SameServing(a: RegistryView, b: RegistryView)
    requires Ok(a) && Ok(b) && forall p :: Up(a, p) == Up(b, p)
    ensures forall s :: s in a.services <==> s in b.services
  {
    hide OwnerOf, Shape, Up, Down;
    forall s ensures s in a.services <==> s in b.services {
      ServingIff(a, s);
      ServingIff(b, s);
    }
  }

  /** A run of service scans, one after the other, over one state of the disk. */
  ghost predicate ServiceScans(states: seq<RegistryView>, services: seq<string>, found: set<string>,
                               created: string -> Strategy) {
    && |states| == |services| + 1
    && Ok(states[0])
    && forall i :: 0 <= i < |services| ==> Scanned(states[i], states[i + 1], iset{services[i]}, found, created)
  }

  lemma {:induction false} RunIsAScan(states: seq<RegistryView>, services: seq<string>, found: set<string>,
                                      created: string -> Strategy)
    requires ServiceScans(states, services, found, created)
    ensures Scanned(states[0], states[|services|], Listed(services), found, created)
    decreases |services|
  {
    hide Scanned, Ok;
    if services == [] {
      ScanOfNothing(states[0], found, created);
      assert Listed(services) == iset{};
    } else {
      var last := |services| - 1;
      var states', services' := states[..last + 1], services[..last];
      assert forall j :: 0 <= j <= last ==> states'[j] == states[j];
      RunIsAScan(states', services', found, created);
      ScansCompose(states[0], states[last], states[last + 1], Listed(services'), iset{services[last]}, found, created);
      assert services == services' + [services[last]];
      assert Listed(services) == Listed(services') + iset{services[last]};
    }
  }

  /** A full scan agrees with any run of service scans, in any order and with repetitions,
      that covers every service known or found. */
  lemma FullScanAgrees(states: seq<RegistryView>, services: seq<string>, full: RegistryView, found: set<string>,
                       created: string -> Strategy)
    requires ServiceScans(states, services, found, created)
    requires forall p | p in states[0].nodeMap || p in found :: OwnerOf(p) in services
    requires Scanned(states[0], full, Everything(), found, created)
    ensures Agree(states[0], full, states[|services|])
  {
    hide OwnerOf, Shape, Scanned;
    RunIsAScan(states, services, found, created);
    ScanOfAll(states[0], states[|services|], Listed(services), found, created);
    ScansAgree(states[0], full, states[|services|], Everything(), found, created);
  }

  // ---------------------------------------------------------------- the two handlers of a scan

  /** The strategy handler has given the services of `scope` the strategies their markers ask for. */
  ghost predicate StrategiesSet(v: RegistryView, v': RegistryView, scope: iset<string>, resolved: string -> Strategy) {
    && Ok(v') && v'.nodeMap == v.nodeMap && v'.unhealthy == v.unhealthy
    && v'.services.Keys == v.services.Keys
    && forall s | s in v.services ::
       v'.services[s].strategy == if s in scope then resolved(s) else v.services[s].strategy
  }

  lemma StrategiesSetServes(v: RegistryView, v': RegistryView, scope: iset<string>, resolved: string -> Strategy)
    requires Ok(v) && StrategiesSet(v, v', scope, resolved)
    ensures forall p :: Up(v', p) == Up(v, p) && Down(v', p) == Down(v, p)
  {
    hide OwnerOf, Shape, Up;
    forall p ensures Up(v', p) == Up(v, p) && Down(v', p) == Down(v, p) {
      assert Down(v', p) == Down(v, p);
      assert Up(v, p) <==> p in v.nodeMap && !Down(v, p);
      assert Up(v', p) <==> p in v'.nodeMap && !Down(v', p);
    }
  }

  /** The handlers of one scan may run in either order exactly when every service whose set
      is new with this scan is created with the strategy its markers ask for: where the set
      survives, both orders give it the markers' strategy. */
  lemma HandlerOrderIff(v: RegistryView, a: RegistryView, a': RegistryView, b: RegistryView, b': RegistryView,
                        scope: iset<string>, found: set<string>, created: string -> Strategy,
                        resolved: string -> Strategy)
    requires Ok(v)
    requires Scanned(v, a, scope, found, created) && StrategiesSet(a, a', scope, resolved)
    requires StrategiesSet(v, b, scope, resolved) && Scanned(b, b', scope, found, created)
    ensures Agree(v, a', b') <==>
              forall s | s in scope && s in a'.services && !Survives(v, s, scope, found) :: created(s) == resolved(s)
    ensures forall s | s in scope && s in a'.services :: a'.services[s].strategy == resolved(s)
  {
    hide OwnerOf, Ok, Up, Down, Survives, StrategiesAfter;
    EitherOrderMembers(v, a, a', b, b', scope, found, created, resolved);
    SameServing(a', b');
    forall s | s in a'.services && s in b'.services
      ensures a'.services[s].strategy == b'.services[s].strategy <==>
                (s in scope && !Survives(v, s, scope, found) ==> created(s) == resolved(s))
    {
      EitherOrder(v, a, b, b', scope, found, created, resolved, s);
    }
  }

  /** In particular when creation reads the same strategies as the markers. */
  lemma HandlerOrderDoesNotMatter(v: RegistryView, a: RegistryView, a': RegistryView, b: RegistryView, b': RegistryView,
                                  scope: iset<string>, found: set<string>, resolved: string -> Strategy)
    requires Ok(v)
    requires Scanned(v, a, scope, found, resolved) && StrategiesSet(a, a', scope, resolved)
    requires StrategiesSet(v, b, scope, resolved) && Scanned(b, b', scope, found, resolved)
    ensures Agree(v, a', b')
  {
    hide Scanned, StrategiesSet, Agree, Survives, Ok;
    HandlerOrderIff(v, a, a', b, b', scope, found, resolved, resolved);
  }

  lemma EitherOrderMembers(v: RegistryView, a: RegistryView, a': RegistryView, b: RegistryView, b': RegistryView,
                           scope: iset<string>, found: set<string>, created: string -> Strategy,
                           resolved: string -> Strategy)
    requires Ok(v)
    requires Scanned(v, a, scope, found, created) && StrategiesSet(a, a', scope, resolved)
    requires StrategiesSet(v, b, scope, resolved) && Scanned(b, b', scope, found, created)
    ensures forall p :: Up(a', p) == Up(b', p) && (p in a'.nodeMap <==> p in b'.nodeMap)
    ensures forall p | p in a'.nodeMap :: Down(a', p) == Down(b', p)
  {
    hide OwnerOf, Shape, Up, Down, Survives, StrategiesAfter;
    StrategiesSetServes(a, a', scope, resolved);
    StrategiesSetServes(v, b, scope, resolved);
    forall p ensures Up(a', p) == Up(b', p) && (p in a'.nodeMap <==> p in b'.nodeMap) {
      assert Up(a', p) <==> p in a'.nodeMap && !Down(a', p);
      assert Up(b', p) <==> p in b'.nodeMap && !Down(b', p);
    }
  }

  lemma EitherOrder(v: RegistryView, a: RegistryView, b: RegistryView, b': RegistryView,
                    scope: iset<string>, found: set<string>, created: string -> Strategy,
                    resolved: string -> Strategy, s: string)
    requires Ok(v)
    requires Scanned(v, a, scope, found, created)
    requires StrategiesSet(v, b, scope, resolved) && Scanned(b, b', scope, found, created)
    requires s in a.services && s in b'.services
    ensures s in scope ==> b'.services[s].strategy == if Survives(v, s, scope, found) then resolved(s) else created(s)
    ensures s !in scope ==> b'.services[s].strategy == a.services[s].strategy
  {
    hide OwnerOf, Ok, Up, Down;
    StrategiesSetServes(v, b, scope, resolved);
    assert Survives(v, s, scope, found) == Survives(b, s, scope, found);
  }
}
