/**
 What the registry knows, as a value: which sockets are registered, which of them serve,
 which are set aside as unhealthy, and the balancer lists kept for each service.  The
 registry's operations are functions on this value; their effect on the three indexes is
 stated by membership, so that the order of the lists does not matter.
 */
module RegistryState {
  import opened Common
  import opened Balancing
  import opened SocketPaths

  datatype Strategy = RoundRobinStrategy | LeastInFlightStrategy | P2CStrategy

  datatype NodeContext = NodeContext(serviceName: string, forwarder: Forwarder)

  /** A service set: its nodes and the lists its two balancers were last built with. */
  datatype SetView = SetView(nodes: seq<string>, strategy: Strategy,
                             roundRobin: Option<seq<Forwarder>>, leastInFlight: Option<seq<Forwarder>>)

  datatype RegistryView = RegistryView(services: map<string, SetView>, unhealthy: map<string, SetView>,
                                       nodeMap: map<string, NodeContext>)

  // ---------------------------------------------------------------- what every state keeps

  /** The forwarders of those nodes that are registered. */
  function Resolved(nodes: seq<string>, nodeMap: map<string, NodeContext>): seq<Forwarder> {
    if nodes == [] then []
    else
      var last := |nodes| - 1;
      Resolved(nodes[..last], nodeMap) + if nodes[last] in nodeMap then [nodeMap[nodes[last]].forwarder] else []
  }

  /** The balancer of the current strategy is what a fresh build from the nodes would give. */
  ghost predicate UpToDate(s: SetView, nodeMap: map<string, NodeContext>) {
    match s.strategy
    case RoundRobinStrategy => s.roundRobin == Some(Schedule(Resolved(s.nodes, nodeMap)))
    case _ => s.leastInFlight == Some(Resolved(s.nodes, nodeMap))
  }

  ghost predicate SetOk(s: SetView, service: string) {
    Distinct(s.nodes) && s.nodes != [] && forall p <- s.nodes :: OwnerOf(p) == service
  }

  /** The socket serves. */
  ghost predicate Up(v: RegistryView, p: string) {
    OwnerOf(p) in v.services && p in v.services[OwnerOf(p)].nodes
  }

  /** The socket is set aside. */
  ghost predicate Down(v: RegistryView, p: string) {
    OwnerOf(p) in v.unhealthy && p in v.unhealthy[OwnerOf(p)].nodes
  }

  ghost predicate ContextOk(c: NodeContext, p: string) {
    && c.serviceName == OwnerOf(p) && c.forwarder.serviceName == OwnerOf(p) && c.forwarder.socketPath == p
    && c.forwarder.weight == WeightOf(p)
  }

  /** No set is empty or holds a foreign or repeated node, every context is its path's own,
      and every serving set's balancer is up to date. */
  ghost predicate Shape(v: RegistryView) {
    && (forall svc | svc in v.services :: SetOk(v.services[svc], svc))
    && (forall svc | svc in v.services :: UpToDate(v.services[svc], v.nodeMap))
    && (forall svc | svc in v.unhealthy :: SetOk(v.unhealthy[svc], svc))
    && (forall p | p in v.nodeMap :: ContextOk(v.nodeMap[p], p))
  }

  /** Exactly the registered nodes that are not set aside serve. */
  ghost predicate Placed(v: RegistryView) {
    forall p :: Up(v, p) <==> p in v.nodeMap && !Down(v, p)
  }

  ghost predicate Ok(v: RegistryView) {
    Shape(v) && Placed(v)
  }

  // ---------------------------------------------------------------- list and balancer helpers

  /** `nodes` with its last entry moved to the place of `node`. */
  function SwapRemoved(nodes: seq<string>, node: string): seq<string> {
    if node !in nodes then nodes
    else nodes[IndexIn(nodes, node) := nodes[|nodes| - 1]][..|nodes| - 1]
  }

  function IndexIn(nodes: seq<string>, node: string): (i: nat)
    requires node in nodes
    ensures i < |nodes| && nodes[i] == node
  {
    if nodes[0] == node then 0 else IndexIn(nodes[1..], node) + 1
  }

  lemma SwapRemovedMembers(nodes: seq<string>, node: string)
    requires Distinct(nodes)
    ensures Distinct(SwapRemoved(nodes, node))
    ensures forall p :: p in SwapRemoved(nodes, node) <==> p in nodes && p != node
  {
    var r := SwapRemoved(nodes, node);
    if node in nodes {
      var i, last := IndexIn(nodes, node), |nodes| - 1;
      forall p ensures p in r <==> p in nodes && p != node {
        if p in nodes && p != node {
          var k :| 0 <= k < |nodes| && nodes[k] == p;
          assert r[if k == last then i else k] == p;
        }
      }
    }
  }

  function Rebuilt(s: SetView, nodeMap: map<string, NodeContext>): (r: SetView)
    ensures UpToDate(r, nodeMap) && r.nodes == s.nodes && r.strategy == s.strategy
  {
    match s.strategy
    case RoundRobinStrategy => s.(roundRobin := Some(Schedule(Resolved(s.nodes, nodeMap))))
    case _ => s.(leastInFlight := Some(Resolved(s.nodes, nodeMap)))
  }

  /** Registering or dropping other nodes does not touch a set's balancer. */
  lemma {:induction false} ResolvedFrame(nodes: seq<string>, a: map<string, NodeContext>, b: map<string, NodeContext>)
    requires forall p <- nodes :: p in a && p in b && a[p] == b[p]
    ensures Resolved(nodes, a) == Resolved(nodes, b)
    decreases |nodes|
  {
    if nodes != [] {
      ResolvedFrame(nodes[..|nodes| - 1], a, b);
    }
  }

  lemma UpToDateFrame(s: SetView, a: map<string, NodeContext>, b: map<string, NodeContext>)
    requires UpToDate(s, a) && forall p <- s.nodes :: p in a && p in b && a[p] == b[p]
    ensures UpToDate(s, b)
  {
    hide Resolved, Schedule;
    ResolvedFrame(s.nodes, a, b);
  }

  // ---------------------------------------------------------------- operations

  /** Serving sets after `p` leaves `service`: a changed set is rebuilt, an empty one dropped. */
  function Shrunk(services: map<string, SetView>, service: string, p: string,
                  nodeMap: map<string, NodeContext>): map<string, SetView> {
    if service !in services then services
    else
      var s := services[service];
      var s' := if p in s.nodes then Rebuilt(s.(nodes := SwapRemoved(s.nodes, p)), nodeMap) else s;
      if s'.nodes == [] then services - {service} else services[service := s']
  }

  /** The node is forgotten. */
  function Removed(v: RegistryView, p: string): RegistryView {
    if p !in v.nodeMap then v
    else
      var nodeMap := v.nodeMap - {p};
      v.(nodeMap := nodeMap, services := Shrunk(v.services, v.nodeMap[p].serviceName, p, nodeMap))
  }

  const NO_SET := SetView([], RoundRobinStrategy, None, None)

  function Added(s: SetView, p: string): SetView {
    if p in s.nodes then s else s.(nodes := s.nodes + [p])
  }

  function UnhealthySet(v: RegistryView, service: string): SetView {
    if service in v.unhealthy then v.unhealthy[service] else NO_SET
  }

  /** The node is set aside. */
  function MovedToUnhealthy(v: RegistryView, service: string, p: string): RegistryView {
    v.(services := Shrunk(v.services, service, p, v.nodeMap),
       unhealthy := v.unhealthy[service := Added(UnhealthySet(v, service), p)])
  }

  function RemovedFromUnhealthy(v: RegistryView, service: string, p: string): RegistryView {
    if service !in v.unhealthy then v
    else
      var s := v.unhealthy[service];
      var s' := s.(nodes := SwapRemoved(s.nodes, p));
      v.(unhealthy := if s'.nodes == [] then v.unhealthy - {service} else v.unhealthy[service := s'])
  }

  /** The node is forgotten everywhere. */
  function Gone(v: RegistryView, service: string, p: string): RegistryView {
    RemovedFromUnhealthy(Removed(v, p), service, p)
  }

  /** The node serves again. */
  function Promoted(v: RegistryView, service: string, p: string): RegistryView {
    var v' := RemovedFromUnhealthy(v, service, p);
    var s := if service in v'.services then v'.services[service] else NO_SET;
    v'.(services := v'.services[service := if p in s.nodes then s else Rebuilt(Added(s, p), v'.nodeMap)])
  }

  function StrategySet(v: RegistryView, service: string, strategy: Strategy): RegistryView {
    if service !in v.services || v.services[service].strategy == strategy then v
    else v.(services := v.services[service := Rebuilt(v.services[service].(strategy := strategy), v.nodeMap)])
  }

  /** A report about `p`: a refused connection forgets the node, any other sets it aside. */
  function Reported(v: RegistryView, p: string, refused: bool): RegistryView {
    if p !in v.nodeMap then v
    else if refused then Removed(v, p)
    else MovedToUnhealthy(v, v.nodeMap[p].serviceName, p)
  }

  /** A service's serving set becomes exactly `healthy`, keeping the old list when it already
      holds the same nodes and the old strategy when there was a set at all. */
  function Installed(v: RegistryView, service: string, healthy: seq<string>, created: Strategy): RegistryView {
    if healthy == [] then v.(services := v.services - {service})
    else if service !in v.services then
      v.(services := v.services[service := Rebuilt(SetView(healthy, created, None, None), v.nodeMap)])
    else if SameNodes(v.services[service].nodes, healthy) then v
    else v.(services := v.services[service := Rebuilt(v.services[service].(nodes := healthy), v.nodeMap)])
  }

  predicate SameNodes(nodes: seq<string>, other: seq<string>) {
    |nodes| == |other| && forall n <- other :: n in nodes
  }

  // ---------------------------------------------------------------- their effect

  /** Serving sets of `v'` are those of `v`, with the same strategies. */
  ghost predicate KeepsStrategies(v: RegistryView, v': RegistryView) {
    forall svc | svc in v'.services :: svc in v.services && v'.services[svc].strategy == v.services[svc].strategy
  }

  lemma ShrunkShape(v: RegistryView, service: string, p: string, nodeMap: map<string, NodeContext>)
    requires Ok(v) && OwnerOf(p) == service
    requires nodeMap == v.nodeMap || nodeMap == v.nodeMap - {p}
    ensures var services := Shrunk(v.services, service, p, nodeMap);
            && (forall svc | svc in services :: SetOk(services[svc], svc) && UpToDate(services[svc], nodeMap))
            && (forall svc | svc in services :: svc in v.services && services[svc].strategy == v.services[svc].strategy)
  {
    hide OwnerOf, Resolved, Schedule, SwapRemoved, Rebuilt;
    var services := Shrunk(v.services, service, p, nodeMap);
    if service in v.services {
      SwapRemovedMembers(v.services[service].nodes, p);
    }
    forall svc | svc in services ensures SetOk(services[svc], svc) && UpToDate(services[svc], nodeMap) {
      assert SetOk(v.services[svc], svc) && UpToDate(v.services[svc], v.nodeMap);
      if services[svc] == v.services[svc] && !(svc == service && p in v.services[svc].nodes) {
        forall q <- v.services[svc].nodes ensures q in v.nodeMap && q in nodeMap && v.nodeMap[q] == nodeMap[q] {
          assert Up(v, q);
        }
        UpToDateFrame(v.services[svc], v.nodeMap, nodeMap);
      }
    }
  }

  lemma ShrunkMembers(v: RegistryView, service: string, p: string, nodeMap: map<string, NodeContext>, q: string)
    requires Shape(v) && OwnerOf(p) == service
    ensures var services := Shrunk(v.services, service, p, nodeMap);
            OwnerOf(q) in services && q in services[OwnerOf(q)].nodes <==> Up(v, q) && q != p
  {
    hide OwnerOf, Resolved, Schedule, SwapRemoved, Rebuilt, UpToDate;
    if service in v.services {
      assert SetOk(v.services[service], service);
      SwapRemovedMembers(v.services[service].nodes, p);
    }
  }

  lemma RemovedEffect(v: RegistryView, p: string)
    requires Ok(v)
    ensures var v' := Removed(v, p);
            && Ok(v') && v'.nodeMap == v.nodeMap - {p} && v'.unhealthy == v.unhealthy
            && KeepsStrategies(v, v')
            && forall q :: Up(v', q) <==> Up(v, q) && q != p
  {
    hide OwnerOf, WeightOf, Resolved, Schedule, Shrunk, UpToDate, SetOk;
    var v' := Removed(v, p);
    if p in v.nodeMap {
      assert ContextOk(v.nodeMap[p], p);
      ShrunkShape(v, OwnerOf(p), p, v'.nodeMap);
      forall q ensures Up(v', q) <==> Up(v, q) && q != p {
        ShrunkMembers(v, OwnerOf(p), p, v'.nodeMap, q);
      }
    } else {
      assert !Up(v, p);
      assert v.nodeMap - {p} == v.nodeMap;
    }
  }

  lemma AddedMembers(s: SetView, p: string)
    requires Distinct(s.nodes)
    ensures Distinct(Added(s, p).nodes) && Added(s, p).nodes != []
    ensures forall q :: q in Added(s, p).nodes <==> q in s.nodes || q == p
  {
  }

  lemma MovedEffect(v: RegistryView, p: string)
    requires Ok(v) && p in v.nodeMap
    ensures var v' := MovedToUnhealthy(v, OwnerOf(p), p);
            && Ok(v') && v'.nodeMap == v.nodeMap && KeepsStrategies(v, v')
            && forall q :: Down(v', q) <==> Down(v, q) || q == p
  {
    hide OwnerOf, Resolved, Schedule, Shrunk, UpToDate, Down, SetOk, ContextOk, Added;
    var service, v' := OwnerOf(p), MovedToUnhealthy(v, OwnerOf(p), p);
    ShrunkShape(v, service, p, v.nodeMap);
    MovedSets(v, p);
    forall q ensures Up(v', q) <==> Up(v, q) && q != p {
      ShrunkMembers(v, service, p, v.nodeMap, q);
    }
    forall q ensures Down(v', q) <==> Down(v, q) || q == p {
      MovedMembers(v, p, q);
    }
  }

  lemma MovedSets(v: RegistryView, p: string)
    requires Shape(v)
    ensures var v' := MovedToUnhealthy(v, OwnerOf(p), p);
            forall svc | svc in v'.unhealthy :: SetOk(v'.unhealthy[svc], svc)
  {
    hide OwnerOf, Resolved, Schedule, Shrunk, UpToDate, ContextOk;
    AddedMembers(UnhealthySet(v, OwnerOf(p)), p);
  }

  lemma MovedMembers(v: RegistryView, p: string, q: string)
    requires Shape(v)
    ensures Down(MovedToUnhealthy(v, OwnerOf(p), p), q) <==> Down(v, q) || q == p
  {
    hide OwnerOf, Resolved, Schedule, Shrunk, UpToDate, ContextOk;
  }

  lemma UnhealthyEffect(v: RegistryView, p: string)
    requires Shape(v)
    ensures var v' := RemovedFromUnhealthy(v, OwnerOf(p), p);
            && Shape(v') && v'.nodeMap == v.nodeMap && v'.services == v.services
            && forall q :: Down(v', q) <==> Down(v, q) && q != p
  {
    hide OwnerOf, Resolved, Schedule, SwapRemoved, UpToDate;
    if OwnerOf(p) in v.unhealthy {
      SwapRemovedMembers(v.unhealthy[OwnerOf(p)].nodes, p);
    }
  }

  lemma GoneEffect(v: RegistryView, p: string)
    requires Ok(v)
    ensures var v' := Gone(v, OwnerOf(p), p);
            && Ok(v') && v'.nodeMap == v.nodeMap - {p} && KeepsStrategies(v, v')
            && forall q :: Down(v', q) <==> Down(v, q) && q != p
  {
    hide OwnerOf, Removed, RemovedFromUnhealthy, Shape;
    RemovedEffect(v, p);
    UnhealthyEffect(Removed(v, p), p);
  }

  /** One service's serving set is replaced. */
  function Put(v: RegistryView, service: string, s: SetView): RegistryView {
    v.(services := v.services[service := s])
  }

  lemma PutShape(v: RegistryView, service: string, s: SetView)
    requires Shape(v) && SetOk(s, service) && UpToDate(s, v.nodeMap)
    ensures Shape(Put(v, service, s))
  {
    hide OwnerOf, SetOk, UpToDate, ContextOk;
  }

  lemma PutMembers(v: RegistryView, service: string, s: SetView, q: string)
    ensures Up(Put(v, service, s), q) <==> if OwnerOf(q) == service then q in s.nodes else Up(v, q)
    ensures Down(Put(v, service, s), q) == Down(v, q)
  {
    hide OwnerOf;
  }

  lemma ServingSet(v: RegistryView, service: string, q: string)
    requires Shape(v) && service in v.services
    ensures SetOk(v.services[service], service)
    ensures q in v.services[service].nodes <==> OwnerOf(q) == service && Up(v, q)
  {
    hide OwnerOf, UpToDate, ContextOk;
  }

  lemma PromotedEffect(v: RegistryView, p: string)
    requires Ok(v) && p in v.nodeMap
    ensures var v' := Promoted(v, OwnerOf(p), p);
            && Ok(v') && v'.nodeMap == v.nodeMap && GrowsInTurn(v, v')
            && forall q :: Down(v', q) <==> Down(v, q) && q != p
  {
    hide OwnerOf, Resolved, Schedule, RemovedFromUnhealthy, Rebuilt, UpToDate, Shape, Up, Down, Added, ContextOk, SetOk;
    hide GrowsInTurn;
    PromotedGrows(v, OwnerOf(p), p);
    var service, v1 := OwnerOf(p), RemovedFromUnhealthy(v, OwnerOf(p), p);
    UnhealthyEffect(v, p);
    SameServices(v, v1);
    var s := if service in v1.services then v1.services[service] else NO_SET;
    var s' := if p in s.nodes then s else Rebuilt(Added(s, p), v1.nodeMap);
    PromotedSet(v1, p);
    PutShape(v1, service, s');
    forall q ensures Up(Put(v1, service, s'), q) <==> Up(v, q) || q == p
      ensures Down(Put(v1, service, s'), q) == Down(v1, q)
    {
      PutMembers(v1, service, s', q);
      if OwnerOf(q) == service {
        PromotedMembers(v1, p, q);
      }
    }
    assert Promoted(v, service, p) == Put(v1, service, s');
  }

  /** No serving set is lost, each keeps its strategy, and a new one is served in turn. */
  ghost predicate GrowsInTurn(v: RegistryView, v': RegistryView) {
    && (forall svc | svc in v.services :: svc in v'.services)
    && (forall svc | svc in v'.services ::
         v'.services[svc].strategy == if svc in v.services then v.services[svc].strategy else RoundRobinStrategy)
  }

  lemma PromotedGrows(v: RegistryView, service: string, p: string)
    ensures GrowsInTurn(v, Promoted(v, service, p))
  {
    hide Resolved, Schedule;
  }

  /** A node set aside is forgotten without any change to the serving sets. */
  lemma AsideGone(v: RegistryView, p: string)
    requires Ok(v) && Down(v, p)
    ensures Gone(v, OwnerOf(p), p).services == v.services
  {
    hide OwnerOf, Shrunk, WeightOf, UpToDate;
    assert !Up(v, p);
    if p in v.nodeMap {
      assert ContextOk(v.nodeMap[p], p);
      NothingShrunk(v.services, OwnerOf(p), p, v.nodeMap - {p});
    }
  }

  lemma NothingShrunk(services: map<string, SetView>, service: string, p: string, nodeMap: map<string, NodeContext>)
    requires service in services ==> services[service].nodes != [] && p !in services[service].nodes
    ensures Shrunk(services, service, p, nodeMap) == services
  {
    hide Rebuilt;
  }

  lemma SameServices(v: RegistryView, v': RegistryView)
    requires v.services == v'.services
    ensures forall q :: Up(v', q) == Up(v, q)
  {
  }

  lemma PromotedSet(v: RegistryView, p: string)
    requires Shape(v)
    ensures var s := if OwnerOf(p) in v.services then v.services[OwnerOf(p)] else NO_SET;
            var s' := if p in s.nodes then s else Rebuilt(Added(s, p), v.nodeMap);
            SetOk(s', OwnerOf(p)) && UpToDate(s', v.nodeMap)
  {
    hide OwnerOf, UpToDate, ContextOk, Rebuilt;
    var s := if OwnerOf(p) in v.services then v.services[OwnerOf(p)] else NO_SET;
    AddedMembers(s, p);
  }

  lemma PromotedMembers(v: RegistryView, p: string, q: string)
    requires Shape(v) && OwnerOf(q) == OwnerOf(p)
    ensures var s := if OwnerOf(p) in v.services then v.services[OwnerOf(p)] else NO_SET;
            var s' := if p in s.nodes then s else Rebuilt(Added(s, p), v.nodeMap);
            q in s'.nodes <==> Up(v, q) || q == p
  {
    hide OwnerOf, UpToDate, ContextOk, Rebuilt;
  }

  lemma StrategySetEffect(v: RegistryView, service: string, strategy: Strategy)
    requires Ok(v)
    ensures var v' := StrategySet(v, service, strategy);
            && Ok(v') && v'.nodeMap == v.nodeMap && v'.unhealthy == v.unhealthy
            && v'.services.Keys == v.services.Keys
            && forall svc | svc in v.services ::
               v'.services[svc].strategy == if svc == service then strategy else v.services[svc].strategy
  {
    hide OwnerOf, Resolved, Schedule, Rebuilt, UpToDate, Shape, Up, Down, SetOk;
    if service in v.services && v.services[service].strategy != strategy {
      var s' := Rebuilt(v.services[service].(strategy := strategy), v.nodeMap);
      assert SetOk(s', service) by {
        ServingSet(v, service, "");
        SetOkNodes(v.services[service], s', service);
      }
      PutShape(v, service, s');
      forall q ensures Up(Put(v, service, s'), q) == Up(v, q) && Down(Put(v, service, s'), q) == Down(v, q) {
        PutMembers(v, service, s', q);
        ServingSet(v, service, q);
      }
    }
  }

  lemma SetOkNodes(s: SetView, t: SetView, service: string)
    requires SetOk(s, service) && t.nodes == s.nodes
    ensures SetOk(t, service)
  {
  }

  /** `b` knows the nodes of `a` as `a` does and the new ones of `extra` as their own. */
  ghost predicate Registers(a: map<string, NodeContext>, b: map<string, NodeContext>, extra: seq<string>) {
    && (forall p :: p in b <==> p in a || p in extra)
    && (forall p | p in a :: b[p] == a[p])
    && (forall p | p in b && p !in a :: ContextOk(b[p], p))
  }

  /** What the installation of a service's nodes is given: everything found is the service's
      own, everything of the service that is known was found, and `healthy` lists what was
      found and is not set aside. */
  ghost predicate ToInstall(v: RegistryView, nodeMap: map<string, NodeContext>, service: string,
                            found: seq<string>, healthy: seq<string>) {
    && Registers(v.nodeMap, nodeMap, found)
    && Distinct(healthy)
    && (forall p <- found :: OwnerOf(p) == service)
    && (forall p :: p in healthy <==> p in found && !Down(v, p))
    && (forall p :: p in v.nodeMap && OwnerOf(p) == service ==> p in found)
  }

  lemma InstalledEffect(v: RegistryView, nodeMap: map<string, NodeContext>, service: string,
                        found: seq<string>, healthy: seq<string>, created: Strategy)
    requires Ok(v) && ToInstall(v, nodeMap, service, found, healthy)
    ensures var v' := Installed(v.(nodeMap := nodeMap), service, healthy, created);
            && Ok(v') && v'.nodeMap == nodeMap && v'.unhealthy == v.unhealthy
            && (forall svc | svc != service :: svc in v'.services <==> svc in v.services)
            && (forall svc | svc != service && svc in v.services :: v'.services[svc] == v.services[svc])
            && (service in v'.services ==>
                 v'.services[service].strategy
                 == if service in v.services then v.services[service].strategy else created)
  {
    hide OwnerOf, Resolved, Schedule, Rebuilt, UpToDate, Shape, Up, Down, ToInstall, SameNodes;
    var v1 := v.(nodeMap := nodeMap);
    RegisteredShape(v, nodeMap, service, found, healthy);
    var v' := Installed(v1, service, healthy, created);
    InstalledShape(v1, service, found, healthy, created);
    forall q ensures Up(v', q) <==> q in v'.nodeMap && !Down(v', q) {
      InstalledMembers(v, nodeMap, service, found, healthy, created, q);
    }
  }

  lemma RegisteredShape(v: RegistryView, nodeMap: map<string, NodeContext>, service: string,
                        found: seq<string>, healthy: seq<string>)
    requires Ok(v) && ToInstall(v, nodeMap, service, found, healthy)
    ensures Shape(v.(nodeMap := nodeMap))
    ensures Distinct(healthy) && forall p <- healthy :: OwnerOf(p) == service
  {
    hide OwnerOf, Resolved, Schedule, Rebuilt, UpToDate, SetOk;
    forall svc | svc in v.services ensures UpToDate(v.services[svc], nodeMap) {
      forall q <- v.services[svc].nodes ensures q in v.nodeMap && q in nodeMap && v.nodeMap[q] == nodeMap[q] {
        ServingSet(v, svc, q);
      }
      UpToDateFrame(v.services[svc], v.nodeMap, nodeMap);
    }
  }

  lemma InstalledShape(v: RegistryView, service: string, found: seq<string>, healthy: seq<string>, created: Strategy)
    requires Shape(v) && Distinct(healthy) && forall p <- healthy :: OwnerOf(p) == service
    ensures Shape(Installed(v, service, healthy, created))
  {
    hide OwnerOf, Resolved, Schedule, Rebuilt, UpToDate, SameNodes, ContextOk;
    if healthy != [] {
      if service !in v.services {
        PutShape(v, service, Rebuilt(SetView(healthy, created, None, None), v.nodeMap));
      } else if !SameNodes(v.services[service].nodes, healthy) {
        PutShape(v, service, Rebuilt(v.services[service].(nodes := healthy), v.nodeMap));
      }
    }
  }

  lemma InstalledMembers(v: RegistryView, nodeMap: map<string, NodeContext>, service: string,
                         found: seq<string>, healthy: seq<string>, created: Strategy, q: string)
    requires Ok(v) && ToInstall(v, nodeMap, service, found, healthy)
    ensures var v' := Installed(v.(nodeMap := nodeMap), service, healthy, created);
            Up(v', q) <==> q in nodeMap && !Down(v', q)
  {
    hide OwnerOf, Resolved, Schedule, Rebuilt, UpToDate, Shape, Down, SetOk, SameNodes;
    var v' := Installed(v.(nodeMap := nodeMap), service, healthy, created);
    SameUnhealthy(v, v', q);
    assert Up(v, q) <==> q in v.nodeMap && !Down(v, q);
    if service in v.services {
      ServingSet(v, service, q);
      if SameNodes(v.services[service].nodes, healthy) {
        SetOkDistinct(v.services[service], service);
        SameNodesMembers(v.services[service].nodes, healthy);
      }
    }
  }

  lemma SameUnhealthy(v: RegistryView, v': RegistryView, q: string)
    requires v.unhealthy == v'.unhealthy
    ensures Down(v', q) == Down(v, q)
  {
  }

  lemma SetOkDistinct(s: SetView, service: string)
    requires SetOk(s, service)
    ensures Distinct(s.nodes) && s.nodes != []
  {
  }

  /** Equally long lists without repetitions, one inside the other, have the same members. */
  lemma SameNodesMembers(nodes: seq<string>, other: seq<string>)
    requires Distinct(nodes) && Distinct(other) && SameNodes(nodes, other)
    ensures forall p :: p in nodes <==> p in other
  {
    var a, b := Members(nodes), Members(other);
    DistinctCount(nodes);
    DistinctCount(other);
    if exists p :: p in a && p !in b {
      var p :| p in a && p !in b;
      SubsetSize(b, a - {p});
    }
  }

  function Members(s: seq<string>): (m: set<string>)
    ensures forall p :: p in m <==> p in s
  {
    set p | p in s
  }

  lemma {:induction false} DistinctCount(s: seq<string>)
    requires Distinct(s)
    ensures |Members(s)| == |s|
    decreases |s|
  {
    if s != [] {
      var last := |s| - 1;
      DistinctCount(s[..last]);
      assert Members(s) == Members(s[..last]) + {s[last]};
    }
  }

  lemma {:induction false} SubsetSize(a: set<string>, b: set<string>)
    requires a <= b
    ensures |a| <= |b|
    decreases a
  {
    if a != {} {
      var x :| x in a;
      SubsetSize(a - {x}, b - {x});
    }
  }
}
