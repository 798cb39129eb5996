/**
 The service registry: serving sets, unhealthy sets, the node map, and the channel of
 failure reports.  Every method is one atomic step of the protocol.
 */
module Registries {
  import opened Common
  import opened Balancing
  import opened RegistryState
  import opened SocketPaths
  import opened ServiceSets
  import opened StrategyMarkers
  import opened RegistryScans

  /** A failure report: the socket, and whether the connection was refused. */
  datatype Failure = Failure(socketPath: string, refused: bool)

  /** What a reconnection attempt found. */
  datatype Reconnection = Reconnected | SocketGone | StillFailing

  class Registry {
    var services: map<string, ServiceSet>
    var unhealthy: map<string, ServiceSet>
    var nodeMap: map<string, NodeContext>
    /** The reports sent and not yet taken from the channel. */
    var failures: seq<Failure>
    ghost var repr: set<ServiceSet>

    /** Every set is well formed and no two entries of the two indexes share one. */
    ghost predicate Valid()
      reads `services, `unhealthy, `repr, repr
    {
      && (forall s | s in services :: services[s] in repr)
      && (forall s | s in unhealthy :: unhealthy[s] in repr)
      && AllValid(services) && AllValid(unhealthy) && NotShared(services, unhealthy)
    }

    ghost function View(): RegistryView
      reads `services, `unhealthy, `nodeMap, `repr, repr
      requires Valid()
    {
      RegistryView(Views(services), Views(unhealthy), nodeMap)
    }

    constructor ()
      ensures Sound() && View() == RegistryView(map[], map[], map[]) && failures == [] && fresh(repr)
    {
      services, unhealthy, nodeMap, failures := map[], map[], map[], [];
      repr := {};
    }

    /** The service's set loses a node and is rebuilt, or dropped when it was the last. */
    method ShrinkService(service: string, nodePath: string)
      requires Valid()
      modifies `services, repr
      ensures Valid()
      ensures View() == old(View()).(services := Shrunk(old(View()).services, service, nodePath, nodeMap))
    {
      hide SwapRemoved, Rebuilt, Distinct, Inverse, Views, NotShared;
      ghost var v := View();
      if service in services {
        var ss := services[service];
        SetAlone(services, unhealthy, service);
        ss.Drop(nodePath, nodeMap);
        if |ss.nodes| == 0 {
          services := services - {service};
          ViewsKept(services, v.services - {service});
        } else {
          ViewsChanged(services, v.services, service);
        }
        ViewsKept(unhealthy, v.unhealthy);
      }
    }

    /** Only the node map changes. */
    method SetNodeMap(contexts: map<string, NodeContext>)
      requires Valid()
      modifies `nodeMap
      ensures Valid() && nodeMap == contexts && View() == old(View()).(nodeMap := contexts)
    {
      hide AllValid, Views, NotShared;
      nodeMap := contexts;
    }

    method RemoveNodeUnsafe(nodePath: string)
      requires Valid()
      modifies `services, `nodeMap, repr
      ensures Valid()
      ensures View() == Removed(old(View()), nodePath)
    {
      hide Shrunk, Valid;
      hide View;
      SameMap();
      if nodePath !in nodeMap {
        return;
      }
      var service := nodeMap[nodePath].serviceName;
      SetNodeMap(nodeMap - {nodePath});
      ShrinkService(service, nodePath);
    }

    method MoveToUnhealthyUnsafe(service: string, nodePath: string)
      requires Valid()
      modifies `services, `unhealthy, `repr, repr
      ensures Valid() && fresh(repr - old(repr))
      ensures View() == MovedToUnhealthy(old(View()), service, nodePath)
    {
      hide Shrunk;
      ShrinkService(service, nodePath);
      AddUnhealthy(service, nodePath);
    }

    /** The service's unhealthy set is made when there is none. */
    method EnsureUnhealthy(service: string)
      requires Valid()
      modifies `unhealthy, `repr
      ensures Valid() && fresh(repr - old(repr)) && service in unhealthy
      ensures View() == old(View()).(unhealthy := old(View()).unhealthy[service := UnhealthySet(old(View()), service)])
    {
      hide Distinct, Inverse, Views, NotShared;
      ghost var v := View();
      if service !in unhealthy {
        var us := new ServiceSet([], RoundRobinStrategy);
        NewSet(services, unhealthy, service, us);
        unhealthy := unhealthy[service := us];
        repr := repr + {us};
        ViewsKept(unhealthy, v.unhealthy[service := NO_SET]);
        ViewsKept(services, v.services);
      }
    }

    /** The node joins the service's unhealthy set. */
    method AddUnhealthy(service: string, nodePath: string)
      requires Valid()
      modifies `unhealthy, `repr, repr
      ensures Valid() && fresh(repr - old(repr))
      ensures var v := old(View());
              View() == v.(unhealthy := v.unhealthy[service := Added(UnhealthySet(v, service), nodePath)])
    {
      hide Valid, Added;
      hide View;
      ghost var v := View();
      EnsureUnhealthy(service);
      UpdateTwice(v.unhealthy, service, UnhealthySet(v, service), Added(UnhealthySet(v, service), nodePath));
      GrowUnhealthy(service, nodePath);
    }

    method GrowUnhealthy(service: string, nodePath: string)
      requires Valid() && service in unhealthy && service in View().unhealthy
      modifies repr
      ensures Valid()
      ensures var v := old(View());
              View() == v.(unhealthy := v.unhealthy[service := Added(v.unhealthy[service], nodePath)])
    {
      hide Distinct, Inverse, Views, NotShared, Added;
      ghost var v := View();
      var us := unhealthy[service];
      UnhealthyAlone(services, unhealthy, service);
      var _ := us.Add(nodePath);
      ViewsChanged(unhealthy, v.unhealthy, service);
      ViewsKept(services, v.services);
    }

    method RemoveFromUnhealthyUnsafe(service: string, nodePath: string)
      requires Valid()
      modifies `unhealthy, repr
      ensures Valid()
      ensures View() == RemovedFromUnhealthy(old(View()), service, nodePath)
    {
      hide SwapRemoved, Distinct, Inverse, Views, NotShared;
      ghost var v := View();
      if service in unhealthy {
        var us := unhealthy[service];
        UnhealthyAlone(services, unhealthy, service);
        var _ := us.Remove(nodePath);
        if |us.nodes| == 0 {
          unhealthy := unhealthy - {service};
          ViewsKept(unhealthy, v.unhealthy - {service});
        } else {
          ViewsChanged(unhealthy, v.unhealthy, service);
        }
        ViewsKept(services, v.services);
      }
    }

    /** A service gets a first serving set. */
    method NewService(service: string, nodes: seq<string>, strategy: Strategy)
      requires Valid() && service !in services && Distinct(nodes)
      modifies `services, `repr
      ensures Valid() && fresh(repr - old(repr)) && service in services && fresh(services[service])
      ensures View() == Put(old(View()), service, SetView(nodes, strategy, None, None))
    {
      hide Distinct, Inverse, Views, NotShared;
      ghost var v := View();
      var ss := new ServiceSet(nodes, strategy);
      NewSet(services, unhealthy, service, ss);
      services := services[service := ss];
      repr := repr + {ss};
      ViewsKept(services, v.services[service := SetView(nodes, strategy, None, None)]);
      ViewsKept(unhealthy, v.unhealthy);
    }

    /** The service's set gets `node` and is rebuilt, if the node is new to it. */
    method GrowService(service: string, nodePath: string)
      requires Valid() && service in services
      modifies repr
      ensures Valid()
      ensures var s := old(View()).services[service];
              View() == Put(old(View()), service,
                            if nodePath in s.nodes then s else Rebuilt(Added(s, nodePath), nodeMap))
    {
      hide Distinct, Inverse, Views, NotShared, Rebuilt;
      ghost var v := View();
      var ss := services[service];
      SetAlone(services, unhealthy, service);
      var added := ss.Add(nodePath);
      if added {
        ss.RebuildLoadBalancer(nodeMap);
      }
      ViewsChanged(services, v.services, service);
      ViewsKept(unhealthy, v.unhealthy);
    }

    method PromoteToHealthyUnsafe(service: string, nodePath: string)
      requires Valid()
      modifies `services, `unhealthy, `repr, repr
      ensures Valid() && fresh(repr - old(repr))
      ensures View() == Promoted(old(View()), service, nodePath)
    {
      hide Rebuilt, Added, RemovedFromUnhealthy, Valid, View;
      SameMap();
      RemoveFromUnhealthyUnsafe(service, nodePath);
      SameKeys();
      ghost var v := View();
      if service !in services {
        NewService(service, [], RoundRobinStrategy);
        UpdateTwice(v.services, service, NO_SET, Rebuilt(Added(NO_SET, nodePath), nodeMap));
        SameKeys();
      }
      GrowService(service, nodePath);
      SameKeys();
    }

    method SetStrategy(service: string, strategy: Strategy)
      requires Valid()
      modifies repr
      ensures Valid()
      ensures View() == StrategySet(old(View()), service, strategy)
    {
      hide Distinct, Inverse, Views, NotShared, Rebuilt;
      ghost var v := View();
      if service !in services || services[service].strategy == strategy {
        return;
      }
      var ss := services[service];
      SetAlone(services, unhealthy, service);
      ss.strategy := strategy;
      ss.RebuildLoadBalancer(nodeMap);
      ViewsChanged(services, v.services, service);
      ViewsKept(unhealthy, v.unhealthy);
    }

    /** The serving set of a service becomes `healthy`; an unchanged set is left alone. */
    method UpdateService(service: string, healthy: seq<string>, entries: set<string>)
      requires Valid() && Distinct(healthy)
      modifies `services, `repr, repr
      ensures Valid() && fresh(repr - old(repr))
      ensures View() == Installed(old(View()), service, healthy, StrategyAtCreation(entries))
    {
      hide Distinct, Inverse, Views, NotShared, Rebuilt, SameNodes;
      if |healthy| > 0 {
        if service in services {
          var same := services[service].HasSameNodes(healthy);
          if !same {
            ReplaceNodes(service, healthy);
          }
        } else {
          ghost var v := View();
          NewService(service, healthy, StrategyAtCreation(entries));
          UpdateTwice(v.services, service, SetView(healthy, StrategyAtCreation(entries), None, None),
                      Rebuilt(SetView(healthy, StrategyAtCreation(entries), None, None), nodeMap));
          RebuildService(service);
        }
      } else {
        DropService(service);
      }
    }

    method ReplaceNodes(service: string, healthy: seq<string>)
      requires Valid() && service in services && Distinct(healthy)
      modifies repr
      ensures Valid()
      ensures View() == Put(old(View()), service, Rebuilt(old(View()).services[service].(nodes := healthy), nodeMap))
    {
      hide Distinct, Inverse, Views, NotShared, Rebuilt;
      ghost var v := View();
      var ss := services[service];
      SetAlone(services, unhealthy, service);
      ss.Replace(healthy);
      ss.RebuildLoadBalancer(nodeMap);
      ViewsChanged(services, v.services, service);
      ViewsKept(unhealthy, v.unhealthy);
    }

    method RebuildService(service: string)
      requires Valid() && service in services
      modifies repr
      ensures Valid()
      ensures View() == Put(old(View()), service, Rebuilt(old(View()).services[service], nodeMap))
    {
      hide Distinct, Inverse, Views, NotShared, Rebuilt;
      ghost var v := View();
      SetAlone(services, unhealthy, service);
      services[service].RebuildLoadBalancer(nodeMap);
      ViewsChanged(services, v.services, service);
      ViewsKept(unhealthy, v.unhealthy);
    }

    method DropService(service: string)
      requires Valid()
      modifies `services
      ensures Valid()
      ensures View() == old(View()).(services := old(View()).services - {service})
    {
      hide Distinct, Inverse, Views, NotShared;
      ghost var v := View();
      if service in services {
        SetAlone(services, unhealthy, service);
        services := services - {service};
        ViewsKept(services, v.services - {service});
        ViewsKept(unhealthy, v.unhealthy);
      }
    }

    // -------------------------------------------------------------- the atomic steps

    /** What holds in every reachable state. */
    ghost predicate Sound()
      reads this, repr, set p | p in nodeMap :: nodeMap[p].forwarder
    {
      Valid() && Ok(View()) && NothingLost(View(), failures)
    }

    lemma SameMap()
      requires Valid()
      ensures View().nodeMap == nodeMap
    {
    }

    lemma SameKeys()
      requires Valid()
      ensures View().services.Keys == services.Keys && View().nodeMap == nodeMap
    {
    }

    /** A use of `f` fails: the first failure raises its flag and sends a report. */
    method Fail(f: Forwarder, refused: bool)
      requires Sound()
      modifies f`isFailed, `failures
      ensures Sound() && View() == old(View()) && f.isFailed
      ensures failures == if old(f.isFailed) then old(failures) else old(failures) + [Failure(f.socketPath, refused)]
    {
      hide Ok, Down, Pending, Valid;
      hide View;
      ghost var v := View();
      OwnPaths(v);
      SameMap();
      if !f.isFailed {
        f.isFailed := true;
        assert View() == v;
        var report := Failure(f.socketPath, refused);
        PendingAfter(failures, report);
        failures := failures + [report];
        assert View() == v;
      }
    }

    /** The listener takes the next report off the channel. */
    method HandleFailure()
      requires Sound() && failures != []
      modifies `services, `unhealthy, `nodeMap, `failures, `repr, repr
      ensures Sound() && fresh(repr - old(repr))
      ensures failures == old(failures)[1..]
      ensures View() == Reported(old(View()), old(failures)[0].socketPath, old(failures)[0].refused)
      ensures var v, p := old(View()), old(failures)[0].socketPath;
        if p !in v.nodeMap then View() == v
        else if old(failures)[0].refused then
          && View().nodeMap == v.nodeMap - {p} && View().unhealthy == v.unhealthy && KeepsStrategies(v, View())
        else
          && View().nodeMap == v.nodeMap && KeepsStrategies(v, View())
          && forall q :: Down(View(), q) <==> Down(v, q) || q == p
    {
      hide Ok, NothingLost, AllValid, Views, NotShared, Reported, Down, KeepsStrategies;
      ghost var v := View();
      var failure := failures[0];
      ReportedEffect(v, failure.socketPath, failure.refused);
      ReportTold(v, failure.socketPath, failure.refused);
      ReportedSafe(v, failures);
      failures := failures[1..];
      assert View() == v;
      Listen(failure);
    }

    /** A report is acted on: the node is forgotten or set aside. */
    method Listen(failure: Failure)
      requires Valid()
      modifies `services, `unhealthy, `nodeMap, `repr, repr
      ensures Valid() && fresh(repr - old(repr))
      ensures View() == Reported(old(View()), failure.socketPath, failure.refused)
    {
      hide Ok, AllValid, Views, NotShared, Removed, MovedToUnhealthy;
      var nodePath := failure.socketPath;
      RemovedTwice(View(), nodePath);
      if nodePath in nodeMap {
        if failure.refused {
          RemoveNodeUnsafe(nodePath);
        } else {
          MoveToUnhealthyUnsafe(nodeMap[nodePath].serviceName, nodePath);
        }
      }
      if failure.refused {
        RemoveNodeUnsafe(nodePath);
      }
    }

    /** A reconnection succeeds: the flag of the forwarder looked up before is cleared. */
    method Reconnect(f: Forwarder)
      requires Sound()
      modifies f`isFailed
      ensures Sound() && View() == old(View()) && !f.isFailed
    {
      hide Ok, Down, Pending, Valid;
      hide View;
      ghost var v := View();
      SameMap();
      f.isFailed := false;
      assert View() == v;
    }

    /** The promotion that follows it, under the lock.  All stays sound exactly when the node
        is still registered and has not failed again unreported in between. */
    method PromoteReconnected(service: string, nodePath: string)
      requires Sound() && OwnerOf(nodePath) == service
      modifies `services, `unhealthy, `repr, repr
      ensures Valid() && fresh(repr - old(repr))
      ensures View() == Promoted(old(View()), service, nodePath)
      ensures Sound() <==>
                nodePath in nodeMap && (nodeMap[nodePath].forwarder.isFailed ==> Pending(failures, nodePath))
    {
      hide Ok, Down, Pending, Promoted, Valid;
      hide View;
      SameMap();
      ghost var v := View();
      PromoteToHealthyUnsafe(service, nodePath);
      PromotedSoundIff(v, failures, nodePath);
    }

    /** One node of the list of unhealthy ones is tried again, and nothing else happens
        between its reconnection and its promotion. */
    method RetryNode(service: string, nodePath: string, outcome: Reconnection)
      requires Sound() && OwnerOf(nodePath) == service
      modifies `services, `unhealthy, `nodeMap, `repr, repr
      modifies if nodePath in nodeMap then {nodeMap[nodePath].forwarder} else {}
      ensures Sound() && fresh(repr - old(repr))
      ensures View() == Retried(old(View()), service, nodePath, outcome)
      ensures nodePath in nodeMap && outcome == Reconnected ==>
              !nodeMap[nodePath].forwarder.isFailed && Up(View(), nodePath)
    {
      hide Ok, AllValid, Views, NotShared, Up, Retried, Down, Pending;
      ghost var v := View();
      RetriedEffect(v, nodePath, outcome);
      if nodePath in nodeMap && outcome == Reconnected {
        nodeMap[nodePath].forwarder.isFailed := false;
        assert View() == v;
      }
      RetriedSafe(v, failures, nodePath, outcome);
      hide NothingLost;
      Settle(service, nodePath, outcome);
    }

    /** All nodes set aside are tried again, from a list taken at the start. */
    method RetryUnhealthy(outcome: string -> Reconnection)
      requires Sound()
      modifies `services, `unhealthy, `nodeMap, `repr, repr, set p | p in nodeMap :: nodeMap[p].forwarder
      ensures Sound() && fresh(repr - old(repr))
      ensures RetriedAll(old(View()), View(), outcome)
    {
      hide Valid, Ok, NothingLost, Retrying, Down, OwnerOf, RetriedAll;
      hide View;
      ghost var v := View();
      SameMap();
      AsideListed();
      NothingRetried(v, outcome);
      var toCheck := map s | s in unhealthy :: unhealthy[s].nodes;
      var todo := toCheck.Keys;
      ghost var done := {};
      while todo != {}
        invariant Sound() && fresh(repr - old(repr)) && todo <= toCheck.Keys
        invariant Retrying(v, View(), done, outcome)
        invariant forall p | p in nodeMap :: p in old(nodeMap) && nodeMap[p] == old(nodeMap)[p]
        invariant forall p <- done :: OwnerOf(p) !in todo
        invariant forall s, p | s in toCheck && s !in todo && p in toCheck[s] :: p in done
        decreases |todo|
      {
        var service :| service in todo;
        var nodes := toCheck[service];
        done := RetryService(service, nodes, outcome, v, done);
        todo := todo - {service};
      }
      AllRetried(v, View(), done, outcome);
    }

    /** One service's nodes are tried again, one after the other. */
    method RetryService(service: string, nodes: seq<string>, outcome: string -> Reconnection, ghost v: RegistryView,
                        ghost done: set<string>)
      returns (ghost done': set<string>)
      requires Sound() && Distinct(nodes) && forall p <- nodes :: OwnerOf(p) == service && p !in done && Down(v, p)
      requires Retrying(v, View(), done, outcome)
      modifies `services, `unhealthy, `nodeMap, `repr, repr, set p | p in nodeMap :: nodeMap[p].forwarder
      ensures Sound() && fresh(repr - old(repr))
      ensures done' == done + Members(nodes) && Retrying(v, View(), done', outcome)
      ensures forall p | p in nodeMap :: p in old(nodeMap) && nodeMap[p] == old(nodeMap)[p]
    {
      hide Valid, Ok, NothingLost, Retrying, Down, Up, OwnerOf, Retried, Members;
      hide View;
      done' := done;
      assert done + Members(nodes[..0]) == done;
      for j := 0 to |nodes|
        invariant Sound() && fresh(repr - old(repr))
        invariant done' == done + Members(nodes[..j]) && Retrying(v, View(), done', outcome)
        invariant forall p | p in nodeMap :: p in old(nodeMap) && nodeMap[p] == old(nodeMap)[p]
      {
        ghost var a := View();
        SameMap();
        RetryingNext(v, a, done', nodes[j], outcome);
        RetriedEffect(a, nodes[j], outcome(nodes[j]));
        MembersNext(nodes, j);
        RetryNode(service, nodes[j], outcome(nodes[j]));
        SameMap();
        done' := done' + {nodes[j]};
      }
      assert nodes[..|nodes|] == nodes;
    }

    /** The registry's part of a retry. */
    method Settle(service: string, nodePath: string, outcome: Reconnection)
      requires Valid()
      modifies `services, `unhealthy, `nodeMap, `repr, repr
      ensures Valid() && fresh(repr - old(repr))
      ensures View() == Retried(old(View()), service, nodePath, outcome)
    {
      hide AllValid, Views, NotShared, Removed, RemovedFromUnhealthy, Promoted;
      if nodePath !in nodeMap {
        RemoveFromUnhealthyUnsafe(service, nodePath);
      } else {
        match outcome
        case Reconnected =>
          PromoteToHealthyUnsafe(service, nodePath);
        case SocketGone =>
          RemoveNodeUnsafe(nodePath);
          RemoveFromUnhealthyUnsafe(service, nodePath);
        case StillFailing =>
      }
    }

    /** Every path found gets a context of its own unless it has one; those not set aside
        are returned. */
    method RegisterFound(service: string, found: seq<string>) returns (healthy: seq<string>)
      requires Valid() && Distinct(found) && forall p <- found :: OwnerOf(p) == service
      modifies `nodeMap
      ensures Valid() && View() == old(View()).(nodeMap := nodeMap)
      ensures Registers(old(nodeMap), nodeMap, found) && NewUnfailed(old(nodeMap), nodeMap)
      ensures forall p | p in nodeMap && p !in old(nodeMap) :: fresh(nodeMap[p].forwarder)
      ensures forall p | p in nodeMap && p !in old(nodeMap) :: nodeMap[p].forwarder.weight == WeightOf(p)
      ensures Distinct(healthy) && forall p :: p in healthy <==> p in found && !Down(old(View()), p)
    {
      hide OwnerOf, WeightOf, Valid, Down, Registers, Distinct;
      hide View;
      ghost var v := View();
      SameMap();
      healthy := [];
      NothingRegistered(nodeMap, found);
      NoneHealthy(v, found);
      for i := 0 to |found|
        invariant Valid() && View() == v.(nodeMap := nodeMap)
        invariant Registers(old(nodeMap), nodeMap, found[..i]) && NewUnfailed(old(nodeMap), nodeMap)
        invariant forall p | p in nodeMap && p !in old(nodeMap) :: fresh(nodeMap[p].forwarder)
        invariant HealthyAmong(v, found[..i], healthy)
      {
        var node := found[i];
        ghost var before := nodeMap;
        RegisterNode(service, node);
        RegisteredKeeps(before, nodeMap, node);
        RegisteredNext(old(nodeMap), before, nodeMap, found, i);
        var aside := IsAside(service, node);
        SameUnhealthy(v, View(), node);
        HealthyNext(v, found, i, healthy);
        if !aside {
          healthy := healthy + [node];
        }
      }
      assert found[..|found|] == found;
      RegisteredWeights(old(nodeMap), nodeMap, found);
    }

    method RegisterNode(service: string, node: string)
      requires Valid() && OwnerOf(node) == service
      modifies `nodeMap
      ensures Valid() && View() == old(View()).(nodeMap := nodeMap)
      ensures Registers(old(nodeMap), nodeMap, [node]) && NewUnfailed(old(nodeMap), nodeMap)
      ensures forall p | p in nodeMap && p !in old(nodeMap) :: fresh(nodeMap[p].forwarder)
    {
      hide OwnerOf, Valid, Registers;
      hide View;
      SameMap();
      if node !in nodeMap {
        var f := new Forwarder(service, node, WeightOf(node));
        OneRegistered(nodeMap, node, NodeContext(service, f));
        SetNodeMap(nodeMap[node := NodeContext(service, f)]);
      } else {
        NoneRegistered(nodeMap, node);
      }
    }

    method IsAside(service: string, node: string) returns (aside: bool)
      requires Valid() && OwnerOf(node) == service
      ensures aside == Down(View(), node)
    {
      hide OwnerOf, NotShared, Distinct, Inverse;
      aside := false;
      if service in unhealthy {
        aside := unhealthy[service].Contains(node);
      }
    }

    /** One service's nodes are registered and its serving set is brought up to date. */
    method Install(service: string, listed: seq<string>, entries: string -> set<string>, ghost found: set<string>)
      requires Valid() && Ok(View())
      requires Distinct(listed) && forall p <- listed :: OwnerOf(p) == service
      requires forall p | OwnerOf(p) == service :: p in listed <==> p in found
      requires forall p | p in nodeMap && OwnerOf(p) == service :: p in found
      modifies `services, `nodeMap, `repr, repr
      ensures Valid() && fresh(repr - old(repr))
      ensures Scanned(old(View()), View(), iset{service}, found, Creation(entries))
      ensures View().unhealthy == old(View()).unhealthy && NewUnfailed(old(nodeMap), nodeMap)
      ensures forall p | p in nodeMap && p !in old(nodeMap) :: fresh(nodeMap[p].forwarder)
    {
      hide OwnerOf, Ok, Down, Registers, Distinct, Scanned, Installed, StrategyAtCreation, Valid;
      hide View;
      ghost var v := View();
      SameMap();
      var healthy := RegisterFound(service, listed);
      SameMap();
      InstallIsAScan(v, nodeMap, service, listed, healthy, found, Creation(entries));
      InstalledKeeps(v.(nodeMap := nodeMap), service, healthy, Creation(entries)(service));
      UpdateService(service, healthy, entries(service));
    }

    method ForgetNode(service: string, node: string)
      requires Valid()
      modifies `services, `unhealthy, `nodeMap, repr
      ensures Valid() && View() == Gone(old(View()), service, node)
    {
      hide Removed, RemovedFromUnhealthy, Valid;
      RemoveNodeUnsafe(node);
      RemoveFromUnhealthyUnsafe(service, node);
    }

    /** Of a service's `nodes`, those not in `keep` are forgotten. */
    method ForgetMissing(service: string, nodes: seq<string>, keep: set<string>)
      requires Valid() && Ok(View()) && forall p <- nodes :: OwnerOf(p) == service
      modifies `services, `unhealthy, `nodeMap, repr
      ensures Valid() && Forgotten(old(View()), View(), Members(nodes) - keep)
    {
      hide Valid, Forgotten, OwnerOf, Gone, Members;
      hide View;
      ghost var v := View();
      ForgetsNothing(v);
      assert Members(nodes[..0]) - keep == {};
      for i := 0 to |nodes|
        invariant Valid() && Forgotten(v, View(), Members(nodes[..i]) - keep)
      {
        ghost var lost := Members(nodes[..i]) - keep;
        MembersNext(nodes, i);
        if nodes[i] !in keep {
          ForgetsNext(v, View(), lost, nodes[i]);
          ForgetNode(service, nodes[i]);
          assert Members(nodes[..i + 1]) - keep == lost + {nodes[i]};
        } else {
          assert Members(nodes[..i + 1]) - keep == lost;
        }
      }
      assert nodes[..|nodes|] == nodes;
    }

    /** The unhealthy sets list, under its service, exactly what is set aside. */
    lemma AsideListed()
      requires Valid() && Ok(View())
      ensures forall s | s in unhealthy ::
                Distinct(unhealthy[s].nodes) && forall p <- unhealthy[s].nodes :: OwnerOf(p) == s && Down(View(), p)
      ensures forall p | Down(View(), p) :: OwnerOf(p) in unhealthy && p in unhealthy[OwnerOf(p)].nodes
    {
      hide OwnerOf, Distinct, Inverse, NotShared, AllValid, Placed, UpToDate, ContextOk;
      forall s | s in unhealthy ensures SetOk(View().unhealthy[s], s) {
      }
    }

    lemma SetsListed(service: string)
      requires Valid() && Ok(View())
      ensures service in services ==> forall p <- services[service].nodes :: OwnerOf(p) == service
      ensures service in unhealthy ==> forall p <- unhealthy[service].nodes :: OwnerOf(p) == service
      ensures forall p | OwnerOf(p) == service && Up(View(), p) :: service in services && p in services[service].nodes
      ensures forall p | OwnerOf(p) == service && Down(View(), p) ::
              service in unhealthy && p in unhealthy[service].nodes
    {
      hide OwnerOf, Distinct, Inverse, NotShared, AllValid, Placed, UpToDate, ContextOk;
      assert service in services ==> SetOk(View().services[service], service);
      assert service in unhealthy ==> SetOk(View().unhealthy[service], service);
    }

    /** The first half of a service scan: what is not on disk any more is forgotten, first
        among the serving nodes, then among those set aside. */
    method TrimService(service: string, keep: set<string>)
      requires Valid() && Ok(View())
      modifies `services, `unhealthy, `nodeMap, repr
      ensures Valid() && Trimmed(old(View()), View(), iset{service}, keep)
      ensures forall p | OwnerOf(p) == service && p !in keep :: !Down(View(), p)
    {
      hide Valid, Ok, OwnerOf, Gone, Forgotten, Trimmed, Up, Down, Members;
      hide View;
      ghost var v := View();
      ghost var lost, lost' := {}, {};
      SetsListed(service);
      ForgetsNothing(v);
      if service in services {
        var nodes := services[service].nodes;
        lost := Members(nodes) - keep;
        ForgetMissing(service, nodes, keep);
      }
      ghost var a := View();
      ForgottenOk(v, a, lost);
      SetsListed(service);
      ForgetsNothing(a);
      if service in unhealthy {
        var nodes := unhealthy[service].nodes;
        lost' := Members(nodes) - keep;
        ForgetMissing(service, nodes, keep);
      }
      NothingLeft(v, a, View(), service, keep, lost, lost');
      ForgetsBoth(v, a, View(), lost, lost');
      ForgettingTrims(v, View(), lost + lost', iset{service}, keep);
    }

    /** The nodes a service now has on disk. */
    method ApplyServiceScan(service: string, discovered: seq<string>, entries: string -> set<string>)
      requires Sound()
      requires Distinct(discovered) && forall p <- discovered :: OwnerOf(p) == service
      modifies `services, `unhealthy, `nodeMap, `repr, repr
      ensures Sound() && fresh(repr - old(repr))
      ensures Scanned(old(View()), View(), iset{service}, Members(discovered), Creation(entries))
      ensures forall s | s in View().services && s !in old(View()).services ::
                View().services[s].strategy == StrategyAtCreation(entries(s))
      ensures forall p | p in nodeMap :: nodeMap[p].forwarder.weight == WeightOf(p)
      ensures forall p | OwnerOf(p) == service && p !in discovered :: !Down(View(), p)
      ensures forall p | p in nodeMap && p !in old(nodeMap) :: fresh(nodeMap[p].forwarder)
    {
      hide Valid, Ok, Pending, Scanned, Trimmed, Members, OwnerOf, WeightOf, Distinct, Down, Kept;
      hide View;
      ghost var v := View();
      var keep := Members(discovered);
      SameMap();
      TrimService(service, keep);
      ghost var a := View();
      SameMap();
      TrimmedOk(v, a, iset{service}, keep);
      if |discovered| == 0 {
        assert keep == {};
        EmptyScan(v, a, service, Creation(entries));
        DropService(service);
      } else {
        ServiceKept(a, service, keep);
        Install(service, discovered, entries, keep);
        TrimThenInstall(v, a, View(), iset{service}, iset{service}, keep, Creation(entries));
        forall p ensures Down(View(), p) == Down(a, p) {
          SameUnhealthy(a, View(), p);
        }
      }
      SameMap();
      ScannedOk(v, View(), iset{service}, keep, Creation(entries));
      NewSetsCreated(v, View(), iset{service}, keep, entries);
      ScannedSafe(v, View(), failures, iset{service}, keep, Creation(entries));
      OwnPaths(View());
    }

    /** The registered nodes that no service's directory holds any more are forgotten. */
    method TrimAll(byService: map<string, set<string>>)
      requires Valid() && Ok(View())
      modifies `services, `unhealthy, `nodeMap, repr
      ensures Valid() && Trimmed(old(View()), View(), Everything(), Discovered(byService))
      ensures forall p | p !in Discovered(byService) :: Down(View(), p) <==> Down(old(View()), p) && p !in old(nodeMap)
    {
      hide Valid, Ok, OwnerOf, Gone, Forgotten, Trimmed, Down, Discovered;
      hide View;
      ghost var v := View();
      ghost var lost := {};
      var todo := nodeMap.Keys;
      SameMap();
      ForgetsNothing(v);
      while todo != {}
        invariant Valid() && Forgotten(v, View(), lost)
        invariant todo <= v.nodeMap.Keys && lost !! todo
        invariant forall p :: p in lost <==> p in v.nodeMap && p !in todo && p !in Discovered(byService)
        decreases |todo|
      {
        var path :| path in todo;
        TrimOne(byService, path, v, lost);
        lost := lost + if path in Discovered(byService) then {} else {path};
        todo := todo - {path};
      }
      EverythingKept(Discovered(byService));
      ForgottenLeft(v, View(), lost, Discovered(byService));
      ForgettingTrims(v, View(), lost, Everything(), Discovered(byService));
    }

    /** A registered node is forgotten if its service's directory does not hold it. */
    method TrimOne(byService: map<string, set<string>>, path: string, ghost v: RegistryView, ghost lost: set<string>)
      requires Valid() && Ok(v) && Forgotten(v, View(), lost) && path in v.nodeMap && path !in lost
      modifies `services, `unhealthy, `nodeMap, repr
      ensures Valid() && Forgotten(v, View(), lost + if path in Discovered(byService) then {} else {path})
    {
      hide Valid, Ok, OwnerOf, Gone, Forgotten, Down, Discovered;
      hide View;
      SameMap();
      ForgottenMap(v, View(), lost, path);
      OwnPaths(v);
      DiscoveredIff(byService, path);
      var service := nodeMap[path].serviceName;
      if !(service in byService && path in byService[service]) {
        ForgetsNext(v, View(), lost, path);
        ForgetNode(service, path);
      } else {
        assert lost + {} == lost;
      }
    }

    /** Everything on disk, by service. */
    method ApplyFullScan(byService: map<string, set<string>>, entries: string -> set<string>)
      requires Sound() && FlatLayout(byService)
      modifies `services, `unhealthy, `nodeMap, `repr, repr
      ensures Sound() && fresh(repr - old(repr))
      ensures Scanned(old(View()), View(), Everything(), Discovered(byService), Creation(entries))
      ensures forall s | s in View().services && s !in old(View()).services ::
                View().services[s].strategy == StrategyAtCreation(entries(s))
      ensures forall p | p in nodeMap :: nodeMap[p].forwarder.weight == WeightOf(p)
      ensures forall p | p !in Discovered(byService) :: Down(View(), p) <==> Down(old(View()), p) && p !in old(nodeMap)
      ensures forall p | p in nodeMap && p !in old(nodeMap) :: fresh(nodeMap[p].forwarder)
    {
      hide Valid, Ok, Pending, Scanned, Trimmed, OwnerOf, WeightOf, Down, Kept, Discovered, FlatLayout;
      hide View;
      ghost var v, found := View(), Discovered(byService);
      SameMap();
      TrimAll(byService);
      ghost var a := View();
      SameMap();
      EverythingKept(found);
      TrimmedOk(v, a, Everything(), found);
      InstallAll(byService, entries);
      DiscoveredOwners(byService);
      TrimThenInstall(v, a, View(), Everything(), Finished(byService, {}), found, Creation(entries));
      forall p ensures Down(View(), p) == Down(a, p) {
        SameUnhealthy(a, View(), p);
      }
      SameMap();
      ScannedOk(v, View(), Everything(), found, Creation(entries));
      NewSetsCreated(v, View(), Everything(), found, entries);
      ScannedSafe(v, View(), failures, Everything(), found, Creation(entries));
      OwnPaths(View());
    }

    /** The second half of a full scan: every service found is installed. */
    method InstallAll(byService: map<string, set<string>>, entries: string -> set<string>)
      requires Valid() && Ok(View()) && FlatLayout(byService)
      requires forall p | p in nodeMap :: p in Discovered(byService)
      modifies `services, `nodeMap, `repr, repr
      ensures Valid() && fresh(repr - old(repr))
      ensures Scanned(old(View()), View(), Finished(byService, {}), Discovered(byService), Creation(entries))
      ensures View().unhealthy == old(View()).unhealthy && NewUnfailed(old(nodeMap), nodeMap)
      ensures forall p | p in nodeMap && p !in old(nodeMap) :: fresh(nodeMap[p].forwarder)
    {
      hide Valid, Ok, Scanned, OwnerOf, Distinct, Discovered, FlatLayout, Finished;
      hide View;
      ghost var a, found := View(), Discovered(byService);
      SameMap();
      ScanOfNothing(a, found, Creation(entries));
      var todo := byService.Keys;
      NothingFinished(byService);
      while todo != {}
        invariant Valid() && fresh(repr - old(repr)) && View().unhealthy == a.unhealthy
                  && NewUnfailed(a.nodeMap, nodeMap)
        invariant Scanned(a, View(), Finished(byService, todo), found, Creation(entries))
        invariant forall p | p in nodeMap && p !in old(nodeMap) :: fresh(nodeMap[p].forwarder)
        invariant todo <= byService.Keys
        decreases |todo|
      {
        var service :| service in todo;
        ghost var b := View();
        SameMap();
        DiscoveredOf(byService, service);
        KeptNodes(a, b, Finished(byService, todo), found, Creation(entries));
        var listed := InSomeOrder(byService[service]);
        Install(service, listed, entries, found);
        SameMap();
        FinishedNext(byService, todo, service);
        ScansCompose(a, b, View(), Finished(byService, todo), iset{service}, found, Creation(entries));
        ScannedOk(b, View(), iset{service}, found, Creation(entries));
        NewerUnfailed(a.nodeMap, b.nodeMap, nodeMap);
        todo := todo - {service};
      }
    }

    ghost function Balancers(service: string): set<object>
      reads `services, if service in services then {services[service]} else {}
    {
      if service !in services then {}
      else
        (if services[service].roundRobin == null then {} else {services[service].roundRobin})
        + (if services[service].leastInFlight == null then {} else {services[service].leastInFlight})
    }

    /** How far the balancer of the service's strategy has turned. */
    ghost function Cursor(service: string): uint32
      reads `services, if service in services then {services[service]} else {}, Balancers(service)
    {
      if service !in services then 0
      else
        var s := services[service];
        match s.strategy
        case RoundRobinStrategy => if s.roundRobin == null then 0 else s.roundRobin.cursor
        case _ => if s.leastInFlight == null then 0 else s.leastInFlight.cursor
    }

    /** The forwarders to try for a request: those of the list kept for the service's
        strategy.  Under round robin they are that list from one place further on than the last
        time; under least in flight they stand by load, ties as in that rotation; under two
        choices the two drawn stand in front, the less loaded first, and the others follow in
        order.  `load` is a snapshot of the loads, `first` and `second` are the two random draws. */
    method GetForwarders(service: string, load: Forwarder -> int, first: nat -> nat, second: nat -> nat)
      returns (result: seq<Forwarder>)
      requires Sound() && forall n: nat | n > 0 :: first(n) < n && second(n) < n
      modifies Balancers(service)
      ensures Sound() && View() == old(View())
      ensures multiset(result) == multiset(ListFor(View(), service))
      ensures service !in services ==> result == []
      ensures service in services ==>
        var list := ListFor(View(), service);
        && list != []
        && match services[service].strategy
           case RoundRobinStrategy =>
             Cursor(service) == Next(old(Cursor(service))) && result == Rotated(list, Cursor(service) % |list|)
           case LeastInFlightStrategy =>
             && Cursor(service) == Next(old(Cursor(service)))
             && (forall i, j :: 0 <= i < j < |result| ==> load(result[i]) <= load(result[j]))
             && forall f, g | f in list && g in list && load(f) == load(g) ::
                  Before(result, f, g) <==> Before(Rotated(list, Cursor(service) % |list|), f, g)
           case P2CStrategy =>
             && Cursor(service) == old(Cursor(service))
             && (|list| == 1 ==> result == list)
             && (|list| > 1 ==> DrawnFirst(list, load, first(|list|), second(|list| - 1), result))
    {
      hide Ok, Down, Pending, Valid, Schedule, Resolved, OwnerOf, WeightOf, Before, ListFor, NothingLost, DrawnFirst;
      hide View, Cursor;
      SetShown(service);
      if service in services {
        ListNotEmpty(View(), service);
      }
      if service !in services || |services[service].nodes| == 0 {
        ListOfNone(View(), service);
        return [];
      }
      match services[service].strategy
      case LeastInFlightStrategy =>
        result := GetLeastLoaded(service, load);
      case P2CStrategy =>
        result := GetDrawn(service, load, first, second);
      case RoundRobinStrategy =>
        result := GetInTurn(service);
    }

    method GetInTurn(service: string) returns (result: seq<Forwarder>)
      requires Sound() && service in services && services[service].strategy.RoundRobinStrategy?
      modifies Balancers(service)
      ensures Sound() && View() == old(View()) && services[service].strategy == old(services[service].strategy)
      ensures var list := ListFor(View(), service);
              && list != [] && multiset(result) == multiset(list)
              && Cursor(service) == Next(old(Cursor(service))) && result == Rotated(list, Cursor(service) % |list|)
    {
      hide Ok, Down, Pending, Valid, Schedule, Resolved, OwnerOf, WeightOf;
      hide View;
      ghost var v := View();
      SetShown(service);
      BalancerBuilt(v, service);
      ListNotEmpty(v, service);
      result := services[service].roundRobin.Get();
      assert View() == v;
    }

    method GetLeastLoaded(service: string, load: Forwarder -> int) returns (result: seq<Forwarder>)
      requires Sound() && service in services && services[service].strategy.LeastInFlightStrategy?
      modifies Balancers(service)
      ensures Sound() && View() == old(View()) && services[service].strategy == old(services[service].strategy)
      ensures var list := ListFor(View(), service);
              && list != [] && multiset(result) == multiset(list)
              && Cursor(service) == Next(old(Cursor(service)))
              && (forall i, j :: 0 <= i < j < |result| ==> load(result[i]) <= load(result[j]))
              && forall f, g | f in list && g in list && load(f) == load(g) ::
                   Before(result, f, g) <==> Before(Rotated(list, Cursor(service) % |list|), f, g)
    {
      hide Ok, Down, Pending, Valid, Schedule, Resolved, OwnerOf, WeightOf, Before, StablySorted;
      hide View;
      ghost var v := View();
      SetShown(service);
      BalancerBuilt(v, service);
      ListNotEmpty(v, service);
      result := services[service].leastInFlight.Get(load);
      assert View() == v;
      ghost var rotated := Rotated(ListFor(v, service), Cursor(service) % |ListFor(v, service)|);
      SortedByLoad(result, rotated, load);
    }

    method GetDrawn(service: string, load: Forwarder -> int, first: nat -> nat, second: nat -> nat)
      returns (result: seq<Forwarder>)
      requires Sound() && service in services && services[service].strategy.P2CStrategy?
      requires forall n: nat | n > 0 :: first(n) < n && second(n) < n
      modifies Balancers(service)
      ensures Sound() && View() == old(View()) && services[service].strategy == old(services[service].strategy)
      ensures var list := ListFor(View(), service);
              && list != [] && multiset(result) == multiset(list) && Cursor(service) == old(Cursor(service))
              && (|list| == 1 ==> result == list)
              && (|list| > 1 ==> DrawnFirst(list, load, first(|list|), second(|list| - 1), result))
    {
      hide Ok, Down, Pending, Valid, Schedule, Resolved, OwnerOf, WeightOf, Without;
      hide View;
      ghost var v := View();
      SetShown(service);
      BalancerBuilt(v, service);
      ListNotEmpty(v, service);
      var ss := services[service];
      var n := |ss.leastInFlight.forwarders|;
      var i, j := if n > 0 then first(n) else 0, if n > 1 then second(n - 1) else 0;
      result := ss.leastInFlight.GetP2C(load, i, j);
      assert View() == v;
      if n > 1 {
        var j' := if j >= i then j + 1 else j;
        OthersInOrder(ListFor(v, service), i, j');
        assert result[..2][0] == result[0] && result[..2][1] == result[1];
      } else {
        OnlyOne(result, ListFor(v, service));
      }
    }

    lemma ServicesShown()
      requires Valid()
      ensures View().services.Keys == services.Keys
    {
    }

    lemma SetShown(service: string)
      requires Valid()
      ensures View().nodeMap == nodeMap
      ensures service in services <==> service in View().services
      ensures service in services ==> View().services[service] == services[service].View()
    {
    }
  }

  /** The strategy with which a service's set is created, given what lies in its directory. */
  function Creation(entries: string -> set<string>): string -> Strategy {
    s => StrategyAtCreation(entries(s))
  }

  lemma NewSetsCreated(v: RegistryView, v': RegistryView, scope: iset<string>, found: set<string>,
                       entries: string -> set<string>)
    requires Scanned(v, v', scope, found, Creation(entries))
    ensures forall s | s in v'.services && s !in v.services ::
              v'.services[s].strategy == StrategyAtCreation(entries(s))
  {
    hide Ok, OwnerOf, Down, Survives, Kept;
  }

  /** A service without anything on disk is left without a set. */
  lemma EmptyScan(v: RegistryView, a: RegistryView, service: string, created: string -> Strategy)
    requires Ok(v) && Trimmed(v, a, iset{service}, {})
    ensures a.(services := a.services - {service}) == a
    ensures Scanned(v, a, iset{service}, {}, created)
  {
    hide OwnerOf, Shape, Up, Down, Scanned;
    ScanOfNothing(a, {}, created);
    TrimThenInstall(v, a, a, iset{service}, iset{}, {}, created);
    ServingIff(a, service);
    assert a.services - {service} == a.services;
  }

  /** Every path listed under a service lies in that service's directory. */
  ghost predicate FlatLayout(byService: map<string, set<string>>) {
    forall s | s in byService :: forall p <- byService[s] :: OwnerOf(p) == s
  }

  /** All paths found, whatever their service. */
  ghost function Discovered(byService: map<string, set<string>>): set<string> {
    set s, p | s in byService && p in byService[s] && OwnerOf(p) == s :: p
  }

  lemma DiscoveredIff(byService: map<string, set<string>>, p: string)
    ensures p in Discovered(byService) <==> OwnerOf(p) in byService && p in byService[OwnerOf(p)]
  {
    hide OwnerOf;
  }

  lemma DiscoveredOf(byService: map<string, set<string>>, service: string)
    requires FlatLayout(byService) && service in byService
    ensures forall p <- byService[service] :: OwnerOf(p) == service
    ensures forall p | OwnerOf(p) == service :: p in byService[service] <==> p in Discovered(byService)
  {
    hide OwnerOf, Discovered;
    forall p | OwnerOf(p) == service ensures p in byService[service] <==> p in Discovered(byService) {
      DiscoveredIff(byService, p);
    }
  }

  ghost function Finished(byService: map<string, set<string>>, todo: set<string>): iset<string> {
    iset s | s in byService && s !in todo
  }

  lemma NothingFinished(byService: map<string, set<string>>)
    ensures Finished(byService, byService.Keys) == iset{}
  {
  }

  lemma FinishedNext(byService: map<string, set<string>>, todo: set<string>, service: string)
    requires service in todo && todo <= byService.Keys
    ensures Finished(byService, todo - {service}) == Finished(byService, todo) + iset{service}
  {
  }

  lemma NewerUnfailed(a: map<string, NodeContext>, b: map<string, NodeContext>, c: map<string, NodeContext>)
    requires NewUnfailed(a, b) && NewUnfailed(b, c)
    requires forall p | p in b && p in c :: c[p] == b[p]
    ensures NewUnfailed(a, c)
  {
  }

  lemma DiscoveredOwners(byService: map<string, set<string>>)
    ensures Finished(byService, {}) <= Everything()
    ensures forall p <- Discovered(byService) :: OwnerOf(p) in Finished(byService, {})
  {
    hide OwnerOf, Discovered;
    forall p <- Discovered(byService) ensures OwnerOf(p) in Finished(byService, {}) {
      DiscoveredIff(byService, p);
    }
  }

  lemma EverythingKept(found: set<string>)
    ensures forall p :: Kept(p, Everything(), found) <==> p in found
  {
    hide OwnerOf;
  }

  lemma ForgottenMap(v: RegistryView, a: RegistryView, lost: set<string>, p: string)
    requires Forgotten(v, a, lost)
    ensures Ok(a) && (p in v.nodeMap && p !in lost ==> p in a.nodeMap && a.nodeMap[p] == v.nodeMap[p])
  {
  }

  lemma ForgottenLeft(v: RegistryView, a: RegistryView, lost: set<string>, found: set<string>)
    requires Forgotten(v, a, lost) && forall p :: p in lost <==> p in v.nodeMap && p !in found
    ensures forall p | p in a.nodeMap :: p in found
    ensures forall p | p !in found :: Down(a, p) <==> Down(v, p) && p !in v.nodeMap
  {
    hide Ok, Down;
  }

  /** Once everything missing is forgotten, all that is known was found. */
  lemma KeptNodes(a: RegistryView, b: RegistryView, done: iset<string>, found: set<string>, created: string -> Strategy)
    requires Scanned(a, b, done, found, created) && forall p | p in a.nodeMap :: p in found
    ensures Ok(b) && forall p | p in b.nodeMap :: p in found
  {
    hide Ok, OwnerOf, Down, StrategiesAfter;
  }

  /** The iteration order of a set is arbitrary. */
  method InSomeOrder(s: set<string>) returns (listed: seq<string>)
    ensures Distinct(listed) && forall p :: p in listed <==> p in s
  {
    listed := [];
    var todo := s;
    while todo != {}
      invariant todo <= s && Distinct(listed) && forall p :: p in listed <==> p in s && p !in todo
      decreases |todo|
    {
      var p :| p in todo;
      listed := listed + [p];
      todo := todo - {p};
    }
  }

  /** Of the places drawn, `i` and then `j` of those left, the less loaded is first, the other
      second, and the rest of the list follows. */
  ghost predicate DrawnFirst(list: seq<Forwarder>, load: Forwarder -> int, i: nat, j: nat, result: seq<Forwarder>)
    requires i < |list| && j < |list| - 1
  {
    var j' := if j >= i then j + 1 else j;
    var low, high := if i < j' then i else j', if i < j' then j' else i;
    && |result| == |list|
    && (if load(list[j']) < load(list[i]) then result[0] == list[j'] && result[1] == list[i]
        else result[0] == list[i] && result[1] == list[j'])
    && result[2..] == list[..low] + list[low + 1..high] + list[high + 1..]
  }

  lemma OthersInOrder(list: seq<Forwarder>, i: nat, j: nat)
    requires i < |list| && j < |list| && i != j
    ensures var low, high := if i < j then i else j, if i < j then j else i;
            Without(list, i, j) == list[..low] + list[low + 1..high] + list[high + 1..]
  {
    WithoutSwaps(list, i, j);
    WithoutIs(list, if i < j then i else j, if i < j then j else i);
  }

  lemma OnlyOne(a: seq<Forwarder>, b: seq<Forwarder>)
    requires multiset(a) == multiset(b) && |b| == 1
    ensures a == b
  {
    assert |multiset(a)| == |a| && |multiset(b)| == |b|;
    assert a[0] in multiset(b);
  }

  lemma SortedByLoad(r: seq<Forwarder>, s: seq<Forwarder>, load: Forwarder -> int)
    requires StablySorted(r, s, load)
    ensures forall i, j :: 0 <= i < j < |r| ==> load(r[i]) <= load(r[j])
    ensures forall f, g | f in s && g in s && load(f) == load(g) :: Before(r, f, g) <==> Before(s, f, g)
  {
    hide Before;
    forall f, g | f in s && g in s && load(f) == load(g) ensures Before(r, f, g) <==> Before(s, f, g) {
      TiesKeepOrder(r, s, load, f, g);
    }
  }

  lemma ListNotEmpty(v: RegistryView, service: string)
    requires Ok(v) && service in v.services
    ensures v.services[service].nodes != [] && ListFor(v, service) != []
  {
    hide OwnerOf, WeightOf, ListFor, Down, UpToDate, Resolved, Occurs;
    assert SetOk(v.services[service], service);
    var p := v.services[service].nodes[0];
    assert Up(v, p);
    hide Shape;
    ServingTurns(v, service, p);
    OccursSomewhere(ListFor(v, service), v.nodeMap[p].forwarder);
  }

  lemma OccursSomewhere(s: seq<Forwarder>, f: Forwarder)
    requires Occurs(s, f) > 0
    ensures s != []
  {
  }

  /** The list kept for a service's strategy. */
  ghost function ListFor(v: RegistryView, service: string): seq<Forwarder> {
    if service !in v.services then []
    else
      var s := v.services[service];
      match s.strategy
      case RoundRobinStrategy => s.roundRobin.UnwrapOr([])
      case _ => s.leastInFlight.UnwrapOr([])
  }

  lemma BalancerBuilt(v: RegistryView, service: string)
    requires Ok(v) && service in v.services
    ensures var s := v.services[service];
            if s.strategy.RoundRobinStrategy? then s.roundRobin.Some? else s.leastInFlight.Some?
  {
    hide OwnerOf, Schedule, Resolved, Placed;
    assert UpToDate(v.services[service], v.nodeMap);
  }

  lemma ListOfNone(v: RegistryView, service: string)
    requires Ok(v) && (service !in v.services || v.services[service].nodes == [])
    ensures ListFor(v, service) == []
  {
    hide OwnerOf, Placed;
    assert service in v.services ==> SetOk(v.services[service], service);
  }

  ghost function Occurs(s: seq<Forwarder>, f: Forwarder): nat {
    multiset(s)[f]
  }

  /** How often `f` should be on the list for a request to `service`: only if it serves the
      service, and then once, or as often as its weight says under round robin. */
  ghost function Turns(v: RegistryView, service: string, f: Forwarder): nat {
    if !(f.socketPath in v.nodeMap && v.nodeMap[f.socketPath].forwarder == f && OwnerOf(f.socketPath) == service
         && Up(v, f.socketPath)) then 0
    else if v.services[service].strategy.RoundRobinStrategy? then f.weight
    else 1
  }

  /** The list for a request holds exactly the registered nodes of the service that are not
      set aside, each by its turns. */
  lemma ListServes(v: RegistryView, service: string, f: Forwarder)
    requires Ok(v)
    ensures Occurs(ListFor(v, service), f) == Turns(v, service, f)
    ensures Turns(v, service, f) > 0 <==>
      var p := f.socketPath;
      p in v.nodeMap && v.nodeMap[p].forwarder == f && OwnerOf(p) == service && !Down(v, p)
  {
    hide OwnerOf, Schedule, Resolved, Shape, Down;
    assert Up(v, f.socketPath) <==> f.socketPath in v.nodeMap && !Down(v, f.socketPath);
    if service in v.services {
      ListBuilt(v, service);
      ResolvedTurns(v, service, f);
    }
  }

  /** A serving node is on the list once, or under round robin as often as its socket asks for. */
  lemma ServingTurns(v: RegistryView, service: string, p: string)
    requires Ok(v) && p in v.nodeMap && OwnerOf(p) == service && !Down(v, p)
    ensures service in v.services
    ensures Occurs(ListFor(v, service), v.nodeMap[p].forwarder)
         == if v.services[service].strategy.RoundRobinStrategy? then WeightOf(p) else 1
  {
    hide OwnerOf, WeightOf, ListFor, Shape, Down, Occurs;
    OwnPaths(v);
    assert Up(v, p);
    ListServes(v, service, v.nodeMap[p].forwarder);
  }

  lemma ListBuilt(v: RegistryView, service: string)
    requires Ok(v) && service in v.services
    ensures var s := v.services[service];
            ListFor(v, service) == (var forwarders := Resolved(s.nodes, v.nodeMap);
                                    if s.strategy.RoundRobinStrategy? then Schedule(forwarders) else forwarders)
  {
    hide OwnerOf, Schedule, Resolved, Placed;
    assert UpToDate(v.services[service], v.nodeMap);
  }

  lemma ResolvedTurns(v: RegistryView, service: string, f: Forwarder)
    requires Ok(v) && service in v.services
    ensures var s := v.services[service];
            var forwarders := Resolved(s.nodes, v.nodeMap);
            && Occurs(forwarders, f) == (if f in forwarders then 1 else 0)
            && Occurs(Schedule(forwarders), f) == (if f in forwarders then f.weight else 0)
            && Turns(v, service, f) == if f !in forwarders then 0
                                       else if s.strategy.RoundRobinStrategy? then f.weight else 1
  {
    hide OwnerOf, Schedule, Resolved, UpToDate;
    var s := v.services[service];
    var forwarders := Resolved(s.nodes, v.nodeMap);
    assert SetOk(s, service);
    forall p <- s.nodes ensures p in v.nodeMap && v.nodeMap[p].forwarder.socketPath == p {
      ServingSet(v, service, p);
      assert Up(v, p) && ContextOk(v.nodeMap[p], p);
    }
    ResolvedDistinct(s.nodes, v.nodeMap);
    ResolvedMember(s.nodes, v.nodeMap, f);
    DistinctOnce(forwarders, f);
    ScheduleServes(forwarders, f);
    ServingSet(v, service, f.socketPath);
  }

  /** Registered nodes, each with a forwarder of its own path, resolve to as many forwarders. */
  lemma {:induction false} ResolvedDistinct(nodes: seq<string>, nodeMap: map<string, NodeContext>)
    requires Distinct(nodes) && forall p <- nodes :: p in nodeMap && nodeMap[p].forwarder.socketPath == p
    ensures Distinct(Resolved(nodes, nodeMap)) && |Resolved(nodes, nodeMap)| == |nodes|
    decreases |nodes|
  {
    if nodes != [] {
      var last := |nodes| - 1;
      ResolvedDistinct(nodes[..last], nodeMap);
      ResolvedMember(nodes[..last], nodeMap, nodeMap[nodes[last]].forwarder);
    }
  }

  lemma {:induction false} ResolvedMember(nodes: seq<string>, nodeMap: map<string, NodeContext>, f: Forwarder)
    requires forall p <- nodes :: p in nodeMap && nodeMap[p].forwarder.socketPath == p
    ensures f in Resolved(nodes, nodeMap) <==> f.socketPath in nodes && nodeMap[f.socketPath].forwarder == f
    decreases |nodes|
  {
    if nodes != [] {
      var last := |nodes| - 1;
      ResolvedMember(nodes[..last], nodeMap, f);
      assert nodes == nodes[..last] + [nodes[last]];
    }
  }

  lemma {:induction false} DistinctOnce<T>(s: seq<T>, x: T)
    requires Distinct(s)
    ensures multiset(s)[x] == if x in s then 1 else 0
    decreases |s|
  {
    if s != [] {
      var last := |s| - 1;
      DistinctOnce(s[..last], x);
      assert s == s[..last] + [s[last]];
    }
  }

  lemma ServiceKept(a: RegistryView, service: string, found: set<string>)
    requires forall p | p in a.nodeMap :: Kept(p, iset{service}, found)
    ensures forall p | p in a.nodeMap && OwnerOf(p) == service :: p in found
  {
    hide OwnerOf;
  }

  lemma InstalledKeeps(v: RegistryView, service: string, healthy: seq<string>, created: Strategy)
    ensures Installed(v, service, healthy, created).unhealthy == v.unhealthy
  {
  }

  lemma ForgottenOk(v: RegistryView, a: RegistryView, lost: set<string>)
    requires Forgotten(v, a, lost)
    ensures Ok(a)
  {
  }

  lemma TrimmedOk(v: RegistryView, a: RegistryView, scope: iset<string>, found: set<string>)
    requires Trimmed(v, a, scope, found)
    ensures Ok(a) && forall p | p in a.nodeMap :: p in v.nodeMap && Kept(p, scope, found)
  {
  }

  lemma ScannedOk(v: RegistryView, a: RegistryView, scope: iset<string>, found: set<string>,
                  created: string -> Strategy)
    requires Scanned(v, a, scope, found, created)
    ensures Ok(a) && forall p | p in v.nodeMap && p in a.nodeMap :: a.nodeMap[p] == v.nodeMap[p]
  {
  }

  /** A scan loses no failure: the nodes it keeps stay set aside, the new ones are unfailed. */
  lemma ScannedSafe(v: RegistryView, a: RegistryView, failures: seq<Failure>, scope: iset<string>, found: set<string>,
                    created: string -> Strategy)
    requires Ok(v) && Scanned(v, a, scope, found, created) && NothingLost(v, failures)
    requires NewUnfailed(v.nodeMap, a.nodeMap)
    ensures NothingLost(a, failures)
  {
    hide Ok, Down, Pending, OwnerOf, StrategiesAfter;
  }

  lemma MembersNext(nodes: seq<string>, i: nat)
    requires i < |nodes|
    ensures Members(nodes[..i + 1]) == Members(nodes[..i]) + {nodes[i]}
  {
    assert nodes[..i + 1] == nodes[..i] + [nodes[i]];
  }

  ghost predicate HealthyAmong(v: RegistryView, found: seq<string>, healthy: seq<string>) {
    Distinct(healthy) && forall p :: p in healthy <==> p in found && !Down(v, p)
  }

  lemma NoneHealthy(v: RegistryView, found: seq<string>)
    ensures HealthyAmong(v, found[..0], [])
  {
  }

  lemma HealthyNext(v: RegistryView, found: seq<string>, i: nat, healthy: seq<string>)
    requires i < |found| && Distinct(found) && HealthyAmong(v, found[..i], healthy)
    ensures HealthyAmong(v, found[..i + 1], if Down(v, found[i]) then healthy else healthy + [found[i]])
  {
    hide Down;
    assert found[..i + 1] == found[..i] + [found[i]];
    assert found[i] !in found[..i];
  }

  lemma NothingRegistered(nodeMap: map<string, NodeContext>, found: seq<string>)
    ensures Registers(nodeMap, nodeMap, found[..0]) && NewUnfailed(nodeMap, nodeMap)
  {
  }

  lemma OneRegistered(nodeMap: map<string, NodeContext>, node: string, context: NodeContext)
    requires node !in nodeMap && ContextOk(context, node)
    ensures Registers(nodeMap, nodeMap[node := context], [node])
  {
    hide ContextOk;
  }

  lemma RegisteredWeights(a: map<string, NodeContext>, b: map<string, NodeContext>, found: seq<string>)
    requires Registers(a, b, found)
    ensures forall p | p in b && p !in a :: b[p].forwarder.weight == WeightOf(p)
  {
    forall p | p in b && p !in a ensures ContextOk(b[p], p) {
    }
  }

  lemma NoneRegistered(nodeMap: map<string, NodeContext>, node: string)
    requires node in nodeMap
    ensures Registers(nodeMap, nodeMap, [node])
  {
  }

  lemma RegisteredKeeps(a: map<string, NodeContext>, b: map<string, NodeContext>, node: string)
    requires Registers(a, b, [node])
    ensures forall p | p in a :: p in b && b[p] == a[p]
  {
  }

  lemma RegisteredNext(a: map<string, NodeContext>, b: map<string, NodeContext>, c: map<string, NodeContext>,
                       found: seq<string>, i: nat)
    requires i < |found| && Registers(a, b, found[..i]) && Registers(b, c, [found[i]])
    requires NewUnfailed(a, b) && NewUnfailed(b, c)
    ensures Registers(a, c, found[..i + 1]) && NewUnfailed(a, c)
  {
    hide OwnerOf, ContextOk;
    assert found[..i + 1] == found[..i] + [found[i]];
  }

  /** A registered node whose forwarder has failed is set aside, or a report about it has
      been sent and not yet handled. */
  ghost predicate NothingLost(v: RegistryView, failures: seq<Failure>)
    reads set p | p in v.nodeMap :: v.nodeMap[p].forwarder
  {
    forall p | p in v.nodeMap && v.nodeMap[p].forwarder.isFailed :: Down(v, p) || Pending(failures, p)
  }

  /** Handling a report loses nothing. */
  lemma ReportedSafe(v: RegistryView, failures: seq<Failure>)
    requires Ok(v) && failures != [] && NothingLost(v, failures)
    ensures NothingLost(Reported(v, failures[0].socketPath, failures[0].refused), failures[1..])
  {
    hide Ok, Down, Pending, Reported;
    ReportedEffect(v, failures[0].socketPath, failures[0].refused);
    PendingBefore(failures[0], failures[1..]);
    assert failures == [failures[0]] + failures[1..];
  }

  /** A retry loses nothing, given that a reconnected node's flag is cleared. */
  lemma RetriedSafe(v: RegistryView, failures: seq<Failure>, p: string, outcome: Reconnection)
    requires Ok(v) && NothingLost(v, failures)
    requires p in v.nodeMap && outcome == Reconnected ==> !v.nodeMap[p].forwarder.isFailed
    ensures NothingLost(Retried(v, OwnerOf(p), p, outcome), failures)
  {
    hide Ok, Down, Pending, Retried, OwnerOf;
    RetriedEffect(v, p, outcome);
  }

  /** A promoted node serves, whatever else is known of it. */
  lemma PromotedServes(v: RegistryView, p: string)
    requires Ok(v)
    ensures var v' := Promoted(v, OwnerOf(p), p); Up(v', p) && !Down(v', p) && v'.nodeMap == v.nodeMap
  {
    hide OwnerOf, RemovedFromUnhealthy, Rebuilt, UpToDate, Shape, Up, Down, Added, ContextOk, SetOk;
    var service, v1 := OwnerOf(p), RemovedFromUnhealthy(v, OwnerOf(p), p);
    UnhealthyEffect(v, p);
    var s := if service in v1.services then v1.services[service] else NO_SET;
    var s' := if p in s.nodes then s else Rebuilt(Added(s, p), v1.nodeMap);
    PutMembers(v1, service, s', p);
    PromotedMembers(v1, p, p);
    assert Promoted(v, service, p) == Put(v1, service, s');
  }

  /** A promotion keeps the invariant exactly when the node is registered. */
  lemma PromotedOkIff(v: RegistryView, p: string)
    requires Ok(v)
    ensures Ok(Promoted(v, OwnerOf(p), p)) <==> p in v.nodeMap
  {
    hide OwnerOf, Promoted, Shape, Up, Down;
    PromotedServes(v, p);
    if p in v.nodeMap {
      PromotedEffect(v, p);
    }
  }

  lemma PromotedSoundIff(v: RegistryView, failures: seq<Failure>, p: string)
    requires Ok(v) && NothingLost(v, failures)
    ensures var v' := Promoted(v, OwnerOf(p), p);
            Ok(v') && NothingLost(v', failures) <==>
              p in v.nodeMap && (v.nodeMap[p].forwarder.isFailed ==> Pending(failures, p))
  {
    hide OwnerOf, Promoted, Ok, Up, Down, Pending;
    PromotedOkIff(v, p);
    PromotedServes(v, p);
    if p in v.nodeMap {
      PromotedEffect(v, p);
    }
  }

  /** The forwarders that `b` has and `a` has not are unfailed. */
  ghost predicate NewUnfailed(a: map<string, NodeContext>, b: map<string, NodeContext>)
    reads set p | p in b :: b[p].forwarder
  {
    forall p | p in b && p !in a :: !b[p].forwarder.isFailed
  }

  function Retried(v: RegistryView, service: string, p: string, outcome: Reconnection): RegistryView {
    if p !in v.nodeMap then RemovedFromUnhealthy(v, service, p)
    else
      match outcome
      case Reconnected => Promoted(v, service, p)
      case SocketGone => Gone(v, service, p)
      case StillFailing => v
  }

  /** After a retry of everything: what reconnected serves, what is gone is forgotten, what
      still fails stays set aside, what was not registered is dropped, and the rest is as it was. */
  ghost predicate RetriedAll(v: RegistryView, v': RegistryView, outcome: string -> Reconnection) {
    && (forall q :: q in v'.nodeMap <==> q in v.nodeMap && !(Down(v, q) && outcome(q) == SocketGone))
    && (forall q | q in v'.nodeMap :: v'.nodeMap[q] == v.nodeMap[q])
    && (forall q :: Down(v', q) <==> Down(v, q) && q in v.nodeMap && outcome(q) == StillFailing)
    && (forall q :: Up(v', q) <==> Up(v, q) || (Down(v, q) && q in v.nodeMap && outcome(q) == Reconnected))
    && GrowsInTurn(v, v')
  }

  /** The same, with only the nodes of `done` tried so far. */
  ghost predicate Retrying(v: RegistryView, v': RegistryView, done: set<string>, outcome: string -> Reconnection) {
    && (forall q <- done :: Down(v, q))
    && (forall q :: q in v'.nodeMap <==> q in v.nodeMap && !(q in done && outcome(q) == SocketGone))
    && (forall q | q in v'.nodeMap :: v'.nodeMap[q] == v.nodeMap[q])
    && (forall q :: Down(v', q) <==> Down(v, q) && (q in done ==> q in v.nodeMap && outcome(q) == StillFailing))
    && GrowsInTurn(v, v')
  }

  lemma NothingRetried(v: RegistryView, outcome: string -> Reconnection)
    ensures Retrying(v, v, {}, outcome)
  {
  }

  lemma RetryingNext(v: RegistryView, a: RegistryView, done: set<string>, p: string, outcome: string -> Reconnection)
    requires Ok(a) && Retrying(v, a, done, outcome) && p !in done && Down(v, p)
    ensures Retrying(v, Retried(a, OwnerOf(p), p, outcome(p)), done + {p}, outcome)
  {
    hide Ok, Down, Retried, OwnerOf, GrowsInTurn;
    RetriedEffect(a, p, outcome(p));
    GrowTwice(v, a, Retried(a, OwnerOf(p), p, outcome(p)));
  }

  lemma GrowTwice(v: RegistryView, a: RegistryView, b: RegistryView)
    requires GrowsInTurn(v, a) && GrowsInTurn(a, b)
    ensures GrowsInTurn(v, b)
  {
  }

  lemma AllRetried(v: RegistryView, v': RegistryView, done: set<string>, outcome: string -> Reconnection)
    requires Ok(v) && Ok(v') && Retrying(v, v', done, outcome) && forall p | Down(v, p) :: p in done
    ensures RetriedAll(v, v', outcome)
  {
    hide Shape, Up, Down;
    forall q ensures Up(v', q) <==> Up(v, q) || (Down(v, q) && q in v.nodeMap && outcome(q) == Reconnected) {
      assert Up(v, q) <==> q in v.nodeMap && !Down(v, q);
      assert Up(v', q) <==> q in v'.nodeMap && !Down(v', q);
    }
  }

  lemma ReportedEffect(v: RegistryView, p: string, refused: bool)
    requires Ok(v)
    ensures var v' := Reported(v, p, refused);
            && Ok(v')
            && (forall q | q in v'.nodeMap :: q in v.nodeMap && v'.nodeMap[q] == v.nodeMap[q])
            && (forall q :: Down(v, q) ==> Down(v', q))
            && (p in v'.nodeMap ==> Down(v', p))
  {
    hide OwnerOf, Shape, Up, Removed, MovedToUnhealthy;
    if p in v.nodeMap {
      OwnPaths(v);
      if refused {
        RemovedEffect(v, p);
        forall q ensures Down(Removed(v, p), q) == Down(v, q) {
          SameUnhealthy(v, Removed(v, p), q);
        }
      } else {
        MovedEffect(v, p);
      }
    }
  }

  /** A report about a node that is not registered changes nothing, one of a refused connection
      forgets its node, any other sets it aside. */
  lemma ReportTold(v: RegistryView, p: string, refused: bool)
    requires Ok(v)
    ensures var v' := Reported(v, p, refused);
      if p !in v.nodeMap then v' == v
      else if refused then v'.nodeMap == v.nodeMap - {p} && v'.unhealthy == v.unhealthy && KeepsStrategies(v, v')
      else
        && v'.nodeMap == v.nodeMap && KeepsStrategies(v, v')
        && forall q :: Down(v', q) <==> Down(v, q) || q == p
  {
    hide OwnerOf, Shape, Up, Removed, MovedToUnhealthy, KeepsStrategies;
    if p in v.nodeMap {
      OwnPaths(v);
      if refused {
        RemovedEffect(v, p);
      } else {
        MovedEffect(v, p);
      }
    }
  }

  lemma RemovedTwice(v: RegistryView, p: string)
    ensures Removed(Reported(v, p, true), p) == Reported(v, p, true)
  {
  }

  lemma RetriedEffect(v: RegistryView, p: string, outcome: Reconnection)
    requires Ok(v)
    ensures var v' := Retried(v, OwnerOf(p), p, outcome);
            && Ok(v')
            && (forall q | q in v'.nodeMap :: q in v.nodeMap && v'.nodeMap[q] == v.nodeMap[q])
            && (forall q | q != p :: Down(v', q) == Down(v, q))
            && (p in v.nodeMap && outcome == Reconnected ==> p in v'.nodeMap && Up(v', p))
            && (p in v'.nodeMap && outcome != Reconnected ==> v' == v)
            && (p in v'.nodeMap <==> p in v.nodeMap && outcome != SocketGone)
            && (forall q | q in v.nodeMap && q != p :: q in v'.nodeMap)
            && (Down(v', p) <==> Down(v, p) && p in v.nodeMap && outcome == StillFailing)
            && (Down(v, p) ==> GrowsInTurn(v, v'))
  {
    hide OwnerOf, Shape, Up, Down, Removed, Promoted, RemovedFromUnhealthy, Gone;
    if Down(v, p) {
      AsideGone(v, p);
      AsideDropped(v, p);
    }
    if p !in v.nodeMap {
      UnregisteredEffect(v, p);
    } else if outcome == Reconnected {
      PromotedEffect(v, p);
    } else if outcome == SocketGone {
      GoneEffect(v, p);
    }
  }

  lemma AsideDropped(v: RegistryView, p: string)
    ensures RemovedFromUnhealthy(v, OwnerOf(p), p).services == v.services
  {
  }

  lemma UnregisteredEffect(v: RegistryView, p: string)
    requires Ok(v) && p !in v.nodeMap
    ensures var v' := RemovedFromUnhealthy(v, OwnerOf(p), p);
            Ok(v') && v'.nodeMap == v.nodeMap && !Down(v', p) && forall q | q != p :: Down(v', q) == Down(v, q)
  {
    hide OwnerOf, Shape, Up, Down, RemovedFromUnhealthy;
    UnhealthyEffect(v, p);
    SameServices(v, RemovedFromUnhealthy(v, OwnerOf(p), p));
  }

  lemma PendingBefore(report: Failure, failures: seq<Failure>)
    ensures forall p :: Pending([report] + failures, p) <==> Pending(failures, p) || p == report.socketPath
  {
    assert ([report] + failures)[0] == report;
    forall p | Pending(failures, p) ensures Pending([report] + failures, p) {
      var f :| f in failures && f.socketPath == p;
      assert f in [report] + failures;
    }
  }

  ghost predicate Pending(failures: seq<Failure>, p: string) {
    exists f <- failures :: f.socketPath == p
  }

  lemma OwnPaths(v: RegistryView)
    requires Ok(v)
    ensures forall p | p in v.nodeMap ::
            && v.nodeMap[p].serviceName == OwnerOf(p) && v.nodeMap[p].forwarder.socketPath == p
            && v.nodeMap[p].forwarder.weight == WeightOf(p)
  {
    forall p | p in v.nodeMap ensures ContextOk(v.nodeMap[p], p) {
    }
  }

  lemma PendingAfter(failures: seq<Failure>, report: Failure)
    ensures forall p :: Pending(failures + [report], p) <==> Pending(failures, p) || p == report.socketPath
  {
    assert (failures + [report])[|failures|] == report;
  }

  lemma SetAlone(services: map<string, ServiceSet>, unhealthy: map<string, ServiceSet>, service: string)
    requires NotShared(services, unhealthy) && service in services
    ensures NotShared(services - {service}, unhealthy)
    ensures forall s | s in services && s != service :: services[s] != services[service]
    ensures forall s | s in unhealthy :: unhealthy[s] != services[service]
  {
  }

  lemma UnhealthyAlone(services: map<string, ServiceSet>, unhealthy: map<string, ServiceSet>, service: string)
    requires NotShared(services, unhealthy) && service in unhealthy
    ensures NotShared(services, unhealthy - {service})
    ensures forall s | s in services :: services[s] != unhealthy[service]
    ensures forall s | s in unhealthy && s != service :: unhealthy[s] != unhealthy[service]
  {
  }

  lemma UpdateTwice<K, V>(m: map<K, V>, k: K, a: V, b: V)
    ensures m[k := a][k := b] == m[k := b] && m[k := a][k] == a
  {
  }

  /** A new set joins one of the two maps. */
  lemma NewSet(services: map<string, ServiceSet>, unhealthy: map<string, ServiceSet>, service: string, ss: ServiceSet)
    requires NotShared(services, unhealthy)
    requires (forall s | s in services :: services[s] != ss) && forall s | s in unhealthy :: unhealthy[s] != ss
    ensures NotShared(services[service := ss], unhealthy) && NotShared(services, unhealthy[service := ss])
  {
  }
}
