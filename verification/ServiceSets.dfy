/** A service's node list with its index of positions and its two balancers. */
module ServiceSets {
  import opened Common
  import opened Balancing
  import opened RegistryState

  /** `positions` is the exact inverse of the list. */
  ghost predicate Inverse(nodes: seq<string>, positions: map<string, nat>) {
    && (forall n :: n in positions <==> n in nodes)
    && (forall n | n in positions :: positions[n] < |nodes| && nodes[positions[n]] == n)
  }

  lemma InverseOf(nodes: seq<string>, positions: map<string, nat>, i: nat)
    requires Distinct(nodes) && Inverse(nodes, positions) && i < |nodes|
    ensures nodes[i] in positions && positions[nodes[i]] == i
  {
    assert nodes[i] in nodes;
  }

  class ServiceSet {
    var nodes: seq<string>
    var nodePositions: map<string, nat>
    var roundRobin: RoundRobin?
    var leastInFlight: LeastInFlight?
    var strategy: Strategy

    ghost predicate Valid()
      reads this
    {
      Distinct(nodes) && Inverse(nodes, nodePositions)
    }

    ghost function View(): SetView
      reads this
    {
      SetView(nodes, strategy,
              if roundRobin == null then None else Some(roundRobin.forwarders),
              if leastInFlight == null then None else Some(leastInFlight.forwarders))
    }

    constructor (nodes: seq<string>, strategy: Strategy)
      requires Distinct(nodes)
      ensures Valid() && View() == SetView(nodes, strategy, None, None)
    {
      this.nodes, this.nodePositions, this.strategy := [], map[], strategy;
      roundRobin, leastInFlight := null, null;
      new;
      Replace(nodes);
    }

    method Replace(nodes: seq<string>)
      requires Distinct(nodes)
      modifies `nodes, `nodePositions
      ensures Valid() && View() == old(View()).(nodes := nodes)
    {
      this.nodes := nodes;
      nodePositions := map[];
      for i := 0 to |nodes|
        invariant this.nodes == nodes && Inverse(nodes[..i], nodePositions)
      {
        nodePositions := nodePositions[nodes[i] := i];
      }
    }

    method Contains(node: string) returns (found: bool)
      requires Valid()
      ensures found <==> node in nodes
    {
      found := node in nodePositions;
    }

    method HasSameNodes(nodes: seq<string>) returns (same: bool)
      requires Valid()
      ensures same == SameNodes(this.nodes, nodes)
    {
      if |nodes| != |this.nodes| {
        return false;
      }
      for i := 0 to |nodes|
        invariant forall j :: 0 <= j < i ==> nodes[j] in this.nodes
      {
        if nodes[i] !in nodePositions {
          assert nodes[i] in nodes;
          return false;
        }
      }
      return true;
    }

    method Add(node: string) returns (added: bool)
      requires Valid()
      modifies `nodes, `nodePositions
      ensures Valid() && View() == Added(old(View()), node)
      ensures added <==> node !in old(nodes)
    {
      if node in nodePositions {
        return false;
      }
      nodePositions := nodePositions[node := |nodes|];
      nodes := nodes + [node];
      return true;
    }

    method Remove(node: string) returns (removed: bool)
      requires Valid()
      modifies `nodes, `nodePositions
      ensures Valid() && View() == old(View()).(nodes := SwapRemoved(old(nodes), node))
      ensures removed <==> node in old(nodes)
    {
      hide SwapRemoved, IndexIn, Distinct, Inverse;
      PositionOf(nodes, nodePositions, node);
      if node !in nodePositions {
        return false;
      }
      RemovedInverse(nodes, nodePositions, node);
      var removedIdx := nodePositions[node];
      var lastIdx := |nodes| - 1;
      var lastNode := nodes[lastIdx];
      nodes := nodes[removedIdx := lastNode];
      nodes := nodes[..lastIdx];
      if lastNode != node {
        nodePositions := nodePositions[lastNode := removedIdx];
      }
      nodePositions := nodePositions - {node};
      return true;
    }

    /** Removes a node and, if it was there, rebuilds the balancer without it. */
    method Drop(node: string, nodeMap: map<string, NodeContext>)
      requires Valid()
      modifies this
      ensures Valid()
      ensures View() == if node !in old(nodes) then old(View())
                        else Rebuilt(old(View()).(nodes := SwapRemoved(old(nodes), node)), nodeMap)
    {
      hide SwapRemoved, Rebuilt, Distinct, Inverse;
      PositionOf(nodes, nodePositions, node);
      var removed := Remove(node);
      if removed {
        RebuildLoadBalancer(nodeMap);
      }
    }

    /** Builds the balancer of the current strategy anew. */
    method RebuildLoadBalancer(nodeMap: map<string, NodeContext>)
      requires Valid()
      modifies `roundRobin, `leastInFlight
      ensures View() == Rebuilt(old(View()), nodeMap)
    {
      var forwarders := ResolveForwarders(nodes, nodeMap);
      match strategy
      case LeastInFlightStrategy =>
        leastInFlight := new LeastInFlight(forwarders);
      case P2CStrategy =>
        leastInFlight := new LeastInFlight(forwarders);
      case RoundRobinStrategy =>
        roundRobin := NewRoundRobin(forwarders);
    }
  }

  ghost function Views(sets: map<string, ServiceSet>): (views: map<string, SetView>)
    reads set s | s in sets :: sets[s]
    ensures views.Keys == sets.Keys && forall s | s in sets :: views[s] == sets[s].View()
  {
    map s | s in sets :: sets[s].View()
  }

  ghost predicate AllValid(sets: map<string, ServiceSet>)
    reads set s | s in sets :: sets[s]
  {
    forall s | s in sets :: sets[s].Valid()
  }

  /** No two entries of the two maps share a set. */
  ghost predicate NotShared(services: map<string, ServiceSet>, unhealthy: map<string, ServiceSet>) {
    && (forall s, t | s in services && t in services && s != t :: services[s] != services[t])
    && (forall s, t | s in unhealthy && t in unhealthy && s != t :: unhealthy[s] != unhealthy[t])
    && (forall s, t | s in services && t in unhealthy :: services[s] != unhealthy[t])
  }

  /** `views` shows the sets of a map, of which only the one of `service` has changed. */
  lemma ViewsChanged(sets: map<string, ServiceSet>, views: map<string, SetView>, service: string)
    requires service in sets && sets[service].Valid() && views.Keys == sets.Keys
    requires forall s | s in sets && s != service :: sets[s].Valid() && sets[s].View() == views[s]
    ensures AllValid(sets) && Views(sets) == views[service := sets[service].View()]
  {
  }

  lemma ViewsKept(sets: map<string, ServiceSet>, views: map<string, SetView>)
    requires views.Keys == sets.Keys && forall s | s in sets :: sets[s].Valid() && sets[s].View() == views[s]
    ensures AllValid(sets) && Views(sets) == views
  {
  }

  method ResolveForwarders(nodes: seq<string>, nodeMap: map<string, NodeContext>) returns (forwarders: seq<Forwarder>)
    ensures forwarders == Resolved(nodes, nodeMap)
  {
    forwarders := [];
    for i := 0 to |nodes|
      invariant forwarders == Resolved(nodes[..i], nodeMap)
    {
      assert nodes[..i + 1][..i] == nodes[..i];
      if nodes[i] in nodeMap {
        forwarders := forwarders + [nodeMap[nodes[i]].forwarder];
      }
    }
    assert nodes[..|nodes|] == nodes;
  }

  lemma PositionOf(nodes: seq<string>, positions: map<string, nat>, node: string)
    requires Distinct(nodes) && Inverse(nodes, positions)
    ensures node in positions <==> node in nodes
    ensures node in positions ==> positions[node] < |nodes|
    ensures node !in nodes ==> SwapRemoved(nodes, node) == nodes
  {
  }

  /** The list and the index after a removal, as the code computes them. */
  lemma RemovedInverse(nodes: seq<string>, positions: map<string, nat>, node: string)
    requires Distinct(nodes) && Inverse(nodes, positions) && node in positions
    ensures positions[node] < |nodes|
    ensures var i, last := positions[node], |nodes| - 1;
            var positions' := (if nodes[last] != node then positions[nodes[last] := i] else positions) - {node};
            && SwapRemoved(nodes, node) == nodes[i := nodes[last]][..last]
            && Distinct(SwapRemoved(nodes, node)) && Inverse(SwapRemoved(nodes, node), positions')
  {
    hide SwapRemoved, IndexIn;
    var i, last := positions[node], |nodes| - 1;
    var r := nodes[i := nodes[last]][..last];
    SwapRemovedAt(nodes, node, i);
    SwapRemovedMembers(nodes, node);
    InverseOf(nodes, positions, last);
  }

  lemma SwapRemovedAt(nodes: seq<string>, node: string, i: nat)
    requires Distinct(nodes) && i < |nodes| && nodes[i] == node
    ensures SwapRemoved(nodes, node) == nodes[i := nodes[|nodes| - 1]][..|nodes| - 1]
  {
    assert IndexIn(nodes, node) == i;
  }
}
