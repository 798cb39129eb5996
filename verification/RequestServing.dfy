/** A request, from the registry's list of forwarders to the one response. */
module RequestServing {
  import opened Common
  import opened Balancing
  import opened RegistryState
  import opened SocketPaths
  import opened Registries
  import opened RetryLoop

  /** The node was on the list, and its turn found it failed or could not reach it. */
  ghost predicate TriedInVain(forwarders: seq<Forwarder>, errors: seq<Option<ForwardError>>, f: Forwarder)
    requires |errors| == |forwarders|
  {
    exists k :: 0 <= k < |forwarders| && forwarders[k] == f
      && (errors[k] == Some(NodeFailed) || errors[k] == Some(NodeUnavailable))
  }

  /** A serving node is on the list for a request to its service. */
  lemma ServingIsListed(v: RegistryView, service: string, forwarders: seq<Forwarder>, p: string)
    requires Ok(v) && multiset(forwarders) == multiset(ListFor(v, service))
    requires p in v.nodeMap && OwnerOf(p) == service && !Down(v, p)
    ensures v.nodeMap[p].forwarder in forwarders
  {
    hide Ok, OwnerOf, Down, ListFor, Turns;
    OwnPaths(v);
    var f := v.nodeMap[p].forwarder;
    ListServes(v, service, f);
    OccursIn(ListFor(v, service), forwarders, f);
  }

  lemma OccursIn(a: seq<Forwarder>, b: seq<Forwarder>, f: Forwarder)
    requires multiset(a) == multiset(b) && Occurs(a, f) > 0
    ensures f in b
  {
    assert f in multiset(b);
  }

  /** The request is served from the registry's list: by the first node that answers, exactly
      when the nodes before it had failed or could not be reached, and the request may be sent
      again after the latter.  "Service unavailable" is answered only when every serving node of
      the service was tried in vain, and whenever there is none. */
  method ServeRequest(r: Registry, x: Exchange, service: string, load: Forwarder -> int,
                      first: nat -> nat, second: nat -> nat, script: seq<Turn>)
    returns (forwarders: seq<Forwarder>, errors: seq<Option<ForwardError>>)
    requires r.Sound() && forall n: nat | n > 0 :: first(n) < n && second(n) < n
    requires x.responses == [] && x.failedDials == [] && |script| >= |ListFor(r.View(), service)|
    modifies r.Balancers(service), x, (set f | f in ListFor(r.View(), service)), Touched(script)
    ensures |x.responses| == 1
    ensures multiset(forwarders) == multiset(old(ListFor(r.View(), service)))
    ensures |forwarders| == old(|ListFor(r.View(), service)|)
    ensures var results := Results(old(FailedOf(ListFor(r.View(), service))), forwarders, script);
      && errors <= results
      && forall k | 0 <= k < |forwarders| ::
           (x.responses == [Served(forwarders[k])] && |errors| == k + 1) <==>
           AnswersAt(results, x.httpMethod, x.retryLimit, k)
    ensures x.responses[0] == ServiceUnavailable ==>
      && |errors| == |forwarders|
      && forall p | p in old(r.View()).nodeMap && OwnerOf(p) == service && !Down(old(r.View()), p) ::
           TriedInVain(forwarders, errors, old(r.View()).nodeMap[p].forwarder)
    ensures forwarders == [] ==> x.responses[0] == ServiceUnavailable
  {
    hide Ok, OwnerOf, Down, ListFor, NothingLost, TriedInVain, Registry.Valid, Registry.View, Touched;
    hide Results, AnswersAt, Times, Clears, GoesOn, Before, Rotated, DrawnFirst, Registry.Cursor;
    ghost var v := r.View();
    ghost var failed := FailedOf(ListFor(v, service));
    forwarders := r.GetForwarders(service, load, first, second);
    SameMembers(forwarders, ListFor(v, service));
    assert FailedOf(forwarders) == failed;
    errors := x.ForwardToBackend(forwarders, script);
    AllEnds(errors, Results(failed, forwarders, script), x.httpMethod, x.retryLimit);
    if x.responses[0] == ServiceUnavailable {
      AllInVain(v, service, forwarders, errors, IsSafeMethod(x.httpMethod), x.retryLimit);
    }
  }

  lemma AllInVain(v: RegistryView, service: string, forwarders: seq<Forwarder>, errors: seq<Option<ForwardError>>,
                  safe: bool, limit: Option<nat>)
    requires Ok(v) && multiset(forwarders) == multiset(ListFor(v, service))
    requires |errors| == |forwarders| && (errors == [] || GoesOn(errors, safe, limit))
    ensures forall p | p in v.nodeMap && OwnerOf(p) == service && !Down(v, p) ::
              TriedInVain(forwarders, errors, v.nodeMap[p].forwarder)
  {
    hide Ok, OwnerOf, Down, ListFor, TriedInVain;
    assert GoesOn(errors, safe, limit);
    hide GoesOn;
    forall p | p in v.nodeMap && OwnerOf(p) == service && !Down(v, p)
      ensures TriedInVain(forwarders, errors, v.nodeMap[p].forwarder)
    {
      ServingIsListed(v, service, forwarders, p);
      InVain(forwarders, errors, safe, limit, v.nodeMap[p].forwarder);
    }
  }

  lemma InVain(forwarders: seq<Forwarder>, errors: seq<Option<ForwardError>>, safe: bool, limit: Option<nat>,
               f: Forwarder)
    requires |errors| == |forwarders| && GoesOn(errors, safe, limit) && f in forwarders
    ensures TriedInVain(forwarders, errors, f)
  {
    var k :| 0 <= k < |forwarders| && forwarders[k] == f;
    GoesOnIff(errors, safe, limit);
  }

  lemma SameMembers(a: seq<Forwarder>, b: seq<Forwarder>)
    requires multiset(a) == multiset(b)
    ensures |a| == |b| && forall f :: f in a <==> f in b
  {
    assert |multiset(a)| == |a| && |multiset(b)| == |b|;
    forall f ensures f in a <==> f in b {
      assert f in multiset(a) <==> f in multiset(b);
    }
  }
}
