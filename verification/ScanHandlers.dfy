/** The two handlers a scan runs, and why their order does not matter. */
module ScanHandlers {
  import opened RegistryState
  import opened RegistryScans
  import opened StrategyMarkers
  import opened Registries

  /** The strategies asked for by the marker files found, service by service. */
  function Resolving(markers: string -> seq<string>): string -> Strategy {
    s => ResolveMarkerStrategy(markers(s))
  }

  class StrategyHandler {
    const r: Registry

    constructor (r: Registry)
      ensures this.r == r
    {
      this.r := r;
    }

    method ApplyServiceScan(service: string, markers: string -> seq<string>)
      requires r.Sound()
      modifies r.repr
      ensures r.Sound() && StrategiesSet(old(r.View()), r.View(), iset{service}, Resolving(markers))
      ensures service in r.View().services ==>
                r.View().services[service].strategy == ResolveMarkerStrategy(markers(service))
    {
      hide ResolveMarkerStrategy, Ok, Pending, StrategySet, Down;
      ghost var v := r.View();
      StrategySetEffect(v, service, ResolveMarkerStrategy(markers(service)));
      r.SetStrategy(service, ResolveMarkerStrategy(markers(service)));
      forall p ensures Down(r.View(), p) == Down(v, p) {
        SameUnhealthy(v, r.View(), p);
      }
    }

    method ApplyFullScan(markers: string -> seq<string>)
      requires r.Sound()
      modifies r.repr
      ensures r.Sound() && StrategiesSet(old(r.View()), r.View(), Everything(), Resolving(markers))
      ensures forall s | s in r.View().services :: r.View().services[s].strategy == ResolveMarkerStrategy(markers(s))
    {
      hide ResolveMarkerStrategy, StrategiesSet, Ok, NothingLost, Registry.Valid, Registry.View;
      ghost var v := r.View();
      r.ServicesShown();
      var todo := r.services.Keys;
      NoStrategySet(v, Resolving(markers));
      assert Done(v, todo) == iset{};
      while todo != {}
        invariant r.Sound() && todo <= v.services.Keys
        invariant StrategiesSet(v, r.View(), Done(v, todo), Resolving(markers))
        decreases |todo|
      {
        var service :| service in todo;
        ghost var a := r.View();
        ApplyServiceScan(service, markers);
        StrategiesCompose(v, a, r.View(), Done(v, todo), service, Resolving(markers));
        assert Done(v, todo - {service}) == Done(v, todo) + iset{service};
        todo := todo - {service};
      }
      AllStrategiesSet(v, r.View(), Resolving(markers));
      EachSet(v, r.View(), Resolving(markers));
    }
  }

  lemma EachSet(v: RegistryView, v': RegistryView, resolved: string -> Strategy)
    requires StrategiesSet(v, v', Everything(), resolved)
    ensures forall s | s in v'.services :: v'.services[s].strategy == resolved(s)
  {
  }

  ghost function Done(v: RegistryView, todo: set<string>): iset<string> {
    iset s | s in v.services && s !in todo
  }

  lemma NoStrategySet(v: RegistryView, resolved: string -> Strategy)
    requires Ok(v)
    ensures StrategiesSet(v, v, iset{}, resolved)
  {
  }

  lemma StrategiesCompose(v: RegistryView, a: RegistryView, b: RegistryView, scope: iset<string>, service: string,
                          resolved: string -> Strategy)
    requires StrategiesSet(v, a, scope, resolved) && StrategiesSet(a, b, iset{service}, resolved)
    ensures StrategiesSet(v, b, scope + iset{service}, resolved) && b.services.Keys == v.services.Keys
  {
    hide Ok;
  }

  lemma AllStrategiesSet(v: RegistryView, a: RegistryView, resolved: string -> Strategy)
    requires StrategiesSet(v, a, Done(v, {}), resolved)
    ensures StrategiesSet(v, a, Everything(), resolved)
  {
    hide Ok;
  }

  /** The two handlers of a scan, over one service or over all, may run in either order exactly
      when for every service whose set is new with the scan the marker files the scan lists
      and those lying in the service's own directory ask for the same strategy. */
  lemma EitherHandlerFirst(v: RegistryView, a: RegistryView, a': RegistryView, b: RegistryView, b': RegistryView,
                           scope: iset<string>, found: set<string>,
                           markers: string -> seq<string>, entries: string -> set<string>)
    requires Ok(v)
    requires Scanned(v, a, scope, found, Creation(entries)) && StrategiesSet(a, a', scope, Resolving(markers))
    requires StrategiesSet(v, b, scope, Resolving(markers)) && Scanned(b, b', scope, found, Creation(entries))
    ensures Agree(v, a', b') <==>
              forall s | s in scope && s in a'.services && !Survives(v, s, scope, found) ::
                SameChoice(MarkerTokens(markers(s)), StatTokens(entries(s)))
    ensures forall s | s in scope && s in a'.services :: a'.services[s].strategy == ResolveMarkerStrategy(markers(s))
  {
    hide Ok, Agree, Scanned, StrategiesSet, Survives, ResolveMarkerStrategy, StrategyAtCreation;
    hide MarkerTokens, StatTokens, SameChoice;
    HandlerOrderIff(v, a, a', b, b', scope, found, Creation(entries), Resolving(markers));
    forall s | s in a'.services
      ensures Creation(entries)(s) == Resolving(markers)(s) <==>
              SameChoice(MarkerTokens(markers(s)), StatTokens(entries(s)))
    {
      ReadingsAgreeIff(markers(s), entries(s));
    }
  }

  /** So they may on every flat layout, where a service's markers are files of its own directory. */
  lemma FlatLayoutAgrees(v: RegistryView, a: RegistryView, a': RegistryView, b: RegistryView, b': RegistryView,
                         scope: iset<string>, found: set<string>, base: string,
                         markers: string -> seq<string>, entries: string -> set<string>)
    requires Ok(v)
    requires forall s: string | s in scope :: MarkersOf(markers(s), base + "/" + s, entries(s))
    requires Scanned(v, a, scope, found, Creation(entries)) && StrategiesSet(a, a', scope, Resolving(markers))
    requires StrategiesSet(v, b, scope, Resolving(markers)) && Scanned(b, b', scope, found, Creation(entries))
    ensures Agree(v, a', b')
  {
    hide Ok, MarkersOf, Agree, Scanned, StrategiesSet, Survives, ResolveMarkerStrategy, StrategyAtCreation;
    hide MarkerTokens, StatTokens, SameChoice;
    EitherHandlerFirst(v, a, a', b, b', scope, found, markers, entries);
    forall s | s in scope ensures SameChoice(MarkerTokens(markers(s)), StatTokens(entries(s))) {
      CreationAgreesWithMarkers(markers(s), base + "/" + s, entries(s));
      ReadingsAgreeIff(markers(s), entries(s));
    }
  }
}
