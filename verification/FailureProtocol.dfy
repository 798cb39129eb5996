/**
 The failure protocol over whole runs, with a reconnection and the promotion that follows it
 as two steps: what other requests, the listener and the scans do may come in between.
 */
module FailureProtocol {
  import opened Balancing
  import opened RegistryState
  import opened SocketPaths
  import opened RegistryScans
  import opened Registries

  /** The registry, the reports under way, and the forwarders whose flag is raised. */
  datatype State = State(view: RegistryView, failures: seq<Failure>, failed: set<Forwarder>)

  /** One atomic step: a use fails, a report is handled, a reconnection clears a flag, the node
      is promoted; a listed node is dropped for not being registered, or forgotten for its
      socket being gone; a scan of some services; a change of strategy. */
  datatype Step =
    | Fails(f: Forwarder, refused: bool)
    | Handles
    | Clears(f: Forwarder)
    | Promotes(path: string)
    | Drops(path: string)
    | Forgets(path: string)
    | Scans(scope: iset<string>, found: set<string>, created: string -> Strategy)
    | Sets(service: string, strategy: Strategy)

  /** Every registered node whose flag is raised is set aside, or a report about it is under way. */
  ghost predicate Lossless(s: State) {
    forall p | p in s.view.nodeMap && s.view.nodeMap[p].forwarder in s.failed ::
      Down(s.view, p) || Pending(s.failures, p)
  }

  ghost predicate SoundState(s: State) {
    Ok(s.view) && Lossless(s)
  }

  ghost predicate Takes(s: State, e: Step, s': State) {
    match e
    case Fails(f, refused) =>
      s' == if f in s.failed then s
            else s.(failed := s.failed + {f}, failures := s.failures + [Failure(f.socketPath, refused)])
    case Handles =>
      && s.failures != []
      && s' == s.(view := Reported(s.view, s.failures[0].socketPath, s.failures[0].refused),
                  failures := s.failures[1..])
    case Clears(f) => s' == s.(failed := s.failed - {f})
    case Promotes(p) => s' == s.(view := Promoted(s.view, OwnerOf(p), p))
    case Drops(p) => p !in s.view.nodeMap && s' == s.(view := RemovedFromUnhealthy(s.view, OwnerOf(p), p))
    case Forgets(p) => s' == s.(view := Gone(s.view, OwnerOf(p), p))
    case Scans(scope, found, created) =>
      && Scanned(s.view, s'.view, scope, found, created)
      && s' == s.(view := s'.view)
      && forall p | p in s'.view.nodeMap && p !in s.view.nodeMap :: s'.view.nodeMap[p].forwarder !in s.failed
    case Sets(service, strategy) => s' == s.(view := StrategySet(s.view, service, strategy))
  }

  /** A promotion finds its node registered, and unfailed unless that has been reported. */
  ghost predicate Fair(s: State, e: Step) {
    e.Promotes? ==>
      && e.path in s.view.nodeMap
      && (s.view.nodeMap[e.path].forwarder in s.failed ==> Pending(s.failures, e.path))
  }

  // ---------------------------------------------------------------- one step

  lemma FailsSound(s: State, f: Forwarder, refused: bool, s': State)
    requires SoundState(s) && Takes(s, Fails(f, refused), s')
    ensures SoundState(s')
  {
    hide Ok, Down, Pending;
    OwnPaths(s.view);
    PendingAfter(s.failures, Failure(f.socketPath, refused));
  }

  lemma HandlesSound(s: State, s': State)
    requires SoundState(s) && Takes(s, Handles, s')
    ensures SoundState(s')
  {
    hide Ok, Down, Pending, Reported;
    ReportedEffect(s.view, s.failures[0].socketPath, s.failures[0].refused);
    PendingBefore(s.failures[0], s.failures[1..]);
    assert s.failures == [s.failures[0]] + s.failures[1..];
  }

  lemma PromotesSoundIff(s: State, p: string, s': State)
    requires SoundState(s) && Takes(s, Promotes(p), s')
    ensures SoundState(s') <==> Fair(s, Promotes(p))
  {
    hide Ok, Up, Down, Pending, OwnerOf, Promoted;
    PromotedOkIff(s.view, p);
    PromotedServes(s.view, p);
    if p in s.view.nodeMap {
      PromotedEffect(s.view, p);
    }
  }

  lemma ScansSound(s: State, scope: iset<string>, found: set<string>, created: string -> Strategy, s': State)
    requires SoundState(s) && Takes(s, Scans(scope, found, created), s')
    ensures SoundState(s')
  {
    hide Ok, Down, Pending, OwnerOf, StrategiesAfter;
  }

  lemma OthersSound(s: State, e: Step, s': State)
    requires SoundState(s) && Takes(s, e, s') && (e.Clears? || e.Drops? || e.Forgets? || e.Sets?)
    ensures SoundState(s')
  {
    hide Ok, Down, Pending, OwnerOf, Gone, RemovedFromUnhealthy, StrategySet;
    match e
    case Clears(f) =>
    case Drops(p) =>
      UnregisteredEffect(s.view, p);
    case Forgets(p) =>
      GoneEffect(s.view, p);
    case Sets(service, strategy) =>
      StrategySetEffect(s.view, service, strategy);
      forall q ensures Down(s'.view, q) == Down(s.view, q) {
        SameUnhealthy(s.view, s'.view, q);
      }
    case _ =>
  }

  /** A step from a sound state leads to a sound state exactly when it is no unfair promotion. */
  lemma StepSoundIff(s: State, e: Step, s': State)
    requires SoundState(s) && Takes(s, e, s')
    ensures SoundState(s') <==> Fair(s, e)
  {
    hide SoundState, Takes;
    match e
    case Fails(f, refused) => FailsSound(s, f, refused, s');
    case Handles => HandlesSound(s, s');
    case Promotes(p) => PromotesSoundIff(s, p, s');
    case Scans(scope, found, created) => ScansSound(s, scope, found, created, s');
    case _ => OthersSound(s, e, s');
  }

  // ---------------------------------------------------------------- runs

  ghost predicate Run(states: seq<State>, steps: seq<Step>) {
    |states| == |steps| + 1 && forall i :: 0 <= i < |steps| ==> Takes(states[i], steps[i], states[i + 1])
  }

  /** A run that begins sound is sound throughout exactly when every promotion in it is fair. */
  lemma {:induction false} RunSoundIff(states: seq<State>, steps: seq<Step>)
    requires Run(states, steps) && SoundState(states[0])
    ensures (forall i :: 0 <= i <= |steps| ==> SoundState(states[i])) <==>
              (forall i :: 0 <= i < |steps| ==> Fair(states[i], steps[i]))
    decreases |steps|
  {
    hide SoundState, Fair, Takes;
    if steps != [] {
      var last := |steps| - 1;
      var front, taken := states[..last + 1], steps[..last];
      assert forall i :: 0 <= i <= last ==> front[i] == states[i];
      assert forall i :: 0 <= i < last ==> taken[i] == steps[i];
      RunSoundIff(front, taken);
      if SoundState(states[last]) {
        StepSoundIff(states[last], steps[last], states[last + 1]);
      }
    }
  }

  /** A run in which it goes wrong: the node fails again, through a request that still holds
      its forwarder, after the reconnection and before the promotion, and that report is
      handled while the node is still set aside.  The node then serves with its flag raised,
      and no report will come. */
  method FailureLostBetween(entries: string -> set<string>)
    returns (r: Registry, path: string)
    ensures r.Valid() && r.failures == [] && path in r.nodeMap && r.nodeMap[path].forwarder.isFailed
    ensures Up(r.View(), path) && !r.Sound()
  {
    hide Ok, NothingLost, Up, Down, Pending, Promoted, OwnerOf, Registry.Valid, Registry.View;
    var f;
    r, path, f := OneNode(entries);
    r.Fail(f, false);
    HandleOnly(r, f, path);
    r.Reconnect(f);
    r.SameMap();
    r.Fail(f, false);
    HandleOnly(r, f, path);
    NothingPending(path);
    r.SameMap();
    PromotedServes(r.View(), path);
    r.PromoteReconnected("s", path);
  }

  /** A registry with one unfailed node, and its forwarder. */
  method OneNode(entries: string -> set<string>)
    returns (r: Registry, path: string, f: Forwarder)
    ensures fresh(r) && fresh(r.repr) && fresh(f) && r.Sound() && r.failures == []
    ensures OwnerOf(path) == "s" && path in r.nodeMap && r.nodeMap[path].forwarder == f
    ensures !f.isFailed && f.socketPath == path
  {
    hide Ok, Scanned, Down, Pending, OwnerOf, Registry.Valid, Registry.View;
    r := new Registry();
    path := "s/n";
    ghost var start := r.View();
    r.SameMap();
    OwnerOfExample();
    r.ApplyServiceScan("s", [path], entries);
    OnlyNode(start, r.View(), path, Creation(entries));
    r.SameMap();
    NothingPending(path);
    f := r.nodeMap[path].forwarder;
  }

  /** The one report about the node is handled: it stays registered. */
  method HandleOnly(r: Registry, f: Forwarder, path: string)
    requires r.Sound() && r.failures == [Failure(path, false)]
    requires path in r.nodeMap && r.nodeMap[path].forwarder == f
    modifies r`services, r`unhealthy, r`nodeMap, r`failures, r`repr, r.repr
    ensures r.Sound() && r.failures == [] && fresh(r.repr - old(r.repr))
    ensures path in r.nodeMap && r.nodeMap[path].forwarder == f
  {
    hide Ok, NothingLost, Reported, Registry.Valid, Registry.View;
    r.SameMap();
    ReportKeeps(r.View(), path);
    r.HandleFailure();
    r.SameMap();
  }

  lemma ReportKeeps(v: RegistryView, p: string)
    ensures Reported(v, p, false).nodeMap == v.nodeMap
  {
  }

  lemma OwnerOfExample()
    ensures OwnerOf("s/n") == "s"
  {
    OwnerOfJoin("", "s", "n");
    assert "s" + "/" + "n" == "s/n";
  }

  /** After a scan of an empty registry that finds one node, it is registered and serves. */
  lemma OnlyNode(v: RegistryView, a: RegistryView, p: string, created: string -> Strategy)
    requires v == RegistryView(map[], map[], map[]) && OwnerOf(p) == "s"
    requires Scanned(v, a, iset{"s"}, Members([p]), created)
    ensures p in a.nodeMap && !Down(a, p) && a.nodeMap[p].forwarder.socketPath == p
  {
    hide OwnerOf, StrategiesAfter;
    assert p in [p] && Kept(p, iset{"s"}, Members([p]));
    OwnPaths(a);
  }

  lemma NothingPending(p: string)
    ensures !Pending([], p)
  {
  }
}
