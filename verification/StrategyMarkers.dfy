/** Which balancing strategy the marker files of a service's directory ask for. */
module StrategyMarkers {
  import opened RegistryState
  import opened SocketPaths

  const SUFFIX := ".strategy"

  const PRIORITY: seq<(string, Strategy)> :=
    [("p2c", P2CStrategy), ("least_in_flight", LeastInFlightStrategy), ("round_robin", RoundRobinStrategy)]

  /** The first candidate whose token is present; round robin when none is. */
  function FirstPresent(candidates: seq<(string, Strategy)>, tokens: set<string>): Strategy {
    if candidates == [] then RoundRobinStrategy
    else if candidates[0].0 in tokens then candidates[0].1
    else FirstPresent(candidates[1..], tokens)
  }

  predicate HasSuffix(name: string) {
    |name| >= |SUFFIX| && name[|name| - |SUFFIX|..] == SUFFIX
  }

  function TrimSuffix(name: string): string {
    if HasSuffix(name) then name[..|name| - |SUFFIX|] else name
  }

  /** The tokens whose marker file can be found by name among a directory's entries. */
  function StatTokens(entries: set<string>): set<string> {
    set c <- PRIORITY | c.0 + SUFFIX in entries :: c.0
  }

  /** The strategy of a newly created set: the directory is asked for each marker by name. */
  function StrategyAtCreation(entries: set<string>): Strategy {
    FirstPresent(PRIORITY, StatTokens(entries))
  }

  function MarkerTokens(paths: seq<string>): set<string> {
    set p <- paths :: TrimSuffix(BaseName(p))
  }

  /** The strategy asked for by the marker files a scan has found. */
  function ResolveMarkerStrategy(paths: seq<string>): Strategy {
    FirstPresent(PRIORITY, MarkerTokens(paths))
  }

  /** `paths` are the marker files among the entries of the directory `dir`: what a scan of
      a flat directory without sub-directories finds. */
  ghost predicate MarkersOf(paths: seq<string>, dir: string, entries: set<string>) {
    && (forall n <- entries :: '/' !in n)
    && (forall n <- entries :: HasSuffix(n) ==> dir + "/" + n in paths)
    && (forall p <- paths :: exists n <- entries :: HasSuffix(n) && p == dir + "/" + n)
  }

  lemma TrimmedIs(name: string, token: string)
    requires HasSuffix(name)
    ensures TrimSuffix(name) == token <==> name == token + SUFFIX
  {
    assert name == name[..|name| - |SUFFIX|] + SUFFIX;
    assert (token + SUFFIX)[..|token|] == token;
  }

  /** The two sets of tokens ask for the same strategy; `round_robin` is what is chosen without
      any, so it does not matter. */
  predicate SameChoice(a: set<string>, b: set<string>) {
    && ("p2c" in a <==> "p2c" in b)
    && ("p2c" !in a ==> ("least_in_flight" in a <==> "least_in_flight" in b))
  }

  lemma FirstPresentIs(tokens: set<string>)
    ensures FirstPresent(PRIORITY, tokens) ==
      if "p2c" in tokens then P2CStrategy
      else if "least_in_flight" in tokens then LeastInFlightStrategy
      else RoundRobinStrategy
  {
    var behind := PRIORITY[1..];
    var last := behind[1..];
    assert behind[0] == PRIORITY[1] && last[0] == PRIORITY[2] && last[1..] == [];
    assert FirstPresent(last, tokens) == RoundRobinStrategy;
    assert FirstPresent(behind, tokens) ==
      if "least_in_flight" in tokens then LeastInFlightStrategy else FirstPresent(last, tokens);
  }

  /** A new set is made by the marker files that lie in the service's directory. */
  lemma CreationIs(entries: set<string>)
    ensures StrategyAtCreation(entries) ==
      if "p2c.strategy" in entries then P2CStrategy
      else if "least_in_flight.strategy" in entries then LeastInFlightStrategy
      else RoundRobinStrategy
  {
    FirstPresentIs(StatTokens(entries));
    assert "p2c" + SUFFIX == "p2c.strategy" && "least_in_flight" + SUFFIX == "least_in_flight.strategy";
    assert PRIORITY[0] in PRIORITY && PRIORITY[1] in PRIORITY;
  }

  /** A set is given a strategy by the names of the marker files scanned, wherever they lie. */
  lemma ResolvedIs(paths: seq<string>)
    requires forall p <- paths :: HasSuffix(BaseName(p))
    ensures ResolveMarkerStrategy(paths) ==
      if exists p <- paths :: BaseName(p) == "p2c.strategy" then P2CStrategy
      else if exists p <- paths :: BaseName(p) == "least_in_flight.strategy" then LeastInFlightStrategy
      else RoundRobinStrategy
  {
    hide BaseName, TrimSuffix, HasSuffix;
    FirstPresentIs(MarkerTokens(paths));
    assert "p2c" + SUFFIX == "p2c.strategy" && "least_in_flight" + SUFFIX == "least_in_flight.strategy";
    forall p <- paths
      ensures TrimSuffix(BaseName(p)) == "p2c" <==> BaseName(p) == "p2c.strategy"
      ensures TrimSuffix(BaseName(p)) == "least_in_flight" <==> BaseName(p) == "least_in_flight.strategy"
    {
      TrimmedIs(BaseName(p), "p2c");
      TrimmedIs(BaseName(p), "least_in_flight");
    }
  }

  /** The two ways of reading the markers agree exactly when the scanned paths and the
      directory's own entries ask for the same, whatever the layout. */
  lemma ReadingsAgreeIff(paths: seq<string>, entries: set<string>)
    ensures ResolveMarkerStrategy(paths) == StrategyAtCreation(entries) <==>
              SameChoice(MarkerTokens(paths), StatTokens(entries))
  {
    hide FirstPresent, MarkerTokens, StatTokens;
    FirstPresentIs(MarkerTokens(paths));
    FirstPresentIs(StatTokens(entries));
  }

  /** For a scan that lists at least the directory's own markers: exactly when no marker
      from elsewhere goes before all of the directory's own. */
  lemma WalkAgreesIff(paths: seq<string>, entries: set<string>)
    requires StatTokens(entries) <= MarkerTokens(paths)
    ensures ResolveMarkerStrategy(paths) == StrategyAtCreation(entries) <==>
              && ("p2c" in MarkerTokens(paths) ==> "p2c" in StatTokens(entries))
              && ("least_in_flight" in MarkerTokens(paths) ==>
                    "p2c" in StatTokens(entries) || "least_in_flight" in StatTokens(entries))
  {
    hide MarkerTokens, StatTokens;
    ReadingsAgreeIff(paths, entries);
  }

  /** The two ways of reading the markers agree on a flat directory. */
  lemma CreationAgreesWithMarkers(paths: seq<string>, dir: string, entries: set<string>)
    requires MarkersOf(paths, dir, entries)
    ensures ResolveMarkerStrategy(paths) == StrategyAtCreation(entries)
  {
    hide HasSuffix, TrimSuffix, BaseName;
    forall c <- PRIORITY ensures c.0 in MarkerTokens(paths) <==> c.0 in StatTokens(entries) {
      var name := c.0 + SUFFIX;
      if name in entries {
        SuffixOf(c.0);
        BaseOfJoin(dir, name);
        TrimmedIs(name, c.0);
        assert dir + "/" + name in paths;
      }
      if c.0 in MarkerTokens(paths) {
        var p :| p in paths && TrimSuffix(BaseName(p)) == c.0;
        var n :| n in entries && HasSuffix(n) && p == dir + "/" + n;
        BaseOfJoin(dir, n);
        TrimmedIs(n, c.0);
      }
    }
    assert PRIORITY[0].0 == "p2c" && PRIORITY[1].0 == "least_in_flight";
    ReadingsAgreeIff(paths, entries);
  }

  lemma SuffixOf(token: string)
    ensures HasSuffix(token + SUFFIX)
  {
  }

  /** So they do not when the only marker is a `p2c` in a sub-directory: a scan of the service
      finds it, the creation of a set does not. */
  lemma NestedMarkerDisagrees(dir: string)
    ensures ResolveMarkerStrategy([dir + "/sub" + "/" + ("p2c" + SUFFIX)]) != StrategyAtCreation({"sub"})
  {
    hide BaseName, HasSuffix, TrimSuffix, FirstPresent;
    var path, name := dir + "/sub" + "/" + ("p2c" + SUFFIX), "p2c" + SUFFIX;
    BaseOfJoin(dir + "/sub", name);
    SuffixOf("p2c");
    TrimmedIs(name, "p2c");
    assert path in [path];
    assert "p2c" in MarkerTokens([path]);
    NotAMarker("p2c");
    ReadingsAgreeIff([path], {"sub"});
  }

  lemma NotAMarker(token: string)
    ensures token !in StatTokens({"sub"})
  {
    forall c <- PRIORITY ensures c.0 + SUFFIX != "sub" {
      assert |c.0 + SUFFIX| >= 9;
    }
  }
}
