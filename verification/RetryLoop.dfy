/**
 Serving one request: the forwarders are tried in turn until one answers.  What the network
 and other requests do meanwhile is a script: before each turn some flags may be raised by
 others and some cleared by a reconnection, and a live node that is tried has an outcome.
 */
module RetryLoop {
  import opened Common
  import opened Balancing

  /** How a round trip to a live node goes; only an error that is none of the network can be
      that of a body too large. */
  datatype RoundTrip = Answered | NetworkError(dial: bool) | OtherError(tooLarge: bool)

  datatype ForwardError = NodeUnavailable | NodeFailed | UpstreamFailed | BodyTooLarge | OtherFailure

  /** What happens before and during one turn. */
  datatype Turn = Turn(cleared: set<Forwarder>, raised: set<Forwarder>, trip: RoundTrip)

  datatype Response = Served(node: Forwarder) | ServiceUnavailable | BadGateway | RequestTooLarge

  /** The safe methods of section 9.2.1 of RFC 9110. */
  predicate IsSafeMethod(httpMethod: string) {
    httpMethod in {"GET", "HEAD", "OPTIONS", "TRACE"}
  }

  /** The error of a round trip, as the error handler files it. */
  function ErrorOf(trip: RoundTrip): Option<ForwardError> {
    match trip
    case Answered => None
    case NetworkError(dial) => Some(if dial then NodeUnavailable else UpstreamFailed)
    case OtherError(tooLarge) => Some(if tooLarge then BodyTooLarge else OtherFailure)
  }

  function Unavailables(errors: seq<Option<ForwardError>>): (n: nat)
    ensures n <= |errors|
  {
    if errors == [] then 0
    else Unavailables(errors[..|errors| - 1]) + if errors[|errors| - 1] == Some(NodeUnavailable) then 1 else 0
  }

  /** After these results the next forwarder is tried: each was a node known to have failed,
      or, for a safe method and within the limit, a node that could not be reached. */
  predicate GoesOn(errors: seq<Option<ForwardError>>, safe: bool, limit: Option<nat>) {
    errors == [] ||
    var last := |errors| - 1;
    && GoesOn(errors[..last], safe, limit)
    && (errors[last] == Some(NodeFailed) ||
        (errors[last] == Some(NodeUnavailable) && safe && (limit.Some? ==> Unavailables(errors[..last]) < limit.value)))
  }

  /** The forwarders whose flag is up when turn `n` begins, if they were `failed` at first: a
      turn lets others clear and raise flags, and raises its own on a network error. */
  ghost function FailedBefore(failed: set<Forwarder>, forwarders: seq<Forwarder>, script: seq<Turn>, n: nat)
    : set<Forwarder>
    requires n <= |forwarders| && n <= |script|
    decreases n, 0
  {
    if n == 0 then failed
    else
      var raisedNow := if script[n - 1].trip.NetworkError? then {forwarders[n - 1]} else {};
      FailedAt(failed, forwarders, script, n - 1) + raisedNow
  }

  /** The forwarders whose flag is up when turn `k` looks at its own. */
  ghost function FailedAt(failed: set<Forwarder>, forwarders: seq<Forwarder>, script: seq<Turn>, k: nat): set<Forwarder>
    requires k < |forwarders| && k < |script|
    decreases k, 1
  {
    FailedBefore(failed, forwarders, script, k) - script[k].cleared + script[k].raised
  }

  /** What each turn results in, when all are taken. */
  ghost function Results(failed: set<Forwarder>, forwarders: seq<Forwarder>, script: seq<Turn>)
    : (results: seq<Option<ForwardError>>)
    requires |script| >= |forwarders|
    ensures |results| == |forwarders|
  {
    seq(|forwarders|, k requires 0 <= k < |forwarders| =>
      if forwarders[k] in FailedAt(failed, forwarders, script, k) then Some(NodeFailed) else ErrorOf(script[k].trip))
  }

  /** The nodes whose dial failed, in order. */
  function Undialled(forwarders: seq<Forwarder>, errors: seq<Option<ForwardError>>): seq<Forwarder>
    requires |errors| <= |forwarders|
  {
    if errors == [] then []
    else
      var last := |errors| - 1;
      Undialled(forwarders, errors[..last]) + if errors[last] == Some(NodeUnavailable) then [forwarders[last]] else []
  }

  /** The reports of a request: one for each network error. */
  function Reported(forwarders: seq<Forwarder>, errors: seq<Option<ForwardError>>): seq<string>
    requires |errors| <= |forwarders|
  {
    if errors == [] then []
    else
      var last := |errors| - 1;
      Reported(forwarders, errors[..last])
      + if errors[last] in {Some(NodeUnavailable), Some(UpstreamFailed)} then [forwarders[last].socketPath] else []
  }

  /** The places of the nodes that could not be reached. */
  ghost function Unreached(results: seq<Option<ForwardError>>): set<nat> {
    set j: nat | j < |results| && results[j] == Some(NodeUnavailable)
  }

  lemma {:induction false} UnavailablesAre(errors: seq<Option<ForwardError>>)
    ensures Unavailables(errors) == |Unreached(errors)|
    decreases |errors|
  {
    if errors != [] {
      var last := |errors| - 1;
      UnavailablesAre(errors[..last]);
      UnreachedNext(errors, last);
    }
  }

  lemma UnreachedNext(errors: seq<Option<ForwardError>>, last: nat)
    requires |errors| == last + 1
    ensures Unreached(errors) == Unreached(errors[..last])
                              + if errors[last] == Some(NodeUnavailable) then {last} else {}
    ensures |Unreached(errors)| == |Unreached(errors[..last])| + if errors[last] == Some(NodeUnavailable) then 1 else 0
  {
    var now := if errors[last] == Some(NodeUnavailable) then {last} else {};
    assert Unreached(errors) == Unreached(errors[..last]) + now;
  }

  /** Every node had failed or could not be reached. */
  ghost predicate PassedOver(errors: seq<Option<ForwardError>>) {
    forall k :: 0 <= k < |errors| ==> errors[k] == Some(NodeFailed) || errors[k] == Some(NodeUnavailable)
  }

  /** The loop goes on past these results exactly when all are of failed or unreachable nodes,
      and the unreachable ones are none for an unsafe method and no more than the limit. */
  lemma {:induction false} GoesOnIff(errors: seq<Option<ForwardError>>, safe: bool, limit: Option<nat>)
    ensures GoesOn(errors, safe, limit) <==>
      && PassedOver(errors)
      && (!safe ==> Unreached(errors) == {})
      && (limit.Some? ==> |Unreached(errors)| <= limit.value)
    decreases |errors|
  {
    if errors != [] {
      var last := |errors| - 1;
      GoesOnIff(errors[..last], safe, limit);
      UnavailablesAre(errors[..last]);
      UnreachedNext(errors, last);
      hide Unreached, Unavailables;
      assert forall k :: 0 <= k < last ==> errors[k] == errors[..last][k];
    }
  }

  /** Turn `k` comes and answers: before it were only failed and unreachable nodes, and after an
      unreachable one the request may be sent again. */
  ghost predicate AnswersAt(results: seq<Option<ForwardError>>, httpMethod: string, limit: Option<nat>, k: nat)
    requires k < |results|
  {
    && results[k] == None
    && PassedOver(results[..k])
    && (Unreached(results[..k]) != {} ==> httpMethod in {"GET", "HEAD", "OPTIONS", "TRACE"})
    && (limit.Some? ==> |Unreached(results[..k])| <= limit.value)
  }

  /** The results up to the turn after which the loop does not go on, or all of them. */
  ghost predicate Ended(errors: seq<Option<ForwardError>>, results: seq<Option<ForwardError>>, safe: bool,
                        limit: Option<nat>)
  {
    && errors <= results
    && if errors != [] && !GoesOn(errors, safe, limit) then GoesOn(errors[..|errors| - 1], safe, limit)
       else |errors| == |results|
  }

  lemma EndsAt(errors: seq<Option<ForwardError>>, results: seq<Option<ForwardError>>, httpMethod: string,
               limit: Option<nat>, k: nat)
    requires k < |results| && Ended(errors, results, IsSafeMethod(httpMethod), limit)
    ensures AnswersAt(results, httpMethod, limit, k) <==> |errors| == k + 1 && errors[k] == None
  {
    hide GoesOn, Unreached, PassedOver, Ended;
    var safe := IsSafeMethod(httpMethod);
    GoesOnIff(results[..k], safe, limit);
    if AnswersAt(results, httpMethod, limit, k) {
      ComesTo(errors, results, safe, limit, k);
    }
    if |errors| == k + 1 && errors[k] == None {
      EndedThere(errors, results, safe, limit, k);
    }
  }

  lemma AllEnds(errors: seq<Option<ForwardError>>, results: seq<Option<ForwardError>>, httpMethod: string,
                limit: Option<nat>)
    requires Ended(errors, results, IsSafeMethod(httpMethod), limit)
    ensures forall k | 0 <= k < |results| ::
              AnswersAt(results, httpMethod, limit, k) <==> |errors| == k + 1 && errors[k] == None
    ensures errors != [] && errors[|errors| - 1] == None ==> !GoesOn(errors, IsSafeMethod(httpMethod), limit)
  {
    forall k | 0 <= k < |results|
      ensures AnswersAt(results, httpMethod, limit, k) <==> |errors| == k + 1 && errors[k] == None
    {
      EndsAt(errors, results, httpMethod, limit, k);
    }
  }

  lemma ComesTo(errors: seq<Option<ForwardError>>, results: seq<Option<ForwardError>>, safe: bool,
                limit: Option<nat>, k: nat)
    requires k < |results| && Ended(errors, results, safe, limit)
    requires results[k] == None && GoesOn(results[..k], safe, limit)
    ensures |errors| == k + 1 && errors[k] == None
  {
    hide GoesOn;
    GoesOnStops(results, safe, limit, k);
    if |errors| <= k {
      GoesOnPrefix(results[..k], safe, limit, errors);
    } else if |errors| > k + 1 {
      if GoesOn(errors, safe, limit) {
        GoesOnPrefix(errors, safe, limit, errors[..|errors| - 1]);
      }
      GoesOnPrefix(errors[..|errors| - 1], safe, limit, results[..k + 1]);
    }
  }

  lemma EndedThere(errors: seq<Option<ForwardError>>, results: seq<Option<ForwardError>>, safe: bool,
                   limit: Option<nat>, k: nat)
    requires k < |results| && Ended(errors, results, safe, limit) && |errors| == k + 1 && errors[k] == None
    ensures results[k] == None && GoesOn(results[..k], safe, limit)
  {
    hide GoesOn;
    assert errors == results[..k + 1] && errors[..|errors| - 1] == results[..k];
    GoesOnStops(results, safe, limit, k);
  }

  lemma {:induction false} GoesOnPrefix(errors: seq<Option<ForwardError>>, safe: bool, limit: Option<nat>,
                                        front: seq<Option<ForwardError>>)
    requires GoesOn(errors, safe, limit) && front <= errors
    ensures GoesOn(front, safe, limit)
    decreases |errors|
  {
    if |front| < |errors| {
      GoesOnPrefix(errors[..|errors| - 1], safe, limit, front);
    } else {
      assert front == errors;
    }
  }

  lemma GoesOnStops(results: seq<Option<ForwardError>>, safe: bool, limit: Option<nat>, k: nat)
    requires k < |results| && results[k] == None
    ensures !GoesOn(results[..k + 1], safe, limit)
  {
  }

  function Times(s: seq<Forwarder>, f: Forwarder): nat {
    if s == [] then 0 else Times(s[..|s| - 1], f) + if s[|s| - 1] == f then 1 else 0
  }

  /** In how many of the first `n` turns the flag of `f` was cleared. */
  function Clears(script: seq<Turn>, n: nat, f: Forwarder): nat
    requires n <= |script|
  {
    if n == 0 then 0 else Clears(script, n - 1, f) + if f in script[n - 1].cleared then 1 else 0
  }

  lemma {:induction false} RetriesBounded(errors: seq<Option<ForwardError>>, safe: bool, limit: Option<nat>)
    requires GoesOn(errors, safe, limit)
    ensures limit.Some? ==> Unavailables(errors) <= limit.value
    ensures !safe ==> Unavailables(errors) == 0
    decreases |errors|
  {
    if errors != [] {
      RetriesBounded(errors[..|errors| - 1], safe, limit);
    }
  }

  class Exchange {
    const httpMethod: string
    const retryLimit: Option<nat>
    /** The responses written so far. */
    var responses: seq<Response>
    /** The failure reports sent. */
    var reports: seq<string>
    /** The nodes whose dial failed, in order. */
    var failedDials: seq<Forwarder>

    constructor (httpMethod: string, retryLimit: Option<nat>)
      ensures this.httpMethod == httpMethod && this.retryLimit == retryLimit
      ensures responses == [] && reports == [] && failedDials == []
    {
      this.httpMethod, this.retryLimit := httpMethod, retryLimit;
      responses, reports, failedDials := [], [], [];
    }

    /** One use of a forwarder.  A node known to have failed is not tried; a network error
        raises the flag and reports it. */
    method Forward(f: Forwarder, trip: RoundTrip) returns (error: Option<ForwardError>)
      modifies f`isFailed, `reports, `failedDials
      ensures old(f.isFailed) ==> error == Some(NodeFailed)
      ensures !old(f.isFailed) ==>
        && (trip == Answered <==> error == None)
        && (trip == NetworkError(true) <==> error == Some(NodeUnavailable))
        && (trip == NetworkError(false) <==> error == Some(UpstreamFailed))
        && (trip == OtherError(true) <==> error == Some(BodyTooLarge))
        && (trip == OtherError(false) <==> error == Some(OtherFailure))
      ensures f.isFailed == (old(f.isFailed) || trip.NetworkError?)
      ensures reports == if !old(f.isFailed) && trip.NetworkError? then old(reports) + [f.socketPath] else old(reports)
      ensures failedDials == if !old(f.isFailed) && trip.NetworkError? && trip.dial then old(failedDials) + [f]
                             else old(failedDials)
    {
      if f.isFailed {
        return Some(NodeFailed);
      }
      match trip
      case Answered =>
        return None;
      case NetworkError(dial) =>
        f.isFailed := true;
        reports := reports + [f.socketPath];
        if dial {
          failedDials := failedDials + [f];
          error := Some(NodeUnavailable);
        } else {
          error := Some(UpstreamFailed);
        }
      case OtherError(tooLarge) =>
        error := if tooLarge then Some(BodyTooLarge) else Some(OtherFailure);
    }

    /** The loop over the forwarders of a request.  A turn is the last when the next is not gone
        on to; its result is the response. */
    method ForwardToBackend(forwarders: seq<Forwarder>, script: seq<Turn>) returns (errors: seq<Option<ForwardError>>)
      requires |script| >= |forwarders| && responses == [] && failedDials == []
      modifies this, (set f | f in forwarders), Touched(script)
      ensures |errors| <= |forwarders| && errors <= Results(old(FailedOf(forwarders)), forwarders, script)
      ensures var safe := httpMethod in {"GET", "HEAD", "OPTIONS", "TRACE"};
        if errors != [] && !GoesOn(errors, safe, retryLimit) then
          var last := |errors| - 1;
          && GoesOn(errors[..last], safe, retryLimit)
          && (errors[last] == None ==> responses == [Served(forwarders[last])])
          && (errors[last] == Some(BodyTooLarge) ==> responses == [RequestTooLarge])
          && (errors[last] != None && errors[last] != Some(BodyTooLarge) ==> responses == [BadGateway])
        else |errors| == |forwarders| && responses == [ServiceUnavailable]
      ensures failedDials == Undialled(forwarders, errors)
      ensures reports == old(reports) + Reported(forwarders, errors)
      ensures forall f <- forwarders :: Times(failedDials, f) <= 1 + Clears(script, |errors|, f)
      ensures !IsSafeMethod(httpMethod) ==> |failedDials| <= 1
      ensures retryLimit.Some? ==> |failedDials| <= retryLimit.value + 1
    {
      hide Unavailables, GoesOn, Times, Clears, Touched, DialsBounded, Results, Undialled, Reported;
      ghost var safe := IsSafeMethod(httpMethod);
      ghost var failed := FailedOf(forwarders);
      assert FlagsAre(forwarders, FailedBefore(failed, forwarders, script, 0));
      hide FailedOf, FailedBefore, FlagsAre;
      errors := [];
      var retryCount: nat := 0;
      NothingTried(script, safe, retryLimit, forwarders);
      NothingSent(forwarders);
      var i := 0;
      while i < |forwarders|
        invariant 0 <= i <= |forwarders| && |errors| == i && responses == []
        invariant errors == Results(failed, forwarders, script)[..i]
        invariant FlagsAre(forwarders, FailedBefore(failed, forwarders, script, i))
        invariant GoesOn(errors, safe, retryLimit) && |failedDials| == Unavailables(errors)
        invariant failedDials == Undialled(forwarders, errors)
        invariant reports == old(reports) + Reported(forwarders, errors)
        invariant retryLimit.Some? ==> retryCount == Unavailables(errors)
        invariant DialsBounded(failedDials, script, i, forwarders)
      {
        TouchedIn(script, i);
        var f := forwarders[i];
        var error := TakeTurn(failed, forwarders, script, i);
        GoesOnNext(errors, error, safe, retryLimit);
        SentNext(forwarders, errors, error);
        RetriesBounded(errors, safe, retryLimit);
        errors := errors + [error];
        assert errors[..|errors| - 1] + [error] == errors;
        i := i + 1;
        DialsAtMost(failedDials, script, i, forwarders);
        if error.None? {
          responses := responses + [Served(f)];
          return;
        }
        match error.value
        case NodeUnavailable =>
          if !IsSafeMethod(httpMethod) {
            responses := responses + [BadGateway];
            return;
          }
          if retryLimit.Some? {
            if retryCount >= retryLimit.value {
              responses := responses + [BadGateway];
              return;
            }
            retryCount := retryCount + 1;
          }
        case NodeFailed =>
        case BodyTooLarge =>
          responses := responses + [RequestTooLarge];
          return;
        case _ =>
          responses := responses + [BadGateway];
          return;
      }
      RetriesBounded(errors, safe, retryLimit);
      DialsAtMost(failedDials, script, i, forwarders);
      responses := responses + [ServiceUnavailable];
    }

    /** What others do, then the use of the next forwarder. */
    method TakeTurn(ghost failed: set<Forwarder>, forwarders: seq<Forwarder>, script: seq<Turn>, i: nat)
      returns (error: Option<ForwardError>)
      requires i < |forwarders| <= |script| && DialsBounded(failedDials, script, i, forwarders)
      requires FlagsAre(forwarders, FailedBefore(failed, forwarders, script, i))
      modifies `reports, `failedDials, (set f | f in forwarders), script[i].cleared, script[i].raised
      ensures error == Results(failed, forwarders, script)[i]
      ensures FlagsAre(forwarders, FailedBefore(failed, forwarders, script, i + 1))
      ensures DialsBounded(failedDials, script, i + 1, forwarders)
      ensures failedDials == old(failedDials) + if error == Some(NodeUnavailable) then [forwarders[i]] else []
      ensures reports == old(reports)
                         + if error in {Some(NodeUnavailable), Some(UpstreamFailed)} then [forwarders[i].socketPath]
                           else []
    {
      hide Times, Clears;
      Interfere(script[i]);
      ClearsNext(script, i);
      assert DialsBounded(failedDials, script, i + 1, forwarders);
      assert FlagsAre(forwarders, FailedAt(failed, forwarders, script, i));
      ghost var dials := failedDials;
      error := Forward(forwarders[i], script[i].trip);
      TimesNext(dials, forwarders[i]);
    }

    /** What others do before a turn. */
    method Interfere(turn: Turn)
      modifies turn.cleared, turn.raised
      ensures forall f <- turn.raised :: f.isFailed
      ensures forall f <- turn.cleared :: f !in turn.raised ==> !f.isFailed
      ensures forall f: Forwarder | old(allocated(f)) && f !in turn.cleared && f !in turn.raised ::
              f.isFailed == old(f.isFailed)
    {
      forall f | f in turn.cleared {
        f.isFailed := false;
      }
      forall f | f in turn.raised {
        f.isFailed := true;
      }
    }
  }

  ghost function FailedOf(forwarders: seq<Forwarder>): set<Forwarder>
    reads set f | f in forwarders
  {
    set f | f in forwarders && f.isFailed
  }

  /** The flags that are up are those of `failed`. */
  ghost predicate FlagsAre(forwarders: seq<Forwarder>, failed: set<Forwarder>)
    reads set f | f in forwarders
  {
    forall f <- forwarders :: f.isFailed <==> f in failed
  }

  ghost function Touched(script: seq<Turn>): set<Forwarder> {
    set i, f | 0 <= i < |script| && f in script[i].cleared + script[i].raised :: f
  }

  lemma TouchedIn(script: seq<Turn>, i: nat)
    requires i < |script|
    ensures script[i].cleared <= Touched(script) && script[i].raised <= Touched(script)
  {
    forall f | f in script[i].cleared + script[i].raised ensures f in Touched(script) {
    }
  }

  /** A node's failed dials so far: none while its flag is down, but for the times it was cleared. */
  ghost predicate DialsBounded(dials: seq<Forwarder>, script: seq<Turn>, n: nat, forwarders: seq<Forwarder>)
    requires n <= |script|
    reads set f | f in forwarders
  {
    forall f <- forwarders :: Times(dials, f) <= Clears(script, n, f) + if f.isFailed then 1 else 0
  }

  lemma DialsAtMost(dials: seq<Forwarder>, script: seq<Turn>, n: nat, forwarders: seq<Forwarder>)
    requires n <= |script| && DialsBounded(dials, script, n, forwarders)
    ensures forall f <- forwarders :: Times(dials, f) <= 1 + Clears(script, n, f)
  {
  }

  lemma NothingTried(script: seq<Turn>, safe: bool, limit: Option<nat>, forwarders: seq<Forwarder>)
    ensures GoesOn([], safe, limit) && Unavailables([]) == 0
    ensures DialsBounded([], script, 0, forwarders)
  {
  }

  lemma NothingSent(forwarders: seq<Forwarder>)
    ensures Undialled(forwarders, []) == [] && Reported(forwarders, []) == []
  {
  }

  lemma SentNext(forwarders: seq<Forwarder>, errors: seq<Option<ForwardError>>, error: Option<ForwardError>)
    requires |errors| < |forwarders|
    ensures Undialled(forwarders, errors + [error]) ==
            Undialled(forwarders, errors) + if error == Some(NodeUnavailable) then [forwarders[|errors|]] else []
    ensures var sent := error in {Some(NodeUnavailable), Some(UpstreamFailed)};
            Reported(forwarders, errors + [error]) ==
            Reported(forwarders, errors) + if sent then [forwarders[|errors|].socketPath] else []
  {
    assert (errors + [error])[..|errors|] == errors;
  }

  lemma ClearsNext(script: seq<Turn>, n: nat)
    requires n < |script|
    ensures forall f <- script[n].cleared :: Clears(script, n + 1, f) == Clears(script, n, f) + 1
    ensures forall f: Forwarder :: f !in script[n].cleared ==> Clears(script, n + 1, f) == Clears(script, n, f)
  {
  }

  lemma TimesNext(s: seq<Forwarder>, f: Forwarder)
    ensures forall g: Forwarder :: Times(s + [f], g) == Times(s, g) + if g == f then 1 else 0
  {
    assert (s + [f])[..|s|] == s;
  }

  lemma GoesOnNext(errors: seq<Option<ForwardError>>, error: Option<ForwardError>, safe: bool, limit: Option<nat>)
    requires GoesOn(errors, safe, limit)
    ensures GoesOn(errors + [error], safe, limit) <==>
      error == Some(NodeFailed)
        || (error == Some(NodeUnavailable) && safe && (limit.Some? ==> Unavailables(errors) < limit.value))
    ensures Unavailables(errors + [error]) == Unavailables(errors) + if error == Some(NodeUnavailable) then 1 else 0
  {
    assert (errors + [error])[..|errors|] == errors;
  }
}
