/**
 Which histories of a run lose a failure.  A promotion finds a failure lost exactly when the
 node's forwarder failed, was not reconnected since, and every report about the node sent from
 then on has been handled.
 */
module FailureHistory {
  import opened Balancing
  import opened RegistryState
  import opened SocketPaths
  import opened RegistryScans
  import opened Registries
  import opened FailureProtocol

  /** The number of reports handled by the steps from `i` to before `j`. */
  ghost function Handled(steps: seq<Step>, i: nat, j: nat): nat
    requires i <= j <= |steps|
    decreases j
  {
    if i == j then 0 else Handled(steps, i, j - 1) + if steps[j - 1].Handles? then 1 else 0
  }

  /** Step `i` raises the flag of `f` and sends a report. */
  ghost predicate Raises(states: seq<State>, steps: seq<Step>, i: int, f: Forwarder) {
    0 <= i < |steps| && i < |states| && steps[i].Fails? && steps[i].f == f && f !in states[i].failed
  }

  /** Step `i` sends a report about `p`. */
  ghost predicate Sends(states: seq<State>, steps: seq<Step>, i: int, p: string) {
    0 <= i < |steps| && i < |states| && steps[i].Fails? && steps[i].f !in states[i].failed && steps[i].f.socketPath == p
  }

  /** The report that step `i` sends is handled before step `b`: reports are handled in order. */
  ghost predicate HandledBy(states: seq<State>, steps: seq<Step>, i: int, b: int) {
    0 <= i < b <= |steps| && i < |states| && Handled(steps, i + 1, b) > |states[i].failures|
  }

  ghost predicate Reconnects(steps: seq<Step>, j: int, f: Forwarder) {
    0 <= j < |steps| && steps[j].Clears? && steps[j].f == f
  }

  /** The failure of `f` at step `i` is lost before step `b`. */
  ghost predicate Lost(states: seq<State>, steps: seq<Step>, i: int, b: int, f: Forwarder) {
    && i < b && Raises(states, steps, i, f)
    && (forall j :: i < j < b ==> !Reconnects(steps, j, f))
    && (forall j :: i <= j < b && Sends(states, steps, j, f.socketPath) ==> HandledBy(states, steps, j, b))
  }

  // ---------------------------------------------------------------- flags

  /** What a step does to the flags and the reports. */
  lemma StepEffect(s: State, e: Step, s': State)
    requires Takes(s, e, s')
    ensures s'.failed == if e.Fails? then s.failed + {e.f} else if e.Clears? then s.failed - {e.f} else s.failed
    ensures s'.failures ==
            if e.Fails? && e.f !in s.failed then s.failures + [Failure(e.f.socketPath, e.refused)]
            else if e.Handles? then s.failures[1..] else s.failures
    ensures e.Handles? ==> s.failures != []
  {
    hide Scanned, Reported, Promoted, RemovedFromUnhealthy, Gone, StrategySet;
  }

  /** A raised flag stays raised until it is cleared. */
  lemma {:induction false} StaysRaised(states: seq<State>, steps: seq<Step>, i: nat, b: nat, f: Forwarder)
    requires Run(states, steps) && Raises(states, steps, i, f) && i < b <= |steps|
    requires forall j :: i < j < b ==> !Reconnects(steps, j, f)
    ensures f in states[b].failed
    decreases b
  {
    hide Takes;
    StepEffect(states[b - 1], steps[b - 1], states[b]);
    if b > i + 1 {
      StaysRaised(states, steps, i, b - 1, f);
      assert !Reconnects(steps, b - 1, f);
    }
  }

  /** A flag that is up has been raised since it was down, and not cleared since. */
  lemma {:induction false} RaisedAt(states: seq<State>, steps: seq<Step>, r: nat, b: nat, f: Forwarder) returns (i: nat)
    requires Run(states, steps) && r <= b <= |steps| && f !in states[r].failed && f in states[b].failed
    ensures r <= i < b && Raises(states, steps, i, f)
    ensures forall j :: i < j < b ==> !Reconnects(steps, j, f)
    decreases b
  {
    hide Takes;
    StepEffect(states[b - 1], steps[b - 1], states[b]);
    if f in states[b - 1].failed {
      i := RaisedAt(states, steps, r, b - 1, f);
    } else {
      i := b - 1;
    }
  }

  // ---------------------------------------------------------------- reports

  /** An unhandled report is under way. */
  lemma {:induction false} ReportStays(states: seq<State>, steps: seq<Step>, i: nat, b: nat, p: string)
    requires Run(states, steps) && Sends(states, steps, i, p) && i < b <= |steps| && !HandledBy(states, steps, i, b)
    ensures var x := |states[i].failures| - Handled(steps, i + 1, b);
            0 <= x < |states[b].failures| && states[b].failures[x].socketPath == p
    decreases b
  {
    hide Takes;
    StepEffect(states[b - 1], steps[b - 1], states[b]);
    if b > i + 1 {
      ReportStays(states, steps, i, b - 1, p);
    }
  }

  /** A report under way was sent by step `i` or later, or waited before. */
  lemma {:induction false} ReportFrom(states: seq<State>, steps: seq<Step>, i: nat, b: nat, x: nat) returns (j: nat)
    requires Run(states, steps) && i < b <= |steps| && x < |states[b].failures|
    requires x + Handled(steps, i + 1, b) >= |states[i].failures| && !steps[i].Handles?
    ensures i <= j < b && Sends(states, steps, j, states[b].failures[x].socketPath)
    ensures Handled(steps, j + 1, b) + x == |states[j].failures|
    decreases b
  {
    hide Takes;
    var last := b - 1;
    StepEffect(states[last], steps[last], states[b]);
    if steps[last].Handles? {
      j := ReportFrom(states, steps, i, last, x + 1);
    } else if x < |states[last].failures| && last > i {
      j := ReportFrom(states, steps, i, last, x);
    } else {
      j := last;
    }
  }

  /** Reports about the node are under way exactly when one sent since is not handled. */
  lemma PendingIff(states: seq<State>, steps: seq<Step>, i: nat, b: nat, p: string)
    requires Run(states, steps) && i < b <= |steps| && Sends(states, steps, i, p)
    ensures Pending(states[b].failures, p) <==>
            exists j :: i <= j < b && Sends(states, steps, j, p) && !HandledBy(states, steps, j, b)
  {
    hide Takes;
    if j :| i <= j < b && Sends(states, steps, j, p) && !HandledBy(states, steps, j, b) {
      ReportStays(states, steps, j, b, p);
    }
    if Pending(states[b].failures, p) && HandledBy(states, steps, i, b) {
      var f :| f in states[b].failures && f.socketPath == p;
      var x :| 0 <= x < |states[b].failures| && states[b].failures[x] == f;
      var j := ReportFrom(states, steps, i, b, x);
    }
  }

  // ---------------------------------------------------------------- registrations

  /** A registered node keeps its forwarder, or has a new one that has not failed. */
  lemma NodeKept(s: State, e: Step, s': State, p: string)
    requires Takes(s, e, s') && p in s'.view.nodeMap
    ensures (p in s.view.nodeMap && s.view.nodeMap[p].forwarder == s'.view.nodeMap[p].forwarder)
            || s'.view.nodeMap[p].forwarder !in s'.failed
  {
    hide Ok, StrategiesAfter, Kept, Down, Rebuilt, Shrunk, OwnerOf;
  }

  /** Since its reconnection the node's forwarder, also a new one, was unfailed at some time. */
  lemma {:induction false} UnfailedSince(states: seq<State>, steps: seq<Step>, a: nat, b: nat, p: string)
    returns (r: nat)
    requires Run(states, steps) && a < b <= |steps| && p in states[a].view.nodeMap
    requires Reconnects(steps, a, states[a].view.nodeMap[p].forwarder)
    requires p in states[b].view.nodeMap
    ensures a < r <= b && states[b].view.nodeMap[p].forwarder !in states[r].failed
    decreases b
  {
    hide Takes;
    var last := b - 1;
    var f := states[b].view.nodeMap[p].forwarder;
    NodeKept(states[last], steps[last], states[b], p);
    if f !in states[b].failed {
      r := b;
    } else if last == a {
      StepEffect(states[a], steps[a], states[b]);
      r := b;
    } else {
      r := UnfailedSince(states, steps, a, last, p);
    }
  }

  // ---------------------------------------------------------------- the result

  /** No failure of the node is lost when step `b` promotes it. */
  ghost predicate Unharmed(states: seq<State>, steps: seq<Step>, b: int) {
    0 <= b < |steps| && b < |states| && steps[b].Promotes? ==>
      && steps[b].path in states[b].view.nodeMap
      && forall i :: 0 <= i < b ==> !Lost(states, steps, i, b, states[b].view.nodeMap[steps[b].path].forwarder)
  }

  /** Every promotion follows a reconnection of its node. */
  ghost predicate Retries(states: seq<State>, steps: seq<Step>) {
    |states| == |steps| + 1 && forall b :: 0 <= b < |steps| && steps[b].Promotes? ==>
      exists a :: Reconnected(states, steps, a, b)
  }

  ghost predicate Reconnected(states: seq<State>, steps: seq<Step>, a: int, b: int)
    requires 0 <= b < |steps| && steps[b].Promotes? && |states| == |steps| + 1
  {
    && 0 <= a < b && steps[b].path in states[a].view.nodeMap
    && Reconnects(steps, a, states[a].view.nodeMap[steps[b].path].forwarder)
  }

  /** A promotion is fair exactly when the history before it has lost no failure of its node. */
  lemma FairIff(states: seq<State>, steps: seq<Step>, a: nat, b: nat)
    requires Run(states, steps) && b < |steps| && steps[b].Promotes? && Reconnected(states, steps, a, b)
    requires SoundState(states[b])
    ensures Fair(states[b], steps[b]) <==> Unharmed(states, steps, b)
  {
    hide Takes, Ok, Pending, Down, Lossless;
    var p := steps[b].path;
    if p in states[b].view.nodeMap {
      OwnPaths(states[b].view);
      var f := states[b].view.nodeMap[p].forwarder;
      var r := UnfailedSince(states, steps, a, b, p);
      if f in states[b].failed && !Pending(states[b].failures, p) {
        var i := RaisedAt(states, steps, r, b, f);
        PendingIff(states, steps, i, b, p);
        assert Lost(states, steps, i, b, f);
      }
      if i :| 0 <= i < b && Lost(states, steps, i, b, f) {
        StaysRaised(states, steps, i, b, f);
        PendingIff(states, steps, i, b, p);
      }
    }
  }

  lemma {:induction false} SoundWhileUnharmed(states: seq<State>, steps: seq<Step>, k: nat)
    requires Run(states, steps) && SoundState(states[0]) && Retries(states, steps) && k <= |steps|
    requires forall b :: 0 <= b < k ==> Unharmed(states, steps, b)
    ensures SoundState(states[k])
    decreases k
  {
    hide SoundState, Takes, Unharmed;
    if k > 0 {
      var b := k - 1;
      SoundWhileUnharmed(states, steps, b);
      if steps[b].Promotes? {
        var a: nat :| Reconnected(states, steps, a, b);
        FairIff(states, steps, a, b);
      }
      StepSoundIff(states[b], steps[b], states[k]);
    }
  }

  /** A run that begins sound, and promotes only what it has reconnected, is sound throughout if
      and only if no promotion finds its node gone or a failure of it lost. */
  lemma RunSoundHistory(states: seq<State>, steps: seq<Step>)
    requires Run(states, steps) && SoundState(states[0]) && Retries(states, steps)
    ensures (forall i :: 0 <= i <= |steps| ==> SoundState(states[i])) <==>
              forall b :: 0 <= b < |steps| ==> Unharmed(states, steps, b)
  {
    hide SoundState, Takes, Unharmed, Fair;
    if forall b :: 0 <= b < |steps| ==> Unharmed(states, steps, b) {
      forall i | 0 <= i <= |steps| ensures SoundState(states[i]) {
        SoundWhileUnharmed(states, steps, i);
      }
    }
    if forall i :: 0 <= i <= |steps| ==> SoundState(states[i]) {
      RunSoundIff(states, steps);
      forall b | 0 <= b < |steps| ensures Unharmed(states, steps, b) {
        if steps[b].Promotes? {
          var a: nat :| Reconnected(states, steps, a, b);
          FairIff(states, steps, a, b);
        } else {
          NoPromotion(states, steps, b);
        }
      }
    }
  }

  lemma NoPromotion(states: seq<State>, steps: seq<Step>, b: nat)
    requires b < |steps| && !steps[b].Promotes?
    ensures Unharmed(states, steps, b)
  {
  }
}
