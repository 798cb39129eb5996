/**
 The watcher's wake-up protocol: any number of markers put services into the dirty set and
 then raise a one-slot signal without waiting; the worker takes the signal, swaps the set
 for an empty one and scans what it took.  Every interleaving of these atomic steps is a run.
 */
module DirtyServices {

  datatype WorkerPhase = Waiting | Woken | Scanning(left: set<string>)

  /** A mark, with the number of scans begun before it. */
  datatype Mark = Mark(service: string, scansBefore: nat)

  /** `inserted` are the markers that have put their service in and not yet signalled. */
  datatype State = State(dirty: set<string>, signal: bool, inserted: set<nat>, worker: WorkerPhase,
                         scans: seq<string>, marks: seq<Mark>)

  datatype Event = Insert(marker: nat, service: string) | Signal(marker: nat)
                 | Receive | Swap | Scan(service: string) | Finish

  const START := State({}, false, {}, Waiting, [], [])

  predicate Ignored(service: string) {
    service == "" || service == "."
  }

  predicate Enabled(s: State, e: Event) {
    match e
    case Insert(m, service) => m !in s.inserted && !Ignored(service)
    case Signal(m) => m in s.inserted
    case Receive => s.worker.Waiting? && s.signal
    case Swap => s.worker.Woken?
    case Scan(service) => s.worker.Scanning? && service in s.worker.left
    case Finish => s.worker == Scanning({})
  }

  function Next(s: State, e: Event): State
    requires Enabled(s, e)
  {
    match e
    case Insert(m, service) =>
      s.(dirty := s.dirty + {service}, inserted := s.inserted + {m}, marks := s.marks + [Mark(service, |s.scans|)])
    case Signal(m) => s.(signal := true, inserted := s.inserted - {m})
    case Receive => s.(signal := false, worker := Woken)
    case Swap => s.(dirty := {}, worker := Scanning(s.dirty))
    case Scan(service) => s.(worker := Scanning(s.worker.left - {service}), scans := s.scans + [service])
    case Finish => s.(worker := Waiting)
  }

  /** A dirty set is never forgotten: a signal is there, or the worker is between taking one
      and swapping, or a marker is about to signal. */
  predicate Remembered(s: State) {
    s.dirty != {} ==> s.signal || s.worker.Woken? || s.inserted != {}
  }

  /** The mark still waits in the set, or is in the batch being worked off, or a scan of its
      service began after it. */
  ghost predicate Kept(s: State, mark: Mark) {
    || mark.service in s.dirty
    || (s.worker.Scanning? && mark.service in s.worker.left)
    || exists k :: mark.scansBefore <= k < |s.scans| && s.scans[k] == mark.service
  }

  ghost predicate Inv(s: State) {
    && Remembered(s)
    && (forall m <- s.marks :: m.scansBefore <= |s.scans|)
    && (forall m <- s.marks :: Kept(s, m))
  }

  /** `states` is what the `events` lead through, from the start. */
  ghost predicate Run(states: seq<State>, events: seq<Event>) {
    && |states| == |events| + 1
    && states[0] == START
    && forall i :: 0 <= i < |events| ==> Enabled(states[i], events[i]) && states[i + 1] == Next(states[i], events[i])
  }

  lemma KeptStep(s: State, e: Event, m: Mark)
    requires Enabled(s, e) && m.scansBefore <= |s.scans| && Kept(s, m)
    ensures Kept(Next(s, e), m)
  {
    var s' := Next(s, e);
    if exists k :: m.scansBefore <= k < |s.scans| && s.scans[k] == m.service {
      var k :| m.scansBefore <= k < |s.scans| && s.scans[k] == m.service;
      assert s'.scans[k] == m.service;
    } else if e == Scan(m.service) {
      assert s'.scans[|s.scans|] == m.service;
    }
  }

  lemma InvStep(s: State, e: Event)
    requires Inv(s) && Enabled(s, e)
    ensures Inv(Next(s, e))
  {
    hide Kept;
    var s' := Next(s, e);
    forall m <- s'.marks ensures m.scansBefore <= |s'.scans| && Kept(s', m) {
      if m in s.marks {
        KeptStep(s, e, m);
      } else {
        NewMark(s, e, m);
      }
    }
  }

  lemma NewMark(s: State, e: Event, m: Mark)
    requires Enabled(s, e) && m in Next(s, e).marks && m !in s.marks
    ensures Kept(Next(s, e), m) && m.scansBefore <= |s.scans|
  {
  }

  /** In every run nothing is forgotten. */
  lemma {:induction false} NothingForgotten(states: seq<State>, events: seq<Event>)
    requires Run(states, events)
    ensures Inv(states[|events|])
    decreases |events|
  {
    hide Inv, Enabled, Next;
    if events == [] {
      StartInv();
    } else {
      var last := |events| - 1;
      NothingForgotten(states[..last + 1], events[..last]);
      InvStep(states[last], events[last]);
    }
  }

  lemma StartInv()
    ensures Inv(START)
  {
  }

  /** When everything has come to rest, a scan of every marked service began after its mark. */
  lemma RestMeansScanned(states: seq<State>, events: seq<Event>, m: Mark)
    requires Run(states, events)
    requires var s := states[|events|]; s.worker.Waiting? && !s.signal && s.inserted == {} && m in s.marks
    ensures var s := states[|events|]; exists k :: m.scansBefore <= k < |s.scans| && s.scans[k] == m.service
  {
    NothingForgotten(states, events);
    assert Kept(states[|events|], m);
  }

  /** How far the worker is from taking the dirty set: the steps of its own still to come,
      with one more before them while only a marker remembers the set. */
  function Distance(s: State): nat {
    if s.worker.Woken? then 1
    else (if s.signal then 2 else 3) + match s.worker { case Scanning(left) => |left| + 1 case _ => 0 }
  }

  /** While the set is dirty the worker is never stuck: a step of its own is enabled, or it
      waits for a marker that can signal; each such step brings it nearer to taking the set,
      and no marker's step takes it further away. */
  lemma NearerToTheSet(s: State, e: Event)
    requires Inv(s) && Enabled(s, e) && s.dirty != {}
    ensures e.Receive? || e.Scan? || e.Finish? ==> Distance(Next(s, e)) < Distance(s)
    ensures e.Signal? || e.Insert? ==> Distance(Next(s, e)) <= Distance(s)
    ensures e.Swap? ==> Next(s, e).dirty == {} && Next(s, e).worker == Scanning(s.dirty)
    ensures !e.Swap? ==> s.dirty <= Next(s, e).dirty
  {
  }

  lemma NeverStuck(s: State)
    requires Inv(s) && s.dirty != {}
    ensures || Enabled(s, Swap) || Enabled(s, Finish) || Enabled(s, Receive)
            || (exists svc :: Enabled(s, Scan(svc)))
            || (!s.signal && exists m :: Enabled(s, Signal(m)) && Distance(Next(s, Signal(m))) < Distance(s))
  {
    if s.worker.Scanning? && s.worker.left != {} {
      var svc :| svc in s.worker.left;
      assert Enabled(s, Scan(svc));
    } else if s.worker.Waiting? && !s.signal {
      var m :| m in s.inserted;
      assert Enabled(s, Signal(m));
    }
  }

  /** The watcher's own code, one method for each atomic step. */
  class Watcher {
    var dirtyServices: set<string>
    var eventSignal: bool
    var toScan: set<string>
    ghost var state: State

    ghost predicate Valid()
      reads this
    {
      && Inv(state) && state.dirty == dirtyServices && state.signal == eventSignal
      && (state.worker.Scanning? ==> state.worker.left == toScan)
    }

    constructor ()
      ensures Valid() && state == START
    {
      dirtyServices, eventSignal, toScan, state := {}, false, {}, START;
    }

    /** A marker's first step, under the lock; a service that is no service is left alone. */
    method Insert(service: string, ghost marker: nat) returns (marked: bool)
      requires Valid() && marker !in state.inserted
      modifies this
      ensures Valid() && (marked <==> service != "" && service != ".")
      ensures marked ==> dirtyServices == old(dirtyServices) + {service} && Mark(service, |state.scans|) in state.marks
      ensures !marked ==> dirtyServices == old(dirtyServices)
      ensures state == if marked then Next(old(state), Event.Insert(marker, service)) else old(state)
    {
      hide Inv;
      if service == "" || service == "." {
        return false;
      }
      InvStep(state, Event.Insert(marker, service));
      dirtyServices := dirtyServices + {service};
      state := Next(state, Event.Insert(marker, service));
      return true;
    }

    /** Its second step: the signal is raised unless it is up already. */
    method TrySignal(ghost marker: nat)
      requires Valid() && Enabled(state, Signal(marker))
      modifies this
      ensures Valid() && state == Next(old(state), Signal(marker))
    {
      hide Inv;
      InvStep(state, Signal(marker));
      if !eventSignal {
        eventSignal := true;
      }
      state := Next(state, Signal(marker));
    }

    method ReceiveSignal()
      requires Valid() && Enabled(state, Receive)
      modifies this
      ensures Valid() && state == Next(old(state), Receive)
    {
      hide Inv;
      InvStep(state, Receive);
      eventSignal := false;
      state := Next(state, Receive);
    }

    /** The worker takes the whole set, under the lock. */
    method TakeBatch()
      requires Valid() && Enabled(state, Swap)
      modifies this
      ensures Valid() && state == Next(old(state), Swap)
      ensures toScan == old(dirtyServices) && dirtyServices == {}
    {
      hide Inv;
      InvStep(state, Swap);
      toScan := dirtyServices;
      dirtyServices := {};
      state := Next(state, Swap);
    }

    /** One service of the batch is scanned. */
    method ScanOne() returns (service: string)
      requires Valid() && state.worker.Scanning? && toScan != {}
      modifies this
      ensures service in old(toScan) && Valid() && state == Next(old(state), Scan(service))
    {
      hide Inv;
      service :| service in toScan;
      InvStep(state, Scan(service));
      toScan := toScan - {service};
      state := Next(state, Scan(service));
    }

    method FinishBatch()
      requires Valid() && state.worker.Scanning? && toScan == {}
      modifies this
      ensures Valid() && state == Next(old(state), Finish)
    {
      hide Inv;
      InvStep(state, Finish);
      state := Next(state, Finish);
    }
  }
}
