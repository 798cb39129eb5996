/**
 Forwarders and the two load balancers over them: the weighted round robin, whose list is
 one cycle of the smooth schedule, and the least-in-flight one.
 */
module Balancing {
  import opened Common
  import opened SmoothSchedule
  import opened SocketPaths

  /** A backend node.  `isFailed` is the flag raised by the first failed use. */
  class Forwarder {
    const serviceName: string
    const socketPath: string
    const weight: Weight
    var isFailed: bool

    constructor (serviceName: string, socketPath: string, weight: Weight)
      ensures this.serviceName == serviceName && this.socketPath == socketPath && this.weight == weight
      ensures !isFailed
    {
      this.serviceName, this.socketPath, this.weight := serviceName, socketPath, weight;
      isFailed := false;
    }
  }

  function WeightsOf(forwarders: seq<Forwarder>): (weights: seq<nat>)
    ensures |weights| == |forwarders| && forall i :: 0 <= i < |weights| ==> weights[i] == forwarders[i].weight
  {
    seq(|forwarders|, i requires 0 <= i < |forwarders| => forwarders[i].weight as nat)
  }

  /** The forwarders at the given places. */
  function Chosen(forwarders: seq<Forwarder>, picks: seq<nat>): (r: seq<Forwarder>)
    requires forall i :: 0 <= i < |picks| ==> picks[i] < |forwarders|
    ensures |r| == |picks| && forall i :: 0 <= i < |r| ==> r[i] == forwarders[picks[i]]
  {
    if picks == [] then [] else Chosen(forwarders, picks[..|picks| - 1]) + [forwarders[picks[|picks| - 1]]]
  }

  /** The list a round robin over `forwarders` goes round: one cycle of the smooth schedule. */
  function Schedule(forwarders: seq<Forwarder>): seq<Forwarder> {
    if forwarders == [] then []
    else Chosen(forwarders, Picks(WeightsOf(forwarders), Cycle(forwarders)))
  }

  /** The length of a cycle: the sum of the weights. */
  function Cycle(forwarders: seq<Forwarder>): (n: nat)
    ensures n >= |forwarders|
  {
    SumAtLeast(WeightsOf(forwarders), 1);
    Sum(WeightsOf(forwarders))
  }

  /** `s` from place `start` on, then from the front. */
  function Rotated<T>(s: seq<T>, start: nat): (r: seq<T>)
    requires start <= |s|
    ensures |r| == |s| && multiset(r) == multiset(s)
    ensures forall i :: 0 <= i < |s| ==> r[i] == s[if start + i < |s| then start + i else start + i - |s|]
  {
    assert s == s[..start] + s[start..];
    s[start..] + s[..start]
  }

  const CURSORS := 0x1_0000_0000

  function Next(cursor: uint32): uint32 {
    (cursor + 1) % CURSORS
  }

  class RoundRobin {
    const forwarders: seq<Forwarder>
    var cursor: uint32

    constructor (forwarders: seq<Forwarder>)
      ensures this.forwarders == forwarders && cursor == 0
    {
      this.forwarders, cursor := forwarders, 0;
    }

    /** The whole cycle, starting one place further than the last time. */
    method Get() returns (result: seq<Forwarder>)
      modifies `cursor
      ensures forwarders == [] ==> result == [] && cursor == old(cursor)
      ensures forwarders != [] ==> cursor == Next(old(cursor)) && result == Rotated(forwarders, cursor % |forwarders|)
      ensures multiset(result) == multiset(forwarders)
    {
      var n := |forwarders|;
      if n == 0 {
        return [];
      }
      cursor := (cursor + 1) % CURSORS;
      var start := cursor % n;
      result := forwarders[start..];
      result := result + forwarders[..start];
      assert result == Rotated(forwarders, start);
    }
  }

  /** Builds the schedule round by round; equal weights of one take a short cut. */
  method NewRoundRobin(forwarders: seq<Forwarder>) returns (rr: RoundRobin)
    ensures fresh(rr) && rr.forwarders == Schedule(forwarders) && rr.cursor == 0
  {
    hide Sum, BestOf, Picks, Holdings, Gained, Pick, Paid, Zeros;
    var n := |forwarders|;
    if n == 0 {
      rr := new RoundRobin([]);
      return;
    }

    var weights := WeightsOf(forwarders);
    var total := 0;
    SumNone(weights);
    var i := 0;
    while i < n
      invariant 0 <= i <= n && total == Sum(weights[..i])
    {
      SumNext(weights, i);
      total := total + forwarders[i].weight;
      i := i + 1;
    }
    assert weights[..n] == weights;
    assert total == Cycle(forwarders);

    if total == n {
      ShortcutAgrees(forwarders);
      rr := new RoundRobin(forwarders);
      return;
    }

    var current := new int[n](_ => 0);
    HoldingsStart(weights);
    assert current[..] == Holdings(weights, 0);
    var expanded: seq<Forwarder> := [];
    var round := 0;
    while round < total
      invariant 0 <= round <= total
      invariant current[..] == Holdings(weights, round)
      invariant expanded == Chosen(forwarders, Picks(weights, round))
    {
      var best := PlayRound(weights, current);
      expanded := expanded + [forwarders[best]];
      HoldingsNext(weights, round + 1);
      ChosenNext(forwarders, Picks(weights, round), best);
      round := round + 1;
    }
    rr := new RoundRobin(expanded);
  }

  /** One round of the schedule over `current`, in place. */
  method PlayRound(weights: seq<nat>, current: array<int>) returns (best: nat)
    requires |weights| == current.Length > 0
    modifies current
    ensures best == Pick(weights, old(current[..]))
    ensures current[..] == Paid(weights, old(current[..]))
  {
    hide Sum, Gained, Pick, Paid, BestOf;
    ghost var was := current[..];
    ghost var gained := Gained(was, weights);
    var found := false;
    best := 0;
    for i := 0 to current.Length
      invariant found == (i > 0)
      invariant i > 0 ==> best == BestOf(gained, i)
      invariant i == 0 ==> best == 0
      invariant forall j :: 0 <= j < i ==> current[j] == gained[j]
      invariant forall j :: i <= j < current.Length ==> current[j] == was[j]
    {
      current[i] := current[i] + weights[i];
      BestNext(gained, i);
      if !found || current[i] > current[best] {
        best := i;
        found := true;
      }
    }
    var total := Total(weights);
    assert current[..] == gained;
    RoundIs(weights, was);
    current[best] := current[best] - total;
  }

  function Total(weights: seq<nat>): int {
    Sum(weights)
  }

  lemma SumNone(weights: seq<nat>)
    ensures Sum(weights[..0]) == 0
  {
  }

  lemma BestNext(gained: seq<int>, i: nat)
    requires i < |gained|
    ensures BestOf(gained, i + 1) == if i == 0 || gained[i] > gained[BestOf(gained, i)] then i else BestOf(gained, i)
  {
  }

  lemma RoundIs(weights: seq<nat>, current: seq<int>)
    requires |weights| == |current| > 0
    ensures Pick(weights, current) == BestOf(Gained(current, weights), |weights|)
    ensures var g, best := Gained(current, weights), Pick(weights, current);
            Paid(weights, current) == g[best := g[best] - Sum(weights)]
  {
    hide Sum, BestOf, Gained;
  }

  lemma SumNext(weights: seq<nat>, i: nat)
    requires i < |weights|
    ensures Sum(weights[..i + 1]) == Sum(weights[..i]) + weights[i]
  {
    assert weights[..i + 1][..i] == weights[..i];
  }

  lemma HoldingsStart(weights: seq<nat>)
    requires weights != []
    ensures Picks(weights, 0) == [] && forall i :: 0 <= i < |weights| ==> Holdings(weights, 0)[i] == 0
  {
  }

  lemma HoldingsNext(weights: seq<nat>, k: nat)
    requires weights != [] && k > 0
    ensures Holdings(weights, k) == Paid(weights, Holdings(weights, k - 1))
    ensures Picks(weights, k) == Picks(weights, k - 1) + [Pick(weights, Holdings(weights, k - 1))]
  {
    hide Sum, BestOf, Gained, Pick, Paid, Zeros;
  }

  lemma ChosenNext(forwarders: seq<Forwarder>, picks: seq<nat>, best: nat)
    requires best < |forwarders| && forall i :: 0 <= i < |picks| ==> picks[i] < |forwarders|
    ensures Chosen(forwarders, picks + [best]) == Chosen(forwarders, picks) + [forwarders[best]]
  {
    assert (picks + [best])[..|picks|] == picks;
  }

  /** When the weights add up to the number of nodes, the schedule is the list itself. */
  lemma ShortcutAgrees(forwarders: seq<Forwarder>)
    requires Cycle(forwarders) == |forwarders|
    ensures Schedule(forwarders) == forwarders
  {
    hide Sum, BestOf, Picks, Holdings, Gained, Pick, Paid, Zeros;
    if forwarders != [] {
      var weights := WeightsOf(forwarders);
      forall j | 0 <= j < |weights| ensures weights[j] == 1 {
        AllOnes(weights, j);
      }
      EqualWeightsInOrder(weights, |weights|);
    }
  }

  ghost predicate Distinct<T>(s: seq<T>) {
    forall i, j :: 0 <= i < j < |s| ==> s[i] != s[j]
  }

  /** One cycle holds every node exactly as often as its weight says, and nothing else. */
  lemma ScheduleServes(forwarders: seq<Forwarder>, f: Forwarder)
    requires Distinct(forwarders)
    ensures multiset(Schedule(forwarders))[f] == if f in forwarders then f.weight else 0
  {
    hide Sum, Picks, Holdings;
    if forwarders != [] {
      var weights := WeightsOf(forwarders);
      var picks := Picks(weights, Cycle(forwarders));
      if f in forwarders {
        var i: nat :| i < |forwarders| && forwarders[i] == f;
        CycleServesWeights(weights, i);
        ChosenCount(forwarders, picks, i);
      } else {
        ChosenFrom(forwarders, picks, f);
      }
    }
  }

  lemma ChosenFrom(forwarders: seq<Forwarder>, picks: seq<nat>, f: Forwarder)
    requires forall i :: 0 <= i < |picks| ==> picks[i] < |forwarders|
    requires f !in forwarders
    ensures multiset(Chosen(forwarders, picks))[f] == 0
  {
    var r := Chosen(forwarders, picks);
    assert f !in r;
  }

  lemma {:induction false} ChosenCount(forwarders: seq<Forwarder>, picks: seq<nat>, i: nat)
    requires Distinct(forwarders) && i < |forwarders|
    requires forall j :: 0 <= j < |picks| ==> picks[j] < |forwarders|
    ensures multiset(Chosen(forwarders, picks))[forwarders[i]] == Count(picks, i)
    decreases |picks|
  {
    if picks != [] {
      var last := |picks| - 1;
      ChosenCount(forwarders, picks[..last], i);
    }
  }

  lemma {:induction false} PicksPrefix(weights: seq<nat>, k: nat, n: nat)
    requires weights != [] && k <= n
    ensures Picks(weights, n)[..k] == Picks(weights, k)
    decreases n
  {
    hide Picks, Holdings;
    if k < n {
      PicksPrefix(weights, k, n - 1);
      PicksNext(weights, n);
      assert Picks(weights, n)[..k] == Picks(weights, n)[..n - 1][..k];
    }
  }

  lemma PicksNext(weights: seq<nat>, n: nat)
    requires weights != [] && n > 0
    ensures Picks(weights, n)[..n - 1] == Picks(weights, n - 1)
  {
    hide Holdings;
    assert |Picks(weights, n - 1)| == n - 1;
  }

  lemma {:induction false} ChosenPrefix(forwarders: seq<Forwarder>, picks: seq<nat>, k: nat)
    requires k <= |picks| && forall j :: 0 <= j < |picks| ==> picks[j] < |forwarders|
    ensures Chosen(forwarders, picks)[..k] == Chosen(forwarders, picks[..k])
  {
  }

  /** Wherever the list is cut, each node has had less than one turn more than its share, and
      less than `n - 1` turns less. */
  lemma ScheduleFair(forwarders: seq<Forwarder>, k: nat, i: nat)
    requires Distinct(forwarders) && i < |forwarders| && k <= |Schedule(forwarders)|
    ensures var total := Cycle(forwarders);
            var turns := multiset(Schedule(forwarders)[..k])[forwarders[i]];
            && total * turns < k * forwarders[i].weight + total
            && (|forwarders| > 1 ==> total * turns > k * forwarders[i].weight - (|forwarders| - 1) * total)
  {
    hide Sum, Picks, Holdings, Chosen;
    var weights := WeightsOf(forwarders);
    var picks := Picks(weights, Cycle(forwarders));
    PicksPrefix(weights, k, Cycle(forwarders));
    ChosenPrefix(forwarders, picks, k);
    ChosenCount(forwarders, Picks(weights, k), i);
    Fairness(weights, k, i);
  }

  /** Every node appears in the cycle: a caller that walks the whole list tries them all. */
  lemma ScheduleReachesAll(forwarders: seq<Forwarder>, f: Forwarder)
    requires Distinct(forwarders)
    ensures f in Schedule(forwarders) <==> f in forwarders
  {
    ScheduleServes(forwarders, f);
    assert f in Schedule(forwarders) <==> multiset(Schedule(forwarders))[f] > 0;
  }

  /** Successive calls start at successive places exactly as long as the counter does not
      wrap, or wraps at a multiple of the list's length. */
  lemma TurnsAdvance(cursor: uint32, n: nat)
    requires n > 0
    ensures (Next(cursor) % n == (cursor % n + 1) % n) <==> (cursor + 1 < CURSORS || CURSORS % n == 0)
  {
    ModNext(cursor, n);
    if cursor + 1 == CURSORS {
      assert Next(cursor) % n == 0;
    }
  }

  /** The first choice of the `j`-th following call is the `j`-th choice of this one, so as
      many calls as the list is long have the whole list as their first choices. */
  lemma FirstChoicesGoRound<T>(s: seq<T>, start: nat, j: nat)
    requires start < |s| && j < |s|
    ensures Rotated(s, (start + j) % |s|)[0] == Rotated(s, start)[j]
  {
    var n := |s|;
    if start + j < n {
      ModIs(start + j, 0, start + j, n);
    } else {
      ModIs(start + j, 1, start + j - n, n);
    }
  }

  /** The cursor `n` calls later. */
  function CursorAfter(cursor: uint32, n: nat): uint32 {
    if n == 0 then cursor else Next(CursorAfter(cursor, n - 1))
  }

  lemma {:induction false} CursorsAdvance(cursor: uint32, n: nat)
    requires cursor + n < CURSORS
    ensures CursorAfter(cursor, n) == cursor + n
  {
    if n > 0 {
      CursorsAdvance(cursor, n - 1);
    }
  }

  /** As many calls as the list is long have the whole list as their first choices, in order,
      as long as the counter does not wrap. */
  lemma CallsGoRound<T>(list: seq<T>, cursor: uint32, k: nat)
    requires k < |list| && cursor + |list| < CURSORS
    ensures Rotated(list, CursorAfter(cursor, k + 1) % |list|)[0] == Rotated(list, CursorAfter(cursor, 1) % |list|)[k]
  {
    hide CursorAfter, Rotated;
    CursorsApart(cursor, k, |list|);
    FirstChoicesGoRound(list, CursorAfter(cursor, 1) % |list|, k);
  }

  lemma CursorsApart(cursor: uint32, k: nat, n: nat)
    requires k < n && cursor + n < CURSORS
    ensures CursorAfter(cursor, k + 1) % n == (CursorAfter(cursor, 1) % n + k) % n
  {
    hide CursorAfter;
    CursorsAdvance(cursor, k + 1);
    CursorsAdvance(cursor, 1);
    SameRemainder(CursorAfter(cursor, k + 1), CursorAfter(cursor, 1), k, n);
  }

  lemma SameRemainder(d: nat, c: nat, k: nat, n: nat)
    requires k < n && d == c + k
    ensures d % n == (c % n + k) % n
  {
    var q, r := c / n, c % n;
    assert c == q * n + r;
    if r + k < n {
      ModIs(d, q, r + k, n);
      ModIs(r + k, 0, r + k, n);
    } else {
      assert q * n + n == (q + 1) * n;
      ModIs(d, q + 1, r + k - n, n);
      ModIs(r + k, 1, r + k - n, n);
    }
  }

  lemma ModNext(c: nat, n: nat)
    requires n > 0
    ensures (c + 1) % n == (c % n + 1) % n
  {
    var q, r := c / n, c % n;
    assert c == q * n + r;
    if r + 1 < n {
      ModIs(c + 1, q, r + 1, n);
      ModIs(r + 1, 0, r + 1, n);
    } else {
      assert q * n + n == (q + 1) * n;
      ModIs(c + 1, q + 1, 0, n);
      ModIs(r + 1, 1, 0, n);
    }
  }

  lemma ModIs(a: nat, q: nat, r: nat, n: nat)
    requires n > 0 && r < n && a == q * n + r
    ensures a % n == r
  {
    var d := a / n - q;
    assert a == (a / n) * n + a % n;
    assert (a / n) * n == q * n + d * n;
    assert d * n == r - a % n;
    Apart(d, n);
  }

  lemma Apart(d: int, n: nat)
    ensures d > 0 ==> d * n >= n
    ensures d < 0 ==> d * n + n <= 0
  {
    if d > 0 {
      assert (d - 1) * n >= 0;
    } else if d < 0 {
      assert (-d - 1) * n >= 0;
    }
  }

  // ---------------------------------------------------------------- least in flight

  /** The members of `s` with load `v`, in order. */
  function OfLoad(s: seq<Forwarder>, load: Forwarder -> int, v: int): seq<Forwarder> {
    if s == [] then []
    else OfLoad(s[..|s| - 1], load, v) + if load(s[|s| - 1]) == v then [s[|s| - 1]] else []
  }

  ghost predicate ByLoad(s: seq<Forwarder>, load: Forwarder -> int) {
    forall i, j :: 0 <= i < j < |s| ==> load(s[i]) <= load(s[j])
  }

  /** `r` is `s` put in the order of the loads, equal loads staying in their order. */
  ghost predicate StablySorted(r: seq<Forwarder>, s: seq<Forwarder>, load: Forwarder -> int) {
    && ByLoad(r, load)
    && multiset(r) == multiset(s)
    && forall v :: OfLoad(r, load, v) == OfLoad(s, load, v)
  }

  /** Somewhere in `s` stands `x`, and behind it `y`. */
  ghost predicate Before(s: seq<Forwarder>, x: Forwarder, y: Forwarder) {
    exists i, j :: 0 <= i < j < |s| && s[i] == x && s[j] == y
  }

  lemma BeforeLast(s: seq<Forwarder>, z: Forwarder, x: Forwarder, y: Forwarder)
    ensures Before(s + [z], x, y) <==> Before(s, x, y) || (x in s && z == y)
  {
    var r := s + [z];
    if Before(s, x, y) {
      var i, j :| 0 <= i < j < |s| && s[i] == x && s[j] == y;
      assert r[i] == x && r[j] == y;
    }
    if x in s && z == y {
      var i :| 0 <= i < |s| && s[i] == x;
      assert r[i] == x && r[|s|] == y;
    }
    if Before(r, x, y) {
      var i, j :| 0 <= i < j < |r| && r[i] == x && r[j] == y;
      assert s[i] == x && (j < |s| ==> s[j] == y);
    }
  }

  lemma {:induction false} OfLoadMembers(s: seq<Forwarder>, load: Forwarder -> int, x: Forwarder)
    ensures x in OfLoad(s, load, load(x)) <==> x in s
    decreases |s|
  {
    if s != [] {
      OfLoadMembers(s[..|s| - 1], load, x);
      assert s == s[..|s| - 1] + [s[|s| - 1]];
    }
  }

  lemma {:induction false} OfLoadBefore(s: seq<Forwarder>, load: Forwarder -> int, x: Forwarder, y: Forwarder)
    requires load(x) == load(y)
    ensures Before(OfLoad(s, load, load(x)), x, y) <==> Before(s, x, y)
    decreases |s|
  {
    hide Before;
    if s == [] {
      assert OfLoad(s, load, load(x)) == s;
    } else {
      var front, z := s[..|s| - 1], s[|s| - 1];
      assert s == front + [z];
      OfLoadBefore(front, load, x, y);
      OfLoadMembers(front, load, x);
      BeforeLast(front, z, x, y);
      BeforeLast(OfLoad(front, load, load(x)), z, x, y);
      assert s[..|s| - 1] == front;
      assert load(z) != load(x) ==> OfLoad(s, load, load(x)) == OfLoad(front, load, load(x));
    }
  }

  /** Equally loaded nodes stay in order. */
  lemma TiesKeepOrder(r: seq<Forwarder>, s: seq<Forwarder>, load: Forwarder -> int, x: Forwarder, y: Forwarder)
    requires StablySorted(r, s, load) && load(x) == load(y)
    ensures Before(r, x, y) <==> Before(s, x, y)
  {
    hide Before;
    OfLoadBefore(r, load, x, y);
    OfLoadBefore(s, load, x, y);
  }

  lemma {:induction false} OfLoadConcat(a: seq<Forwarder>, b: seq<Forwarder>, load: Forwarder -> int, v: int)
    ensures OfLoad(a + b, load, v) == OfLoad(a, load, v) + OfLoad(b, load, v)
    decreases |b|
  {
    if b == [] {
      assert a + b == a;
    } else {
      var last := |b| - 1;
      assert (a + b)[..|a + b| - 1] == a + b[..last];
      OfLoadConcat(a, b[..last], load, v);
    }
  }

  lemma {:induction false} OfLoadAbove(s: seq<Forwarder>, load: Forwarder -> int, v: int)
    requires forall i :: 0 <= i < |s| ==> load(s[i]) > v
    ensures OfLoad(s, load, v) == []
    decreases |s|
  {
    if s != [] {
      OfLoadAbove(s[..|s| - 1], load, v);
    }
  }

  /** Putting `x` behind everything of no greater load keeps the order of equals. */
  lemma InsertedStably(a: seq<Forwarder>, b: seq<Forwarder>, x: Forwarder, s: seq<Forwarder>, load: Forwarder -> int)
    requires StablySorted(a + b, s, load)
    requires a == [] || load(a[|a| - 1]) <= load(x)
    requires forall i :: 0 <= i < |b| ==> load(b[i]) > load(x)
    ensures StablySorted(a + [x] + b, s + [x], load)
  {
    hide OfLoad;
    var r := a + [x] + b;
    SortedApart(a, x, b, load);
    assert multiset(r) == multiset(a + b) + multiset{x};
    forall v ensures OfLoad(r, load, v) == OfLoad(s + [x], load, v) {
      OfLoadInserted(a, b, x, s, load, v);
    }
  }

  lemma OfLoadInserted(a: seq<Forwarder>, b: seq<Forwarder>, x: Forwarder, s: seq<Forwarder>, load: Forwarder -> int,
                       v: int)
    requires OfLoad(a + b, load, v) == OfLoad(s, load, v)
    requires forall i :: 0 <= i < |b| ==> load(b[i]) > load(x)
    ensures OfLoad(a + [x] + b, load, v) == OfLoad(s + [x], load, v)
  {
    hide OfLoad;
    OfLoadConcat(a, b, load, v);
    OfLoadConcat(a + [x], b, load, v);
    OfLoadConcat(a, [x], load, v);
    OfLoadConcat(s, [x], load, v);
    OfLoadOne(x, load, v);
    var la, lb := OfLoad(a, load, v), OfLoad(b, load, v);
    var lx, ls := OfLoad([x], load, v), OfLoad(s, load, v);
    if v == load(x) {
      OfLoadAbove(b, load, v);
      assert lb == [] && la + lb == la && la + lx + lb == la + lx;
    } else {
      assert lx == [] && la + lx == la && ls + lx == ls;
    }
  }

  lemma OfLoadOne(x: Forwarder, load: Forwarder -> int, v: int)
    ensures OfLoad([x], load, v) == if load(x) == v then [x] else []
  {
    assert [x][..0] == [];
  }

  lemma SortedNothing(s: seq<Forwarder>, load: Forwarder -> int)
    ensures StablySorted([], s[..0], load)
  {
  }

  lemma SortedApart(a: seq<Forwarder>, x: Forwarder, b: seq<Forwarder>, load: Forwarder -> int)
    requires ByLoad(a + b, load)
    requires a == [] || load(a[|a| - 1]) <= load(x)
    requires forall i :: 0 <= i < |b| ==> load(b[i]) > load(x)
    ensures ByLoad(a + [x] + b, load)
  {
    var r, old' := a + [x] + b, a + b;
    forall i | 0 <= i < |a| ensures load(a[i]) <= load(x) {
      assert old'[i] == a[i] && old'[|a| - 1] == a[|a| - 1];
    }
    forall i, j | 0 <= i < j < |r| ensures load(r[i]) <= load(r[j]) {
      var i', j' := if i <= |a| then i else i - 1, if j <= |a| then j else j - 1;
      assert i != |a| ==> r[i] == old'[i'];
      assert j != |a| ==> r[j] == old'[j'];
    }
  }

  /** A stable sort by a snapshot of the loads. */
  method SortByLoad(items: seq<Forwarder>, load: Forwarder -> int) returns (result: seq<Forwarder>)
    ensures StablySorted(result, items, load)
  {
    hide StablySorted;
    result := [];
    SortedNothing(items, load);
    for k := 0 to |items|
      invariant StablySorted(result, items[..k], load)
    {
      var x, at := items[k], |result|;
      while at > 0 && load(result[at - 1]) > load(x)
        invariant 0 <= at <= |result|
        invariant forall i :: at <= i < |result| ==> load(result[i]) > load(x)
      {
        at := at - 1;
      }
      assert result == result[..at] + result[at..];
      InsertedStably(result[..at], result[at..], x, items[..k], load);
      assert items[..k] + [x] == items[..k + 1];
      result := result[..at] + [x] + result[at..];
    }
    assert items[..|items|] == items;
  }

  class LeastInFlight {
    const forwarders: seq<Forwarder>
    var cursor: uint32

    constructor (forwarders: seq<Forwarder>)
      ensures this.forwarders == forwarders && cursor == 0
    {
      this.forwarders, cursor := forwarders, 0;
    }

    /** All nodes, least loaded first; ties go round with the cursor. */
    method Get(load: Forwarder -> int) returns (result: seq<Forwarder>)
      modifies `cursor
      ensures forwarders == [] ==> result == [] && cursor == old(cursor)
      ensures forwarders != [] ==>
              cursor == Next(old(cursor)) && StablySorted(result, Rotated(forwarders, cursor % |forwarders|), load)
      ensures multiset(result) == multiset(forwarders)
    {
      var n := |forwarders|;
      if n == 0 {
        return [];
      }
      cursor := (cursor + 1) % CURSORS;
      var start := cursor % n;
      result := SortByLoad(Rotated(forwarders, start), load);
    }

    /** Two nodes drawn at random, the less loaded in front, then all the others in order.
        `i` and `j` are the two draws, from `n` and from the `n - 1` left. */
    method GetP2C(load: Forwarder -> int, i: nat, j: nat) returns (result: seq<Forwarder>)
      requires |forwarders| > 1 ==> i < |forwarders| && j < |forwarders| - 1
      ensures multiset(result) == multiset(forwarders)
      ensures |forwarders| > 1 ==>
        var j' := if j >= i then j + 1 else j;
        && j' < |forwarders| && j' != i && |result| >= 2
        && result[..2] == (if load(forwarders[j']) < load(forwarders[i]) then [forwarders[j'], forwarders[i]]
                           else [forwarders[i], forwarders[j']])
        && load(result[0]) <= load(result[1])
        && result[2..] == Without(forwarders, i, j')
    {
      hide Without;
      var n := |forwarders|;
      if n == 0 {
        return [];
      }
      if n == 1 {
        return [forwarders[0]];
      }
      var first, second := i, if j >= i then j + 1 else j;
      if load(forwarders[second]) < load(forwarders[first]) {
        first, second := second, first;
      }
      WithoutSwaps(forwarders, first, second);
      result := InFront(first, second);
    }

    /** Two of the nodes in front of the others. */
    method InFront(first: nat, second: nat) returns (result: seq<Forwarder>)
      requires first < |forwarders| && second < |forwarders| && first != second
      ensures multiset(result) == multiset(forwarders) && |result| >= 2
      ensures result[..2] == [forwarders[first], forwarders[second]]
      ensures result[2..] == Without(forwarders, first, second)
    {
      hide Without, At;
      var n := |forwarders|;
      var rest: seq<Forwarder> := [];
      WithoutNone(forwarders, first, second);
      for k := 0 to n
        invariant rest == Without(forwarders[..k], first, second)
      {
        WithoutNext(forwarders, k, first, second);
        if k != first && k != second {
          rest := rest + [forwarders[k]];
        }
      }
      assert forwarders[..n] == forwarders;
      WithoutCounts(forwarders, first, second);
      PairCounts(forwarders, first, second, rest);
      result := [forwarders[first], forwarders[second]] + rest;
    }
  }

  /** `s` without its places `i` and `j`. */
  function Without<T>(s: seq<T>, i: nat, j: nat): seq<T> {
    if s == [] then []
    else
      var last := |s| - 1;
      Without(s[..last], i, j) + if last == i || last == j then [] else [s[last]]
  }

  /** The others stay in order. */
  lemma {:induction false} WithoutIs<T>(s: seq<T>, i: nat, j: nat)
    requires i < j < |s|
    ensures Without(s, i, j) == s[..i] + s[i + 1..j] + s[j + 1..]
    decreases |s|
  {
    var last := |s| - 1;
    if j < last {
      WithoutIs(s[..last], i, j);
      assert s[..last][j + 1..] + [s[last]] == s[j + 1..];
    } else {
      WithoutOne(s[..last], i, j);
      assert s[j + 1..] == [];
    }
  }

  lemma {:induction false} WithoutOne<T>(s: seq<T>, i: nat, j: nat)
    requires i < |s| <= j
    ensures Without(s, i, j) == s[..i] + s[i + 1..]
    decreases |s|
  {
    var last := |s| - 1;
    if i < last {
      WithoutOne(s[..last], i, j);
    } else {
      WithoutNoneOf(s[..last], i, j);
    }
  }

  lemma {:induction false} WithoutNoneOf<T>(s: seq<T>, i: nat, j: nat)
    requires |s| <= i && |s| <= j
    ensures Without(s, i, j) == s
    decreases |s|
  {
    if s != [] {
      WithoutNoneOf(s[..|s| - 1], i, j);
    }
  }

  function At<T>(s: seq<T>, i: nat): multiset<T> {
    if i < |s| then multiset{s[i]} else multiset{}
  }

  lemma PairCounts<T>(s: seq<T>, i: nat, j: nat, rest: seq<T>)
    requires i < |s| && j < |s| && multiset(rest) + At(s, i) + At(s, j) == multiset(s)
    ensures var r := [s[i], s[j]] + rest; multiset(r) == multiset(s) && r[..2] == [s[i], s[j]] && r[2..] == rest
  {
    var r := [s[i], s[j]] + rest;
    assert multiset(r) == multiset{s[i], s[j]} + multiset(rest);
    assert multiset{s[i], s[j]} == At(s, i) + At(s, j);
    assert r[..2] == [s[i], s[j]];
  }

  lemma WithoutNone<T>(s: seq<T>, i: nat, j: nat)
    ensures Without(s[..0], i, j) == []
  {
  }

  lemma WithoutNext<T>(s: seq<T>, k: nat, i: nat, j: nat)
    requires k < |s|
    ensures Without(s[..k + 1], i, j) == Without(s[..k], i, j) + if k == i || k == j then [] else [s[k]]
  {
    assert s[..k + 1][..k] == s[..k];
  }

  lemma {:induction false} WithoutSwaps<T>(s: seq<T>, i: nat, j: nat)
    ensures Without(s, i, j) == Without(s, j, i)
    decreases |s|
  {
    if s != [] {
      WithoutSwaps(s[..|s| - 1], i, j);
    }
  }

  lemma {:induction false} WithoutCounts<T>(s: seq<T>, i: nat, j: nat)
    requires i != j
    ensures multiset(Without(s, i, j)) + At(s, i) + At(s, j) == multiset(s)
    decreases |s|
  {
    hide At, Without;
    if s == [] {
      WithoutNothing(s, i, j);
    } else {
      var last := |s| - 1;
      var front, x := s[..last], multiset{s[last]};
      assert s == front + [s[last]];
      WithoutCounts(front, i, j);
      WithoutLast(s, i, j);
      AtLast(s, i);
      AtLast(s, j);
      Moved(multiset(Without(front, i, j)), At(front, i), At(front, j), x);
    }
  }

  lemma WithoutNothing<T>(s: seq<T>, i: nat, j: nat)
    requires s == []
    ensures Without(s, i, j) == [] && At(s, i) == At(s, j) == multiset{}
  {
  }

  lemma WithoutLast<T>(s: seq<T>, i: nat, j: nat)
    requires s != []
    ensures var last := |s| - 1;
            multiset(Without(s, i, j))
            == multiset(Without(s[..last], i, j)) + if last == i || last == j then multiset{} else multiset{s[last]}
  {
  }

  lemma AtLast<T>(s: seq<T>, i: nat)
    requires s != []
    ensures At(s, i) == At(s[..|s| - 1], i) + if i == |s| - 1 then multiset{s[i]} else multiset{}
  {
  }

  lemma Moved<T>(w: multiset<T>, a: multiset<T>, b: multiset<T>, x: multiset<T>)
    ensures (w + x) + a + b == (w + a + b) + x && w + (a + x) + b == (w + a + b) + x
            && w + a + (b + x) == (w + a + b) + x
    ensures w + multiset{} == w && a + multiset{} == a && b + multiset{} == b
  {
  }
}
