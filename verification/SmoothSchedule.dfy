/**
 The smooth weighted round-robin schedule: in every round each entry gains its weight, the
 first entry with the most is picked and pays the total.  The schedule of one full cycle
 serves every entry exactly by its weight and never far ahead of or behind its share.
 */
module SmoothSchedule {

  type Weights = seq<nat>

  function Sum(s: seq<int>): int {
    if s == [] then 0 else Sum(s[..|s| - 1]) + s[|s| - 1]
  }

  /** The first place of the largest of the first `n` entries. */
  function BestOf(s: seq<int>, n: nat): (b: nat)
    requires 0 < n <= |s|
    ensures b < n
    ensures forall i :: 0 <= i < n ==> s[i] <= s[b]
    ensures forall i :: 0 <= i < b ==> s[i] < s[b]
  {
    if n == 1 then 0
    else
      var b := BestOf(s, n - 1);
      if s[n - 1] > s[b] then n - 1 else b
  }

  /** Every entry gains its weight. */
  function Gained(current: seq<int>, weights: Weights): (r: seq<int>)
    requires |current| == |weights|
    ensures |r| == |weights| && forall i :: 0 <= i < |r| ==> r[i] == current[i] + weights[i]
  {
    if current == [] then []
    else
      var last := |current| - 1;
      Gained(current[..last], weights[..last]) + [current[last] + weights[last]]
  }

  function Zeros(n: nat): (r: seq<int>)
    ensures |r| == n && forall i :: 0 <= i < n ==> r[i] == 0
  {
    if n == 0 then [] else Zeros(n - 1) + [0]
  }

  /** The numbers below `n`, in order. */
  function Upto(n: nat): (r: seq<nat>)
    ensures |r| == n && forall i :: 0 <= i < n ==> r[i] == i
  {
    if n == 0 then [] else Upto(n - 1) + [n - 1]
  }

  /** The entry picked when `current` is held before a round. */
  function Pick(weights: Weights, current: seq<int>): (best: nat)
    requires |current| == |weights| > 0
    ensures best < |weights|
  {
    BestOf(Gained(current, weights), |weights|)
  }

  /** What is held after that round: all gain their weight, the pick pays the total. */
  function Paid(weights: Weights, current: seq<int>): (r: seq<int>)
    requires |current| == |weights| > 0
    ensures |r| == |weights|
  {
    var g, best := Gained(current, weights), Pick(weights, current);
    g[best := g[best] - Sum(weights)]
  }

  /** What each entry holds after `k` rounds. */
  function Holdings(weights: Weights, k: nat): (current: seq<int>)
    requires weights != []
    ensures |current| == |weights|
  {
    if k == 0 then Zeros(|weights|) else Paid(weights, Holdings(weights, k - 1))
  }

  /** The picks of the first `k` rounds. */
  function Picks(weights: Weights, k: nat): (picks: seq<nat>)
    requires weights != []
    ensures |picks| == k && forall i :: 0 <= i < k ==> picks[i] < |weights|
  {
    if k == 0 then [] else Picks(weights, k - 1) + [Pick(weights, Holdings(weights, k - 1))]
  }

  function Count(picks: seq<nat>, i: nat): (n: nat)
    ensures n <= |picks|
  {
    if picks == [] then 0
    else Count(picks[..|picks| - 1], i) + if picks[|picks| - 1] == i then 1 else 0
  }

  // ---------------------------------------------------------------- sums

  lemma {:induction false} SumUpdate(s: seq<int>, i: nat, x: int)
    requires i < |s|
    ensures Sum(s[i := x]) == Sum(s) - s[i] + x
    decreases |s|
  {
    var t := s[i := x];
    if i == |s| - 1 {
      assert t[..|s| - 1] == s[..|s| - 1];
    } else {
      assert t[..|s| - 1] == s[..|s| - 1][i := x];
      SumUpdate(s[..|s| - 1], i, x);
    }
  }

  lemma {:induction false} SumGained(current: seq<int>, weights: Weights)
    requires |current| == |weights|
    ensures Sum(Gained(current, weights)) == Sum(current) + Sum(weights)
    decreases |weights|
  {
    if weights != [] {
      var last := |weights| - 1;
      SumGained(current[..last], weights[..last]);
      var g := Gained(current, weights);
      assert g[..|g| - 1] == Gained(current[..last], weights[..last]);
    }
  }

  lemma {:induction false} SumAtMost(s: seq<int>, bound: int)
    requires forall i :: 0 <= i < |s| ==> s[i] <= bound
    ensures Sum(s) <= |s| * bound
    decreases |s|
  {
    if s != [] {
      SumAtMost(s[..|s| - 1], bound);
    }
  }

  lemma {:induction false} SumAtLeast(s: seq<int>, bound: int)
    requires forall i :: 0 <= i < |s| ==> s[i] >= bound
    ensures Sum(s) >= |s| * bound
    decreases |s|
  {
    if s != [] {
      SumAtLeast(s[..|s| - 1], bound);
    }
  }

  lemma {:induction false} SumZero(n: nat)
    ensures Sum(Zeros(n)) == 0
    decreases n
  {
    if n > 0 {
      assert Zeros(n)[..n - 1] == Zeros(n - 1);
      SumZero(n - 1);
    }
  }

  /** Among non-negative weights with a positive total, the largest of the gained is positive. */
  lemma BestIsPositive(current: seq<int>, weights: Weights)
    requires |current| == |weights| > 0 && Sum(current) == 0 && Sum(weights) > 0
    ensures Gained(current, weights)[BestOf(Gained(current, weights), |weights|)] > 0
  {
    var g := Gained(current, weights);
    SumGained(current, weights);
    var top := g[BestOf(g, |weights|)];
    if top <= 0 {
      SumAtMost(g, 0);
    }
  }

  // ---------------------------------------------------------------- the invariant of every round

  function Times(a: int, b: int): int {
    a * b
  }

  lemma TimesNext(a: int, b: int)
    ensures Times(a + 1, b) == Times(a, b) + b && Times(b, a + 1) == Times(b, a) + b
    ensures Times(0, b) == 0 && Times(b, 0) == 0
  {
    assert (a + 1) * b == a * b + b && b * (a + 1) == b * a + b;
  }

  /** What entry `i` holds after round `k`: what it earned less what it paid. */
  ghost predicate Holds(weights: Weights, k: nat, i: nat)
    requires weights != [] && i < |weights|
  {
    && Holdings(weights, k)[i] == Times(k, weights[i]) - Times(Sum(weights), Count(Picks(weights, k), i))
    && Holdings(weights, k)[i] > -Sum(weights)
  }

  lemma HoldsStart(weights: Weights, i: nat)
    requires weights != [] && i < |weights| && Sum(weights) > 0
    ensures Holds(weights, 0, i)
  {
    hide Times, BestOf;
    TimesNext(0, weights[i]);
    TimesNext(0, Sum(weights));
  }

  /** One round, entry by entry. */
  lemma RoundAt(weights: Weights, k: nat, i: nat)
    requires weights != [] && i < |weights| && k > 0
    ensures var pick := Pick(weights, Holdings(weights, k - 1));
            && Holdings(weights, k)[i]
               == Holdings(weights, k - 1)[i] + weights[i] - (if i == pick then Sum(weights) else 0)
            && Count(Picks(weights, k), i) == Count(Picks(weights, k - 1), i) + (if i == pick then 1 else 0)
  {
    hide BestOf, Sum;
    var picks' := Picks(weights, k);
    assert picks'[..|picks'| - 1] == Picks(weights, k - 1);
  }

  lemma HoldsNext(weights: Weights, k: nat, i: nat)
    requires weights != [] && i < |weights| && k > 0 && Sum(weights) > 0
    requires Holds(weights, k - 1, i) && Sum(Holdings(weights, k - 1)) == 0
    ensures Holds(weights, k, i)
  {
    hide BestOf, Sum, Pick, Paid, Holdings, Picks, Count, Gained, Times, Zeros;
    RoundAt(weights, k, i);
    PickGains(weights, Holdings(weights, k - 1));
    TimesNext(k - 1, weights[i]);
    TimesNext(Count(Picks(weights, k - 1), i), Sum(weights));
  }

  lemma PickGains(weights: Weights, current: seq<int>)
    requires |current| == |weights| > 0 && Sum(current) == 0 && Sum(weights) > 0
    ensures current[Pick(weights, current)] + weights[Pick(weights, current)] > 0
  {
    BestIsPositive(current, weights);
  }

  lemma PaidSum(weights: Weights, current: seq<int>)
    requires |current| == |weights| > 0
    ensures Sum(Paid(weights, current)) == Sum(current)
  {
    hide *;
    var g, best := Gained(current, weights), Pick(weights, current);
    PaidIs(weights, current);
    SumGained(current, weights);
    SumUpdate(g, best, g[best] - Sum(weights));
  }

  lemma PaidIs(weights: Weights, current: seq<int>)
    requires |current| == |weights| > 0
    ensures Pick(weights, current) < |Gained(current, weights)| == |weights|
    ensures var g, best := Gained(current, weights), Pick(weights, current);
            Paid(weights, current) == g[best := g[best] - Sum(weights)]
  {
    hide Gained, Pick, Sum;
  }

  /** After every round: the holdings cancel out, each is what the entry earned less what
      it paid, and none is a full total behind. */
  lemma {:induction false} RoundsInvariant(weights: Weights, k: nat)
    requires weights != [] && Sum(weights) > 0
    ensures Sum(Holdings(weights, k)) == 0
    ensures forall i :: 0 <= i < |weights| ==> Holds(weights, k, i)
    decreases k
  {
    hide Holds, Sum, Paid;
    if k == 0 {
      SumZero(|weights|);
      forall i | 0 <= i < |weights| ensures Holds(weights, 0, i) {
        HoldsStart(weights, i);
      }
    } else {
      RoundsInvariant(weights, k - 1);
      PaidSum(weights, Holdings(weights, k - 1));
      forall i | 0 <= i < |weights| ensures Holds(weights, k, i) {
        HoldsNext(weights, k, i);
      }
    }
  }

  /** Shares: in every prefix of `k` picks an entry is served less than one turn more than
      its share `k * weight / total`, and less than `n - 1` turns less. */
  lemma Fairness(weights: Weights, k: nat, i: nat)
    requires weights != [] && Sum(weights) > 0 && i < |weights|
    ensures Sum(weights) * Count(Picks(weights, k), i) < k * weights[i] + Sum(weights)
    ensures |weights| > 1 ==>
            Sum(weights) * Count(Picks(weights, k), i) > k * weights[i] - (|weights| - 1) * Sum(weights)
  {
    hide *;
    HoldingIs(weights, k, i);
    var held, total := Holdings(weights, k)[i], Sum(weights);
    if |weights| > 1 {
      HoldingsBounded(weights, k);
      OthersBound(Holdings(weights, k), i, total);
    }
  }

  lemma HoldingIs(weights: Weights, k: nat, i: nat)
    requires weights != [] && Sum(weights) > 0 && i < |weights|
    ensures Holdings(weights, k)[i] == k * weights[i] - Sum(weights) * Count(Picks(weights, k), i)
    ensures Holdings(weights, k)[i] > -Sum(weights)
  {
    hide Picks, Holdings, Sum, Count;
    RoundsInvariant(weights, k);
    assert Holds(weights, k, i);
  }

  lemma HoldingsBounded(weights: Weights, k: nat)
    requires weights != [] && Sum(weights) > 0
    ensures Sum(Holdings(weights, k)) == 0
    ensures forall j :: 0 <= j < |weights| ==> Holdings(weights, k)[j] > -Sum(weights)
  {
    hide Picks, Holdings, Sum, Count, Times;
    RoundsInvariant(weights, k);
    forall j | 0 <= j < |weights| ensures Holdings(weights, k)[j] > -Sum(weights) {
      assert Holds(weights, k, j);
    }
  }

  lemma OthersBound(current: seq<int>, i: nat, total: int)
    requires i < |current| && |current| > 1 && Sum(current) == 0
    requires forall j :: 0 <= j < |current| ==> current[j] > -total
    ensures current[i] < (|current| - 1) * total
  {
    var others := current[i := 1 - total];
    SumUpdate(current, i, 1 - total);
    SumAtLeast(others, 1 - total);
    Expand(|current|, total);
  }

  lemma Expand(n: int, total: int)
    ensures n * (1 - total) == n - n * total && (n - 1) * total == n * total - total
  {
  }

  // ---------------------------------------------------------------- one full cycle

  function Counts(picks: seq<nat>, n: nat): (cs: seq<nat>)
    ensures |cs| == n && forall i :: 0 <= i < n ==> cs[i] == Count(picks, i)
  {
    seq(n, i requires 0 <= i < n => Count(picks, i))
  }

  lemma {:induction false} CountsSum(picks: seq<nat>, n: nat)
    requires forall i :: 0 <= i < |picks| ==> picks[i] < n
    ensures Sum(Counts(picks, n)) == |picks|
    decreases |picks|
  {
    if picks == [] {
      assert Counts(picks, n) == Zeros(n);
      SumZero(n);
    } else {
      var front, last := picks[..|picks| - 1], picks[|picks| - 1];
      CountsSum(front, n);
      var cs: seq<int> := Counts(front, n);
      assert Counts(picks, n) == cs[last := cs[last] + 1];
      SumUpdate(cs, last, cs[last] + 1);
    }
  }

  lemma {:induction false} EqualByDominance(a: seq<int>, b: seq<int>, i: nat)
    requires |a| == |b| && Sum(a) == Sum(b) && i < |a|
    requires forall j :: 0 <= j < |a| ==> a[j] <= b[j]
    ensures a[i] == b[i]
    decreases |a|
  {
    var n := |a| - 1;
    DominatedSum(a[..n], b[..n]);
    if i < n {
      EqualByDominance(a[..n], b[..n], i);
    }
  }

  lemma {:induction false} DominatedSum(a: seq<int>, b: seq<int>)
    requires |a| == |b| && forall j :: 0 <= j < |a| ==> a[j] <= b[j]
    ensures Sum(a) <= Sum(b)
    decreases |a|
  {
    if a != [] {
      DominatedSum(a[..|a| - 1], b[..|b| - 1]);
    }
  }

  /** A full cycle of as many rounds as the total serves each entry exactly by its weight. */
  lemma CycleServesWeights(weights: Weights, i: nat)
    requires weights != [] && Sum(weights) > 0 && i < |weights|
    ensures Count(Picks(weights, Sum(weights)), i) == weights[i]
  {
    hide Sum, Picks, Holdings, Count;
    var total := Sum(weights);
    var picks := Picks(weights, total);
    RoundsInvariant(weights, total);
    forall j | 0 <= j < |weights| ensures Count(picks, j) <= weights[j] {
      assert Holds(weights, total, j);
      AtMostWeight(total, weights[j], Count(picks, j));
    }
    CountsSum(picks, |weights|);
    EqualByDominance(Counts(picks, |weights|), weights, i);
  }

  lemma AtMostWeight(total: int, w: int, n: int)
    requires total > 0 && total * w - total * n > -total
    ensures n <= w
  {
    assert total * (w + 1) == total * w + total;
    if n > w {
      Scale(total, w + 1, n);
    }
  }

  lemma Scale(total: int, a: int, b: int)
    requires total > 0 && a <= b
    ensures total * a <= total * b
  {
    assert total * (b - a) >= 0;
    assert total * b == total * a + total * (b - a);
  }

  // ---------------------------------------------------------------- equal weights

  /** Weights of one that add up to the number of entries are all one. */
  lemma AllOnes(weights: Weights, i: nat)
    requires Sum(weights) == |weights| && i < |weights|
    requires forall j :: 0 <= j < |weights| ==> weights[j] >= 1
    ensures weights[i] == 1
  {
    var ones := seq(|weights|, _ => 1);
    SumAtLeast(ones, 1);
    SumAtMost(ones, 1);
    EqualByDominance(ones, weights, i);
  }

  /** With all weights one the general schedule is the input order. */
  lemma {:induction false} EqualWeightsInOrder(weights: Weights, k: nat)
    requires weights != [] && Sum(weights) == |weights| && k <= |weights|
    requires forall j :: 0 <= j < |weights| ==> weights[j] == 1
    ensures Picks(weights, k) == Upto(k)
    ensures forall i :: 0 <= i < |weights| ==> Holdings(weights, k)[i] == if i < k then k - |weights| else k
    decreases k
  {
    hide Pick, Paid, Sum, Count, Gained, BestOf;
    if k > 0 {
      EqualWeightsInOrder(weights, k - 1);
      OnesPick(weights, Holdings(weights, k - 1), k);
      forall i | 0 <= i < |weights| ensures Holdings(weights, k)[i] == if i < k then k - |weights| else k {
        RoundAt(weights, k, i);
      }
    }
  }

  lemma OnesPick(weights: Weights, current: seq<int>, k: nat)
    requires |current| == |weights| > 0 && 0 < k <= |weights|
    requires forall j :: 0 <= j < |weights| ==> weights[j] == 1
    requires forall i :: 0 <= i < |weights| ==> current[i] == if i < k - 1 then k - 1 - |weights| else k - 1
    ensures Pick(weights, current) == k - 1
  {
    hide BestOf;
    assert Gained(current, weights)[k - 1] == k;
  }
}
