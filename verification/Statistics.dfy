/** Pass rates, classifications and medians shared by the stability scripts. */
module Statistics {
  import opened Prelude
  import opened Sequences
  import opened Ordering

  // ----- medians -----

  predicate IntLe(a: int, b: int) {
    a <= b
  }

  /** `statistics.median` on a non-empty list of integers. */
  function Median(samples: seq<int>): real
    requires samples != []
  {
    SortPermutes(IntLe, samples);
    var sorted, n := Sort(IntLe, samples), |samples|;
    if n % 2 == 1 then sorted[n / 2] as real
    else (sorted[n / 2 - 1] + sorted[n / 2]) as real / 2.0
  }

  function AtMost(bound: real): int -> bool {
    (x: int) => x as real <= bound
  }

  /** In a sorted list the k-th element is within the bound exactly when more than k are. */
  lemma {:induction false} SortedRank(sorted: seq<int>, bound: real, k: nat)
    requires Sorted(IntLe, sorted) && k < |sorted|
    ensures sorted[k] as real <= bound <==> Count(AtMost(bound), sorted) > k
  {
    var init, last := sorted[..|sorted| - 1], sorted[|sorted| - 1];
    if last as real <= bound {
      CountFull(AtMost(bound), sorted);
    } else if k < |init| {
      SortedRank(init, bound, k);
    }
  }

  lemma RankInSamples(samples: seq<int>, bound: real, k: nat)
    requires k < |samples|
    ensures |Sort(IntLe, samples)| == |samples|
    ensures Sort(IntLe, samples)[k] as real <= bound <==> Count(AtMost(bound), samples) > k
  {
    SortPermutes(IntLe, samples);
    SortSorted(IntLe, samples);
    CountPermutation(AtMost(bound), Sort(IntLe, samples), samples);
    SortedRank(Sort(IntLe, samples), bound, k);
  }

  /** A median within the bound puts at least half of the samples within it. */
  lemma MedianBoundsHalf(samples: seq<int>, bound: real)
    requires samples != [] && Median(samples) <= bound
    ensures 2 * Count(AtMost(bound), samples) >= |samples|
  {
    var n, sorted := |samples|, Sort(IntLe, samples);
    RankInSamples(samples, bound, n / 2);
    if n % 2 == 0 {
      RankInSamples(samples, bound, n / 2 - 1);
      SortSorted(IntLe, samples);
      assert IntLe(sorted[n / 2 - 1], sorted[n / 2]);
      MeanAtLeast(sorted[n / 2 - 1], sorted[n / 2]);
    }
  }

  lemma MeanAtLeast(a: int, b: int)
    requires a <= b
    ensures (a + b) as real / 2.0 >= a as real
  {
    assert (a + b) as real == a as real + b as real;
  }

  /** More than half of the samples within the bound put the median within it. */
  lemma MajorityBoundsMedian(samples: seq<int>, bound: real)
    requires samples != [] && 2 * Count(AtMost(bound), samples) > |samples|
    ensures Median(samples) <= bound
  {
    var n := |samples|;
    RankInSamples(samples, bound, n / 2);
    if n % 2 == 0 {
      RankInSamples(samples, bound, n / 2 - 1);
      MeanAtMost(Sort(IntLe, samples)[n / 2 - 1], Sort(IntLe, samples)[n / 2], bound);
    }
  }

  lemma MeanAtMost(a: int, b: int, bound: real)
    requires a as real <= bound && b as real <= bound
    ensures (a + b) as real / 2.0 <= bound
  {
    assert (a + b) as real == a as real + b as real;
  }

  /** Exactly half is not enough: two samples of which one is far beyond the bound. */
  lemma HalfIsNotEnough()
    ensures 2 * Count(AtMost(1.0), [0, 100]) >= |[0, 100]| && Median([0, 100]) > 1.0
  {
    var s := [0, 100];
    assert s[..1] == [0] && [0][..0] == [];
    SortIdentity(IntLe, s);
    assert Median(s) == 50.0;
  }

  /** Half of an even number of samples is enough exactly when the two in the middle average
      within the bound. */
  ghost predicate MiddleWithin(samples: seq<int>, bound: real)
    requires samples != []
  {
    SortPermutes(IntLe, samples);
    var sorted, n := Sort(IntLe, samples), |samples|;
    n % 2 == 0 && (sorted[n / 2 - 1] + sorted[n / 2]) as real <= 2.0 * bound
  }

  /** The median is within the bound exactly when a majority of the samples is, or exactly half
      of them are and the two in the middle average within it. */
  lemma MedianExactly(samples: seq<int>, bound: real)
    requires samples != []
    ensures var c := Count(AtMost(bound), samples);
            Median(samples) <= bound <==>
            2 * c > |samples| || (2 * c == |samples| && MiddleWithin(samples, bound))
  {
    hide *;
    var c := Count(AtMost(bound), samples);
    if |samples| % 2 == 0 {
      MedianOfMiddle(samples, bound);
    }
    if 2 * c > |samples| {
      MajorityBoundsMedian(samples, bound);
    } else if Median(samples) <= bound {
      MedianBoundsHalf(samples, bound);
    }
  }

  lemma MedianOfMiddle(samples: seq<int>, bound: real)
    requires samples != [] && |samples| % 2 == 0
    ensures Median(samples) <= bound <==> MiddleWithin(samples, bound)
  {
    SortPermutes(IntLe, samples);
    var sorted, n := Sort(IntLe, samples), |samples|;
    var x := (sorted[n / 2 - 1] + sorted[n / 2]) as real;
    assert Median(samples) == x / 2.0;
  }

  /** The first c of n samples are low, the others high. */
  function TwoValued(n: nat, c: nat, low: int, high: int): seq<int> {
    seq(n, i => if i < c then low else high)
  }

  lemma {:induction false} TwoValuedCount(n: nat, c: nat, low: int, high: int, bound: real)
    requires low as real <= bound < high as real
    ensures Count(AtMost(bound), TwoValued(n, c, low, high)) == if c < n then c else n
  {
    if n > 0 {
      TwoValuedCount(n - 1, c, low, high, bound);
      assert TwoValued(n, c, low, high)[..n - 1] == TwoValued(n - 1, c, low, high);
    }
  }

  /** Without a majority, samples just below and far above the bound have a median beyond it. */
  lemma TwoValuedMedian(n: nat, c: nat, bound: real)
    requires 0 < n && 2 * c <= n
    ensures var s := TwoValued(n, c, bound.Floor, bound.Floor + 3);
            |s| == n && Count(AtMost(bound), s) == c && Median(s) > bound
  {
    var s := TwoValued(n, c, bound.Floor, bound.Floor + 3);
    TwoValuedCount(n, c, bound.Floor, bound.Floor + 3, bound);
    SortIdentity(IntLe, s);
  }

  /** How many samples within the bound force the median within it: exactly a majority. */
  lemma MajorityExactly(n: nat, c: nat, bound: real)
    requires 0 < n
    ensures 2 * c > n <==>
            forall s: seq<int> :: |s| == n && Count(AtMost(bound), s) == c ==> Median(s) <= bound
  {
    if 2 * c > n {
      forall s: seq<int> | |s| == n && Count(AtMost(bound), s) == c ensures Median(s) <= bound {
        MajorityBoundsMedian(s, bound);
      }
    } else {
      TwoValuedMedian(n, c, bound);
    }
  }

  // ----- pass rates -----

  datatype Classification = NoData | StableFail | StablePass | OneOffPass | MixedRuns | OtherText(text: string)

  function Classify(passed: int, runs: int): Classification {
    if runs <= 0 then NoData
    else if passed <= 0 then StableFail
    else if passed >= runs then StablePass
    else if passed == 1 then OneOffPass
    else MixedRuns
  }

  /** The share of failed runs; without runs everything counts as failed. */
  function FailureRate(passed: nat, runs: nat): real {
    if runs == 0 then 1.0 else 1.0 - passed as real / runs as real
  }

  function PassRate(passed: nat, runs: nat): real {
    if runs == 0 then 0.0 else passed as real / runs as real
  }

  lemma NoFailureRate(runs: nat)
    requires runs > 0
    ensures FailureRate(runs, runs) == 0.0
  {
    var x := runs as real;
    assert x / x == 1.0;
  }

  lemma QuotientAtLeast(x: real, y: real, c: real)
    requires y > 0.0
    ensures x / y >= c <==> x >= c * y
  {
    var q := x / y;
    assert x == q * y;
    ScaleCompare(q, c, y);
  }

  lemma ScaleCompare(a: real, b: real, y: real)
    requires y > 0.0
    ensures a >= b <==> a * y >= b * y
  {
    if a < b {
      assert (b - a) * y > 0.0;
    } else {
      assert (a - b) * y >= 0.0;
    }
  }

  /** A pass rate reaches a floor exactly when the passes reach that share of the runs. */
  lemma PassRateFloor(passed: nat, runs: nat, floor: real)
    requires runs > 0
    ensures PassRate(passed, runs) >= floor <==> passed as real >= Share(floor, runs)
  {
    QuotientAtLeast(passed as real, runs as real, floor);
  }

  /** A failure rate keeps a budget exactly when the failures are at most that share of the runs. */
  lemma FailureBudget(passed: nat, runs: nat, budget: real)
    requires runs > 0
    ensures FailureRate(passed, runs) <= budget <==> (runs - passed) as real <= Share(budget, runs)
  {
    QuotientAtLeast(passed as real, runs as real, 1.0 - budget);
    assert (1.0 - budget) * runs as real == runs as real - budget * runs as real;
  }
}
