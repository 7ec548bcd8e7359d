/** The freeze verdict in terms of what the runs report. */
module FreezeMeaning {
  import opened Prelude
  import opened Sequences
  import opened Ordering
  import opened Text
  import opened Statistics
  import opened FreezeStability

  // ----- slices -----

  /** The i-th result is a pass filed under this name, and no later one is filed there. */
  predicate LastPassAt(slices: seq<SliceResult>, name: string, i: int) {
    0 <= i < |slices| && Strip(slices[i].name) == name && slices[i].passed
    && forall j :: i < j < |slices| ==> Strip(slices[j].name) != name
  }

  /** The last result the run files under this name is a pass. */
  function LastIsPass(name: string): Iteration -> bool {
    (it: Iteration) => exists i :: 0 <= i < |it.slices| && LastPassAt(it.slices, name, i)
  }

  ghost predicate Mentions(it: Iteration, name: string) {
    name != "" && exists i :: 0 <= i < |it.slices| && Strip(it.slices[i].name) == name
  }

  ghost predicate Seen(iterations: seq<Iteration>, name: string) {
    exists it :: it in iterations && Mentions(it, name)
  }

  lemma LastPassSnoc(init: seq<SliceResult>, last: SliceResult, name: string, i: int)
    ensures LastPassAt(init + [last], name, i) <==>
            if i == |init| then Strip(last.name) == name && last.passed
            else LastPassAt(init, name, i) && Strip(last.name) != name
  {
    var all := init + [last];
    hide Strip;
    assert all[|init|] == last;
    assert forall j :: 0 <= j < |init| ==> all[j] == init[j];
  }

  lemma {:induction false} LastResult(slices: seq<SliceResult>, name: string)
    ensures SlicePassed(slices, name) <==> exists i :: 0 <= i < |slices| && LastPassAt(slices, name, i)
  {
    if slices != [] {
      var init, last := slices[..|slices| - 1], slices[|slices| - 1];
      assert slices == init + [last];
      LastResult(init, name);
      forall i ensures LastPassAt(slices, name, i) <==>
            if i == |init| then Strip(last.name) == name && last.passed
            else LastPassAt(init, name, i) && Strip(last.name) != name
      {
        LastPassSnoc(init, last, name, i);
      }
      hide LastPassAt, Strip;
      if Strip(last.name) == name && last.passed {
        assert LastPassAt(slices, name, |init|);
      }
    }
  }

  lemma PassesAsReported(it: Iteration, name: string)
    requires name != ""
    ensures SlicePasses(name)(it) <==> LastIsPass(name)(it)
  {
    LastResult(it.slices, name);
  }

  /** A slice passes a run when the last result filed under its name is a pass. */
  lemma {:induction false} PassedRunsMeaning(name: string, iterations: seq<Iteration>)
    requires name != ""
    ensures PassedRuns(name, iterations) == Count(LastIsPass(name), iterations)
  {
    if iterations != [] {
      PassedRunsMeaning(name, iterations[..|iterations| - 1]);
      PassesAsReported(iterations[|iterations| - 1], name);
      hide LastIsPass, SlicePasses;
    }
  }

  lemma NamesMentioned(it: Iteration, name: string)
    ensures name in SliceNames(it) <==> Mentions(it, name)
  {
    FilterMembers(IsNonEmpty, Map(SliceName, it.slices));
    MapMember(SliceName, it.slices, name);
    hide Strip, Filter, Map;
    if name != "" && exists x :: x in it.slices && SliceName(x) == name {
      var x :| x in it.slices && SliceName(x) == name;
      var i :| 0 <= i < |it.slices| && it.slices[i] == x;
      assert Strip(it.slices[i].name) == name;
    }
    if Mentions(it, name) {
      var i :| 0 <= i < |it.slices| && Strip(it.slices[i].name) == name;
      assert SliceName(it.slices[i]) == name && it.slices[i] in it.slices;
    }
  }

  lemma ObservedSeen(iterations: seq<Iteration>, name: string)
    ensures Observed(iterations, name) <==> Seen(iterations, name)
  {
    hide SliceNames, Mentions;
    forall it ensures name in SliceNames(it) <==> Mentions(it, name) {
      NamesMentioned(it, name);
    }
  }

  /** The rate is what the part is of the whole. */
  ghost predicate RateOf(rate: real, part: int, whole: int) {
    rate * whole as real == part as real
  }

  lemma RowReported(iterations: seq<Iteration>, config: Config, name: string)
    requires iterations != [] && Seen(iterations, name)
    ensures var row := SliceRowFor(iterations, config)(name);
            && row.name == name
            && row.passedCount == Count(LastIsPass(name), iterations)
            && row.failedCount == |iterations| - Count(LastIsPass(name), iterations)
            && RateOf(row.passRate, row.passedCount, |iterations|)
            && (row.tracked <==> config.tracked == [] || name in config.tracked)
            && (row.latestPassed <==> LastIsPass(name)(iterations[|iterations| - 1]))
  {
    hide ObservedSlices, TrackedSlices, LastIsPass, SlicePasses, Observed, PassedRuns, Seen, Count, PassRate, Classify;
    hide RateOf;
    MentionsNamed(iterations, name);
    PassedRunsMeaning(name, iterations);
    PassesAsReported(iterations[|iterations| - 1], name);
    TrackedIs(iterations, config, name);
    RateTimesRuns(PassedRuns(name, iterations), |iterations|);
  }

  lemma TrackedIs(iterations: seq<Iteration>, config: Config, name: string)
    requires Seen(iterations, name)
    ensures name in TrackedSlices(iterations, config) <==> config.tracked == [] || name in config.tracked
  {
    hide ObservedSlices, Observed, Seen;
    ObservedMember(iterations, name);
    ObservedSeen(iterations, name);
  }

  lemma RowsListed(iterations: seq<Iteration>, config: Config)
    ensures Evaluate(iterations, config).sliceRows == Map(SliceRowFor(iterations, config), ObservedSlices(iterations))
  {
  }

  /** The report has one row for every slice that some run mentions, sorted by name; a row counts
      the runs whose last result of that name is a pass, and says whether the last run is one. */
  lemma SliceRowsReported(iterations: seq<Iteration>, config: Config, i: nat)
    requires iterations != [] && i < |Evaluate(iterations, config).sliceRows|
    ensures var rows := Evaluate(iterations, config).sliceRows;
            var row := rows[i];
            && Seen(iterations, row.name)
            && row.passedCount == Count(LastIsPass(row.name), iterations)
            && row.failedCount == |iterations| - Count(LastIsPass(row.name), iterations)
            && RateOf(row.passRate, row.passedCount, |iterations|)
            && (row.tracked <==> config.tracked == [] || row.name in config.tracked)
            && (row.latestPassed <==> LastIsPass(row.name)(iterations[|iterations| - 1]))
            && forall j :: 0 <= j < i ==> StringLe(rows[j].name, row.name) && rows[j].name != row.name
  {
    var names := ObservedSlices(iterations);
    RowsListed(iterations, config);
    SortedNames(iterations);
    hide ObservedSlices, LastIsPass, Observed, Evaluate, Seen, Count, StringLe, RateOf;
    var name := names[i];
    assert name in names;
    ObservedMember(iterations, name);
    ObservedSeen(iterations, name);
    RowReported(iterations, config, name);
    forall j | 0 <= j < i ensures SliceRowFor(iterations, config)(names[j]).name == names[j] {
    }
    hide SliceRowFor;
  }

  lemma MentionsNamed(iterations: seq<Iteration>, name: string)
    requires Seen(iterations, name)
    ensures name != ""
  {
  }

  lemma SortedNames(iterations: seq<Iteration>)
    ensures StrictlySorted(StringLe, ObservedSlices(iterations))
  {
    StringLeOrder();
    SortedSetMeaning(StringLe, FlatMap(SliceNames, iterations));
  }

  lemma RateTimesRuns(passed: nat, runs: nat)
    requires runs > 0
    ensures RateOf(PassRate(passed, runs), passed, runs)
  {
  }

  lemma EverySeenHasRow(iterations: seq<Iteration>, config: Config, name: string)
    requires Seen(iterations, name)
    ensures exists i :: 0 <= i < |Evaluate(iterations, config).sliceRows|
                        && Evaluate(iterations, config).sliceRows[i].name == name
  {
    ObservedSeen(iterations, name);
    ObservedMember(iterations, name);
    var names := ObservedSlices(iterations);
    var i :| 0 <= i < |names| && names[i] == name;
    assert Evaluate(iterations, config).sliceRows[i].name == name;
  }

  // ----- the verdict -----

  function NotPassed(it: Iteration): bool {
    !it.freezePassed
  }

  function AttemptsWithin(bound: real): Iteration -> bool {
    (it: Iteration) => it.retryAttempts as real <= bound
  }

  /** The retry attempts of the runs; a negative number is read as zero. */
  function Attempts(iterations: seq<Iteration>): (ks: seq<int>)
    ensures |ks| == |iterations|
    ensures forall i :: 0 <= i < |ks| ==>
              ks[i] == if iterations[i].retryAttempts < 0 then 0 else iterations[i].retryAttempts
  {
    seq(|iterations|, i requires 0 <= i < |iterations| =>
      if iterations[i].retryAttempts < 0 then 0 else iterations[i].retryAttempts)
  }

  lemma {:induction false} FailedCounted(iterations: seq<Iteration>)
    ensures |Filter(Fails, iterations)| == Count(NotPassed, iterations)
  {
    if iterations != [] {
      FailedCounted(iterations[..|iterations| - 1]);
    }
  }

  ghost predicate RetriesMeetBudget(iterations: seq<Iteration>, budget: real)
    requires iterations != []
  {
    var c := Count(AttemptsWithin(budget), iterations);
    2 * c > |iterations| || (2 * c == |iterations| && MiddleWithin(Attempts(iterations), budget))
  }

  lemma RetriesAsReported(iterations: seq<Iteration>, budget: real)
    requires iterations != [] && budget >= 0.0
    ensures RetriesKeep(iterations, budget) <==> RetriesMeetBudget(iterations, budget)
  {
    CountCongruent(RetryAtMost(budget), AttemptsWithin(budget), iterations);
    assert Map(Retries, iterations) == Attempts(iterations);
    hide MiddleWithin, Count;
  }

  /** Every slice that some run mentions and that is under watch (all of them when none is named)
      passes its share of the runs. */
  ghost predicate SlicesMeetFloor(iterations: seq<Iteration>, config: Config) {
    forall name :: Seen(iterations, name) && (config.tracked == [] || name in config.tracked) ==>
      ReachesShare(Count(LastIsPass(name), iterations), config.minSlicePassRate, |iterations|)
  }

  /** The part is at least this share of the whole. */
  ghost predicate ReachesShare(part: int, share: real, whole: int) {
    part as real >= share * whole as real
  }

  lemma WatchedAsReported(iterations: seq<Iteration>, config: Config, name: string)
    ensures Observed(iterations, name) && name in TrackedSlices(iterations, config) <==>
            Seen(iterations, name) && (config.tracked == [] || name in config.tracked)
  {
    hide Observed, Seen, ObservedSlices;
    ObservedSeen(iterations, name);
    ObservedMember(iterations, name);
  }

  lemma FloorOfSeen(iterations: seq<Iteration>, config: Config, name: string)
    requires Seen(iterations, name)
    ensures MeetsFloor(iterations, config, name) <==>
            ReachesShare(Count(LastIsPass(name), iterations), config.minSlicePassRate, |iterations|)
  {
    hide LastIsPass, Seen;
    MentionsNamed(iterations, name);
    PassedRunsMeaning(name, iterations);
    FloorIs(iterations, config, name);
    hide MeetsFloor, Count;
  }

  lemma FloorAsReported(iterations: seq<Iteration>, config: Config)
    ensures SlicesMeetFloor(iterations, config) <==>
            forall name :: Observed(iterations, name) && name in TrackedSlices(iterations, config)
              ==> MeetsFloor(iterations, config, name)
  {
    hide Observed, TrackedSlices, LastIsPass, Seen, MeetsFloor, Count, ReachesShare;
    forall name
      ensures Observed(iterations, name) && name in TrackedSlices(iterations, config) <==>
              Seen(iterations, name) && (config.tracked == [] || name in config.tracked)
    {
      WatchedAsReported(iterations, config, name);
    }
    forall name | Seen(iterations, name)
      ensures MeetsFloor(iterations, config, name) <==>
              ReachesShare(Count(LastIsPass(name), iterations), config.minSlicePassRate, |iterations|)
    {
      FloorOfSeen(iterations, config, name);
    }
  }

  lemma FloorIs(iterations: seq<Iteration>, config: Config, name: string)
    ensures MeetsFloor(iterations, config, name) <==>
            ReachesShare(PassedRuns(name, iterations), config.minSlicePassRate, |iterations|)
  {
  }

  /** The verdict over at least one run passes exactly when the runs that did not pass are within
      their share, a majority of the runs keeps the retry budget (or half of them, with the middle
      two averaging within it), and every watched slice that was seen passes its share of runs. */
  lemma PassesExactly(iterations: seq<Iteration>, config: Config)
    requires iterations != []
    ensures var failures := if config.maxFailureRate < 0.0 then 0.0 else config.maxFailureRate;
            var retries := if config.maxRetryMedian < 0.0 then 0.0 else config.maxRetryMedian;
            Evaluate(iterations, config).passed <==>
            && Count(NotPassed, iterations) as real <= failures * |iterations| as real
            && RetriesMeetBudget(iterations, retries)
            && SlicesMeetFloor(iterations, config)
  {
    FailedListed(iterations, config);
    hide Evaluate, RetriesKeep, RetriesMeetBudget, SlicesMeetFloor, Count, Filter, MeetsFloor, TrackedSlices, Observed;
    PassExactly(iterations, config);
    FailedCounted(iterations);
    RetriesAsReported(iterations, NonNegative(config.maxRetryMedian));
    FloorAsReported(iterations, config);
  }

  /** The failed runs are those that did not pass, in order. */
  lemma FailedListed(iterations: seq<Iteration>, config: Config)
    ensures Evaluate(iterations, config).failedRuns == Filter(Fails, iterations)
  {
  }

  /** The tracked names are the distinct non-blank items of the list, in their order. */
  lemma CsvNamesMeaning(raw: string)
    ensures Trims(CsvNames(raw), SplitBy(IsComma, raw))
  {
    CleanListTrims(SplitBy(IsComma, raw));
  }
}
