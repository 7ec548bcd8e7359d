/** The stability verdict of scripts/run_freeze_stability.py. */
module FreezeStability {
  import opened Prelude
  import opened Sequences
  import opened Ordering
  import opened Text
  import opened Statistics

  // ----- inputs -----

  datatype SliceResult = SliceResult(name: string, passed: bool)

  datatype Iteration = Iteration(freezePassed: bool, retryAttempts: int, slices: seq<SliceResult>)

  /** Comma-separated names, trimmed, without blanks and repetitions. */
  function CsvNames(raw: string): seq<string> {
    CleanList(SplitBy(IsComma, raw))
  }

  method ParseCsvNames(raw: string) returns (names: seq<string>)
    ensures names == CsvNames(raw)
    ensures Distinct(names) && "" !in names
  {
    var values := Filter(IsNonEmpty, Map(Strip, SplitBy(IsComma, raw)));
    FilterMembers(IsNonEmpty, Map(Strip, SplitBy(IsComma, raw)));
    DedupMeaning(values);
    names := KeepFirst(values);
  }

  // ----- feature slices -----

  function SliceName(s: SliceResult): string {
    Strip(s.name)
  }

  function SliceNames(it: Iteration): seq<string> {
    Filter(IsNonEmpty, Map(SliceName, it.slices))
  }

  /** `feature_slice_results.get(name, False)`: the last result filed under the name. */
  function SlicePassed(slices: seq<SliceResult>, name: string): bool {
    if slices == [] then false
    else if SliceName(slices[|slices| - 1]) == name then slices[|slices| - 1].passed
    else SlicePassed(slices[..|slices| - 1], name)
  }

  function SlicePasses(name: string): Iteration -> bool {
    (it: Iteration) => name != "" && SlicePassed(it.slices, name)
  }

  function PassedRuns(name: string, iterations: seq<Iteration>): nat {
    Count(SlicePasses(name), iterations)
  }

  /** All slice names seen in any iteration, sorted. */
  function ObservedSlices(iterations: seq<Iteration>): seq<string> {
    SortedSet(StringLe, FlatMap(SliceNames, iterations))
  }

  ghost predicate Observed(iterations: seq<Iteration>, name: string) {
    exists it :: it in iterations && name in SliceNames(it)
  }

  lemma {:induction false} NamesOfRuns(iterations: seq<Iteration>, name: string)
    ensures name in FlatMap(SliceNames, iterations) <==> Observed(iterations, name)
  {
    if iterations != [] {
      var init, last := iterations[..|iterations| - 1], iterations[|iterations| - 1];
      NamesOfRuns(init, name);
      assert iterations == init + [last];
      assert last in iterations;
    }
  }

  lemma ObservedMember(iterations: seq<Iteration>, name: string)
    ensures name in ObservedSlices(iterations) <==> Observed(iterations, name)
  {
    StringLeOrder();
    SortedSetMeaning(StringLe, FlatMap(SliceNames, iterations));
    NamesOfRuns(iterations, name);
  }

  lemma {:induction false} PassImpliesNamed(slices: seq<SliceResult>, name: string)
    requires name != "" && SlicePassed(slices, name)
    ensures name in Filter(IsNonEmpty, Map(SliceName, slices))
  {
    var init, last := slices[..|slices| - 1], slices[|slices| - 1];
    assert Map(SliceName, slices)[..|init|] == Map(SliceName, init);
    if SliceName(last) != name {
      PassImpliesNamed(init, name);
    }
  }

  /** A slice that no run reports never passes. */
  lemma {:induction false} UnobservedNeverPasses(iterations: seq<Iteration>, name: string)
    requires !Observed(iterations, name)
    ensures PassedRuns(name, iterations) == 0
  {
    if iterations != [] {
      var init, last := iterations[..|iterations| - 1], iterations[|iterations| - 1];
      assert iterations == init + [last] && last in iterations;
      if SlicePasses(name)(last) {
        PassImpliesNamed(last.slices, name);
      }
      assert forall it :: it in init ==> it in iterations;
      UnobservedNeverPasses(init, name);
    }
  }

  // ----- the verdict -----

  function Passes(it: Iteration): bool {
    it.freezePassed
  }

  function Retries(it: Iteration): int {
    if it.retryAttempts < 0 then 0 else it.retryAttempts
  }

  function RetryMedian(iterations: seq<Iteration>): real {
    if iterations == [] then 0.0 else Median(Map(Retries, iterations))
  }

  datatype Config = Config(maxFailureRate: real, maxRetryMedian: real, tracked: seq<string>, minSlicePassRate: real)

  /** The slices under watch: the configured ones, or all observed ones. */
  function TrackedSlices(iterations: seq<Iteration>, config: Config): seq<string> {
    if config.tracked == [] then ObservedSlices(iterations) else config.tracked
  }

  function SliceFails(iterations: seq<Iteration>, config: Config): string -> bool {
    (name: string) =>
      name in TrackedSlices(iterations, config)
      && PassRate(PassedRuns(name, iterations), |iterations|) < config.minSlicePassRate
  }

  /** How one slice fared over all runs. */
  datatype SliceRow = SliceRow(
    name: string,
    passedCount: nat,
    failedCount: nat,
    passRate: real,
    classification: Classification,
    stable: bool,
    tracked: bool,
    latestPassed: bool)

  function SliceRowFor(iterations: seq<Iteration>, config: Config): string -> SliceRow {
    (name: string) =>
      var (passed, runs) := (PassedRuns(name, iterations), |iterations|);
      SliceRow(name, passed, runs - passed, PassRate(passed, runs), Classify(passed, runs), passed == runs && runs > 0,
               name in TrackedSlices(iterations, config),
               iterations != [] && SlicePasses(name)(iterations[|iterations| - 1]))
  }

  datatype Report = Report(
    passedCount: nat,
    failureRate: real,
    retryMedian: real,
    classification: Classification,
    sliceRows: seq<SliceRow>,
    sliceFailures: seq<string>,
    failedRuns: seq<Iteration>,
    passed: bool)

  function Fails(it: Iteration): bool {
    !it.freezePassed
  }

  function Evaluate(iterations: seq<Iteration>, config: Config): Report {
    var passed := Count(Passes, iterations);
    var failures := Filter(SliceFails(iterations, config), ObservedSlices(iterations));
    Report(passed, FailureRate(passed, |iterations|), RetryMedian(iterations), Classify(passed, |iterations|),
           Map(SliceRowFor(iterations, config), ObservedSlices(iterations)), failures, Filter(Fails, iterations),
           FailureRate(passed, |iterations|) <= NonNegative(config.maxFailureRate)
           && RetryMedian(iterations) <= NonNegative(config.maxRetryMedian)
           && failures == [])
  }

  method EvaluateStability(iterations: seq<Iteration>, config: Config) returns (r: Report)
    ensures r == Evaluate(iterations, config)
  {
    var passedCount := Count(Passes, iterations);
    var failureRate := FailureRate(passedCount, |iterations|);
    var retryMedian := RetryMedian(iterations);
    var failedRuns := [];
    for i := 0 to |iterations|
      invariant failedRuns == Filter(Fails, iterations[..i])
    {
      assert iterations[..i + 1][..i] == iterations[..i];
      if iterations[i].freezePassed {
        continue;
      }
      failedRuns := failedRuns + [iterations[i]];
    }
    assert iterations[..|iterations|] == iterations;
    var sliceRows, sliceFailures := BuildSliceRows(iterations, config);
    var withinFailures := failureRate <= NonNegative(config.maxFailureRate);
    var withinRetries := retryMedian <= NonNegative(config.maxRetryMedian);
    r := Report(passedCount, failureRate, retryMedian, Classify(passedCount, |iterations|),
                sliceRows, sliceFailures, failedRuns,
                withinFailures && withinRetries && sliceFailures == []);
  }

  method BuildSliceRows(iterations: seq<Iteration>, config: Config) returns (rows: seq<SliceRow>, failures: seq<string>)
    ensures rows == Map(SliceRowFor(iterations, config), ObservedSlices(iterations))
    ensures failures == Filter(SliceFails(iterations, config), ObservedSlices(iterations))
  {
    hide TrackedSlices, PassedRuns, PassRate, Classify, SlicePasses, ObservedSlices;
    var names := ObservedSlices(iterations);
    rows, failures := [], [];
    for i := 0 to |names|
      invariant rows == Map(SliceRowFor(iterations, config), names[..i])
      invariant failures == Filter(SliceFails(iterations, config), names[..i])
    {
      MapSnoc(SliceRowFor(iterations, config), names, i);
      assert names[..i + 1][..i] == names[..i];
      var row := SliceRowFor(iterations, config)(names[i]);
      rows := rows + [row];
      if row.tracked && row.passRate < config.minSlicePassRate {
        failures := failures + [names[i]];
      }
    }
    assert names[..|names|] == names;
  }

  // ----- what a verdict means -----

  lemma {:induction false} FailedComplement(iterations: seq<Iteration>)
    ensures |Filter(Fails, iterations)| + Count(Passes, iterations) == |iterations|
  {
    if iterations != [] {
      FailedComplement(iterations[..|iterations| - 1]);
    }
  }

  lemma {:induction false} RetriesWithin(iterations: seq<Iteration>, bound: real)
    ensures Count(AtMost(bound), Map(Retries, iterations)) == Count(RetryAtMost(bound), iterations)
  {
    if iterations != [] {
      RetriesWithin(iterations[..|iterations| - 1], bound);
      assert Map(Retries, iterations)[..|iterations| - 1] == Map(Retries, iterations[..|iterations| - 1]);
    }
  }

  function RetryAtMost(bound: real): Iteration -> bool {
    (it: Iteration) => Retries(it) as real <= bound
  }

  /** The floor that a tracked slice has to meet. */
  ghost predicate MeetsFloor(iterations: seq<Iteration>, config: Config, name: string) {
    PassedRuns(name, iterations) as real >= Share(config.minSlicePassRate, |iterations|)
  }

  /** No slice failure is reported exactly when all observed tracked slices meet the floor. */
  lemma SliceFailuresExactly(iterations: seq<Iteration>, config: Config)
    requires iterations != []
    ensures Evaluate(iterations, config).sliceFailures == [] <==>
            forall name :: Observed(iterations, name) && name in TrackedSlices(iterations, config)
              ==> MeetsFloor(iterations, config, name)
  {
    hide ObservedSlices, TrackedSlices, PassRate, Share, PassedRuns, RetryMedian, FailureRate;
    var names, fails := ObservedSlices(iterations), SliceFails(iterations, config);
    forall name
      ensures fails(name) <==> name in TrackedSlices(iterations, config) && !MeetsFloor(iterations, config, name)
    {
      PassRateFloor(PassedRuns(name, iterations), |iterations|, config.minSlicePassRate);
    }
    forall name ensures name in names <==> Observed(iterations, name) {
      ObservedMember(iterations, name);
    }
    FilterEmpty(fails, names);
  }

  lemma FailuresExactly(iterations: seq<Iteration>, config: Config)
    requires iterations != []
    ensures Evaluate(iterations, config).failureRate <= NonNegative(config.maxFailureRate) <==>
            |Evaluate(iterations, config).failedRuns| as real <= Share(NonNegative(config.maxFailureRate), |iterations|)
  {
    FailedComplement(iterations);
    FailureBudget(Count(Passes, iterations), |iterations|, NonNegative(config.maxFailureRate));
  }

  /** The retry median keeps a budget exactly when a majority of the runs does, or exactly half
      of them do and the two runs in the middle average within it. */
  ghost predicate RetriesKeep(iterations: seq<Iteration>, bound: real)
    requires iterations != []
  {
    var c := Count(RetryAtMost(bound), iterations);
    2 * c > |iterations| || (2 * c == |iterations| && MiddleWithin(Map(Retries, iterations), bound))
  }

  lemma RetryMedianExactly(iterations: seq<Iteration>, bound: real)
    requires iterations != []
    ensures RetryMedian(iterations) <= bound <==> RetriesKeep(iterations, bound)
  {
    RetriesWithin(iterations, bound);
    MedianExactly(Map(Retries, iterations), bound);
    hide Median, MiddleWithin, Count;
  }

  function RunWith(retries: int): Iteration {
    Iteration(true, retries, [])
  }

  /** How many of the runs must keep the retry budget so that the median keeps it, whatever the
      other runs do: exactly a majority. */
  lemma RetryMajorityExactly(n: nat, c: nat, config: Config)
    requires 0 < n
    ensures var budget := NonNegative(config.maxRetryMedian);
            2 * c > n <==>
            forall iterations: seq<Iteration> ::
              |iterations| == n && Count(RetryAtMost(budget), iterations) == c ==> RetryMedian(iterations) <= budget
  {
    var budget := NonNegative(config.maxRetryMedian);
    if 2 * c > n {
      forall iterations: seq<Iteration> | |iterations| == n && Count(RetryAtMost(budget), iterations) == c
        ensures RetryMedian(iterations) <= budget
      {
        RetryMedianExactly(iterations, budget);
      }
    } else {
      var samples := TwoValued(n, c, budget.Floor, budget.Floor + 3);
      TwoValuedMedian(n, c, budget);
      var runs := Map(RunWith, samples);
      assert Map(Retries, runs) == samples;
      RetriesWithin(runs, budget);
    }
  }

  /** A verdict over at least one run passes exactly when the failed runs are within their share,
      the retries keep their budget, and every observed tracked slice meets its floor. */
  lemma PassExactly(iterations: seq<Iteration>, config: Config)
    requires iterations != []
    ensures Evaluate(iterations, config).passed <==>
            && |Evaluate(iterations, config).failedRuns| as real
               <= Share(NonNegative(config.maxFailureRate), |iterations|)
            && RetriesKeep(iterations, NonNegative(config.maxRetryMedian))
            && forall name :: Observed(iterations, name) && name in TrackedSlices(iterations, config)
                 ==> MeetsFloor(iterations, config, name)
  {
    FailuresExactly(iterations, config);
    RetryMedianExactly(iterations, NonNegative(config.maxRetryMedian));
    SliceFailuresExactly(iterations, config);
    hide TrackedSlices, MeetsFloor, Share, FailureRate, RetryMedian, NonNegative, RetriesKeep;
  }

  /** A passing verdict over at least one run: the failed runs are within their share, at least
      half of the runs kept the retry budget, and every observed tracked slice met its floor. */
  lemma PassMeans(iterations: seq<Iteration>, config: Config)
    requires iterations != [] && Evaluate(iterations, config).passed
    ensures |Evaluate(iterations, config).failedRuns| as real <= Share(NonNegative(config.maxFailureRate), |iterations|)
    ensures 2 * Count(RetryAtMost(NonNegative(config.maxRetryMedian)), iterations) >= |iterations|
    ensures forall name :: Observed(iterations, name) && name in TrackedSlices(iterations, config)
              ==> MeetsFloor(iterations, config, name)
  {
    PassExactly(iterations, config);
    hide Evaluate, TrackedSlices, MeetsFloor, Share, NonNegative, MiddleWithin, Observed;
  }

  /** Conversely, failures within their share, a majority of runs within the retry budget and all
      observed tracked slices at their floor make the verdict pass. */
  lemma PassFollows(iterations: seq<Iteration>, config: Config)
    requires iterations != []
    requires |Evaluate(iterations, config).failedRuns| as real
             <= Share(NonNegative(config.maxFailureRate), |iterations|)
    requires 2 * Count(RetryAtMost(NonNegative(config.maxRetryMedian)), iterations) > |iterations|
    requires forall name :: Observed(iterations, name) && name in TrackedSlices(iterations, config)
               ==> MeetsFloor(iterations, config, name)
    ensures Evaluate(iterations, config).passed
  {
    PassExactly(iterations, config);
    hide Evaluate, TrackedSlices, MeetsFloor, Share, NonNegative, MiddleWithin, Observed;
  }

  /** The classification in terms of the runs that passed and failed. */
  lemma ClassificationMeaning(iterations: seq<Iteration>, config: Config)
    ensures var (c, passed, failed) :=
              (Evaluate(iterations, config).classification, Count(Passes, iterations), |Filter(Fails, iterations)|);
            && (c == NoData <==> iterations == [])
            && (c == StablePass <==> iterations != [] && forall it :: it in iterations ==> it.freezePassed)
            && (c == StableFail <==> failed > 0 && passed == 0)
            && (c == OneOffPass <==> failed > 0 && passed == 1)
            && (c == MixedRuns <==> failed > 0 && passed > 1)
  {
    FailedComplement(iterations);
    CountFull(Passes, iterations);
  }

  /** A slice is reported stable exactly when it passed in every run, and then its latest run
      passed; a slice without any pass is a stable failure. */
  lemma SliceRowMeaning(iterations: seq<Iteration>, config: Config, name: string)
    requires iterations != []
    ensures var row := SliceRowFor(iterations, config)(name);
            && row.passedCount + row.failedCount == |iterations|
            && (row.stable <==> forall it :: it in iterations ==> SlicePasses(name)(it))
            && (row.stable <==> row.classification == StablePass)
            && (row.stable ==> row.latestPassed)
            && (!Observed(iterations, name) ==> row.classification == StableFail && !row.latestPassed)
  {
    CountFull(SlicePasses(name), iterations);
    var last := iterations[|iterations| - 1];
    assert last in iterations;
    if !Observed(iterations, name) {
      UnobservedNeverPasses(iterations, name);
      if SlicePasses(name)(last) {
        PassImpliesNamed(last.slices, name);
      }
    }
  }

  /** Without runs the verdict passes exactly when the failure budget tolerates every failure. */
  lemma NoRuns(config: Config)
    ensures Evaluate([], config).passed <==> config.maxFailureRate >= 1.0
    ensures Evaluate([], config).classification == NoData
  {
    assert FlatMap(SliceNames, []) == [];
    assert ObservedSlices([]) == [];
  }

  /** A tracked slice that never shows up is not reported: with a passing verdict all tracked
      slices meet a floor exactly when the floor is not positive or all of them were observed. */
  lemma TrackedFloorExactly(iterations: seq<Iteration>, config: Config)
    requires iterations != [] && Evaluate(iterations, config).passed
    ensures (forall name :: name in TrackedSlices(iterations, config) ==> MeetsFloor(iterations, config, name)) <==>
            (config.minSlicePassRate <= 0.0
             || forall name :: name in TrackedSlices(iterations, config) ==> Observed(iterations, name))
  {
    PassMeans(iterations, config);
    forall name | !Observed(iterations, name)
      ensures MeetsFloor(iterations, config, name) <==> config.minSlicePassRate <= 0.0
    {
      UnobservedNeverPasses(iterations, name);
      ShareSign(config.minSlicePassRate, |iterations|);
    }
    hide MeetsFloor, TrackedSlices, Evaluate;
  }

  lemma ShareSign(rate: real, runs: nat)
    requires runs > 0
    ensures Share(rate, runs) <= 0.0 <==> rate <= 0.0
  {
    ScaleCompare(0.0, rate, runs as real);
  }

  /** The failing case: one clean run, a tracked slice that does not exist, and a pass. */
  lemma UnobservedSlicePasses(name: string)
    requires name != ""
    ensures var (runs, config) := ([Iteration(true, 0, [])], Config(0.0, 0.0, [name], 1.0));
            Evaluate(runs, config).passed && !MeetsFloor(runs, config, name)
  {
    var run := Iteration(true, 0, []);
    var runs, config := [run], Config(0.0, 0.0, [name], 1.0);
    assert runs[..0] == [];
    assert SliceNames(run) == [];
    assert forall it :: it in runs ==> it == run;
    UnobservedNeverPasses(runs, name);
    assert FlatMap(SliceNames, runs) == [] + [];
    assert ObservedSlices(runs) == [];
    SortIdentity(IntLe, [0]);
    assert Map(Retries, runs) == [0];
  }
}
