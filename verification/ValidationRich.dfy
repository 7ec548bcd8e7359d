/** Thresholds, single runs and the stability payload of scripts/run_validation_rich_stability.py.
    The threshold table is the one scripts/evaluate_validation_rich_gate_promotion.py uses too. */
module ValidationRich {
  import opened Prelude
  import opened Sequences
  import opened Statistics

  datatype Metric =
    | TaskSuccessRate | PrecisionAtK | NoiseRate | LatencyP95
    | ValidationTestCount | EvidenceInsufficientRate | MissingValidationRate

  const CHECKS: seq<Metric> :=
    [TaskSuccessRate, PrecisionAtK, NoiseRate, LatencyP95, ValidationTestCount,
     EvidenceInsufficientRate, MissingValidationRate]

  type Metrics = map<Metric, real>

  /** The configured minima and maxima; an absent or negative threshold is switched off. */
  type Thresholds = map<Metric, real>

  predicate HigherIsBetter(m: Metric) {
    m == TaskSuccessRate || m == PrecisionAtK || m == ValidationTestCount
  }

  function MetricOf(metrics: Metrics, m: Metric): real {
    if m in metrics then metrics[m] else 0.0
  }

  function ThresholdOf(thresholds: Thresholds, m: Metric): real {
    if m in thresholds then thresholds[m] else -1.0
  }

  predicate Violates(metrics: Metrics, thresholds: Thresholds, m: Metric) {
    var actual, expected := MetricOf(metrics, m), ThresholdOf(thresholds, m);
    expected >= 0.0 && (if HigherIsBetter(m) then actual < expected else actual > expected)
  }

  function Violation(metrics: Metrics, thresholds: Thresholds): Metric -> bool {
    (m: Metric) => Violates(metrics, thresholds, m)
  }

  function Violations(metrics: Metrics, thresholds: Thresholds): seq<Metric> {
    Filter(Violation(metrics, thresholds), CHECKS)
  }

  method EvaluateThresholds(metrics: Metrics, thresholds: Thresholds) returns (failures: seq<Metric>)
    ensures failures == Violations(metrics, thresholds)
  {
    failures := [];
    for i := 0 to |CHECKS|
      invariant failures == Filter(Violation(metrics, thresholds), CHECKS[..i])
    {
      assert CHECKS[..i + 1][..i] == CHECKS[..i];
      var m := CHECKS[i];
      var actual, expected := MetricOf(metrics, m), ThresholdOf(thresholds, m);
      if expected < 0.0 {
        continue;
      }
      if HigherIsBetter(m) && actual < expected {
        failures := failures + [m];
      }
      if !HigherIsBetter(m) && actual > expected {
        failures := failures + [m];
      }
    }
    assert CHECKS[..|CHECKS|] == CHECKS;
  }

  lemma EveryCheck(m: Metric)
    ensures m in CHECKS
  {
    match m
    case TaskSuccessRate => assert CHECKS[0] == m;
    case PrecisionAtK => assert CHECKS[1] == m;
    case NoiseRate => assert CHECKS[2] == m;
    case LatencyP95 => assert CHECKS[3] == m;
    case ValidationTestCount => assert CHECKS[4] == m;
    case EvidenceInsufficientRate => assert CHECKS[5] == m;
    case MissingValidationRate => assert CHECKS[6] == m;
  }

  /** No failure is listed exactly when every threshold that is switched on is met. */
  lemma ViolationsExactly(metrics: Metrics, thresholds: Thresholds)
    ensures Violations(metrics, thresholds) == [] <==> forall m :: !Violates(metrics, thresholds, m)
  {
    FilterEmpty(Violation(metrics, thresholds), CHECKS);
    forall m ensures m in CHECKS {
      EveryCheck(m);
    }
    hide CHECKS;
    forall m ensures Violation(metrics, thresholds)(m) <==> Violates(metrics, thresholds, m) {
    }
  }

  // ----- one run -----

  datatype Summary = Summary(caseCount: int, regressed: bool, metrics: Metrics)

  datatype GateFailure = SummaryMissing | NoCases | Regressed | BadMetric(metric: Metric)

  function BadMetrics(failures: seq<Metric>): seq<GateFailure> {
    if failures == [] then [] else BadMetrics(failures[..|failures| - 1]) + [BadMetric(failures[|failures| - 1])]
  }

  function SummaryFailures(summary: Option<Summary>, thresholds: Thresholds): seq<GateFailure> {
    match summary
    case None => [SummaryMissing]
    case Some(s) =>
      (if s.caseCount <= 0 then [NoCases] else [])
      + (if s.regressed then [Regressed] else [])
      + BadMetrics(Violations(s.metrics, thresholds))
  }

  method EvaluateSummary(summary: Option<Summary>, thresholds: Thresholds)
    returns (passed: bool, failures: seq<GateFailure>)
    ensures failures == SummaryFailures(summary, thresholds)
    ensures passed <==> failures == []
  {
    failures := [];
    if summary.None? {
      return false, [SummaryMissing];
    }
    if summary.value.caseCount <= 0 {
      failures := failures + [NoCases];
    }
    if summary.value.regressed {
      failures := failures + [Regressed];
    }
    var bad := MetricFailures(summary.value.metrics, thresholds);
    failures := failures + bad;
    passed := |failures| == 0;
  }

  method MetricFailures(metrics: Metrics, thresholds: Thresholds) returns (failures: seq<GateFailure>)
    ensures failures == BadMetrics(Violations(metrics, thresholds))
  {
    var bad := EvaluateThresholds(metrics, thresholds);
    failures := [];
    for i := 0 to |bad|
      invariant failures == BadMetrics(bad[..i])
    {
      assert bad[..i + 1][..i] == bad[..i];
      failures := failures + [BadMetric(bad[i])];
    }
    assert bad[..|bad|] == bad;
  }

  /** What running the benchmark once leaves behind; the summary is None when it is missing or empty. */
  datatype Outcome = Outcome(returncode: int, summary: Option<Summary>)

  datatype Iteration = Iteration(outcome: Outcome, benchmarkPassed: bool, gateFailures: seq<GateFailure>)

  function IterationOf(thresholds: Thresholds): Outcome -> Iteration {
    (o: Outcome) =>
      var failures := SummaryFailures(o.summary, thresholds);
      Iteration(o, failures == [] && o.returncode == 0, failures)
  }

  method RunIteration(o: Outcome, thresholds: Thresholds) returns (it: Iteration)
    ensures it == IterationOf(thresholds)(o)
  {
    var passed, failures := EvaluateSummary(o.summary, thresholds);
    it := Iteration(o, passed && o.returncode == 0, failures);
  }

  /** A threshold that is switched on is met. */
  predicate Meets(metrics: Metrics, thresholds: Thresholds, m: Metric) {
    ThresholdOf(thresholds, m) >= 0.0 ==>
      if HigherIsBetter(m) then MetricOf(metrics, m) >= ThresholdOf(thresholds, m)
      else MetricOf(metrics, m) <= ThresholdOf(thresholds, m)
  }

  /** A run that exited 0, had cases, was not regressed and met every threshold switched on. */
  ghost predicate CleanRun(o: Outcome, thresholds: Thresholds) {
    && o.returncode == 0 && o.summary.Some?
    && o.summary.value.caseCount > 0 && !o.summary.value.regressed
    && forall m :: Meets(o.summary.value.metrics, thresholds, m)
  }

  /** The recorded verdict of a run is exactly its cleanliness. */
  lemma PassedIsClean(o: Outcome, thresholds: Thresholds)
    ensures IterationOf(thresholds)(o).benchmarkPassed <==> CleanRun(o, thresholds)
  {
    if o.summary.Some? {
      var s := o.summary.value;
      ViolationsExactly(s.metrics, thresholds);
      forall m ensures Meets(s.metrics, thresholds, m) <==> !Violates(s.metrics, thresholds, m) {
      }
      hide Violations, Meets, Violates;
      assert SummaryFailures(o.summary, thresholds) == [] <==>
             s.caseCount > 0 && !s.regressed && Violations(s.metrics, thresholds) == [];
    }
  }

  // ----- repeated runs -----

  function Passed(it: Iteration): bool {
    it.benchmarkPassed
  }

  predicate Failed(it: Iteration) {
    !it.benchmarkPassed
  }

  datatype Stability = Stability(
    runCount: nat,
    passedCount: nat,
    failureRate: real,
    classification: Classification,
    passed: bool,
    failedRuns: seq<Iteration>)

  function Evaluate(iterations: seq<Iteration>, maxFailureRate: real): Stability {
    var passed := Count(Passed, iterations);
    var rate := FailureRate(passed, |iterations|);
    Stability(|iterations|, passed, rate, Classify(passed, |iterations|),
              rate <= NonNegative(maxFailureRate), Filter(Failed, iterations))
  }

  method EvaluateStability(iterations: seq<Iteration>, maxFailureRate: real) returns (payload: Stability)
    ensures payload == Evaluate(iterations, maxFailureRate)
  {
    var passedCount := Count(Passed, iterations);
    var failureRate := FailureRate(passedCount, |iterations|);
    var failedRuns := [];
    for i := 0 to |iterations|
      invariant failedRuns == Filter(Failed, iterations[..i])
    {
      assert iterations[..i + 1][..i] == iterations[..i];
      if iterations[i].benchmarkPassed {
        continue;
      }
      failedRuns := failedRuns + [iterations[i]];
    }
    assert iterations[..|iterations|] == iterations;
    payload := Stability(|iterations|, passedCount, failureRate, Classify(passedCount, |iterations|),
                         failureRate <= NonNegative(maxFailureRate), failedRuns);
  }

  /** All the runs of a stability session. */
  method RunAll(outcomes: seq<Outcome>, thresholds: Thresholds, maxFailureRate: real) returns (payload: Stability)
    ensures payload == Evaluate(Map(IterationOf(thresholds), outcomes), maxFailureRate)
  {
    var iterations := [];
    for i := 0 to |outcomes|
      invariant iterations == Map(IterationOf(thresholds), outcomes[..i])
    {
      MapSnoc(IterationOf(thresholds), outcomes, i);
      var it := RunIteration(outcomes[i], thresholds);
      iterations := iterations + [it];
    }
    assert outcomes[..|outcomes|] == outcomes;
    payload := EvaluateStability(iterations, maxFailureRate);
  }

  /** The runs are classified stable exactly when there is one and all of them are clean. */
  lemma StablePassExactly(outcomes: seq<Outcome>, thresholds: Thresholds, maxFailureRate: real)
    ensures Evaluate(Map(IterationOf(thresholds), outcomes), maxFailureRate).classification == StablePass <==>
            outcomes != [] && forall o :: o in outcomes ==> CleanRun(o, thresholds)
  {
    CountFull(Passed, Map(IterationOf(thresholds), outcomes));
    AllPassedAllClean(outcomes, thresholds);
  }

  lemma {:induction false} AllPassedAllClean(outcomes: seq<Outcome>, thresholds: Thresholds)
    ensures (forall it :: it in Map(IterationOf(thresholds), outcomes) ==> Passed(it)) <==>
            (forall o :: o in outcomes ==> CleanRun(o, thresholds))
  {
    hide CleanRun;
    if outcomes != [] {
      var init, last := outcomes[..|outcomes| - 1], outcomes[|outcomes| - 1];
      AllPassedAllClean(init, thresholds);
      PassedIsClean(last, thresholds);
      assert outcomes == init + [last];
      assert Map(IterationOf(thresholds), outcomes)
          == Map(IterationOf(thresholds), init) + [IterationOf(thresholds)(last)];
      hide IterationOf;
      assert last in outcomes;
      assert IterationOf(thresholds)(last) in Map(IterationOf(thresholds), outcomes);
    }
  }

  /** A stable pass keeps every failure budget, since a negative one is read as zero: in these
      payloads the `passed` flag adds nothing to the classification. */
  lemma StablePassPasses(iterations: seq<Iteration>, maxFailureRate: real)
    requires Evaluate(iterations, maxFailureRate).classification == StablePass
    ensures Evaluate(iterations, maxFailureRate).passed
    ensures Evaluate(iterations, maxFailureRate).failureRate == 0.0
    ensures Evaluate(iterations, maxFailureRate).failedRuns == []
  {
    CountFull(Passed, iterations);
    NoneFailed(iterations);
    NoFailureRate(|iterations|);
    hide FailureRate;
  }

  lemma {:induction false} NoneFailed(iterations: seq<Iteration>)
    requires forall it :: it in iterations ==> Passed(it)
    ensures Filter(Failed, iterations) == []
  {
    if iterations != [] {
      assert iterations[|iterations| - 1] in iterations;
      assert forall it :: it in iterations[..|iterations| - 1] ==> it in iterations;
      NoneFailed(iterations[..|iterations| - 1]);
    }
  }
}
