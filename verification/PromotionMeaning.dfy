/** The promotion decision and the stability sessions behind it, in terms of the reported numbers. */
module PromotionMeaning {
  import opened Prelude
  import opened Sequences
  import opened Statistics
  import opened ValidationRich
  import opened Promotion

  // ----- thresholds -----

  /** The metric, zero when absent, reaches a minimum that is switched on. */
  predicate Reaches(metrics: Metrics, thresholds: Thresholds, m: Metric) {
    m in thresholds && thresholds[m] >= 0.0 ==> (if m in metrics then metrics[m] else 0.0) >= thresholds[m]
  }

  /** The metric, zero when absent, stays within a maximum that is switched on. */
  predicate Stays(metrics: Metrics, thresholds: Thresholds, m: Metric) {
    m in thresholds && thresholds[m] >= 0.0 ==> (if m in metrics then metrics[m] else 0.0) <= thresholds[m]
  }

  /** Success, precision and tests have minima; noise, latency, missing evidence and missing
      validation have maxima. */
  predicate MeetsAll(metrics: Metrics, thresholds: Thresholds) {
    && Reaches(metrics, thresholds, TaskSuccessRate)
    && Reaches(metrics, thresholds, PrecisionAtK)
    && Stays(metrics, thresholds, NoiseRate)
    && Stays(metrics, thresholds, LatencyP95)
    && Reaches(metrics, thresholds, ValidationTestCount)
    && Stays(metrics, thresholds, EvidenceInsufficientRate)
    && Stays(metrics, thresholds, MissingValidationRate)
  }

  lemma ThresholdsMeaning(metrics: Metrics, thresholds: Thresholds)
    ensures Violations(metrics, thresholds) == [] <==> MeetsAll(metrics, thresholds)
  {
    ViolationsExactly(metrics, thresholds);
    hide Violations;
    assert !Violates(metrics, thresholds, TaskSuccessRate) <==> Reaches(metrics, thresholds, TaskSuccessRate);
    assert !Violates(metrics, thresholds, PrecisionAtK) <==> Reaches(metrics, thresholds, PrecisionAtK);
    assert !Violates(metrics, thresholds, NoiseRate) <==> Stays(metrics, thresholds, NoiseRate);
    assert !Violates(metrics, thresholds, LatencyP95) <==> Stays(metrics, thresholds, LatencyP95);
    assert !Violates(metrics, thresholds, ValidationTestCount) <==> Reaches(metrics, thresholds, ValidationTestCount);
    assert !Violates(metrics, thresholds, EvidenceInsufficientRate) <==>
           Stays(metrics, thresholds, EvidenceInsufficientRate);
    assert !Violates(metrics, thresholds, MissingValidationRate) <==> Stays(metrics, thresholds, MissingValidationRate);
    hide Violates, Reaches, Stays;
    assert forall m: Metric :: m.TaskSuccessRate? || m.PrecisionAtK? || m.NoiseRate? || m.LatencyP95?
             || m.ValidationTestCount? || m.EvidenceInsufficientRate? || m.MissingValidationRate?;
  }

  // ----- one session -----

  /** The run exited 0, reports a case count above zero, was not regressed and met its thresholds. */
  function CleanOutcome(thresholds: Thresholds): Outcome -> bool {
    (o: Outcome) =>
      o.returncode == 0 && o.summary.Some?
      && o.summary.value.caseCount > 0 && !o.summary.value.regressed && MeetsAll(o.summary.value.metrics, thresholds)
  }

  lemma RunPassesExactly(o: Outcome, thresholds: Thresholds)
    ensures IterationOf(thresholds)(o).benchmarkPassed <==> CleanOutcome(thresholds)(o)
    ensures IterationOf(thresholds)(o).outcome == o
  {
    if o.summary.Some? {
      var s := o.summary.value;
      ThresholdsMeaning(s.metrics, thresholds);
      NoBadMetrics(Violations(s.metrics, thresholds));
      hide Violations, MeetsAll;
    }
  }

  lemma NoBadMetrics(failures: seq<Metric>)
    ensures BadMetrics(failures) == [] <==> failures == []
  {
  }

  lemma {:induction false} BadMetricListed(failures: seq<Metric>, f: GateFailure)
    ensures f in BadMetrics(failures) <==> f.BadMetric? && f.metric in failures
  {
    if failures != [] {
      BadMetricListed(failures[..|failures| - 1], f);
      assert failures == failures[..|failures| - 1] + [failures[|failures| - 1]];
    }
  }

  /** A missing summary is the only failure of its run; otherwise every failure is listed exactly
      when its own condition holds. */
  lemma FailuresExactly(summary: Option<Summary>, thresholds: Thresholds, f: GateFailure)
    ensures f in SummaryFailures(summary, thresholds) <==>
            if summary.None? then f == SummaryMissing
            else match f
                 case SummaryMissing => false
                 case NoCases => summary.value.caseCount <= 0
                 case Regressed => summary.value.regressed
                 case BadMetric(m) =>
                   if m in {TaskSuccessRate, PrecisionAtK, ValidationTestCount}
                   then !Reaches(summary.value.metrics, thresholds, m) else !Stays(summary.value.metrics, thresholds, m)
  {
    if summary.Some? {
      var bad := Violations(summary.value.metrics, thresholds);
      BadMetricListed(bad, f);
      if f.BadMetric? {
        FilterMembers(Violation(summary.value.metrics, thresholds), CHECKS);
        EveryCheck(f.metric);
        ViolatesMeaning(summary.value.metrics, thresholds, f.metric);
      }
      hide BadMetrics, CHECKS, Reaches, Stays, Violates;
    }
  }

  lemma {:induction false} PassedCounted(outcomes: seq<Outcome>, thresholds: Thresholds)
    ensures Count(Passed, Map(IterationOf(thresholds), outcomes)) == Count(CleanOutcome(thresholds), outcomes)
  {
    if outcomes != [] {
      var init, last := outcomes[..|outcomes| - 1], outcomes[|outcomes| - 1];
      PassedCounted(init, thresholds);
      RunPassesExactly(last, thresholds);
      assert Map(IterationOf(thresholds), outcomes)[..|init|] == Map(IterationOf(thresholds), init);
      hide IterationOf, CleanOutcome;
    }
  }

  lemma PayloadIs(iterations: seq<Iteration>, maxFailureRate: real)
    ensures var (payload, passed) := (Evaluate(iterations, maxFailureRate), Count(Passed, iterations));
            && payload.runCount == |iterations| && payload.passedCount == passed
            && payload.classification == Classify(passed, |iterations|)
            && (payload.passed <==> FailureRate(passed, |iterations|) <= NonNegative(maxFailureRate))
  {
    hide Count, FailureRate, Classify;
  }

  /** A session passes exactly when the runs that were not clean are within their share; without
      runs, exactly when the budget allows every run to fail. */
  lemma SessionPassesExactly(outcomes: seq<Outcome>, thresholds: Thresholds, maxFailureRate: real)
    ensures var payload := Evaluate(Map(IterationOf(thresholds), outcomes), maxFailureRate);
            var clean := Count(CleanOutcome(thresholds), outcomes);
            var budget := if maxFailureRate < 0.0 then 0.0 else maxFailureRate;
            && payload.runCount == |outcomes| && payload.passedCount == clean
            && (outcomes != [] ==> (payload.passed <==> ShareOf(|outcomes| - clean, budget, |outcomes|)))
            && (outcomes == [] ==> (payload.passed <==> maxFailureRate >= 1.0))
  {
    hide Evaluate, IterationOf, CleanOutcome, Count, FailureRate, Classify, ShareOf, NonNegative;
    var iterations := Map(IterationOf(thresholds), outcomes);
    assert |iterations| == |outcomes|;
    PassedCounted(outcomes, thresholds);
    PayloadIs(iterations, maxFailureRate);
    ClampedBudget(maxFailureRate);
    if outcomes != [] {
      BudgetIs(Count(Passed, iterations), |iterations|, NonNegative(maxFailureRate));
    } else {
      NoRunsRate(Count(Passed, iterations));
    }
  }

  lemma ClampedBudget(rate: real)
    ensures NonNegative(rate) == if rate < 0.0 then 0.0 else rate
    ensures 1.0 <= NonNegative(rate) <==> rate >= 1.0
  {
  }

  /** The part is at most this share of the whole. */
  ghost predicate ShareOf(part: int, share: real, whole: int) {
    part as real <= share * whole as real
  }

  lemma BudgetIs(clean: nat, runs: nat, budget: real)
    requires runs > 0
    ensures FailureRate(clean, runs) <= budget <==> ShareOf(runs - clean, budget, runs)
  {
    FailureBudget(clean, runs, budget);
    hide FailureRate;
  }

  lemma NoRunsRate(clean: nat)
    ensures FailureRate(clean, 0) == 1.0
  {
  }

  function OutcomeIn(it: Iteration): Outcome {
    it.outcome
  }

  function UncleanOutcome(thresholds: Thresholds): Outcome -> bool {
    (o: Outcome) => !CleanOutcome(thresholds)(o)
  }

  lemma {:induction false} FailedUnclean(outcomes: seq<Outcome>, thresholds: Thresholds)
    ensures Map(OutcomeIn, Filter(Failed, Map(IterationOf(thresholds), outcomes)))
         == Filter(UncleanOutcome(thresholds), outcomes)
  {
    if outcomes != [] {
      var init, last := outcomes[..|outcomes| - 1], outcomes[|outcomes| - 1];
      assert outcomes == init + [last];
      FailedUnclean(init, thresholds);
      RunPassesExactly(last, thresholds);
      hide IterationOf, CleanOutcome, Map, Filter;
      var (before, it) := (Map(IterationOf(thresholds), init), IterationOf(thresholds)(last));
      MapEnd(IterationOf(thresholds), init, last);
      FilterSnoc(Failed, before, it);
      FilterSnoc(UncleanOutcome(thresholds), init, last);
      MapEnd(OutcomeIn, Filter(Failed, before), it);
      assert Filter(Failed, before) + [] == Filter(Failed, before);
      assert Filter(UncleanOutcome(thresholds), init) + [] == Filter(UncleanOutcome(thresholds), init);
    }
  }

  /** The failed runs of a session are those that were not clean, in order. */
  lemma FailedRunsListed(outcomes: seq<Outcome>, thresholds: Thresholds, maxFailureRate: real)
    ensures Map(OutcomeIn, Evaluate(Map(IterationOf(thresholds), outcomes), maxFailureRate).failedRuns)
         == Filter(UncleanOutcome(thresholds), outcomes)
  {
    FailedUnclean(outcomes, thresholds);
    hide IterationOf, UncleanOutcome, Map, Filter, FailureRate, Classify, Count;
  }

  /** Its classification in runs that were clean and runs that were not. */
  lemma SessionClass(outcomes: seq<Outcome>, thresholds: Thresholds, maxFailureRate: real)
    ensures var class_ := Evaluate(Map(IterationOf(thresholds), outcomes), maxFailureRate).classification;
            var (clean, runs) := (Count(CleanOutcome(thresholds), outcomes), |outcomes|);
            && (class_ == NoData <==> runs == 0)
            && (class_ == StableFail <==> runs > 0 && clean == 0)
            && (class_ == StablePass <==> runs > 0 && clean == runs)
            && (class_ == OneOffPass <==> clean == 1 && runs > 1)
            && (class_ == MixedRuns <==> 1 < clean < runs)
  {
    hide Evaluate, IterationOf, CleanOutcome, Count;
    PassedCounted(outcomes, thresholds);
    PayloadIs(Map(IterationOf(thresholds), outcomes), maxFailureRate);
  }

  // ----- the decision -----

  /** The tuned configuration is not above the current one; absent numbers are zero. */
  predicate NotAbove(tuned: Metrics, current: Metrics, m: Metric) {
    (if m in tuned then tuned[m] else 0.0) <= (if m in current then current[m] else 0.0)
  }

  predicate TunedHolds(c: Comparison) {
    NotAbove(c.tuned, c.current, NoiseRate) && NotAbove(c.tuned, c.current, MissingValidationRate)
    && NotAbove(c.tuned, c.current, EvidenceInsufficientRate)
  }

  lemma ComparisonMeaning(c: Comparison)
    ensures RegressedMetrics(Some(c)) == [] <==> TunedHolds(c)
  {
    FilterEmpty(TunedIsWorse(c), COMPARED);
    assert COMPARED[0] == NoiseRate && COMPARED[1] == MissingValidationRate && COMPARED[2] == EvidenceInsufficientRate;
    assert NoiseRate in COMPARED && MissingValidationRate in COMPARED && EvidenceInsufficientRate in COMPARED;
  }

  /** A promotion is eligible exactly when the history is long enough, and at least one, the latest
      summary is not regressed and meets every threshold, no retrieval gate that is present failed,
      the stability report is a stable pass, and no compared metric got worse by tuning. */
  lemma EligibleExactly(
    trend: Trend, stability: StabilityReport, comparison: Option<Comparison>, thresholds: Thresholds, minHistory: int)
    ensures Eligible(trend, stability, comparison, thresholds, minHistory) <==>
            && trend.historyCount >= 1 && trend.historyCount >= minHistory && !trend.latestRegressed
            && MeetsAll(trend.latestMetrics, thresholds)
            && trend.controlPlaneGate != Some(false) && trend.frontierGate != Some(false)
            && stability.passed && stability.classification == StablePass
            && (comparison.Some? ==> TunedHolds(comparison.value))
  {
    ThresholdsMeaning(trend.latestMetrics, thresholds);
    if comparison.Some? {
      ComparisonMeaning(comparison.value);
      assert comparison == Some(comparison.value);
    }
    hide Violations, MeetsAll, TunedHolds;
  }

  /** From the runs to the promotion: it is eligible only if there was a run and all were clean. */
  lemma EligibleSession(
    trend: Trend, comparison: Option<Comparison>, thresholds: Thresholds, minHistory: int,
    outcomes: seq<Outcome>, runThresholds: Thresholds, maxFailureRate: real)
    requires Eligible(trend, ReportOf(Evaluate(Map(IterationOf(runThresholds), outcomes), maxFailureRate)),
                      comparison, thresholds, minHistory)
    ensures outcomes != [] && forall o :: o in outcomes ==> CleanOutcome(runThresholds)(o)
  {
    SessionClass(outcomes, runThresholds, maxFailureRate);
    CountFull(CleanOutcome(runThresholds), outcomes);
    hide CleanOutcome, IterationOf, Count;
  }

  // ----- the reasons -----

  lemma ThresholdReasons(metrics: Metrics, thresholds: Thresholds, m: Metric)
    ensures Threshold(m) in Thresholded(Violations(metrics, thresholds)) <==> Violates(metrics, thresholds, m)
  {
    var bad := Violations(metrics, thresholds);
    FilterMembers(Violation(metrics, thresholds), CHECKS);
    EveryCheck(m);
    hide Violates, CHECKS, Filter;
    if m in bad {
      var i :| 0 <= i < |bad| && bad[i] == m;
      assert Thresholded(bad)[i] == Threshold(m);
    }
  }

  lemma ViolatesMeaning(metrics: Metrics, thresholds: Thresholds, m: Metric)
    ensures Violates(metrics, thresholds, m) <==>
            if m in {TaskSuccessRate, PrecisionAtK, ValidationTestCount} then !Reaches(metrics, thresholds, m)
            else !Stays(metrics, thresholds, m)
  {
  }

  lemma WorsenedReasons(failures: seq<Metric>, m: Metric)
    ensures TunedWorse(m) in Worsened(failures) <==> m in failures
  {
    if m in failures {
      var i :| 0 <= i < |failures| && failures[i] == m;
      assert Worsened(failures)[i] == TunedWorse(m);
    }
  }

  lemma WorseMeaning(c: Comparison, m: Metric)
    ensures m in RegressedMetrics(Some(c)) <==>
            m in {NoiseRate, MissingValidationRate, EvidenceInsufficientRate} && !NotAbove(c.tuned, c.current, m)
  {
    FilterMembers(TunedIsWorse(c), COMPARED);
    assert COMPARED[0] == NoiseRate && COMPARED[1] == MissingValidationRate && COMPARED[2] == EvidenceInsufficientRate;
  }

  lemma TrendReasonsMeaning(trend: Trend, thresholds: Thresholds, minHistory: int, r: Reason)
    ensures r in TrendReasons(trend, thresholds, minHistory) <==>
            match r
            case ShortHistory(count, required) =>
              count == trend.historyCount && required == minHistory
              && (trend.historyCount < 1 || trend.historyCount < minHistory)
            case LatestRegressed => trend.latestRegressed
            case Threshold(m) =>
              if m in {TaskSuccessRate, PrecisionAtK, ValidationTestCount}
              then !Reaches(trend.latestMetrics, thresholds, m) else !Stays(trend.latestMetrics, thresholds, m)
            case _ => false
  {
    if r.Threshold? {
      ThresholdReasons(trend.latestMetrics, thresholds, r.metric);
      ViolatesMeaning(trend.latestMetrics, thresholds, r.metric);
    }
    hide Violations, Reaches, Stays;
  }

  lemma WorsenedMeaning(comparison: Option<Comparison>, r: Reason)
    ensures r in Worsened(RegressedMetrics(comparison)) <==>
            && r.TunedWorse? && comparison.Some?
            && r.metric in {NoiseRate, MissingValidationRate, EvidenceInsufficientRate}
            && !NotAbove(comparison.value.tuned, comparison.value.current, r.metric)
  {
    if r.TunedWorse? {
      WorsenedReasons(RegressedMetrics(comparison), r.metric);
      if comparison.Some? {
        WorseMeaning(comparison.value, r.metric);
        assert comparison == Some(comparison.value);
      }
    }
    hide NotAbove;
  }

  /** Every reason is recorded exactly when its own condition fails. */
  lemma ReasonsExactly(
    trend: Trend, stability: StabilityReport, comparison: Option<Comparison>, thresholds: Thresholds, minHistory: int,
    r: Reason)
    ensures r in ReasonsOf(trend, stability, comparison, thresholds, minHistory) <==>
            match r
            case ShortHistory(count, required) =>
              count == trend.historyCount && required == minHistory
              && (trend.historyCount < 1 || trend.historyCount < minHistory)
            case LatestRegressed => trend.latestRegressed
            case Threshold(m) =>
              if m in {TaskSuccessRate, PrecisionAtK, ValidationTestCount}
              then !Reaches(trend.latestMetrics, thresholds, m) else !Stays(trend.latestMetrics, thresholds, m)
            case ControlPlaneGate => trend.controlPlaneGate == Some(false)
            case FrontierGate => trend.frontierGate == Some(false)
            case Unstable(class_, passed) =>
              class_ == stability.classification && passed == stability.passed && !(passed && class_ == StablePass)
            case TunedWorse(m) =>
              && comparison.Some? && m in {NoiseRate, MissingValidationRate, EvidenceInsufficientRate}
              && !NotAbove(comparison.value.tuned, comparison.value.current, m)
  {
    hide TrendReasons, Worsened, RegressedMetrics, Reaches, Stays, NotAbove;
    TrendReasonsMeaning(trend, thresholds, minHistory, r);
    WorsenedMeaning(comparison, r);
  }
}
