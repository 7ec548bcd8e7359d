/** The promotion decision of scripts/evaluate_validation_rich_gate_promotion.py. */
module Promotion {
  import opened Prelude
  import opened Sequences
  import opened Text
  import opened Statistics
  import opened ValidationRich

  // ----- inputs -----

  /** The trend report; a retrieval gate is None when the report carries no summary of it. */
  datatype Trend = Trend(
    historyCount: int,
    latestRegressed: bool,
    latestMetrics: Metrics,
    controlPlaneGate: Option<bool>,
    frontierGate: Option<bool>,
    failedCheckHistory: bool)

  /** What is read of a stability report. */
  datatype StabilityReport = StabilityReport(classification: Classification, passed: bool)

  datatype Comparison = Comparison(current: Metrics, tuned: Metrics)

  function ReportOf(payload: Stability): StabilityReport {
    StabilityReport(payload.classification, payload.passed)
  }

  // ----- outputs -----

  datatype Reason =
    | ShortHistory(count: int, required: int)
    | LatestRegressed
    | Threshold(metric: Metric)
    | ControlPlaneGate
    | FrontierGate
    | Unstable(classification: Classification, passed: bool)
    | TunedWorse(metric: Metric)

  datatype GateName =
    | TrendGate | RetrievalControlPlane | RetrievalFrontier
    | ValidationProbe | SourcePlanFeedback | SourcePlanFailureSignal
    | StabilityGate | ComparisonGate

  datatype Gate = Gate(name: GateName, passed: bool)

  datatype Decision = Decision(eligible: bool, reasons: seq<Reason>, warned: bool, gates: seq<Gate>)

  const COMPARED: seq<Metric> := [NoiseRate, MissingValidationRate, EvidenceInsufficientRate]

  function TunedIsWorse(c: Comparison): Metric -> bool {
    (m: Metric) => MetricOf(c.tuned, m) > MetricOf(c.current, m)
  }

  function RegressedMetrics(comparison: Option<Comparison>): seq<Metric> {
    if comparison.None? then [] else Filter(TunedIsWorse(comparison.value), COMPARED)
  }

  predicate StabilityOk(s: StabilityReport) {
    s.passed && s.classification == StablePass
  }

  predicate TrendOk(trend: Trend, minHistory: int) {
    trend.historyCount >= Max(1, minHistory)
  }

  predicate GateOk(gate: Option<bool>) {
    gate.Some? ==> gate.value
  }

  /** All conditions of a promotion. */
  predicate Eligible(
    trend: Trend, stability: StabilityReport, comparison: Option<Comparison>, thresholds: Thresholds, minHistory: int)
  {
    && TrendOk(trend, minHistory) && !trend.latestRegressed
    && Violations(trend.latestMetrics, thresholds) == []
    && GateOk(trend.controlPlaneGate) && GateOk(trend.frontierGate)
    && StabilityOk(stability)
    && RegressedMetrics(comparison) == []
  }

  function Thresholded(failures: seq<Metric>): (r: seq<Reason>)
    ensures |r| == |failures|
  {
    seq(|failures|, i requires 0 <= i < |failures| => Threshold(failures[i]))
  }

  function Worsened(failures: seq<Metric>): (r: seq<Reason>)
    ensures |r| == |failures|
  {
    seq(|failures|, i requires 0 <= i < |failures| => TunedWorse(failures[i]))
  }

  predicate AllGatesPassed(gates: seq<Gate>) {
    forall g :: g in gates ==> g.passed
  }

  /** A gate and the reasons recorded with it: reasons exactly when it is not passed. */
  ghost predicate Explained(gate: Gate, reasons: seq<Reason>) {
    gate.passed <==> reasons == []
  }

  // ----- the reasons, in the order in which they are recorded -----

  function TrendReasons(trend: Trend, thresholds: Thresholds, minHistory: int): seq<Reason> {
    (if TrendOk(trend, minHistory) then [] else [ShortHistory(trend.historyCount, minHistory)])
    + (if trend.latestRegressed then [LatestRegressed] else [])
    + Thresholded(Violations(trend.latestMetrics, thresholds))
  }

  function RetrievalReasons(gate: Option<bool>, reason: Reason): seq<Reason> {
    if GateOk(gate) then [] else [reason]
  }

  function StabilityReasons(s: StabilityReport): seq<Reason> {
    if StabilityOk(s) then [] else [Unstable(s.classification, s.passed)]
  }

  function ReasonsOf(
    trend: Trend, stability: StabilityReport, comparison: Option<Comparison>, thresholds: Thresholds, minHistory: int)
    : seq<Reason>
  {
    TrendReasons(trend, thresholds, minHistory)
    + RetrievalReasons(trend.controlPlaneGate, ControlPlaneGate) + RetrievalReasons(trend.frontierGate, FrontierGate)
    + StabilityReasons(stability) + Worsened(RegressedMetrics(comparison))
  }

  method JudgeTrend(trend: Trend, thresholds: Thresholds, minHistory: int) returns (gate: Gate, reasons: seq<Reason>)
    ensures gate == Gate(TrendGate, TrendOk(trend, minHistory) && !trend.latestRegressed
                                    && Violations(trend.latestMetrics, thresholds) == [])
    ensures reasons == TrendReasons(trend, thresholds, minHistory) && Explained(gate, reasons)
  {
    reasons := [];
    var thresholdFailures := EvaluateThresholds(trend.latestMetrics, thresholds);
    var trendOk := trend.historyCount >= Max(1, minHistory);
    if !trendOk {
      reasons := reasons + [ShortHistory(trend.historyCount, minHistory)];
    }
    if trend.latestRegressed {
      reasons := reasons + [LatestRegressed];
    }
    if thresholdFailures != [] {
      reasons := reasons + Thresholded(thresholdFailures);
    }
    gate := Gate(TrendGate, trendOk && !trend.latestRegressed && thresholdFailures == []);
  }

  /** A retrieval gate that the report does not carry counts as passed. */
  method JudgeRetrieval(name: GateName, summary: Option<bool>, reason: Reason)
    returns (gate: Gate, reasons: seq<Reason>)
    ensures gate == Gate(name, GateOk(summary))
    ensures reasons == RetrievalReasons(summary, reason) && Explained(gate, reasons)
  {
    reasons := [];
    var ok := true;
    if summary.Some? {
      ok := summary.value;
      if !ok {
        reasons := [reason];
      }
    }
    gate := Gate(name, ok);
  }

  method JudgeStability(stability: StabilityReport) returns (gate: Gate, reasons: seq<Reason>)
    ensures gate == Gate(StabilityGate, StabilityOk(stability))
    ensures reasons == StabilityReasons(stability) && Explained(gate, reasons)
  {
    reasons := [];
    var ok := stability.passed && stability.classification == StablePass;
    if !ok {
      reasons := [Unstable(stability.classification, stability.passed)];
    }
    gate := Gate(StabilityGate, ok);
  }

  method JudgeComparison(comparison: Option<Comparison>) returns (gate: Gate, reasons: seq<Reason>)
    ensures gate == Gate(ComparisonGate, RegressedMetrics(comparison) == [])
    ensures reasons == Worsened(RegressedMetrics(comparison)) && Explained(gate, reasons)
  {
    reasons := [];
    var ok := true;
    if comparison.Some? {
      var regressed := CompareTuned(comparison.value);
      if regressed != [] {
        ok := false;
        reasons := Worsened(regressed);
      }
    }
    gate := Gate(ComparisonGate, ok);
  }

  /** The decision as the script assembles it. It is eligible exactly when its conditions hold,
      exactly when no reason was recorded, and exactly when every gate it lists passed. */
  method EvaluatePromotion(
    trend: Trend, stability: StabilityReport, comparison: Option<Comparison>, thresholds: Thresholds, minHistory: int)
    returns (d: Decision)
    ensures d.eligible <==> Eligible(trend, stability, comparison, thresholds, minHistory)
    ensures d.reasons == ReasonsOf(trend, stability, comparison, thresholds, minHistory)
    ensures d.eligible <==> d.reasons == []
    ensures d.eligible <==> AllGatesPassed(d.gates)
    ensures d.warned == trend.failedCheckHistory
    ensures d.gates == [Gate(TrendGate, TrendReasons(trend, thresholds, minHistory) == []),
                        Gate(RetrievalControlPlane, GateOk(trend.controlPlaneGate)),
                        Gate(RetrievalFrontier, GateOk(trend.frontierGate)),
                        Gate(ValidationProbe, true), Gate(SourcePlanFeedback, true),
                        Gate(SourcePlanFailureSignal, true),
                        Gate(StabilityGate, StabilityOk(stability)),
                        Gate(ComparisonGate, RegressedMetrics(comparison) == [])]
  {
    var trendGate, reasons1 := JudgeTrend(trend, thresholds, minHistory);
    var controlGate, reasons2 := JudgeRetrieval(RetrievalControlPlane, trend.controlPlaneGate, ControlPlaneGate);
    var frontierGate, reasons3 := JudgeRetrieval(RetrievalFrontier, trend.frontierGate, FrontierGate);
    var stabilityGate, reasons4 := JudgeStability(stability);
    var comparisonGate, reasons5 := JudgeComparison(comparison);
    var gates := [trendGate, controlGate, frontierGate, Gate(ValidationProbe, true), Gate(SourcePlanFeedback, true),
                  Gate(SourcePlanFailureSignal, true), stabilityGate, comparisonGate];
    hide Violations, RegressedMetrics, TrendOk, GateOk, StabilityOk, TrendReasons, RetrievalReasons, StabilityReasons;
    var eligible :=
      trendGate.passed && controlGate.passed && frontierGate.passed && stabilityGate.passed && comparisonGate.passed;
    assert gates[0] == trendGate && gates[1] == controlGate && gates[2] == frontierGate
           && gates[6] == stabilityGate && gates[7] == comparisonGate;
    d := Decision(eligible, reasons1 + reasons2 + reasons3 + reasons4 + reasons5, trend.failedCheckHistory, gates);
  }

  method CompareTuned(c: Comparison) returns (regressed: seq<Metric>)
    ensures regressed == Filter(TunedIsWorse(c), COMPARED)
  {
    regressed := [];
    for i := 0 to |COMPARED|
      invariant regressed == Filter(TunedIsWorse(c), COMPARED[..i])
    {
      assert COMPARED[..i + 1][..i] == COMPARED[..i];
      if MetricOf(c.tuned, COMPARED[i]) > MetricOf(c.current, COMPARED[i]) {
        regressed := regressed + [COMPARED[i]];
      }
    }
    assert COMPARED[..|COMPARED|] == COMPARED;
  }

  // ----- monotonicity -----

  /** Off where it was off; otherwise off, or no stricter than before. */
  ghost predicate Looser(thresholds: Thresholds, looser: Thresholds) {
    forall m ::
      var old_, new_ := ThresholdOf(thresholds, m), ThresholdOf(looser, m);
      new_ < 0.0 || (old_ >= 0.0 && (if HigherIsBetter(m) then new_ <= old_ else new_ >= old_))
  }

  ghost predicate AtLeastAsGood(metrics: Metrics, better: Metrics) {
    forall m ::
      if HigherIsBetter(m) then MetricOf(better, m) >= MetricOf(metrics, m)
      else MetricOf(better, m) <= MetricOf(metrics, m)
  }

  /** Nothing about the later report is worse than about the earlier one. */
  ghost predicate NoWorse(trend: Trend, later: Trend) {
    && later.historyCount >= trend.historyCount
    && (later.latestRegressed ==> trend.latestRegressed)
    && AtLeastAsGood(trend.latestMetrics, later.latestMetrics)
    && (GateOk(trend.controlPlaneGate) ==> GateOk(later.controlPlaneGate))
    && (GateOk(trend.frontierGate) ==> GateOk(later.frontierGate))
  }

  lemma ViolationsMonotone(metrics: Metrics, better: Metrics, thresholds: Thresholds, looser: Thresholds)
    requires Violations(metrics, thresholds) == [] && AtLeastAsGood(metrics, better) && Looser(thresholds, looser)
    ensures Violations(better, looser) == []
  {
    ViolationsExactly(metrics, thresholds);
    ViolationsExactly(better, looser);
    forall m ensures !Violates(better, looser, m) {
      assert !Violates(metrics, thresholds, m);
    }
  }

  /** Loosening thresholds or the history requirement, or improving the trend, never turns an
      eligible gate into an ineligible one. */
  lemma EligibleMonotone(
    trend: Trend, later: Trend, stability: StabilityReport, comparison: Option<Comparison>,
    thresholds: Thresholds, looser: Thresholds, minHistory: int, lowerHistory: int)
    requires Eligible(trend, stability, comparison, thresholds, minHistory)
    requires NoWorse(trend, later) && Looser(thresholds, looser) && lowerHistory <= minHistory
    ensures Eligible(later, stability, comparison, looser, lowerHistory)
  {
    ViolationsMonotone(trend.latestMetrics, later.latestMetrics, thresholds, looser);
  }

  // ----- end to end -----

  /** A promotion decided from a stability session: there was at least one run and every run
      exited 0, had cases, was not regressed and met every threshold of the session. */
  lemma EligibleMeansCleanRuns(
    trend: Trend, comparison: Option<Comparison>, thresholds: Thresholds, minHistory: int,
    outcomes: seq<Outcome>, runThresholds: Thresholds, maxFailureRate: real)
    requires Eligible(trend, ReportOf(Evaluate(Map(IterationOf(runThresholds), outcomes), maxFailureRate)),
                      comparison, thresholds, minHistory)
    ensures outcomes != [] && forall o :: o in outcomes ==> CleanRun(o, runThresholds)
  {
    StablePassExactly(outcomes, runThresholds, maxFailureRate);
  }

  /** For such sessions the stability condition is exactly this, whatever failure budget was set. */
  lemma StabilityOkExactly(outcomes: seq<Outcome>, runThresholds: Thresholds, maxFailureRate: real)
    ensures StabilityOk(ReportOf(Evaluate(Map(IterationOf(runThresholds), outcomes), maxFailureRate))) <==>
            outcomes != [] && forall o :: o in outcomes ==> CleanRun(o, runThresholds)
  {
    var iterations := Map(IterationOf(runThresholds), outcomes);
    StablePassExactly(outcomes, runThresholds, maxFailureRate);
    if Evaluate(iterations, maxFailureRate).classification == StablePass {
      StablePassPasses(iterations, maxFailureRate);
    }
  }

  // ----- the reasons as printed -----

  function MetricName(m: Metric): string {
    match m
    case TaskSuccessRate => "task_success_rate"
    case PrecisionAtK => "precision_at_k"
    case NoiseRate => "noise_rate"
    case LatencyP95 => "latency_p95_ms"
    case ValidationTestCount => "validation_test_count"
    case EvidenceInsufficientRate => "evidence_insufficient_rate"
    case MissingValidationRate => "missing_validation_rate"
  }

  function ClassificationName(c: Classification): string {
    match c
    case NoData => "no_data"
    case StableFail => "stable_fail"
    case StablePass => "stable_pass"
    case OneOffPass => "one_off_pass"
    case MixedRuns => "mixed"
    case OtherText(text) => text
  }

  function ReasonText(r: Reason): string {
    match r
    case ShortHistory(count, required) =>
      "trend history_count " + Decimal(count) + " is below required " + Decimal(required)
    case LatestRegressed => "latest validation-rich summary is marked regressed"
    case Threshold(m) => MetricName(m) + (if HigherIsBetter(m) then " below threshold" else " above threshold")
    case ControlPlaneGate => "retrieval control plane gate is not passed"
    case FrontierGate => "retrieval frontier gate is not passed"
    case Unstable(c, passed) =>
      "stability classification is " + ClassificationName(c) + " with passed=" + (if passed then "True" else "False")
    case TunedWorse(m) => "tuned " + MetricName(m) + " is worse than current"
  }

  lemma {:induction false} StripKeepsText(s: string)
    requires s != "" && !IsSpace(s[0])
    ensures Strip(s) != ""
  {
    var b := TrimRightShape(s);
    assert TrimLeft(s) == s;
    assert forall i :: 0 <= i < |b| ==> b[i] in b;
    assert s[0] == (TrimRight(s) + b)[0];
  }

  lemma MetricNameVisible(m: Metric)
    ensures MetricName(m) != "" && !IsSpace(MetricName(m)[0])
  {
    match m
    case TaskSuccessRate => assert MetricName(m)[0] == 't';
    case PrecisionAtK => assert MetricName(m)[0] == 'p';
    case NoiseRate => assert MetricName(m)[0] == 'n';
    case LatencyP95 => assert MetricName(m)[0] == 'l';
    case ValidationTestCount => assert MetricName(m)[0] == 'v';
    case EvidenceInsufficientRate => assert MetricName(m)[0] == 'e';
    case MissingValidationRate => assert MetricName(m)[0] == 'm';
  }

  lemma ReasonTextVisible(r: Reason)
    ensures Strip(ReasonText(r)) != ""
  {
    assert ReasonText(r) != "" && !IsSpace(ReasonText(r)[0]) by {
      match r
      case ShortHistory(_, _) => assert ReasonText(r)[0] == 't';
      case LatestRegressed => assert "latest validation-rich"[0] == 'l'; assert ReasonText(r)[0] == 'l';
      case Threshold(m) => MetricNameVisible(m); assert ReasonText(r)[0] == MetricName(m)[0];
      case ControlPlaneGate => assert "retrieval control plane"[0] == 'r'; assert ReasonText(r)[0] == 'r';
      case FrontierGate => assert ReasonText(r)[0] == 'r';
      case Unstable(_, _) => assert ReasonText(r)[0] == 's';
      case TunedWorse(_) => assert ReasonText(r)[0] == 't';
    }
    StripKeepsText(ReasonText(r));
  }

  /** `normalize_string_list` on the printed reasons cannot hide that there are some. */
  lemma NormalizedReasonsEmpty(reasons: seq<Reason>)
    ensures CleanList(Map(ReasonText, reasons)) == [] <==> reasons == []
  {
    var texts := Map(Strip, Map(ReasonText, reasons));
    DedupMeaning(Filter(IsNonEmpty, texts));
    FilterMembers(IsNonEmpty, texts);
    if reasons != [] {
      ReasonTextVisible(reasons[0]);
      hide ReasonText, Strip;
      assert texts[0] in texts;
      assert texts[0] in Filter(IsNonEmpty, texts);
      assert texts[0] in Dedup(Filter(IsNonEmpty, texts));
    }
  }
}
