/** The case-weighted latency and SLO summaries of scripts/run_benchmark_matrix.py, over the
    whole matrix and per workload bucket. */
module MatrixSummary {
  import opened Prelude
  import opened Sequences
  import opened Ordering
  import opened Text

  datatype Stage = MemoryStage | IndexStage | RepomapStage | AugmentStage | SkillsStage | SourcePlanStage | TotalStage

  const STAGES: seq<Stage> :=
    [MemoryStage, IndexStage, RepomapStage, AugmentStage, SkillsStage, SourcePlanStage, TotalStage]

  datatype Budget = ParallelBudget | EmbeddingBudget | ChunkSemanticBudget | XrefBudget

  const BUDGETS: seq<Budget> := [ParallelBudget, EmbeddingBudget, ChunkSemanticBudget, XrefBudget]

  datatype Signal =
    | DocsTimeout | WorktreeTimeout | EmbeddingBudgetExceeded | EmbeddingAdaptiveBudget
    | EmbeddingFallback | ChunkBudgetExceeded | ChunkFallback | XrefExhausted

  const SIGNALS: seq<Signal> :=
    [DocsTimeout, WorktreeTimeout, EmbeddingBudgetExceeded, EmbeddingAdaptiveBudget,
     EmbeddingFallback, ChunkBudgetExceeded, ChunkFallback, XrefExhausted]

  datatype StageMetrics = StageMetrics(mean: real, p95: real, median: real)

  /** A repo result; an absent map entry is a missing value, which counts as zero. */
  datatype Repo = Repo(
    name: string,
    workloadBucket: string,
    caseCount: int,
    stages: map<Stage, StageMetrics>,
    limits: map<Budget, real>,
    downgrades: int,
    signals: map<Signal, int>)

  function CaseWeight(r: Repo): int {
    Max(1, r.caseCount)
  }

  function MetricsOf(r: Repo, stage: Stage): StageMetrics {
    if stage in r.stages then r.stages[stage] else StageMetrics(0.0, 0.0, 0.0)
  }

  /** The quantities the summaries average, one per column. */
  datatype Column = MeanOf(stage: Stage) | P95Of(stage: Stage) | MedianOf(stage: Stage) | LimitOf(budget: Budget)

  function Value(column: Column, r: Repo): real {
    match column
    case MeanOf(stage) => MetricsOf(r, stage).mean
    case P95Of(stage) => MetricsOf(r, stage).p95
    case MedianOf(stage) => MetricsOf(r, stage).median
    case LimitOf(budget) => if budget in r.limits then r.limits[budget] else 0.0
  }

  function Weighted(column: Column): Repo -> real {
    (r: Repo) => Share(Value(column, r), CaseWeight(r))
  }

  function Weight(repos: seq<Repo>): int {
    Total(CaseWeight, repos)
  }

  /** `sum(weights) or 1`. */
  function Divisor(repos: seq<Repo>): (n: int)
    ensures n == if repos == [] then 1 else Weight(repos)
    ensures n >= |repos| && n >= 1
  {
    WeightGrows(repos);
    if Weight(repos) <= 0 then 1 else Weight(repos)
  }

  lemma {:induction false} WeightGrows(repos: seq<Repo>)
    ensures Weight(repos) >= |repos|
  {
    if repos != [] {
      WeightGrows(repos[..|repos| - 1]);
    }
  }

  /** The case-weighted average of a column. */
  function Average(column: Column, repos: seq<Repo>): real {
    Sum(Weighted(column), repos) / Divisor(repos) as real
  }

  // ----- stage latencies -----

  datatype Latency = Latency(mean: real, p95: real, median: Option<real>)

  function LatencyOf(stage: Stage, repos: seq<Repo>): Latency {
    Latency(Average(MeanOf(stage), repos), Average(P95Of(stage), repos),
            if stage == TotalStage then Some(Average(MedianOf(stage), repos)) else None)
  }

  function StageLatency(repos: seq<Repo>): map<Stage, Latency> {
    map stage | stage in STAGES :: LatencyOf(stage, repos)
  }

  lemma EveryStage(stage: Stage)
    ensures stage in STAGES
  {
    match stage
    case MemoryStage => assert STAGES[0] == stage;
    case IndexStage => assert STAGES[1] == stage;
    case RepomapStage => assert STAGES[2] == stage;
    case AugmentStage => assert STAGES[3] == stage;
    case SkillsStage => assert STAGES[4] == stage;
    case SourcePlanStage => assert STAGES[5] == stage;
    case TotalStage => assert STAGES[6] == stage;
  }

  method WeighStage(stage: Stage, repos: seq<Repo>) returns (mean: real, p95: real, median: real)
    ensures mean == Sum(Weighted(MeanOf(stage)), repos)
    ensures p95 == Sum(Weighted(P95Of(stage)), repos)
    ensures median == Sum(Weighted(MedianOf(stage)), repos)
  {
    hide Share;
    mean, p95, median := 0.0, 0.0, 0.0;
    for j := 0 to |repos|
      invariant mean == Sum(Weighted(MeanOf(stage)), repos[..j])
      invariant p95 == Sum(Weighted(P95Of(stage)), repos[..j])
      invariant median == Sum(Weighted(MedianOf(stage)), repos[..j])
    {
      var metrics, weight := MetricsOf(repos[j], stage), CaseWeight(repos[j]);
      mean := mean + Share(metrics.mean, weight);
      p95 := p95 + Share(metrics.p95, weight);
      median := median + Share(metrics.median, weight);
      assert repos[..j + 1][..j] == repos[..j];
    }
    assert repos[..|repos|] == repos;
  }

  method BuildStageLatencySummary(repos: seq<Repo>) returns (summary: map<Stage, Latency>)
    ensures summary == StageLatency(repos)
  {
    summary := map[];
    var totalWeight := Divisor(repos) as real;
    for i := 0 to |STAGES|
      invariant summary.Keys == set stage | stage in STAGES[..i]
      invariant forall stage :: stage in summary ==> summary[stage] == LatencyOf(stage, repos)
    {
      var stage := STAGES[i];
      var mean, p95, median := WeighStage(stage, repos);
      summary := summary[stage := Latency(mean / totalWeight, p95 / totalWeight,
                                          if stage == TotalStage then Some(median / totalWeight) else None)];
      PrefixStep(STAGES, i);
    }
    assert STAGES[..|STAGES|] == STAGES;
  }

  // ----- SLO budgets -----

  datatype SignalRow = SignalRow(count: int, rate: real)

  datatype Slo = Slo(
    caseCount: int,
    limits: map<Budget, real>,
    downgradeCount: int,
    downgradeRate: real,
    signals: map<Signal, SignalRow>)

  function Downgrades(r: Repo): int {
    Max(0, r.downgrades)
  }

  function SignalsOf(signal: Signal, r: Repo): int {
    Max(0, if signal in r.signals then r.signals[signal] else 0)
  }

  function SignalCount(signal: Signal): Repo -> int {
    (r: Repo) => SignalsOf(signal, r)
  }

  function SignalRowOf(signal: Signal, repos: seq<Repo>): SignalRow {
    var count := Total(SignalCount(signal), repos);
    SignalRow(count, count as real / Divisor(repos) as real)
  }

  function SloBudget(repos: seq<Repo>): Slo {
    var n := Divisor(repos);
    var downgrades := Total(Downgrades, repos);
    Slo(n, map budget | budget in BUDGETS :: Average(LimitOf(budget), repos),
        downgrades, downgrades as real / n as real,
        map signal | signal in SIGNALS :: SignalRowOf(signal, repos))
  }

  lemma EveryBudget(budget: Budget)
    ensures budget in BUDGETS
  {
    match budget
    case ParallelBudget => assert BUDGETS[0] == budget;
    case EmbeddingBudget => assert BUDGETS[1] == budget;
    case ChunkSemanticBudget => assert BUDGETS[2] == budget;
    case XrefBudget => assert BUDGETS[3] == budget;
  }

  lemma EverySignal(signal: Signal)
    ensures signal in SIGNALS
  {
    match signal
    case DocsTimeout => assert SIGNALS[0] == signal;
    case WorktreeTimeout => assert SIGNALS[1] == signal;
    case EmbeddingBudgetExceeded => assert SIGNALS[2] == signal;
    case EmbeddingAdaptiveBudget => assert SIGNALS[3] == signal;
    case EmbeddingFallback => assert SIGNALS[4] == signal;
    case ChunkBudgetExceeded => assert SIGNALS[5] == signal;
    case ChunkFallback => assert SIGNALS[6] == signal;
    case XrefExhausted => assert SIGNALS[7] == signal;
  }

  function LimitSum(budget: Budget, repos: seq<Repo>): real {
    Sum(Weighted(LimitOf(budget)), repos)
  }

  lemma LimitSumSnoc(budget: Budget, repos: seq<Repo>, r: Repo)
    ensures LimitSum(budget, repos + [r]) == LimitSum(budget, repos) + Share(Value(LimitOf(budget), r), CaseWeight(r))
  {
    SumSnoc(Weighted(LimitOf(budget)), repos, r);
  }

  lemma BudgetsDistinct()
    ensures Distinct(BUDGETS)
  {
  }

  /** One repo's contribution to the running budget totals. */
  method AddLimits(totals: map<Budget, real>, r: Repo, ghost before: seq<Repo>) returns (sums: map<Budget, real>)
    requires forall b :: b in totals && totals[b] == LimitSum(b, before)
    ensures forall b :: b in sums && sums[b] == LimitSum(b, before + [r])
  {
    hide Share, LimitSum;
    BudgetsDistinct();
    var weight := CaseWeight(r);
    sums := UpdateEach(BUDGETS, totals, (b: Budget, v: real) => v + Share(Value(LimitOf(b), r), weight));
    forall b ensures b in sums && sums[b] == LimitSum(b, before + [r]) {
      EveryBudget(b);
      LimitSumSnoc(b, before, r);
    }
  }

  function SignalSum(signal: Signal, repos: seq<Repo>): int {
    Total(SignalCount(signal), repos)
  }

  lemma SignalSumSnoc(signal: Signal, repos: seq<Repo>, r: Repo)
    ensures SignalSum(signal, repos + [r]) == SignalSum(signal, repos) + SignalsOf(signal, r)
  {
    TotalSnoc(SignalCount(signal), repos, r);
  }

  lemma SignalsDistinct()
    ensures Distinct(SIGNALS)
  {
  }

  method AddSignals(totals: map<Signal, int>, r: Repo, ghost before: seq<Repo>) returns (counts: map<Signal, int>)
    requires forall x :: x in totals && totals[x] == SignalSum(x, before)
    ensures forall x :: x in counts && counts[x] == SignalSum(x, before + [r])
  {
    hide SignalSum, SignalsOf;
    SignalsDistinct();
    counts := UpdateEach(SIGNALS, totals, (x: Signal, n: int) => n + SignalsOf(x, r));
    forall x ensures x in counts && counts[x] == SignalSum(x, before + [r]) {
      EverySignal(x);
      SignalSumSnoc(x, before, r);
    }
  }

  /** The single pass over the repos. */
  method AccumulateSlo(repos: seq<Repo>) returns (limits: map<Budget, real>, counts: map<Signal, int>, downgrades: int)
    ensures forall b :: b in limits && limits[b] == LimitSum(b, repos)
    ensures forall x :: x in counts && counts[x] == SignalSum(x, repos)
    ensures downgrades == Total(Downgrades, repos)
  {
    hide LimitSum, SignalSum;
    limits, counts := StartLimits(), StartCounts();
    downgrades := 0;
    for i := 0 to |repos|
      invariant forall b :: b in limits && limits[b] == LimitSum(b, repos[..i])
      invariant forall x :: x in counts && counts[x] == SignalSum(x, repos[..i])
      invariant downgrades == Total(Downgrades, repos[..i])
    {
      PrefixStep(repos, i);
      limits := AddLimits(limits, repos[i], repos[..i]);
      downgrades := downgrades + Downgrades(repos[i]);
      TotalSnoc(Downgrades, repos[..i], repos[i]);
      counts := AddSignals(counts, repos[i], repos[..i]);
    }
    assert repos[..|repos|] == repos;
  }

  function StartLimits(): (limits: map<Budget, real>)
    ensures forall b :: b in limits && limits[b] == LimitSum(b, [])
  {
    assert forall b :: b in BUDGETS by {
      forall b ensures b in BUDGETS { EveryBudget(b); }
    }
    map b | b in BUDGETS :: 0.0
  }

  function StartCounts(): (counts: map<Signal, int>)
    ensures forall x :: x in counts && counts[x] == SignalSum(x, [])
  {
    assert forall x :: x in SIGNALS by {
      forall x ensures x in SIGNALS { EverySignal(x); }
    }
    map x | x in SIGNALS :: 0
  }

  method BuildSloBudgetSummary(repos: seq<Repo>) returns (slo: Slo)
    ensures slo == SloBudget(repos)
  {
    var totalCaseCount := Divisor(repos);
    var limits, counts, downgrades := AccumulateSlo(repos);
    slo := Slo(totalCaseCount,
               map budget | budget in BUDGETS :: limits[budget] / totalCaseCount as real,
               downgrades, downgrades as real / totalCaseCount as real,
               map signal | signal in SIGNALS ::
                 SignalRow(counts[signal], counts[signal] as real / totalCaseCount as real));
  }

  // ----- workload buckets -----

  datatype BucketRow = BucketRow(
    bucket: string,
    repoCount: int,
    repoNames: seq<string>,
    stages: map<Stage, Latency>,
    slo: Slo)

  function BucketOf(r: Repo): string {
    if Strip(r.workloadBucket) == "" then "policy_auto" else Strip(r.workloadBucket)
  }

  function NameOf(r: Repo): string {
    Strip(r.name)
  }

  function BucketRank(bucket: string): int {
    if bucket == "repo_size_small" then 0
    else if bucket == "repo_size_medium" then 1
    else if bucket == "repo_size_large" then 2
    else if bucket == "repo_size_unknown" then 3
    else 99
  }

  predicate BucketLe(a: string, b: string) {
    BucketRank(a) < BucketRank(b) || (BucketRank(a) == BucketRank(b) && StringLe(a, b))
  }

  lemma BucketLeOrder()
    ensures TotalPreorder(BucketLe) && Antisymmetric(BucketLe)
  {
    StringLeOrder();
  }

  function RowOf(bucket: string, members: seq<Repo>): BucketRow {
    BucketRow(bucket, |members|, Sort(StringLe, Filter(IsNonEmpty, Map(NameOf, members))),
              StageLatency(members), SloBudget(members))
  }

  function BucketNames(repos: seq<Repo>): seq<string> {
    Sort(BucketLe, Keys(BucketOf, repos))
  }

  function RowFor(repos: seq<Repo>): string -> BucketRow {
    (bucket: string) => RowOf(bucket, Group(BucketOf, bucket, repos))
  }

  function BucketRows(repos: seq<Repo>): seq<BucketRow> {
    Map(RowFor(repos), BucketNames(repos))
  }

  method BuildBucketRow(bucket: string, members: seq<Repo>) returns (row: BucketRow)
    ensures row == RowOf(bucket, members)
  {
    var stages := BuildStageLatencySummary(members);
    var slo := BuildSloBudgetSummary(members);
    row := BucketRow(bucket, |members|, Sort(StringLe, Filter(IsNonEmpty, Map(NameOf, members))), stages, slo);
  }

  method BuildLatencySloBucketSummary(repos: seq<Repo>) returns (rows: seq<BucketRow>)
    ensures rows == BucketRows(repos)
  {
    hide RowOf, BucketOf, BucketLe;
    var order, buckets := GroupInto(BucketOf, repos);
    var names := Sort(BucketLe, order);
    rows := [];
    for i := 0 to |names|
      invariant rows == Map(RowFor(repos), names[..i])
    {
      SortMember(BucketLe, order, names[i]);
      var row := BuildBucketRow(names[i], buckets[names[i]]);
      MapSnoc(RowFor(repos), names, i);
      rows := rows + [row];
    }
    assert names[..|names|] == names;
  }
}
