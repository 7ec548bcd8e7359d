/** What the matrix summaries say in terms of the numbers the repos report. */
module SummaryMeaning {
  import opened Prelude
  import opened Sequences
  import opened Ordering
  import opened Text
  import opened MatrixSummary
  import opened MatrixReaggregation

  // ----- the reported numbers -----

  /** What a repo reports for a stage; a stage it does not report counts as zero. */
  ghost predicate ReportsStage(r: Repo, stage: Stage, m: StageMetrics) {
    if stage in r.stages then m == r.stages[stage] else m == StageMetrics(0.0, 0.0, 0.0)
  }

  ghost predicate ReportsLimit(r: Repo, budget: Budget, limit: real) {
    if budget in r.limits then limit == r.limits[budget] else limit == 0.0
  }

  ghost predicate Within(lo: real, x: real, hi: real) {
    lo <= x <= hi
  }

  // ----- every average lies between the reported numbers -----

  /** Mean, p95 and median of a stage each lie between any bounds on what the repos report. */
  lemma LatencyBetween(repos: seq<Repo>, stage: Stage, lo: StageMetrics, hi: StageMetrics)
    requires repos != []
    requires forall r, m :: r in repos && ReportsStage(r, stage, m) ==>
               && Within(lo.mean, m.mean, hi.mean) && Within(lo.p95, m.p95, hi.p95)
               && Within(lo.median, m.median, hi.median)
    ensures stage in StageLatency(repos)
    ensures var l := StageLatency(repos)[stage];
            && lo.mean <= l.mean <= hi.mean && lo.p95 <= l.p95 <= hi.p95
            && (l.median.Some? <==> stage == TotalStage)
            && (l.median.Some? ==> lo.median <= l.median.value <= hi.median)
  {
    EveryStage(stage);
    forall r | r in repos
      ensures lo.mean <= Value(MeanOf(stage), r) <= hi.mean
      ensures lo.p95 <= Value(P95Of(stage), r) <= hi.p95
      ensures lo.median <= Value(MedianOf(stage), r) <= hi.median
    {
      assert ReportsStage(r, stage, MetricsOf(r, stage));
    }
    hide Value, Average;
    AverageBetween(MeanOf(stage), repos, lo.mean, hi.mean);
    AverageBetween(P95Of(stage), repos, lo.p95, hi.p95);
    AverageBetween(MedianOf(stage), repos, lo.median, hi.median);
  }

  /** So does every budget limit. */
  lemma LimitBetween(repos: seq<Repo>, budget: Budget, lo: real, hi: real)
    requires repos != []
    requires forall r, limit :: r in repos && ReportsLimit(r, budget, limit) ==> Within(lo, limit, hi)
    ensures budget in SloBudget(repos).limits && lo <= SloBudget(repos).limits[budget] <= hi
  {
    EveryBudget(budget);
    forall r | r in repos ensures lo <= Value(LimitOf(budget), r) <= hi {
      assert ReportsLimit(r, budget, Value(LimitOf(budget), r));
    }
    hide Value, Average;
    AverageBetween(LimitOf(budget), repos, lo, hi);
  }

  // ----- one more repo -----

  /** How many cases the repos stand for: the reported case count, at least one per repo. */
  lemma CasesGrow(repos: seq<Repo>, r: Repo)
    ensures SloBudget([]).caseCount == 1
    ensures SloBudget(repos + [r]).caseCount
         == (if repos == [] then 0 else SloBudget(repos).caseCount) + (if r.caseCount < 1 then 1 else r.caseCount)
  {
    TotalSnoc(CaseWeight, repos, r);
    assert repos + [r] != [];
  }

  /** The value x over n cases and y over w cases average to z over all of them. */
  ghost predicate Blends(z: real, x: real, n: int, y: real, w: int) {
    z * (n + w) as real == x * n as real + y * w as real
  }

  lemma DivisorGrows(repos: seq<Repo>, r: Repo)
    ensures Divisor(repos + [r]) == (if repos == [] then 0 else Divisor(repos)) + CaseWeight(r)
  {
    TotalSnoc(CaseWeight, repos, r);
  }

  lemma SumIs(column: Column, repos: seq<Repo>)
    ensures Sum(Weighted(column), repos) == Share(Average(column, repos), if repos == [] then 0 else Divisor(repos))
  {
    AverageTimesWeight(column, repos);
    if repos == [] {
      assert Sum(Weighted(column), repos) == 0.0;
    }
  }

  lemma ColumnGrows(column: Column, repos: seq<Repo>, r: Repo, n: int, w: int)
    requires n == (if repos == [] then 0 else Divisor(repos)) && w == CaseWeight(r)
    ensures Blends(Average(column, repos + [r]), Average(column, repos), n, Value(column, r), w)
  {
    DivisorGrows(repos, r);
    SumSnoc(Weighted(column), repos, r);
    SumIs(column, repos);
    SumIs(column, repos + [r]);
    assert Weighted(column)(r) == Share(Value(column, r), w);
    hide Value, Average, CaseWeight, Weighted, Sum, Divisor;
  }

  lemma CaseCountIs(repos: seq<Repo>)
    ensures SloBudget(repos).caseCount == Divisor(repos)
  {
  }

  lemma StageLatencyIs(repos: seq<Repo>, stage: Stage)
    ensures stage in StageLatency(repos) && StageLatency(repos)[stage] == LatencyOf(stage, repos)
  {
    EveryStage(stage);
  }

  lemma LimitIs(repos: seq<Repo>, budget: Budget)
    ensures budget in SloBudget(repos).limits && SloBudget(repos).limits[budget] == Average(LimitOf(budget), repos)
  {
    EveryBudget(budget);
  }

  lemma ReportedValues(r: Repo, stage: Stage, m: StageMetrics)
    requires ReportsStage(r, stage, m)
    ensures Value(MeanOf(stage), r) == m.mean && Value(P95Of(stage), r) == m.p95
    ensures Value(MedianOf(stage), r) == m.median
  {
  }

  /** The averages of a longer list are the case-weighted averages of the shorter one and the
      new repo: mean, p95 and median each from what it reports under that name. */
  lemma LatencyGrows(repos: seq<Repo>, r: Repo, stage: Stage, m: StageMetrics)
    requires ReportsStage(r, stage, m)
    ensures stage in StageLatency(repos) && stage in StageLatency(repos + [r])
    ensures var (old_, new_) := (StageLatency(repos)[stage], StageLatency(repos + [r])[stage]);
            var n := if repos == [] then 0 else SloBudget(repos).caseCount;
            var w := if r.caseCount < 1 then 1 else r.caseCount;
            && Blends(new_.mean, old_.mean, n, m.mean, w) && Blends(new_.p95, old_.p95, n, m.p95, w)
            && (stage == TotalStage <==> new_.median.Some?) && (stage == TotalStage <==> old_.median.Some?)
            && (stage == TotalStage ==> Blends(new_.median.value, old_.median.value, n, m.median, w))
  {
    CaseCountIs(repos);
    StageLatencyIs(repos, stage);
    StageLatencyIs(repos + [r], stage);
    ReportedValues(r, stage, m);
    hide Value, Average, Divisor, SloBudget, StageLatency, Blends;
    var n := if repos == [] then 0 else SloBudget(repos).caseCount;
    ColumnGrows(MeanOf(stage), repos, r, n, CaseWeight(r));
    ColumnGrows(P95Of(stage), repos, r, n, CaseWeight(r));
    ColumnGrows(MedianOf(stage), repos, r, n, CaseWeight(r));
  }

  /** With one repo the summary is what it reports. */
  lemma SingleLatency(r: Repo, stage: Stage)
    requires stage in r.stages
    ensures stage in StageLatency([r])
    ensures StageLatency([r])[stage].mean == r.stages[stage].mean && StageLatency([r])[stage].p95 == r.stages[stage].p95
  {
    var m := r.stages[stage];
    forall q, x | q in [r] && ReportsStage(q, stage, x) ensures x == m {
    }
    LatencyBetween([r], stage, m, m);
  }

  /** For two repos the weights are their case counts, at least one each. */
  lemma TwoRepos(r1: Repo, r2: Repo, stage: Stage)
    requires stage in r1.stages && stage in r2.stages
    ensures stage in StageLatency([r1, r2])
    ensures var w1 := if r1.caseCount < 1 then 1 else r1.caseCount;
            var w2 := if r2.caseCount < 1 then 1 else r2.caseCount;
            var l := StageLatency([r1, r2])[stage];
            && Blends(l.mean, r1.stages[stage].mean, w1, r2.stages[stage].mean, w2)
            && Blends(l.p95, r1.stages[stage].p95, w1, r2.stages[stage].p95, w2)
  {
    hide StageLatency, SloBudget, Blends;
    assert [r1] + [r2] == [r1, r2] && [] + [r1] == [r1];
    CasesGrow([], r1);
    SingleLatency(r1, stage);
    LatencyGrows([r1], r2, stage, r2.stages[stage]);
  }

  /** The same for the limits. */
  lemma LimitGrows(repos: seq<Repo>, r: Repo, budget: Budget, limit: real)
    requires ReportsLimit(r, budget, limit)
    ensures budget in SloBudget(repos).limits && budget in SloBudget(repos + [r]).limits
    ensures var n := if repos == [] then 0 else SloBudget(repos).caseCount;
            var w := if r.caseCount < 1 then 1 else r.caseCount;
            Blends(SloBudget(repos + [r]).limits[budget], SloBudget(repos).limits[budget], n, limit, w)
  {
    CaseCountIs(repos);
    LimitIs(repos, budget);
    LimitIs(repos + [r], budget);
    assert Value(LimitOf(budget), r) == limit;
    hide Value, Average, Divisor, SloBudget, Blends;
    ColumnGrows(LimitOf(budget), repos, r, if repos == [] then 0 else SloBudget(repos).caseCount, CaseWeight(r));
  }

  /** Downgrades add up, negative counts read as zero, and the rate is the count over the cases. */
  lemma DowngradesGrow(repos: seq<Repo>, r: Repo)
    ensures SloBudget([]).downgradeCount == 0
    ensures SloBudget(repos + [r]).downgradeCount
         == SloBudget(repos).downgradeCount + (if r.downgrades < 0 then 0 else r.downgrades)
    ensures SloBudget(repos).downgradeRate * SloBudget(repos).caseCount as real
         == SloBudget(repos).downgradeCount as real
  {
    TotalSnoc(Downgrades, repos, r);
  }

  lemma SignalIs(repos: seq<Repo>, signal: Signal)
    ensures signal in SloBudget(repos).signals && SloBudget(repos).signals[signal] == SignalRowOf(signal, repos)
  {
    EverySignal(signal);
  }

  /** So do the signals. */
  lemma SignalsGrow(repos: seq<Repo>, r: Repo, signal: Signal)
    ensures signal in SloBudget(repos).signals && signal in SloBudget(repos + [r]).signals
    ensures signal in SloBudget([]).signals
    ensures SloBudget([]).signals[signal].count == 0
    ensures SloBudget(repos + [r]).signals[signal].count
         == SloBudget(repos).signals[signal].count
            + (if signal in r.signals && r.signals[signal] > 0 then r.signals[signal] else 0)
    ensures SloBudget(repos).signals[signal].rate * SloBudget(repos).caseCount as real
         == SloBudget(repos).signals[signal].count as real
  {
    SignalIs(repos, signal);
    SignalIs(repos + [r], signal);
    SignalIs([], signal);
    CaseCountIs(repos);
    TotalSnoc(SignalCount(signal), repos, r);
    hide SloBudget, Divisor;
    RateTimesCases(Total(SignalCount(signal), repos), Divisor(repos));
  }

  lemma RateTimesCases(count: int, n: int)
    requires n >= 1
    ensures count as real / n as real * n as real == count as real
  {
  }

  // ----- the bucket rows -----

  const KNOWN_BUCKETS: seq<string> := ["repo_size_small", "repo_size_medium", "repo_size_large", "repo_size_unknown"]

  /** a is printed before b: the four sizes come first, in their order, then the rest by name. */
  ghost predicate PrintedBefore(a: string, b: string) {
    if b in KNOWN_BUCKETS then
      exists i, j :: 0 <= i < j < |KNOWN_BUCKETS| && KNOWN_BUCKETS[i] == a && KNOWN_BUCKETS[j] == b
    else a in KNOWN_BUCKETS || StringLe(a, b)
  }

  lemma RankKnown(a: string)
    ensures a !in KNOWN_BUCKETS <==> BucketRank(a) == 99
    ensures a in KNOWN_BUCKETS ==> 0 <= BucketRank(a) < 4 == |KNOWN_BUCKETS| && KNOWN_BUCKETS[BucketRank(a)] == a
  {
    assert KNOWN_BUCKETS[0] == "repo_size_small" && KNOWN_BUCKETS[1] == "repo_size_medium";
    assert KNOWN_BUCKETS[2] == "repo_size_large" && KNOWN_BUCKETS[3] == "repo_size_unknown";
  }

  lemma RankOrder(a: string, b: string)
    requires BucketLe(a, b) && a != b
    ensures PrintedBefore(a, b)
  {
    RankKnown(a);
    RankKnown(b);
    hide BucketRank, KNOWN_BUCKETS, StringLe;
    if b in KNOWN_BUCKETS {
      var i, j := BucketRank(a), BucketRank(b);
      assert 0 <= i < j < |KNOWN_BUCKETS| && KNOWN_BUCKETS[i] == a && KNOWN_BUCKETS[j] == b;
    }
  }

  /** The rows are printed in this order, each bucket once. */
  lemma BucketRowsMeaning(repos: seq<Repo>, i: nat, j: nat)
    requires i < j < |BucketRows(repos)|
    ensures PrintedBefore(BucketRows(repos)[i].bucket, BucketRows(repos)[j].bucket)
    ensures BucketRows(repos)[i].bucket != BucketRows(repos)[j].bucket
  {
    BucketNamesMeaning(repos);
    var a, b := BucketNames(repos)[i], BucketNames(repos)[j];
    assert BucketLe(a, b) && a != b;
    hide BucketNames;
    RankOrder(a, b);
  }

  function InBucket(bucket: string): Repo -> bool {
    (r: Repo) => if Strip(r.workloadBucket) == "" then bucket == "policy_auto" else Strip(r.workloadBucket) == bucket
  }

  lemma BucketMembers(bucket: string, repos: seq<Repo>)
    ensures Group(BucketOf, bucket, repos) == Filter(InBucket(bucket), repos)
  {
    GroupIsFilter(BucketOf, bucket, repos, InBucket(bucket));
  }

  /** A bucket row summarises exactly the repos that name its bucket, where a blank name stands
      for `policy_auto`, and lists their names, sorted. */
  lemma BucketRowIs(repos: seq<Repo>, row: BucketRow)
    requires row in BucketRows(repos)
    ensures var members := Filter(InBucket(row.bucket), repos);
            && members != [] && row.repoCount == |members|
            && row.stages == StageLatency(members) && row.slo == SloBudget(members)
            && Sorted(StringLe, row.repoNames)
            && forall name :: name in row.repoNames <==> name != "" && exists r :: r in members && Strip(r.name) == name
  {
    var i :| 0 <= i < |BucketRows(repos)| && BucketRows(repos)[i] == row;
    BucketsPartitionRepos(repos);
    BucketMembers(row.bucket, repos);
    var members := Filter(InBucket(row.bucket), repos);
    RowNames(members, row.bucket);
    assert row == RowOf(row.bucket, members);
  }

  lemma RowNames(members: seq<Repo>, bucket: string)
    ensures var names := RowOf(bucket, members).repoNames;
            && Sorted(StringLe, names)
            && forall name :: name in names <==> name != "" && exists r :: r in members && Strip(r.name) == name
  {
    var texts := Filter(IsNonEmpty, Map(NameOf, members));
    StringLeOrder();
    SortSorted(StringLe, texts);
    FilterMembers(IsNonEmpty, Map(NameOf, members));
    hide Filter, Map, Sort, Strip;
    forall name
      ensures name in RowOf(bucket, members).repoNames <==> name != "" && exists r :: r in members && NameOf(r) == name
    {
      SortMember(StringLe, texts, name);
      MapMember(NameOf, members, name);
    }
  }
}
