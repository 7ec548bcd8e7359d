/** The per-bucket summaries are a refinement of the summary of the whole matrix. */
module MatrixReaggregation {
  import opened Prelude
  import opened Sequences
  import opened Ordering
  import opened MatrixSummary

  /** Each bucket once, in report order, none of them empty. */
  lemma BucketNamesMeaning(repos: seq<Repo>)
    ensures StrictlySorted(BucketLe, BucketNames(repos))
    ensures forall r :: r in repos ==> BucketOf(r) in BucketNames(repos)
    ensures forall k :: k in BucketNames(repos) ==> k in Keys(BucketOf, repos)
  {
    var ks := Keys(BucketOf, repos);
    KeysMeaning(BucketOf, repos);
    BucketLeOrder();
    SortSorted(BucketLe, ks);
    SortPermutes(BucketLe, ks);
    DistinctPermutation(ks, BucketNames(repos));
    forall k ensures k in BucketNames(repos) <==> k in ks {
      SortMember(BucketLe, ks, k);
    }
  }

  /** The rows partition the repos: every repo is counted in exactly one bucket. */
  lemma BucketsPartitionRepos(repos: seq<Repo>)
    ensures multiset(Regrouped(BucketOf, repos, BucketNames(repos))) == multiset(repos)
    ensures |BucketRows(repos)| == |BucketNames(repos)|
    ensures forall i :: 0 <= i < |BucketRows(repos)| ==>
              && BucketRows(repos)[i].bucket == BucketNames(repos)[i]
              && BucketRows(repos)[i].repoCount == |Group(BucketOf, BucketNames(repos)[i], repos)| > 0
  {
    BucketNamesMeaning(repos);
    GroupsPartition(BucketOf, repos, BucketNames(repos));
    forall i | 0 <= i < |BucketRows(repos)|
      ensures BucketRows(repos)[i].repoCount == |Group(BucketOf, BucketNames(repos)[i], repos)| > 0
    {
      assert BucketNames(repos)[i] in BucketNames(repos);
      GroupNonEmpty(BucketOf, BucketNames(repos)[i], repos);
    }
  }

  // ----- weighted columns -----

  /** Which number of a row a column reads. */
  function ReadRow(column: Column, row: BucketRow): real {
    match column
    case MeanOf(stage) => if stage in row.stages then row.stages[stage].mean else 0.0
    case P95Of(stage) => if stage in row.stages then row.stages[stage].p95 else 0.0
    case MedianOf(stage) =>
      if stage in row.stages && row.stages[stage].median.Some? then row.stages[stage].median.value else 0.0
    case LimitOf(budget) => if budget in row.slo.limits then row.slo.limits[budget] else 0.0
  }

  /** The columns a summary reports: medians only for the total stage. */
  predicate Reported(column: Column) {
    column.MedianOf? ==> column.stage == TotalStage
  }

  function WeightedRow(column: Column): BucketRow -> real {
    (row: BucketRow) => Share(ReadRow(column, row), row.slo.caseCount)
  }

  lemma AverageTimesWeight(column: Column, repos: seq<Repo>)
    ensures Share(Average(column, repos), Divisor(repos)) == Sum(Weighted(column), repos)
  {
  }

  lemma ReportedAverage(column: Column, bucket: string, members: seq<Repo>)
    requires Reported(column)
    ensures ReadRow(column, RowOf(bucket, members)) == Average(column, members)
  {
    match column
    case MeanOf(stage) => EveryStage(stage);
    case P95Of(stage) => EveryStage(stage);
    case MedianOf(stage) => EveryStage(stage);
    case LimitOf(budget) => EveryBudget(budget);
  }

  lemma RowShare(column: Column, bucket: string, members: seq<Repo>)
    requires Reported(column)
    ensures WeightedRow(column)(RowOf(bucket, members)) == Sum(Weighted(column), members)
  {
    RowCases(bucket, members);
    hide *;
    ReportedAverage(column, bucket, members);
    AverageTimesWeight(column, members);
    WeightedRowIs(column, RowOf(bucket, members));
  }

  lemma RowCases(bucket: string, members: seq<Repo>)
    ensures RowOf(bucket, members).slo.caseCount == Divisor(members)
  {
  }

  lemma WeightedRowIs(column: Column, row: BucketRow)
    ensures WeightedRow(column)(row) == Share(ReadRow(column, row), row.slo.caseCount)
  {
  }

  /** For every reported column, the bucket averages weighted by the bucket case counts add up
      to the total case count times the average over the whole matrix. */
  lemma ColumnsReaggregate(column: Column, repos: seq<Repo>)
    requires Reported(column)
    ensures Sum(WeightedRow(column), BucketRows(repos)) == WeightedRow(column)(RowOf("", repos))
  {
    var names, g := BucketNames(repos), GroupSum(BucketOf, Weighted(column), repos);
    BucketNamesMeaning(repos);
    forall k | k in names ensures g(k) == WeightedRow(column)(RowFor(repos)(k)) {
      RowShare(column, k, Group(BucketOf, k, repos));
    }
    SumOfMap(WeightedRow(column), RowFor(repos), g, names);
    GroupSumsToWhole(BucketOf, Weighted(column), repos, names);
    RowShare(column, "", repos);
  }

  // ----- counts -----

  datatype Tally = Cases | Repos | DowngradeCases | SignalCases(signal: Signal)

  function ReadTally(tally: Tally): BucketRow -> int {
    (row: BucketRow) =>
      match tally
      case Cases => row.slo.caseCount
      case Repos => row.repoCount
      case DowngradeCases => row.slo.downgradeCount
      case SignalCases(signal) => if signal in row.slo.signals then row.slo.signals[signal].count else 0
  }

  function RepoTally(tally: Tally): Repo -> int {
    (r: Repo) =>
      match tally
      case Cases => CaseWeight(r)
      case Repos => 1
      case DowngradeCases => Downgrades(r)
      case SignalCases(signal) => SignalsOf(signal, r)
  }

  lemma {:induction false} LengthIsTally(repos: seq<Repo>)
    ensures Total(RepoTally(Repos), repos) == |repos|
  {
    if repos != [] {
      LengthIsTally(repos[..|repos| - 1]);
    }
  }

  lemma RowTally(tally: Tally, bucket: string, members: seq<Repo>)
    requires members != []
    ensures ReadTally(tally)(RowOf(bucket, members)) == Total(RepoTally(tally), members)
  {
    match tally
    case Cases => TotalCongruent(CaseWeight, RepoTally(Cases), members);
    case Repos => LengthIsTally(members);
    case DowngradeCases => TotalCongruent(Downgrades, RepoTally(DowngradeCases), members);
    case SignalCases(signal) =>
      EverySignal(signal);
      TotalCongruent(SignalCount(signal), RepoTally(tally), members);
  }

  /** Case counts, repo counts, downgrade counts and signal counts of the buckets add up to the
      overall ones, for a matrix with at least one repo. */
  lemma CountsReaggregate(tally: Tally, repos: seq<Repo>)
    requires repos != []
    ensures Total(ReadTally(tally), BucketRows(repos)) == ReadTally(tally)(RowOf("", repos))
  {
    var names, g := BucketNames(repos), GroupTotal(BucketOf, RepoTally(tally), repos);
    BucketNamesMeaning(repos);
    forall k | k in names ensures g(k) == ReadTally(tally)(RowFor(repos)(k)) {
      GroupNonEmpty(BucketOf, k, repos);
      RowTally(tally, k, Group(BucketOf, k, repos));
    }
    TotalOfMap(ReadTally(tally), RowFor(repos), g, names);
    GroupTotalsToWhole(BucketOf, RepoTally(tally), repos, names);
    RowTally(tally, "", repos);
  }

  /** Without repos the summary still claims one case although there is no bucket to hold it:
      the case counts agree exactly for a non-empty matrix. */
  lemma CaseCountsAgreeExactly(repos: seq<Repo>)
    ensures Total(ReadTally(Cases), BucketRows(repos)) == SloBudget(repos).caseCount <==> repos != []
  {
    if repos == [] {
      assert Keys(BucketOf, repos) == [];
      assert BucketRows(repos) == [];
    } else {
      CountsReaggregate(Cases, repos);
    }
  }

  // ----- bounds -----

  function Scaled(bound: real): Repo -> real {
    (r: Repo) => Share(bound, CaseWeight(r))
  }

  lemma {:induction false} ScaledSum(bound: real, repos: seq<Repo>)
    ensures Sum(Scaled(bound), repos) == Share(bound, Weight(repos))
  {
    if repos != [] {
      ScaledSum(bound, repos[..|repos| - 1]);
    }
  }

  lemma QuotientBetween(lo: real, sum: real, hi: real, w: real)
    requires w > 0.0 && lo * w <= sum <= hi * w
    ensures lo <= sum / w <= hi
  {
    assert (lo * w) / w == lo && (hi * w) / w == hi;
  }

  lemma WeightedBetween(column: Column, r: Repo, lo: real, hi: real)
    requires lo <= Value(column, r) <= hi
    ensures Scaled(lo)(r) <= Weighted(column)(r) <= Scaled(hi)(r)
  {
    hide Share;
    ShareMonotone(lo, Value(column, r), CaseWeight(r));
    ShareMonotone(Value(column, r), hi, CaseWeight(r));
  }

  lemma WeightedSumBetween(column: Column, repos: seq<Repo>, lo: real, hi: real)
    requires forall r :: r in repos ==> lo <= Value(column, r) <= hi
    ensures Share(lo, Weight(repos)) <= Sum(Weighted(column), repos) <= Share(hi, Weight(repos))
  {
    forall r | r in repos ensures Scaled(lo)(r) <= Weighted(column)(r) <= Scaled(hi)(r) {
      WeightedBetween(column, r, lo, hi);
    }
    SumMonotone(Scaled(lo), Weighted(column), repos);
    SumMonotone(Weighted(column), Scaled(hi), repos);
    ScaledSum(lo, repos);
    ScaledSum(hi, repos);
  }

  /** Every overall average lies between any bounds on the repos' own values, so between their
      minimum and their maximum. */
  lemma AverageBetween(column: Column, repos: seq<Repo>, lo: real, hi: real)
    requires repos != []
    requires forall r :: r in repos ==> lo <= Value(column, r) <= hi
    ensures lo <= Average(column, repos) <= hi
  {
    WeightedSumBetween(column, repos, lo, hi);
    QuotientBetween(lo, Sum(Weighted(column), repos), hi, Divisor(repos) as real);
  }
}
