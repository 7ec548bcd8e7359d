/** The iteration loop and the policy summary of scripts/ralph_wiggum_iterate.py. */
module TuningRun {
  import opened Prelude
  import opened Sequences
  import opened Ordering
  import opened TuningMoves

  function Objective(m: RunMetrics, recallFloor: real): real {
    m.precision - (if recallFloor > m.recall then (recallFloor - m.recall) * 5.0 else 0.0)
  }

  datatype IterationResult = IterationResult(
    iteration: int, mode: Mode, params: Params, metrics: RunMetrics, objective: real)

  datatype State = State(
    results: seq<IterationResult>,
    bestParams: Params,
    best: Option<IterationResult>,
    lastMetrics: Option<RunMetrics>)

  /** Everything the loop does not control: the random numbers of each iteration, and what the
      benchmark measures for given parameters, which may differ from one run to the next. */
  datatype Environment = Environment(draws: int -> Draws, measure: (int, Params) -> RunMetrics)

  function Start(): State {
    State([], BaselineParams(), None, None)
  }

  function StepOf(st: State, s: Settings, env: Environment): State {
    var iteration := |st.results| + 1;
    var (mode, params) := PickNext(iteration, s, st.bestParams, st.lastMetrics, env.draws(iteration));
    var metrics := env.measure(iteration, params);
    var r := IterationResult(iteration, mode, params, metrics, Objective(metrics, s.recallFloor));
    if st.best.None? || r.objective > st.best.value.objective
    then State(st.results + [r], params, Some(r), Some(metrics))
    else State(st.results + [r], st.bestParams, st.best, Some(metrics))
  }

  function RunState(n: nat, s: Settings, env: Environment): State {
    if n == 0 then Start() else StepOf(RunState(n - 1, s, env), s, env)
  }

  method RunTuning(iterations: int, s: Settings, env: Environment)
    returns (results: seq<IterationResult>, best: IterationResult, bestParams: Params)
    ensures var n := if iterations < 1 then 1 else iterations;
            var st := RunState(n, s, env);
            results == st.results && Some(best) == st.best && bestParams == st.bestParams
  {
    var n := if iterations < 1 then 1 else iterations;
    bestParams := BaselineParams();
    var bestResult: Option<IterationResult> := None;
    var lastMetrics: Option<RunMetrics> := None;
    results := [];
    for iteration := 1 to n + 1
      invariant State(results, bestParams, bestResult, lastMetrics) == RunState(iteration - 1, s, env)
      invariant |results| == iteration - 1
      invariant iteration > 1 ==> bestResult.Some?
    {
      var (mode, params) := PickNext(iteration, s, bestParams, lastMetrics, env.draws(iteration));
      var metrics := env.measure(iteration, params);
      var result := IterationResult(iteration, mode, params, metrics, Objective(metrics, s.recallFloor));
      results := results + [result];
      lastMetrics := Some(metrics);
      if bestResult.None? || result.objective > bestResult.value.objective {
        bestParams := params;
        bestResult := Some(result);
      }
    }
    best := bestResult.value;
  }

  // ----- the kept best -----

  /** k is the earliest iteration of maximal objective. */
  ghost predicate EarliestMaximum(results: seq<IterationResult>, k: int) {
    && 0 <= k < |results|
    && (forall j :: 0 <= j < |results| ==> results[j].objective <= results[k].objective)
    && (forall j :: 0 <= j < k ==> results[j].objective < results[k].objective)
  }

  /** The kept best and its parameters are those of iteration k, the earliest maximum. */
  ghost predicate KeptAt(st: State, k: int) {
    EarliestMaximum(st.results, k) && st.best == Some(st.results[k]) && st.bestParams == st.results[k].params
  }

  ghost predicate KeepsBest(st: State, s: Settings) {
    && (st.results == [] <==> st.best.None?)
    && (st.results != [] ==> exists k :: KeptAt(st, k))
    && (forall i :: 0 <= i < |st.results| ==>
          st.results[i].iteration == i + 1
          && st.results[i].objective == Objective(st.results[i].metrics, s.recallFloor))
  }

  lemma StepKeepsBest(st: State, s: Settings, env: Environment)
    requires KeepsBest(st, s)
    ensures KeepsBest(StepOf(st, s, env), s)
  {
    hide PickNext, Objective;
    var next := StepOf(st, s, env);
    var n := |st.results|;
    assert next.results[..n] == st.results;
    assert forall i :: 0 <= i < n ==> next.results[i] == st.results[i];
    if st.best.None? || next.results[n].objective > st.best.value.objective {
      assert KeptAt(next, n);
    } else {
      var k :| KeptAt(st, k);
      assert KeptAt(next, k);
    }
  }

  /** A step appends one result, drawn by PickNext, and its best is no worse than before. */
  lemma StepAppends(st: State, s: Settings, env: Environment)
    ensures var (next, n) := (StepOf(st, s, env), |st.results|);
            && |next.results| == n + 1 && next.results[..n] == st.results
            && (next.results[n].mode, next.results[n].params)
               == PickNext(n + 1, s, st.bestParams, st.lastMetrics, env.draws(n + 1))
            && next.best.Some?
            && (st.best.Some? ==> next.best.value.objective >= st.best.value.objective)
  {
    hide PickNext, Objective;
  }

  /** At every point of every run the kept best is the earliest iteration attaining the maximum
      objective, and the kept parameters are its parameters. */
  lemma {:induction false} RunKeepsBest(n: nat, s: Settings, env: Environment)
    ensures |RunState(n, s, env).results| == n && KeepsBest(RunState(n, s, env), s)
  {
    hide StepOf, KeepsBest;
    if n > 0 {
      RunKeepsBest(n - 1, s, env);
      StepAppends(RunState(n - 1, s, env), s, env);
      StepKeepsBest(RunState(n - 1, s, env), s, env);
    } else {
      StartKeepsBest(s);
    }
  }

  lemma StartKeepsBest(s: Settings)
    ensures KeepsBest(Start(), s) && Start().results == []
  {
  }

  lemma BestStep(n: nat, s: Settings, env: Environment)
    requires n >= 1
    ensures RunState(n, s, env).best.Some?
    ensures RunState(n - 1, s, env).best.Some? ==>
              RunState(n, s, env).best.value.objective >= RunState(n - 1, s, env).best.value.objective
  {
    hide StepOf;
    StepAppends(RunState(n - 1, s, env), s, env);
  }

  /** The best objective never decreases along a run. */
  lemma {:induction false} BestNeverDecreases(m: nat, n: nat, s: Settings, env: Environment)
    requires 1 <= m <= n
    ensures RunState(m, s, env).best.Some? && RunState(n, s, env).best.Some?
    ensures RunState(m, s, env).best.value.objective <= RunState(n, s, env).best.value.objective
    decreases n
  {
    hide RunState;
    BestStep(m, s, env);
    BestStep(n, s, env);
    if m < n {
      BestNeverDecreases(m, n - 1, s, env);
    }
  }

  /** The objective never exceeds the precision, and equals it exactly at or above the recall floor. */
  lemma ObjectiveMeaning(m: RunMetrics, recallFloor: real)
    ensures Objective(m, recallFloor) <= m.precision
    ensures Objective(m, recallFloor) == m.precision <==> m.recall >= recallFloor
  {
  }

  /** Below the floor every point of recall is worth five points of precision. */
  lemma ObjectiveSlope(m: RunMetrics, gain: real, recallFloor: real)
    requires 0.0 <= gain <= recallFloor - m.recall
    ensures Objective(m.(recall := m.recall + gain), recallFloor)
         == Objective(m.(precision := m.precision + 5.0 * gain), recallFloor)
  {
  }

  // ----- every step of a run -----

  lemma {:induction false} ResultsCount(n: nat, s: Settings, env: Environment)
    ensures |RunState(n, s, env).results| == n
  {
    hide StepOf, PickNext;
    if n > 0 {
      ResultsCount(n - 1, s, env);
      StepAppends(RunState(n - 1, s, env), s, env);
    }
  }

  lemma {:induction false} ResultsGrow(m: nat, n: nat, s: Settings, env: Environment)
    requires m <= n
    ensures |RunState(m, s, env).results| == m && |RunState(n, s, env).results| == n
    ensures RunState(n, s, env).results[..m] == RunState(m, s, env).results
    decreases n
  {
    hide StepOf, PickNext;
    ResultsCount(m, s, env);
    ResultsCount(n, s, env);
    if m < n {
      ResultsGrow(m, n - 1, s, env);
      StepAppends(RunState(n - 1, s, env), s, env);
      var r := RunState(n, s, env).results;
      assert r[..m] == r[..n - 1][..m];
    }
  }

  /** In every run every iteration makes a legal step from the best parameters kept so far, and
      all parameters after the baseline lie in the search space. */
  lemma RunLegal(n: nat, i: nat, s: Settings, env: Environment)
    requires i < n
    ensures |RunState(n, s, env).results| == n
    ensures var r := RunState(n, s, env).results[i];
            && LegalStep(i + 1, s, RunState(i, s, env).bestParams, r.mode, r.params)
            && (i > 0 ==> InSpace(s.choices, r.params))
  {
    hide StepOf, PickNext, InSpace, NearBest, BaselineParams;
    ResultsGrow(i, n, s, env);
    ResultsGrow(i + 1, n, s, env);
    var st := RunState(i, s, env);
    StepAppends(st, s, env);
    PickLegal(i + 1, s, st.bestParams, st.lastMetrics, env.draws(i + 1));
    var r := RunState(n, s, env).results;
    assert r[i] == r[..i + 1][i];
  }

  // ----- the policy summary -----

  function PolicyOf(r: IterationResult): string {
    r.params.policy
  }

  function ObjectiveOf(r: IterationResult): real {
    r.objective
  }

  function PrecisionOf(r: IterationResult): real {
    r.metrics.precision
  }

  function RecallOf(r: IterationResult): real {
    r.metrics.recall
  }

  function NoiseOf(r: IterationResult): real {
    r.metrics.noise
  }

  function MaxReal(a: real, b: real): real {
    if a < b then b else a
  }

  /** Python's `max` over a non-empty list. */
  function Highest(rows: seq<IterationResult>): real
    requires rows != []
  {
    if |rows| == 1 then rows[0].objective
    else MaxReal(Highest(rows[..|rows| - 1]), rows[|rows| - 1].objective)
  }

  lemma {:induction false} HighestMeaning(rows: seq<IterationResult>)
    requires rows != []
    ensures forall r :: r in rows ==> r.objective <= Highest(rows)
    ensures exists r :: r in rows && r.objective == Highest(rows)
  {
    if |rows| == 1 {
      assert rows[0] in rows;
    } else {
      var init, last := rows[..|rows| - 1], rows[|rows| - 1];
      HighestMeaning(init);
      assert rows == init + [last];
      assert last in rows;
    }
  }

  datatype PolicyRow = PolicyRow(
    policy: string,
    runs: nat,
    meanObjective: real,
    bestObjective: real,
    meanRecall: real,
    meanPrecision: real,
    meanNoise: real)

  function RowOf(policy: string, rows: seq<IterationResult>): PolicyRow {
    PolicyRow(policy, |rows|, Mean(ObjectiveOf, rows), if rows == [] then 0.0 else Highest(rows),
              Mean(RecallOf, rows), Mean(PrecisionOf, rows), Mean(NoiseOf, rows))
  }

  function PolicyNames(results: seq<IterationResult>): seq<string> {
    Sort(StringLe, Keys(PolicyOf, results))
  }

  function RowFor(results: seq<IterationResult>): string -> PolicyRow {
    (policy: string) => RowOf(policy, Group(PolicyOf, policy, results))
  }

  function PolicySummary(results: seq<IterationResult>): seq<PolicyRow> {
    Map(RowFor(results), PolicyNames(results))
  }

  method BuildPolicySummary(results: seq<IterationResult>) returns (rows: seq<PolicyRow>)
    ensures rows == PolicySummary(results)
  {
    hide RowOf;
    var order, groups := GroupInto(PolicyOf, results);
    var names := Sort(StringLe, order);
    rows := [];
    for i := 0 to |names|
      invariant rows == Map(RowFor(results), names[..i])
    {
      SortMember(StringLe, order, names[i]);
      MapSnoc(RowFor(results), names, i);
      rows := rows + [RowOf(names[i], groups[names[i]])];
    }
    assert names[..|names|] == names;
  }

  lemma PolicyNamesMeaning(results: seq<IterationResult>)
    ensures StrictlySorted(StringLe, PolicyNames(results))
    ensures forall r :: r in results ==> PolicyOf(r) in PolicyNames(results)
    ensures forall k :: k in PolicyNames(results) ==> Group(PolicyOf, k, results) != []
  {
    var ks := Keys(PolicyOf, results);
    StringLeOrder();
    KeysMeaning(PolicyOf, results);
    SortSorted(StringLe, ks);
    SortPermutes(StringLe, ks);
    DistinctPermutation(ks, PolicyNames(results));
    forall k ensures k in PolicyNames(results) <==> k in ks {
      SortMember(StringLe, ks, k);
    }
    forall k | k in PolicyNames(results) ensures Group(PolicyOf, k, results) != [] {
      GroupNonEmpty(PolicyOf, k, results);
    }
  }

  function Runs(row: PolicyRow): int {
    row.runs
  }

  /** runs times mean objective. */
  function RowTotal(row: PolicyRow): real {
    Share(row.meanObjective, row.runs)
  }

  lemma MeanTimesRuns(policy: string, rows: seq<IterationResult>)
    ensures RowTotal(RowOf(policy, rows)) == Sum(ObjectiveOf, rows)
  {
    MeanTimesCount(ObjectiveOf, rows);
  }

  /** The rows partition the runs: the run counts add up to the number of iterations, and run
      count times mean objective adds up to the total objective. */
  lemma PolicyRowsPartition(results: seq<IterationResult>)
    ensures multiset(Regrouped(PolicyOf, results, PolicyNames(results))) == multiset(results)
    ensures Total(Runs, PolicySummary(results)) == |results|
    ensures Sum(RowTotal, PolicySummary(results)) == Sum(ObjectiveOf, results)
  {
    var names := PolicyNames(results);
    PolicyNamesMeaning(results);
    GroupsPartition(PolicyOf, results, names);
    GroupTotalsToWhole(PolicyOf, One, results, names);
    GroupSumsToWhole(PolicyOf, ObjectiveOf, results, names);
    OnesCount(results);
    forall k ensures GroupTotal(PolicyOf, One, results)(k) == Runs(RowFor(results)(k)) {
      OnesCount(Group(PolicyOf, k, results));
    }
    forall k ensures GroupSum(PolicyOf, ObjectiveOf, results)(k) == RowTotal(RowFor(results)(k)) {
      MeanTimesRuns(k, Group(PolicyOf, k, results));
    }
    hide RowOf, RowTotal;
    TotalOfMap(Runs, RowFor(results), GroupTotal(PolicyOf, One, results), names);
    SumOfMap(RowTotal, RowFor(results), GroupSum(PolicyOf, ObjectiveOf, results), names);
  }

  lemma RowOfMember(results: seq<IterationResult>, r: IterationResult)
    requires r in results
    ensures exists i :: 0 <= i < |PolicySummary(results)|
              && PolicySummary(results)[i].policy == r.params.policy
              && PolicySummary(results)[i].bestObjective >= r.objective
  {
    var names := PolicyNames(results);
    PolicyNamesMeaning(results);
    var i :| 0 <= i < |names| && names[i] == PolicyOf(r);
    var group := Group(PolicyOf, names[i], results);
    GroupMembers(PolicyOf, names[i], results);
    HighestMeaning(group);
    assert PolicySummary(results)[i] == RowOf(names[i], group);
  }

  lemma RowBestAttained(results: seq<IterationResult>, i: nat)
    requires i < |PolicySummary(results)|
    ensures exists r :: r in results && r.params.policy == PolicySummary(results)[i].policy
              && r.objective == PolicySummary(results)[i].bestObjective
  {
    var names := PolicyNames(results);
    PolicyNamesMeaning(results);
    assert names[i] in names;
    var group := Group(PolicyOf, names[i], results);
    GroupMembers(PolicyOf, names[i], results);
    HighestMeaning(group);
    assert PolicySummary(results)[i] == RowOf(names[i], group);
  }

  /** The maximum of the per-policy best objectives is the objective of the kept best. */
  lemma PolicyBestIsKeptBest(n: nat, s: Settings, env: Environment)
    requires n >= 1
    ensures var st := RunState(n, s, env);
            var rows := PolicySummary(st.results);
            && st.best.Some?
            && (forall i :: 0 <= i < |rows| ==> rows[i].bestObjective <= st.best.value.objective)
            && exists i :: 0 <= i < |rows| && rows[i].policy == st.best.value.params.policy
                           && rows[i].bestObjective == st.best.value.objective
  {
    RunKeepsBest(n, s, env);
    var st := RunState(n, s, env);
    var rows := PolicySummary(st.results);
    var k :| KeptAt(st, k);
    forall i | 0 <= i < |rows| ensures rows[i].bestObjective <= st.best.value.objective {
      RowBestAttained(st.results, i);
    }
    assert st.results[k] in st.results;
    RowOfMember(st.results, st.results[k]);
  }
}
