/** Collecting metrics and checking them for regressions (scripts/metrics_collector.py). */
module MetricsDrift {
  import opened Prelude
  import opened Sequences

  datatype Metric =
    | PrecisionAtK | NoiseRate | LatencyP95 | ChunkHitAtK | MemoryRecallRate | ProfileUtilization
    | TaskSuccessRate | ValidationTestCount | MissingValidationRate | EvidenceInsufficientRate

  datatype Trend = Up | Down | NoTrend

  datatype Tracked = Tracked(metric: Metric, trend: Trend)

  const METRICS_TO_TRACK: seq<Tracked> :=
    [Tracked(PrecisionAtK, Up), Tracked(NoiseRate, Down), Tracked(LatencyP95, Down),
     Tracked(ChunkHitAtK, Up), Tracked(MemoryRecallRate, Up), Tracked(ProfileUtilization, Up)]

  predicate RequiresMemorySignal(m: Metric) {
    m == MemoryRecallRate || m == ProfileUtilization
  }

  /** A set of collected metrics, with the number of listed repos and the share of them that
      showed a memory signal. */
  datatype Snapshot = Snapshot(values: map<Metric, real>, repoCount: nat, memoryCoverage: real)

  // ----- collecting -----

  /** The metrics of one repo, as reported; missing numbers are zero. */
  datatype RepoMetrics = RepoMetrics(
    precision: real, noise: real, latency: real, chunkHit: real,
    notesHit: real, profileSelected: real, captureTrigger: real)

  datatype Column = PrecisionColumn | NoiseColumn | LatencyColumn | ChunkColumn | NotesColumn | ProfileColumn

  function Field(column: Column, r: RepoMetrics): real {
    match column
    case PrecisionColumn => r.precision
    case NoiseColumn => r.noise
    case LatencyColumn => r.latency
    case ChunkColumn => r.chunkHit
    case NotesColumn => r.notesHit
    case ProfileColumn => r.profileSelected
  }

  /** The readable entries of the `repos` list; an entry that is no object is None. */
  function Given(items: seq<Option<RepoMetrics>>): seq<RepoMetrics> {
    if items == [] then []
    else Given(items[..|items| - 1])
         + (match items[|items| - 1] case Some(r) => [r] case None => [])
  }

  function Clamped(column: Column): RepoMetrics -> real {
    (r: RepoMetrics) => NonNegative(Field(column, r))
  }

  predicate HasSignal(r: RepoMetrics) {
    r.notesHit > 0.0 || r.profileSelected > 0.0 || r.captureTrigger > 0.0
  }

  function Coverage(items: seq<Option<RepoMetrics>>): real {
    if items == [] then 0.0 else Count(HasSignal, Given(items)) as real / |items| as real
  }

  function Collect(items: seq<Option<RepoMetrics>>): Snapshot {
    var repos := Given(items);
    Snapshot(map[PrecisionAtK := Mean(Clamped(PrecisionColumn), repos), NoiseRate := Mean(Clamped(NoiseColumn), repos),
                 LatencyP95 := Mean(Clamped(LatencyColumn), repos), ChunkHitAtK := Mean(Clamped(ChunkColumn), repos),
                 MemoryRecallRate := Mean(Clamped(NotesColumn), repos),
                 ProfileUtilization := Mean(Clamped(ProfileColumn), repos)],
             |items|, Coverage(items))
  }

  /** The value lists and the signal counter the script fills in one pass. */
  method CollectValues(items: seq<Option<RepoMetrics>>)
    returns (
      repos: nat, precision: real, noise: real, latency: real, chunk: real, notes: real, profile: real, signals: nat)
    ensures repos == |Given(items)| && signals == Count(HasSignal, Given(items))
    ensures precision == Sum(Clamped(PrecisionColumn), Given(items)) && noise == Sum(Clamped(NoiseColumn), Given(items))
    ensures latency == Sum(Clamped(LatencyColumn), Given(items)) && chunk == Sum(Clamped(ChunkColumn), Given(items))
    ensures notes == Sum(Clamped(NotesColumn), Given(items)) && profile == Sum(Clamped(ProfileColumn), Given(items))
  {
    repos, signals := 0, 0;
    precision, noise, latency, chunk, notes, profile := 0.0, 0.0, 0.0, 0.0, 0.0, 0.0;
    for i := 0 to |items|
      invariant repos == |Given(items[..i])| && signals == Count(HasSignal, Given(items[..i]))
      invariant precision == Sum(Clamped(PrecisionColumn), Given(items[..i]))
      invariant noise == Sum(Clamped(NoiseColumn), Given(items[..i]))
      invariant latency == Sum(Clamped(LatencyColumn), Given(items[..i]))
      invariant chunk == Sum(Clamped(ChunkColumn), Given(items[..i]))
      invariant notes == Sum(Clamped(NotesColumn), Given(items[..i]))
      invariant profile == Sum(Clamped(ProfileColumn), Given(items[..i]))
    {
      assert items[..i + 1][..i] == items[..i];
      ghost var before := Given(items[..i]);
      if items[i].None? {
        assert before + [] == before;
        continue;
      }
      var r := items[i].value;
      assert Given(items[..i + 1]) == before + [r];
      assert (before + [r])[..|before|] == before;
      repos := repos + 1;
      precision := precision + NonNegative(r.precision);
      noise := noise + NonNegative(r.noise);
      latency := latency + NonNegative(r.latency);
      chunk := chunk + NonNegative(r.chunkHit);
      notes := notes + NonNegative(r.notesHit);
      profile := profile + NonNegative(r.profileSelected);
      if NonNegative(r.notesHit) > 0.0 || NonNegative(r.profileSelected) > 0.0 || NonNegative(r.captureTrigger) > 0.0 {
        signals := signals + 1;
      }
    }
    assert items[..|items|] == items;
  }

  method CollectMetrics(items: seq<Option<RepoMetrics>>) returns (s: Snapshot)
    ensures s == Collect(items)
  {
    var repos, precision, noise, latency, chunk, notes, profile, signals := CollectValues(items);
    var n := if repos == 0 then 1.0 else repos as real;
    s := Snapshot(map[PrecisionAtK := precision / n, NoiseRate := noise / n, LatencyP95 := latency / n,
                      ChunkHitAtK := chunk / n, MemoryRecallRate := notes / n, ProfileUtilization := profile / n],
                  |items|, if items == [] then 0.0 else signals as real / |items| as real);
  }

  lemma {:induction false} ClampedSum(column: Column, repos: seq<RepoMetrics>)
    ensures Sum(Clamped(column), repos) >= 0.0
  {
    if repos != [] {
      ClampedSum(column, repos[..|repos| - 1]);
    }
  }

  lemma QuotientSign(x: real, y: real)
    requires x >= 0.0 && y > 0.0
    ensures x / y >= 0.0
  {
  }

  /** Collected values are never negative. */
  lemma CollectedNonNegative(items: seq<Option<RepoMetrics>>, m: Metric)
    ensures m in Collect(items).values ==> Collect(items).values[m] >= 0.0
  {
    var repos := Given(items);
    forall column ensures Mean(Clamped(column), repos) >= 0.0 {
      ClampedSum(column, repos);
      if repos != [] {
        QuotientSign(Sum(Clamped(column), repos), |repos| as real);
      }
    }
    hide Mean, Coverage, Given;
  }

  lemma {:induction false} CountPositive(repos: seq<RepoMetrics>)
    ensures Count(HasSignal, repos) > 0 <==> exists r :: r in repos && HasSignal(r)
  {
    if repos != [] {
      var init, last := repos[..|repos| - 1], repos[|repos| - 1];
      CountPositive(init);
      assert repos == init + [last];
      assert last in repos;
    }
  }

  lemma {:induction false} GivenMember(items: seq<Option<RepoMetrics>>, r: RepoMetrics)
    ensures r in Given(items) <==> Some(r) in items
    ensures |Given(items)| <= |items|
  {
    if items != [] {
      GivenMember(items[..|items| - 1], r);
      assert items == items[..|items| - 1] + [items[|items| - 1]];
    }
  }

  ghost predicate AnySignal(items: seq<Option<RepoMetrics>>) {
    exists r :: Some(r) in items && HasSignal(r)
  }

  lemma QuotientPositive(x: nat, y: nat)
    requires y > 0
    ensures (x as real / y as real > 0.0) == (x > 0)
    ensures x <= y ==> x as real / y as real <= 1.0
  {
    assert y as real / y as real == 1.0;
  }

  /** The coverage is a share, and positive exactly when some repo shows a memory signal. */
  lemma CoverageMeaning(items: seq<Option<RepoMetrics>>)
    ensures 0.0 <= Coverage(items) <= 1.0
    ensures Coverage(items) > 0.0 <==> AnySignal(items)
  {
    var repos := Given(items);
    CountPositive(repos);
    forall r ensures r in repos <==> Some(r) in items {
      GivenMember(items, r);
    }
    if items != [] {
      GivenMember(items, RepoMetrics(0.0, 0.0, 0.0, 0.0, 0.0, 0.0, 0.0));
      QuotientPositive(Count(HasSignal, repos), |items|);
    }
  }

  // ----- the regression check -----

  predicate IsActive(m: Metric, current: Snapshot, previous: Snapshot, enforceMemory: bool) {
    !RequiresMemorySignal(m) || enforceMemory || current.memoryCoverage > 0.0 || previous.memoryCoverage > 0.0
  }

  /** Memory metrics are compared exactly when enforced, or when either side shows a memory signal. */
  lemma MemoryActiveExactly(
    m: Metric, current: seq<Option<RepoMetrics>>, previous: seq<Option<RepoMetrics>>, enforceMemory: bool)
    requires RequiresMemorySignal(m)
    ensures IsActive(m, Collect(current), Collect(previous), enforceMemory)
            <==> enforceMemory || AnySignal(current) || AnySignal(previous)
  {
    CoverageMeaning(current);
    CoverageMeaning(previous);
  }

  datatype Regression = Regression(metric: Metric, trend: Trend, previous: real, current: real, threshold: real)

  datatype Check = Check(current: Snapshot, previous: Snapshot, ratio: real, enforceMemory: bool)

  function Floor(previous: real, ratio: real): real {
    previous * (1.0 - ratio)
  }

  function Ceiling(previous: real, ratio: real): real {
    previous * (1.0 + ratio)
  }

  function RegressionsOf(c: Check): Tracked -> seq<Regression> {
    (t: Tracked) =>
      if t.metric !in c.current.values || t.metric !in c.previous.values
         || !IsActive(t.metric, c.current, c.previous, c.enforceMemory) then []
      else
        var curr, prev := c.current.values[t.metric], c.previous.values[t.metric];
        if t.trend == Up && curr < Floor(prev, c.ratio) then
          [Regression(t.metric, Up, prev, curr, Floor(prev, c.ratio))]
        else if t.trend == Down && curr > Ceiling(prev, c.ratio) then
          [Regression(t.metric, Down, prev, curr, Ceiling(prev, c.ratio))]
        else []
  }

  /** What the check is run with: a negative tolerance counts as zero. */
  function CheckOf(current: Snapshot, previous: Snapshot, tolerance: real, enforceMemory: bool): Check {
    Check(current, previous, NonNegative(tolerance), enforceMemory)
  }

  method CheckRegressions(
    current: Snapshot, previous: Snapshot, tolerance: real, enforceMemory: bool, metricsToTrack: seq<Tracked>)
    returns (regressions: seq<Regression>)
    ensures regressions == FlatMap(RegressionsOf(CheckOf(current, previous, tolerance, enforceMemory)),
                                   if metricsToTrack == [] then METRICS_TO_TRACK else metricsToTrack)
  {
    var tracked := if metricsToTrack == [] then METRICS_TO_TRACK else metricsToTrack;
    regressions := FindRegressions(CheckOf(current, previous, tolerance, enforceMemory), tracked);
  }

  method FindRegressions(c: Check, tracked: seq<Tracked>) returns (regressions: seq<Regression>)
    ensures regressions == FlatMap(RegressionsOf(c), tracked)
  {
    hide IsActive;
    regressions := [];
    for i := 0 to |tracked|
      invariant regressions == FlatMap(RegressionsOf(c), tracked[..i])
    {
      assert tracked[..i + 1][..i] == tracked[..i];
      assert regressions + [] == regressions;
      var Tracked(metric, trend) := tracked[i];
      if metric !in c.current.values || metric !in c.previous.values {
        continue;
      }
      if !IsActive(metric, c.current, c.previous, c.enforceMemory) {
        continue;
      }
      var curr, prev := c.current.values[metric], c.previous.values[metric];
      if trend == Up {
        var floor := Floor(prev, c.ratio);
        if curr < floor {
          regressions := regressions + [Regression(metric, Up, prev, curr, floor)];
        }
      } else if trend == Down {
        var ceiling := Ceiling(prev, c.ratio);
        if curr > ceiling {
          regressions := regressions + [Regression(metric, Down, prev, curr, ceiling)];
        }
      }
    }
    assert tracked[..|tracked|] == tracked;
  }

  ghost predicate Reported(c: Check, tracked: seq<Tracked>, m: Metric) {
    exists r :: r in FlatMap(RegressionsOf(c), tracked) && r.metric == m
  }

  lemma {:induction false} ReportedSomewhere(c: Check, tracked: seq<Tracked>, m: Metric)
    ensures Reported(c, tracked, m) <==> exists t :: t in tracked && t.metric == m && RegressionsOf(c)(t) != []
  {
    if tracked != [] {
      var init, last := tracked[..|tracked| - 1], tracked[|tracked| - 1];
      ReportedSomewhere(c, init, m);
      assert tracked == init + [last];
      assert last in tracked;
      var found := RegressionsOf(c)(last);
      assert FlatMap(RegressionsOf(c), tracked) == FlatMap(RegressionsOf(c), init) + found;
      if found != [] {
        assert found[0].metric == last.metric && found[0] in found;
      }
      if Reported(c, tracked, m) {
        var r :| r in FlatMap(RegressionsOf(c), tracked) && r.metric == m;
        if r in FlatMap(RegressionsOf(c), init) {
          assert Reported(c, init, m);
        }
      }
      if Reported(c, init, m) {
        var r :| r in FlatMap(RegressionsOf(c), init) && r.metric == m;
        assert r in FlatMap(RegressionsOf(c), tracked);
      }
    }
  }

  // ----- drift over a chain of checks -----

  function Pow(b: real, n: nat): real {
    if n == 0 then 1.0 else b * Pow(b, n - 1)
  }

  /** An active metric, tracked with this trend, passes every check along a chain of snapshots. */
  ghost predicate PassesChain(
    chain: seq<Snapshot>, tolerance: real, enforceMemory: bool, tracked: seq<Tracked>, m: Metric, trend: Trend)
  {
    && Tracked(m, trend) in tracked
    && (forall i :: 0 <= i < |chain| ==> m in chain[i].values)
    && forall i :: 0 < i < |chain| ==>
         && IsActive(m, chain[i], chain[i - 1], enforceMemory)
         && !Reported(CheckOf(chain[i], chain[i - 1], tolerance, enforceMemory), tracked, m)
  }

  lemma StepWithin(
    chain: seq<Snapshot>, tolerance: real, enforceMemory: bool, tracked: seq<Tracked>, m: Metric, trend: Trend, i: nat)
    requires PassesChain(chain, tolerance, enforceMemory, tracked, m, trend) && 0 < i < |chain|
    ensures trend == Up ==> chain[i].values[m] >= Floor(chain[i - 1].values[m], NonNegative(tolerance))
    ensures trend == Down ==> chain[i].values[m] <= Ceiling(chain[i - 1].values[m], NonNegative(tolerance))
  {
    var c := CheckOf(chain[i], chain[i - 1], tolerance, enforceMemory);
    ReportedSomewhere(c, tracked, m);
    assert RegressionsOf(c)(Tracked(m, trend)) == [];
  }

  lemma ScaleUp(x: real, y: real, f: real)
    requires x >= y && f >= 0.0
    ensures x * f >= y * f
  {
  }

  lemma PowStep(v: real, f: real, n: nat)
    ensures v * Pow(f, n) * f == v * Pow(f, n + 1)
  {
    assert Pow(f, n + 1) == f * Pow(f, n);
  }

  /** Passing n checks in a row keeps an upward metric at or above v0 (1 - r)^n. */
  lemma {:induction false} UpDrift(
    chain: seq<Snapshot>, tolerance: real, enforceMemory: bool, tracked: seq<Tracked>, m: Metric, n: nat)
    requires PassesChain(chain, tolerance, enforceMemory, tracked, m, Up) && n < |chain|
    requires tolerance <= 1.0
    ensures chain[n].values[m] >= chain[0].values[m] * Pow(1.0 - NonNegative(tolerance), n)
    decreases n
  {
    var f := 1.0 - NonNegative(tolerance);
    if n > 0 {
      UpDrift(chain, tolerance, enforceMemory, tracked, m, n - 1);
      StepWithin(chain, tolerance, enforceMemory, tracked, m, Up, n);
      var v0, before := chain[0].values[m], chain[n - 1].values[m];
      ScaleUp(before, v0 * Pow(f, n - 1), f);
      PowStep(v0, f, n - 1);
    }
  }

  /** Passing n checks in a row keeps a downward metric at or below v0 (1 + r)^n. */
  lemma {:induction false} DownDrift(
    chain: seq<Snapshot>, tolerance: real, enforceMemory: bool, tracked: seq<Tracked>, m: Metric, n: nat)
    requires PassesChain(chain, tolerance, enforceMemory, tracked, m, Down) && n < |chain|
    ensures chain[n].values[m] <= chain[0].values[m] * Pow(1.0 + NonNegative(tolerance), n)
    decreases n
  {
    var f := 1.0 + NonNegative(tolerance);
    if n > 0 {
      DownDrift(chain, tolerance, enforceMemory, tracked, m, n - 1);
      StepWithin(chain, tolerance, enforceMemory, tracked, m, Down, n);
      var v0, before := chain[0].values[m], chain[n - 1].values[m];
      ScaleUp(v0 * Pow(f, n - 1), before, f);
      PowStep(v0, f, n - 1);
    }
  }

  // ----- the bounds are sharp, and where they end -----

  /** A chain that loses exactly the tolerance every time. */
  function Sliding(m: Metric, v0: real, factor: real, length: nat): seq<Snapshot> {
    seq(length, i => Snapshot(map[m := v0 * Pow(factor, if i < 0 then 0 else i)], 1, 1.0))
  }

  lemma SlidingStep(m: Metric, v0: real, tolerance: real, length: nat, i: nat)
    requires tolerance >= 0.0 && 0 < i < length
    ensures var chain := Sliding(m, v0, 1.0 - tolerance, length);
            RegressionsOf(CheckOf(chain[i], chain[i - 1], tolerance, false))(Tracked(m, Up)) == []
  {
    PowStep(v0, 1.0 - tolerance, i - 1);
    hide Pow, IsActive;
  }

  /** The upward bound is attained: the sliding chain passes every check. */
  lemma UpDriftAttained(m: Metric, v0: real, tolerance: real, length: nat)
    requires tolerance >= 0.0
    ensures PassesChain(Sliding(m, v0, 1.0 - tolerance, length), tolerance, false, [Tracked(m, Up)], m, Up)
  {
    var chain, tracked := Sliding(m, v0, 1.0 - tolerance, length), [Tracked(m, Up)];
    assert Tracked(m, Up) in tracked;
    forall i | 0 < i < |chain| ensures !Reported(CheckOf(chain[i], chain[i - 1], tolerance, false), tracked, m) {
      SlidingStep(m, v0, tolerance, length, i);
      hide Pow, Reported, RegressionsOf;
      ReportedSomewhere(CheckOf(chain[i], chain[i - 1], tolerance, false), tracked, m);
    }
  }

  ghost predicate UpBound(chain: seq<Snapshot>, tolerance: real, m: Metric, n: nat)
    requires n < |chain| && m in chain[n].values && m in chain[0].values
  {
    chain[n].values[m] >= chain[0].values[m] * Pow(1.0 - NonNegative(tolerance), n)
  }

  /** The failing case for every tolerance above one: the value drops to zero and stays there. */
  function Dropped(m: Metric): seq<Snapshot> {
    [Snapshot(map[m := 1.0], 1, 1.0), Snapshot(map[m := 0.0], 1, 1.0), Snapshot(map[m := 0.0], 1, 1.0)]
  }

  lemma DroppedPasses(tolerance: real, m: Metric)
    requires tolerance > 1.0
    ensures PassesChain(Dropped(m), tolerance, false, [Tracked(m, Up)], m, Up)
  {
    var chain, tracked := Dropped(m), [Tracked(m, Up)];
    assert Tracked(m, Up) in tracked;
    forall i | 0 < i < |chain| ensures !Reported(CheckOf(chain[i], chain[i - 1], tolerance, false), tracked, m) {
      var c := CheckOf(chain[i], chain[i - 1], tolerance, false);
      ReportedSomewhere(c, tracked, m);
      assert chain[i].values[m] == 0.0 && (chain[i - 1].values[m] == 0.0 || chain[i - 1].values[m] == 1.0);
      assert RegressionsOf(c)(Tracked(m, Up)) == [];
    }
  }

  lemma DroppedExceeds(tolerance: real, m: Metric)
    requires tolerance > 1.0
    ensures !UpBound(Dropped(m), tolerance, m, 2)
  {
    var f := 1.0 - tolerance;
    SquarePositive(f);
    assert Pow(f, 1) == f * Pow(f, 0);
    assert Pow(f, 2) == f * Pow(f, 1);
  }

  lemma SquarePositive(f: real)
    requires f < 0.0
    ensures f * f > 0.0
  {
  }

  /** The upward bound holds on all chains exactly for tolerances up to one. */
  lemma UpDriftExactly(tolerance: real, m: Metric)
    ensures tolerance <= 1.0 <==>
            forall chain: seq<Snapshot>, n: nat ::
              n < |chain| && PassesChain(chain, tolerance, false, [Tracked(m, Up)], m, Up) ==>
                  UpBound(chain, tolerance, m, n)
  {
    if tolerance <= 1.0 {
      forall chain: seq<Snapshot>, n: nat | n < |chain| && PassesChain(chain, tolerance, false, [Tracked(m, Up)], m, Up)
        ensures UpBound(chain, tolerance, m, n)
      {
        UpDrift(chain, tolerance, false, [Tracked(m, Up)], m, n);
      }
    } else {
      DroppedPasses(tolerance, m);
      DroppedExceeds(tolerance, m);
      assert |Dropped(m)| == 3;
    }
  }

  /** Beyond a tolerance of one the upward check is void on non-negative values: nothing is ever
      reported. */
  lemma VoidAboveOne(current: Snapshot, previous: Snapshot, tolerance: real, enforceMemory: bool, m: Metric)
    requires tolerance >= 1.0
    requires m in current.values && current.values[m] >= 0.0
    requires m in previous.values && previous.values[m] >= 0.0
    ensures RegressionsOf(CheckOf(current, previous, tolerance, enforceMemory))(Tracked(m, Up)) == []
  {
    ScaleUp(previous.values[m], 0.0, tolerance - 1.0);
    assert Floor(previous.values[m], tolerance) == -(previous.values[m] * (tolerance - 1.0));
  }

  // ----- in terms of the reported numbers -----

  lemma GivenGrows(items: seq<Option<RepoMetrics>>, item: Option<RepoMetrics>)
    ensures Given([]) == []
    ensures Given(items + [item]) == Given(items) + (if item.Some? then [item.value] else [])
  {
    assert (items + [item])[..|items|] == items;
  }

  /** The readings of one metric: what a repo reports, negative numbers read as zero. */
  ghost predicate Readings(f: RepoMetrics -> real, raw: RepoMetrics -> real) {
    forall r: RepoMetrics :: f(r) == if raw(r) < 0.0 then 0.0 else raw(r)
  }

  ghost predicate Collects(items: seq<Option<RepoMetrics>>, m: Metric, raw: RepoMetrics -> real) {
    m in Collect(items).values
    && forall f: RepoMetrics -> real :: Readings(f, raw) ==> Averages(Collect(items).values[m], f, Given(items))
  }

  lemma ColumnCollected(items: seq<Option<RepoMetrics>>, column: Column, raw: RepoMetrics -> real, value: real)
    requires value == Mean(Clamped(column), Given(items))
    requires forall r: RepoMetrics :: raw(r) == Field(column, r)
    ensures forall f: RepoMetrics -> real :: Readings(f, raw) ==> Averages(value, f, Given(items))
  {
    hide Averages, Mean, Given;
    forall f: RepoMetrics -> real | Readings(f, raw) ensures Averages(value, f, Given(items)) {
      forall r ensures Clamped(column)(r) == f(r) {
        assert Clamped(column)(r) == if raw(r) < 0.0 then 0.0 else raw(r);
      }
      MeanIs(Clamped(column), f, Given(items));
    }
  }

  /** Each collected value is the mean of its own number over the readable repos. */
  lemma CollectMeaning(
    items: seq<Option<RepoMetrics>>, precision: RepoMetrics -> real, noise: RepoMetrics -> real,
    latency: RepoMetrics -> real, chunk: RepoMetrics -> real, notes: RepoMetrics -> real, profile: RepoMetrics -> real)
    requires forall r: RepoMetrics :: precision(r) == r.precision && noise(r) == r.noise && latency(r) == r.latency
    requires forall r: RepoMetrics :: chunk(r) == r.chunkHit && notes(r) == r.notesHit
    requires forall r: RepoMetrics :: profile(r) == r.profileSelected
    ensures Collects(items, PrecisionAtK, precision) && Collects(items, NoiseRate, noise)
    ensures Collects(items, LatencyP95, latency) && Collects(items, ChunkHitAtK, chunk)
    ensures Collects(items, MemoryRecallRate, notes) && Collects(items, ProfileUtilization, profile)
    ensures Collect(items).values.Keys
         == {PrecisionAtK, NoiseRate, LatencyP95, ChunkHitAtK, MemoryRecallRate, ProfileUtilization}
    ensures Collect(items).repoCount == |items|
  {
    var values := Collect(items).values;
    assert values[PrecisionAtK] == Mean(Clamped(PrecisionColumn), Given(items));
    assert values[NoiseRate] == Mean(Clamped(NoiseColumn), Given(items));
    assert values[LatencyP95] == Mean(Clamped(LatencyColumn), Given(items));
    assert values[ChunkHitAtK] == Mean(Clamped(ChunkColumn), Given(items));
    assert values[MemoryRecallRate] == Mean(Clamped(NotesColumn), Given(items));
    assert values[ProfileUtilization] == Mean(Clamped(ProfileColumn), Given(items));
    hide Clamped, Mean, Given, Averages, Readings;
    ColumnCollected(items, PrecisionColumn, precision, values[PrecisionAtK]);
    ColumnCollected(items, NoiseColumn, noise, values[NoiseRate]);
    ColumnCollected(items, LatencyColumn, latency, values[LatencyP95]);
    ColumnCollected(items, ChunkColumn, chunk, values[ChunkHitAtK]);
    ColumnCollected(items, NotesColumn, notes, values[MemoryRecallRate]);
    ColumnCollected(items, ProfileColumn, profile, values[ProfileUtilization]);
  }

  function ShowsMemory(r: RepoMetrics): bool {
    r.notesHit > 0.0 || r.profileSelected > 0.0 || r.captureTrigger > 0.0
  }

  /** x is the share that the part has of the whole; nothing has no share of nothing. */
  ghost predicate IsShare(x: real, part: int, whole: int) {
    if whole == 0 then x == 0.0 else x * whole as real == part as real
  }

  lemma QuotientShare(part: int, whole: int)
    requires whole > 0
    ensures IsShare(part as real / whole as real, part, whole)
  {
  }

  lemma CoverageShare(items: seq<Option<RepoMetrics>>)
    ensures IsShare(Coverage(items), Count(HasSignal, Given(items)), |items|)
  {
    hide Count, Given, IsShare;
    if items != [] {
      QuotientShare(Count(HasSignal, Given(items)), |items|);
    } else {
      NoShare(Count(HasSignal, Given(items)));
    }
  }

  lemma NoShare(part: int)
    ensures IsShare(0.0, part, 0)
  {
  }

  /** The coverage is the share of all listed repos that show a memory signal. */
  lemma CoverageIs(items: seq<Option<RepoMetrics>>)
    ensures IsShare(Collect(items).memoryCoverage, Count(ShowsMemory, Given(items)), |items|)
  {
    assert Collect(items).memoryCoverage == Coverage(items);
    hide Collect, Coverage, Given, IsShare;
    CountCongruent(HasSignal, ShowsMemory, Given(items));
    CoverageShare(items);
  }

  /** The metric is compared: both sides have it, and memory metrics also need to be enforced or to
      show a signal on one side. */
  ghost predicate Compared(m: Metric, current: Snapshot, previous: Snapshot, enforceMemory: bool) {
    && m in current.values && m in previous.values
    && (m in {MemoryRecallRate, ProfileUtilization} ==>
          enforceMemory || current.memoryCoverage > 0.0 || previous.memoryCoverage > 0.0)
  }

  /** A regression is reported for a tracked metric exactly when it is compared and either should go
      up and fell below its previous value times 1 - r, or should go down and rose above its
      previous value times 1 + r, where a negative tolerance r counts as zero. */
  lemma RegressionsExactly(
    current: Snapshot, previous: Snapshot, tolerance: real, enforceMemory: bool, tracked: seq<Tracked>, x: Regression)
    ensures x in FlatMap(RegressionsOf(CheckOf(current, previous, tolerance, enforceMemory)), tracked) <==>
            var r := if tolerance < 0.0 then 0.0 else tolerance;
            && Tracked(x.metric, x.trend) in tracked && Compared(x.metric, current, previous, enforceMemory)
            && x.current == current.values[x.metric] && x.previous == previous.values[x.metric]
            && (x.trend == Up ==> x.threshold == x.previous * (1.0 - r) && x.current < x.threshold)
            && (x.trend == Down ==> x.threshold == x.previous * (1.0 + r) && x.current > x.threshold)
            && x.trend != NoTrend
  {
    var c := CheckOf(current, previous, tolerance, enforceMemory);
    forall t | x in RegressionsOf(c)(t) ensures t == Tracked(x.metric, x.trend) {
      RegressionTracked(c, t, x);
    }
    hide RegressionsOf, Compared, FlatMap;
    FlatMapMember(RegressionsOf(c), tracked, x);
    RegressionFrom(c, Tracked(x.metric, x.trend), x);
  }

  lemma RegressionTracked(c: Check, t: Tracked, x: Regression)
    requires x in RegressionsOf(c)(t)
    ensures t == Tracked(x.metric, x.trend)
  {
    hide IsActive, Floor, Ceiling;
  }

  lemma RegressionFrom(c: Check, t: Tracked, x: Regression)
    requires t == Tracked(x.metric, x.trend)
    ensures x in RegressionsOf(c)(t) <==>
            && Compared(x.metric, c.current, c.previous, c.enforceMemory)
            && x.current == c.current.values[x.metric] && x.previous == c.previous.values[x.metric]
            && (x.trend == Up ==> x.threshold == x.previous * (1.0 - c.ratio) && x.current < x.threshold)
            && (x.trend == Down ==> x.threshold == x.previous * (1.0 + c.ratio) && x.current > x.threshold)
            && x.trend != NoTrend
  {
    assert IsActive(t.metric, c.current, c.previous, c.enforceMemory) <==>
           (t.metric in {MemoryRecallRate, ProfileUtilization} ==>
              c.enforceMemory || c.current.memoryCoverage > 0.0 || c.previous.memoryCoverage > 0.0);
    hide IsActive;
    if Compared(x.metric, c.current, c.previous, c.enforceMemory) {
      var (curr, prev) := (c.current.values[t.metric], c.previous.values[t.metric]);
      var (floor, ceiling) := (Floor(prev, c.ratio), Ceiling(prev, c.ratio));
      var (up, down) := (Regression(t.metric, Up, prev, curr, floor), Regression(t.metric, Down, prev, curr, ceiling));
      assert RegressionsOf(c)(t) == if t.trend == Up && curr < floor then [up]
                                    else if t.trend == Down && curr > ceiling then [down] else [];
      hide RegressionsOf;
      OnlyMember(x, up);
      OnlyMember(x, down);
    } else {
      assert RegressionsOf(c)(t) == [];
    }
  }

  lemma OnlyMember(x: Regression, y: Regression)
    ensures x in [y] <==> x.metric == y.metric && x.trend == y.trend && x.previous == y.previous
                          && x.current == y.current && x.threshold == y.threshold
  {
  }

  /** When no list is given, precision, chunk hits and the two memory metrics should go up, noise
      and latency should go down, and nothing else is tracked. */
  lemma DefaultTracked(t: Tracked)
    ensures t in METRICS_TO_TRACK <==>
            (t.trend == Up && t.metric in {PrecisionAtK, ChunkHitAtK, MemoryRecallRate, ProfileUtilization})
            || (t.trend == Down && t.metric in {NoiseRate, LatencyP95})
  {
    assert METRICS_TO_TRACK[0] == Tracked(PrecisionAtK, Up) && METRICS_TO_TRACK[1] == Tracked(NoiseRate, Down);
    assert METRICS_TO_TRACK[2] == Tracked(LatencyP95, Down) && METRICS_TO_TRACK[3] == Tracked(ChunkHitAtK, Up);
    assert METRICS_TO_TRACK[4] == Tracked(MemoryRecallRate, Up);
    assert METRICS_TO_TRACK[5] == Tracked(ProfileUtilization, Up);
  }
}
