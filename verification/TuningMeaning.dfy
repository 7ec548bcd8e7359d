/** The tuning search in terms of its choice lists, the measurements and the random coin. */
module TuningMeaning {
  import opened Prelude
  import opened Sequences
  import opened Ordering
  import opened Text
  import opened TuningMoves
  import opened TuningRun

  // ----- the parsers -----

  function IsOneOf(allowed: seq<string>): string -> bool {
    (s: string) => s in allowed
  }

  function Cleaned(item: string): string {
    Lower(Strip(item))
  }

  /** A parsed list holds the allowed items of the comma-separated list, trimmed and in lower case,
      once each in the order of first occurrence; when there is none it is the default list. */
  lemma ParsedNamesExactly(raw: string, allowed: seq<string>, defaults: seq<string>)
    ensures var (names, items) := (ParsedNames(raw, allowed, defaults), SplitBy(IsComma, raw));
            if exists item :: item in items && Lower(Strip(item)) in allowed
            then Keeps(Cleaned, IsOneOf(allowed), names, items) else names == defaults
  {
    var items := SplitBy(IsComma, raw);
    var cleaned := Map(CleanLower, items);
    DedupKeeps(CleanLower, Allowed(allowed), items);
    var kept := Dedup(Filter(Allowed(allowed), cleaned));
    KeepsCongruent(CleanLower, Cleaned, Allowed(allowed), IsOneOf(allowed), kept, items);
    FilterEmpty(Allowed(allowed), cleaned);
    DedupMeaning(Filter(Allowed(allowed), cleaned));
    hide Lower, Strip, SplitBy, Filter, Dedup, Keeps;
    if item :| item in items && Lower(Strip(item)) in allowed {
      MapMember(CleanLower, items, CleanLower(item));
      var found := Filter(Allowed(allowed), cleaned);
      assert found != [] && found[0] in found;
      assert found[0] in Dedup(found);
    } else {
      forall x | x in cleaned ensures !Allowed(allowed)(x) {
        MapMember(CleanLower, items, x);
      }
      NoneKept(Filter(Allowed(allowed), cleaned));
    }
  }

  lemma NoneKept(names: seq<string>)
    requires names == []
    ensures Dedup(names) == []
  {
  }

  /** What an item of the list of constants reads as: an integer raised to at least one, or nothing. */
  function ReadsTo(parse: string -> Option<int>): string -> seq<int> {
    (item: string) =>
      if Strip(item) != "" && parse(Strip(item)).Some? then
        [if parse(Strip(item)).value < 1 then 1 else parse(Strip(item)).value]
      else []
  }

  function Single(k: int): seq<int> {
    [k]
  }

  predicate IsRead(ks: seq<int>) {
    ks != []
  }

  lemma SinglesStep(parse: string -> Option<int>, init: seq<string>, last: string)
    ensures var (kept, all) := (Dedup(FlatMap(ReadK(parse), init)), Dedup(FlatMap(ReadK(parse), init + [last])));
            Map(Single, all) == (if ReadK(parse)(last) == [] || ReadK(parse)(last) in Map(Single, kept)
                                 then Map(Single, kept) else Map(Single, kept) + [ReadK(parse)(last)])
  {
    var kept := Dedup(FlatMap(ReadK(parse), init));
    ReadStep(parse, init, last);
    hide Dedup, FlatMap, Strip;
    if ReadK(parse)(last) != [] {
      var k := ReadK(parse)(last)[0];
      assert Single(k) == ReadK(parse)(last);
      MapMember(Single, kept, Single(k));
      if exists x :: x in kept && Single(x) == Single(k) {
        var x :| x in kept && Single(x) == Single(k);
        assert [x][0] == [k][0];
      }
      assert Map(Single, kept + [k]) == Map(Single, kept) + [[k]];
    }
  }

  lemma {:induction false} SinglesKept(parse: string -> Option<int>, items: seq<string>)
    ensures Map(Single, Dedup(FlatMap(ReadK(parse), items))) == Dedup(Filter(IsRead, Map(ReadK(parse), items)))
  {
    if items != [] {
      var init, last := items[..|items| - 1], items[|items| - 1];
      assert items == init + [last];
      SinglesKept(parse, init);
      SinglesStep(parse, init, last);
      DedupSnoc(ReadK(parse), IsRead, init, last);
      hide Dedup, FlatMap, Filter, Map, ReadK;
    }
  }

  lemma ReadsSame(parse: string -> Option<int>, item: string)
    ensures ReadK(parse)(item) == ReadsTo(parse)(item)
  {
    hide Strip;
    if Strip(item) != "" && parse(Strip(item)).Some? {
      var v := parse(Strip(item)).value;
      assert ReadK(parse)(item) == [Max(1, v)] && ReadsTo(parse)(item) == [if v < 1 then 1 else v];
      assert Max(1, v) == if v < 1 then 1 else v;
    } else {
      assert ReadK(parse)(item) == [] && ReadsTo(parse)(item) == [];
    }
  }

  lemma AnyRead(parse: string -> Option<int>, items: seq<string>)
    ensures Dedup(FlatMap(ReadK(parse), items)) != [] <==> exists item :: item in items && ReadsTo(parse)(item) != []
  {
    var all := FlatMap(ReadK(parse), items);
    DedupMeaning(all);
    hide Dedup, ReadK, ReadsTo, FlatMap;
    if item :| item in items && ReadsTo(parse)(item) != [] {
      ReadsSame(parse, item);
      FlatMapMember(ReadK(parse), items, ReadsTo(parse)(item)[0]);
      assert ReadsTo(parse)(item)[0] in Dedup(all);
    }
    if Dedup(all) != [] {
      var k := Dedup(all)[0];
      assert k in Dedup(all);
      FlatMapMember(ReadK(parse), items, k);
      var item :| item in items && k in ReadK(parse)(item);
      ReadsSame(parse, item);
    }
  }

  /** The parsed constants are those that the items of the list read as, once each in the order of
      first occurrence, or the default list when no item can be read. */
  lemma ParsedKsExactly(raw: string, parse: string -> Option<int>)
    ensures var (ks, items) := (ParsedKs(raw, parse), SplitBy(IsComma, raw));
            if exists item :: item in items && ReadsTo(parse)(item) != []
            then Keeps(ReadsTo(parse), IsRead, Map(Single, ks), items) else ks == [30, 45, 60, 75, 90]
  {
    var items := SplitBy(IsComma, raw);
    var kept := Dedup(FlatMap(ReadK(parse), items));
    assert ParsedKs(raw, parse) == if kept == [] then [30, 45, 60, 75, 90] else kept;
    hide Dedup, SplitBy, ReadK, ReadsTo, Keeps, FlatMap, Filter, Map, ParsedKs, RRF_KS;
    AnyRead(parse, items);
    SinglesKept(parse, items);
    DedupKeeps(ReadK(parse), IsRead, items);
    forall item ensures ReadK(parse)(item) == ReadsTo(parse)(item) {
      ReadsSame(parse, item);
    }
    KeepsCongruent(ReadK(parse), ReadsTo(parse), IsRead, IsRead, Map(Single, kept), items);
  }

  // ----- the moves -----

  /** Where a near move starts: at the first occurrence of the current value, or at the front. */
  ghost predicate StartsAt<T>(values: seq<T>, current: T, c: int) {
    0 <= c < |values| && if current in values then values[c] == current && current !in values[..c] else c == 0
  }

  /** x stands at most `radius` places from there. */
  ghost predicate Nearby<T(!new)>(values: seq<T>, current: T, radius: nat, x: T) {
    exists c, j :: StartsAt(values, current, c) && 0 <= j < |values| && values[j] == x && c - radius <= j <= c + radius
  }

  lemma WithinNearby<T(!new)>(values: seq<T>, current: T, radius: nat, x: T)
    requires values != [] && Within(values, current, radius, x)
    ensures Nearby(values, current, radius, x)
  {
    var c := IndexOrZero(values, current);
    assert StartsAt(values, current, c);
    var j :| 0 <= j < |values| && values[j] == x && c - radius <= j <= c + radius;
  }

  /** The given choices, or the one default when none is given. */
  ghost predicate Offers<T(!new)>(given: seq<T>, default_: T, list: seq<T>) {
    if given == [] then list == [default_] else list == given
  }

  /** Every parameter is one of its choices. */
  ghost predicate DrawnFrom(c: Choices, p: Params) {
    && p.topK in [2, 3, 4, 5, 6, 8] && p.minScore in [0, 1, 2, 3, 4]
    && p.relativeThreshold in [0.0, 0.2, 0.3, 0.35, 0.4, 0.45, 0.5, 0.55, 0.6]
    && (forall list :: Offers(c.rankers, "heuristic", list) ==> p.ranker in list)
    && (forall list :: Offers(c.fusionModes, "linear", list) ==> p.fusionMode in list)
    && (forall list :: Offers(c.rrfKs, 60, list) ==> p.rrfK in list)
    && (forall list :: Offers(c.weights, None, list) ==> p.weights in list)
    && (forall list :: Offers(c.policies, "auto", list) ==> p.policy in list)
  }

  lemma InSpaceDrawn(c: Choices, p: Params)
    requires InSpace(c, p)
    ensures DrawnFrom(c, p)
  {
    assert TOP_KS == [2, 3, 4, 5, 6, 8] && MIN_SCORES == [0, 1, 2, 3, 4];
    assert RELATIVE_THRESHOLDS == [0.0, 0.2, 0.3, 0.35, 0.4, 0.45, 0.5, 0.55, 0.6];
    hide TOP_KS, MIN_SCORES, RELATIVE_THRESHOLDS;
  }

  /** The three numeric parameters are within `radius` places of the best ones, the others within one. */
  ghost predicate MovedFrom(c: Choices, best: Params, radius: nat, p: Params) {
    && Nearby([2, 3, 4, 5, 6, 8], best.topK, radius, p.topK)
    && Nearby([0, 1, 2, 3, 4], best.minScore, radius, p.minScore)
    && Nearby([0.0, 0.2, 0.3, 0.35, 0.4, 0.45, 0.5, 0.55, 0.6], best.relativeThreshold, radius, p.relativeThreshold)
    && (forall list :: Offers(c.rankers, "heuristic", list) ==> Nearby(list, best.ranker, 1, p.ranker))
    && (forall list :: Offers(c.fusionModes, "linear", list) ==> Nearby(list, best.fusionMode, 1, p.fusionMode))
    && (forall list :: Offers(c.rrfKs, 60, list) ==> Nearby(list, best.rrfK, 1, p.rrfK))
    && (forall list :: Offers(c.weights, None, list) ==> Nearby(list, best.weights, 1, p.weights))
    && (forall list :: Offers(c.policies, "auto", list) ==> Nearby(list, best.policy, 1, p.policy))
  }

  lemma NearBestMoved(c: Choices, best: Params, radius: nat, p: Params)
    requires NearBest(c, best, radius, p)
    ensures MovedFrom(c, best, radius, p)
  {
    hide Within, Nearby, Rankers, FusionModes, RrfKs, WeightSets, Policies;
    NumbersMoved(best, radius, p);
    ListsOffered(c);
    WithinNearby(Rankers(c), best.ranker, 1, p.ranker);
    WithinNearby(FusionModes(c), best.fusionMode, 1, p.fusionMode);
    WithinNearby(RrfKs(c), best.rrfK, 1, p.rrfK);
    WithinNearby(WeightSets(c), best.weights, 1, p.weights);
    WithinNearby(Policies(c), best.policy, 1, p.policy);
    hide TOP_KS, MIN_SCORES, RELATIVE_THRESHOLDS;
  }

  lemma NumbersMoved(best: Params, radius: nat, p: Params)
    requires Within(TOP_KS, best.topK, radius, p.topK) && Within(MIN_SCORES, best.minScore, radius, p.minScore)
    requires Within(RELATIVE_THRESHOLDS, best.relativeThreshold, radius, p.relativeThreshold)
    ensures Nearby([2, 3, 4, 5, 6, 8], best.topK, radius, p.topK)
    ensures Nearby([0, 1, 2, 3, 4], best.minScore, radius, p.minScore)
    ensures Nearby([0.0, 0.2, 0.3, 0.35, 0.4, 0.45, 0.5, 0.55, 0.6],
                   best.relativeThreshold, radius, p.relativeThreshold)
  {
    hide Within, Nearby;
    WithinNearby(TOP_KS, best.topK, radius, p.topK);
    WithinNearby(MIN_SCORES, best.minScore, radius, p.minScore);
    WithinNearby(RELATIVE_THRESHOLDS, best.relativeThreshold, radius, p.relativeThreshold);
  }

  lemma ListsOffered(c: Choices)
    ensures Offers(c.rankers, "heuristic", Rankers(c)) && Offers(c.fusionModes, "linear", FusionModes(c))
    ensures Offers(c.rrfKs, 60, RrfKs(c)) && Offers(c.weights, None, WeightSets(c))
    ensures Offers(c.policies, "auto", Policies(c))
  {
  }

  // ----- what the draws can reach -----

  /** A random choice reaches every value of its list and nothing else. */
  lemma ChoiceReaches<T>(values: seq<T>, x: T) returns (draw: nat)
    requires x in values
    ensures Choice(values, draw) == x
  {
    var i :| 0 <= i < |values| && values[i] == x;
    draw := i;
    SmallMod(i, |values|);
  }

  function Pick8(a: nat, b: nat, c: nat, d: nat, e: nat, f: nat, g: nat, h: nat): nat -> nat {
    (i: nat) =>
      if i == 0 then a else if i == 1 then b else if i == 2 then c else if i == 3 then d
      else if i == 4 then e else if i == 5 then f else if i == 6 then g else h
  }

  /** The parameters that some draw makes at random are exactly those of the search space. */
  lemma RandomReachesExactly(c: Choices, coin: real, p: Params)
    ensures InSpace(c, p) <==> exists pick: nat -> nat :: RandomParams(c, Draws(coin, pick)) == p
  {
    hide InSpace;
    if InSpace(c, p) {
      var pick := RandomReaches(c, coin, p);
    }
    if pick: nat -> nat :| RandomParams(c, Draws(coin, pick)) == p {
      RandomInSpace(c, Draws(coin, pick));
    }
  }

  lemma RandomReaches(c: Choices, coin: real, p: Params) returns (pick: nat -> nat)
    requires InSpace(c, p)
    ensures RandomParams(c, Draws(coin, pick)) == p
  {
    hide Choice, Rankers, FusionModes, RrfKs, WeightSets, Policies, TOP_KS, MIN_SCORES, RELATIVE_THRESHOLDS;
    var d0 := ChoiceReaches(TOP_KS, p.topK);
    var d1 := ChoiceReaches(MIN_SCORES, p.minScore);
    var d2 := ChoiceReaches(RELATIVE_THRESHOLDS, p.relativeThreshold);
    var d3 := ChoiceReaches(Rankers(c), p.ranker);
    var d4 := ChoiceReaches(FusionModes(c), p.fusionMode);
    var d5 := ChoiceReaches(RrfKs(c), p.rrfK);
    var d6 := ChoiceReaches(WeightSets(c), p.weights);
    var d7 := ChoiceReaches(Policies(c), p.policy);
    pick := Pick8(d0, d1, d2, d3, d4, d5, d6, d7);
  }

  lemma NearReaches<T(!new)>(values: seq<T>, current: T, radius: nat, x: T) returns (draw: nat)
    requires values != [] && Within(values, current, radius, x)
    ensures ChoiceNear(values, current, radius, draw) == x
  {
    ChoiceNearExactly(values, current, radius, x);
    draw :| ChoiceNear(values, current, radius, draw) == x;
  }

  /** The parameters that some draw makes near the best ones are exactly those within the radii. */
  lemma NearReachesExactly(c: Choices, best: Params, radius: nat, coin: real, p: Params)
    ensures NearBest(c, best, radius, p) <==>
            exists pick: nat -> nat :: NearParams(c, best, radius, Draws(coin, pick)) == p
  {
    hide NearBest;
    if NearBest(c, best, radius, p) {
      var pick := MovesReach(c, best, radius, coin, p);
    }
    if pick: nat -> nat :| NearParams(c, best, radius, Draws(coin, pick)) == p {
      NearMoves(c, best, radius, Draws(coin, pick));
    }
  }

  lemma NumbersReach(best: Params, radius: nat, p: Params) returns (d0: nat, d1: nat, d2: nat)
    requires Within(TOP_KS, best.topK, radius, p.topK) && Within(MIN_SCORES, best.minScore, radius, p.minScore)
    requires Within(RELATIVE_THRESHOLDS, best.relativeThreshold, radius, p.relativeThreshold)
    ensures ChoiceNear(TOP_KS, best.topK, radius, d0) == p.topK
    ensures ChoiceNear(MIN_SCORES, best.minScore, radius, d1) == p.minScore
    ensures ChoiceNear(RELATIVE_THRESHOLDS, best.relativeThreshold, radius, d2) == p.relativeThreshold
  {
    hide ChoiceNear, Within;
    d0 := NearReaches(TOP_KS, best.topK, radius, p.topK);
    d1 := NearReaches(MIN_SCORES, best.minScore, radius, p.minScore);
    d2 := NearReaches(RELATIVE_THRESHOLDS, best.relativeThreshold, radius, p.relativeThreshold);
  }

  lemma ListsReach(c: Choices, best: Params, p: Params) returns (d3: nat, d4: nat, d5: nat, d6: nat, d7: nat)
    requires Within(Rankers(c), best.ranker, 1, p.ranker) && Within(FusionModes(c), best.fusionMode, 1, p.fusionMode)
    requires Within(RrfKs(c), best.rrfK, 1, p.rrfK) && Within(WeightSets(c), best.weights, 1, p.weights)
    requires Within(Policies(c), best.policy, 1, p.policy)
    ensures ChoiceNear(Rankers(c), best.ranker, 1, d3) == p.ranker
    ensures ChoiceNear(FusionModes(c), best.fusionMode, 1, d4) == p.fusionMode
    ensures ChoiceNear(RrfKs(c), best.rrfK, 1, d5) == p.rrfK
    ensures ChoiceNear(WeightSets(c), best.weights, 1, d6) == p.weights
    ensures ChoiceNear(Policies(c), best.policy, 1, d7) == p.policy
  {
    hide ChoiceNear, Within, Rankers, FusionModes, RrfKs, WeightSets, Policies;
    d3 := NearReaches(Rankers(c), best.ranker, 1, p.ranker);
    d4 := NearReaches(FusionModes(c), best.fusionMode, 1, p.fusionMode);
    d5 := NearReaches(RrfKs(c), best.rrfK, 1, p.rrfK);
    d6 := NearReaches(WeightSets(c), best.weights, 1, p.weights);
    d7 := NearReaches(Policies(c), best.policy, 1, p.policy);
  }

  lemma MovesReach(c: Choices, best: Params, radius: nat, coin: real, p: Params) returns (pick: nat -> nat)
    requires NearBest(c, best, radius, p)
    ensures NearParams(c, best, radius, Draws(coin, pick)) == p
  {
    hide ChoiceNear, Within, TOP_KS, MIN_SCORES, RELATIVE_THRESHOLDS, Rankers, FusionModes, RrfKs, WeightSets, Policies;
    var d0, d1, d2 := NumbersReach(best, radius, p);
    var d3, d4, d5, d6, d7 := ListsReach(c, best, p);
    hide NearBest;
    pick := Pick8(d0, d1, d2, d3, d4, d5, d6, d7);
  }

  // ----- one iteration -----

  /** An iteration before which `earlier` were made: it measures the parameters it uses, weighs the
      recall that is missing to the floor five times, and moves as its number, the coin and the last
      recall say, from the parameters of the earliest best iteration so far. */
  ghost predicate Iterates(earlier: seq<IterationResult>, r: IterationResult, s: Settings, env: Environment) {
    var i := |earlier| + 1;
    && r.iteration == i
    && r.metrics == env.measure(i, r.params)
    && r.objective == (if r.metrics.recall >= s.recallFloor then r.metrics.precision
                       else r.metrics.precision - 5.0 * (s.recallFloor - r.metrics.recall))
    && (if i == 1 then r.mode == Baseline && r.params == Params(8, 2, 0.0, "heuristic", "linear", 60, None, "auto")
        else DrawnFrom(s.choices, r.params) && ModeOf(earlier, r, s, env)
             && (r.mode == Relax ==> FromBest(earlier, 2, r, s)) && (r.mode == Exploit ==> FromBest(earlier, 1, r, s)))
  }

  ghost predicate ModeOf(earlier: seq<IterationResult>, r: IterationResult, s: Settings, env: Environment)
    requires earlier != []
  {
    var i := |earlier| + 1;
    if i % 10 == 0 then r.mode == Restart
    else if env.draws(i).coin < s.exploreRate then r.mode == Explore
    else if earlier[|earlier| - 1].metrics.recall < s.recallFloor then r.mode == Relax
    else r.mode == Exploit
  }

  ghost predicate FromBest(earlier: seq<IterationResult>, radius: nat, r: IterationResult, s: Settings) {
    exists k :: EarliestMaximum(earlier, k) && MovedFrom(s.choices, earlier[k].params, radius, r.params)
  }

  lemma {:induction false} LastMeasured(n: nat, s: Settings, env: Environment)
    requires n > 0
    ensures var st := RunState(n, s, env);
            |st.results| == n && st.lastMetrics == Some(st.results[n - 1].metrics)
  {
    hide PickNext, Objective;
    ResultsCount(n - 1, s, env);
  }

  lemma StepMeasures(st: State, s: Settings, env: Environment)
    ensures var (next, i) := (StepOf(st, s, env), |st.results|);
            && |next.results| == i + 1
            && next.results[i].iteration == i + 1
            && next.results[i].metrics == env.measure(i + 1, next.results[i].params)
            && next.results[i].objective == Objective(next.results[i].metrics, s.recallFloor)
  {
    hide PickNext, Objective;
  }

  lemma ObjectiveIs(m: RunMetrics, recallFloor: real)
    ensures Objective(m, recallFloor)
         == if m.recall >= recallFloor then m.precision else m.precision - 5.0 * (recallFloor - m.recall)
  {
  }

  lemma PickMeans(earlier: seq<IterationResult>, st: State, s: Settings, env: Environment, r: IterationResult)
    requires earlier == st.results && earlier != []
    requires st.lastMetrics == Some(earlier[|earlier| - 1].metrics)
    requires (r.mode, r.params) == PickNext(|earlier| + 1, s, st.bestParams, st.lastMetrics, env.draws(|earlier| + 1))
    ensures DrawnFrom(s.choices, r.params) && ModeOf(earlier, r, s, env)
    ensures r.mode == Relax ==> MovedFrom(s.choices, st.bestParams, 2, r.params)
    ensures r.mode == Exploit ==> MovedFrom(s.choices, st.bestParams, 1, r.params)
  {
    var i := |earlier| + 1;
    PickLegal(i, s, st.bestParams, st.lastMetrics, env.draws(i));
    hide InSpace, NearBest, RandomParams, NearParams, BaselineParams, DrawnFrom, MovedFrom;
    InSpaceDrawn(s.choices, r.params);
    if r.mode == Relax {
      NearBestMoved(s.choices, st.bestParams, 2, r.params);
    }
    if r.mode == Exploit {
      NearBestMoved(s.choices, st.bestParams, 1, r.params);
    }
  }

  lemma FirstPick(st: State, s: Settings, env: Environment)
    ensures PickNext(1, s, st.bestParams, st.lastMetrics, env.draws(1))
         == (Baseline, Params(8, 2, 0.0, "heuristic", "linear", 60, None, "auto"))
  {
  }

  ghost predicate KnowsBest(st: State) {
    st.results != [] ==>
      && st.lastMetrics == Some(st.results[|st.results| - 1].metrics)
      && exists k :: EarliestMaximum(st.results, k) && st.bestParams == st.results[k].params
  }

  lemma NextIterates(st: State, s: Settings, env: Environment)
    requires KnowsBest(st)
    ensures var next := StepOf(st, s, env);
            |next.results| == |st.results| + 1 && Iterates(st.results, next.results[|st.results|], s, env)
  {
    hide StepOf, PickNext, DrawnFrom, MovedFrom, ModeOf, Objective, EarliestMaximum;
    StepAppends(st, s, env);
    StepMeasures(st, s, env);
    var r := StepOf(st, s, env).results[|st.results|];
    ObjectiveIs(r.metrics, s.recallFloor);
    if st.results == [] {
      FirstPick(st, s, env);
    } else {
      PickMeans(st.results, st, s, env, r);
    }
  }

  /** Every iteration of every run is made like this from the ones before it. */
  lemma RunIterates(n: nat, i: nat, s: Settings, env: Environment)
    requires i < n
    ensures |RunState(n, s, env).results| == n
    ensures Iterates(RunState(n, s, env).results[..i], RunState(n, s, env).results[i], s, env)
  {
    hide StepOf, PickNext, Iterates, EarliestMaximum;
    ResultsGrow(i, n, s, env);
    ResultsGrow(i + 1, n, s, env);
    var all := RunState(n, s, env).results;
    assert all[i] == all[..i + 1][i];
    if i > 0 {
      LastMeasured(i, s, env);
      BestSoFar(i, s, env);
    }
    NextIterates(RunState(i, s, env), s, env);
  }

  lemma BestSoFar(n: nat, s: Settings, env: Environment)
    requires n > 0
    ensures var st := RunState(n, s, env);
            exists k :: EarliestMaximum(st.results, k) && st.bestParams == st.results[k].params
  {
    RunKeepsBest(n, s, env);
    var st := RunState(n, s, env);
    hide RunState;
    var k :| KeptAt(st, k);
    assert EarliestMaximum(st.results, k);
  }

  // ----- the policy summary -----

  /** The summary has one row for every policy used, sorted; it counts the iterations that used
      the policy, averages their objectives, recalls, precisions and noises, each under its name,
      and gives their highest objective. */
  lemma PolicyRowMeaning(
    results: seq<IterationResult>, i: nat, used: IterationResult -> bool, objective: IterationResult -> real,
    recall: IterationResult -> real, precision: IterationResult -> real, noise: IterationResult -> real)
    requires i < |PolicySummary(results)|
    requires forall r: IterationResult :: used(r) <==> r.params.policy == PolicySummary(results)[i].policy
    requires forall r: IterationResult :: objective(r) == r.objective && recall(r) == r.metrics.recall
    requires forall r: IterationResult :: precision(r) == r.metrics.precision && noise(r) == r.metrics.noise
    ensures var (row, rows) := (PolicySummary(results)[i], Filter(used, results));
            && rows != [] && row.runs == |rows|
            && Averages(row.meanObjective, objective, rows) && Averages(row.meanRecall, recall, rows)
            && Averages(row.meanPrecision, precision, rows) && Averages(row.meanNoise, noise, rows)
            && (forall r :: r in rows ==> r.objective <= row.bestObjective)
            && (exists r :: r in rows && r.objective == row.bestObjective)
  {
    var policy := PolicyNames(results)[i];
    PolicyNamesMeaning(results);
    assert policy in PolicyNames(results);
    var rows := Group(PolicyOf, policy, results);
    assert PolicySummary(results)[i] == RowOf(policy, rows);
    GroupIsFilter(PolicyOf, policy, results, used);
    hide PolicySummary, PolicyNames, Group, Filter, Mean, Sum, Highest, Averages;
    HighestMeaning(rows);
    MeanIs(ObjectiveOf, objective, rows);
    MeanIs(RecallOf, recall, rows);
    MeanIs(PrecisionOf, precision, rows);
    MeanIs(NoiseOf, noise, rows);
  }

  lemma PoliciesListed(results: seq<IterationResult>)
    ensures forall i, j :: 0 <= i < j < |PolicySummary(results)| ==>
              && StringLe(PolicySummary(results)[i].policy, PolicySummary(results)[j].policy)
              && PolicySummary(results)[i].policy != PolicySummary(results)[j].policy
    ensures forall r :: r in results ==>
              exists i :: 0 <= i < |PolicySummary(results)| && PolicySummary(results)[i].policy == r.params.policy
  {
    var names := PolicyNames(results);
    PolicyNamesMeaning(results);
    hide StringLe, PolicyNames;
    forall i | 0 <= i < |names| ensures PolicySummary(results)[i].policy == names[i] {
    }
    forall r | r in results
      ensures exists i :: 0 <= i < |PolicySummary(results)| && PolicySummary(results)[i].policy == r.params.policy
    {
      var i :| 0 <= i < |names| && names[i] == PolicyOf(r);
      assert PolicySummary(results)[i].policy == r.params.policy;
    }
  }
}
