/** The search space, its parsers and the moves of scripts/ralph_wiggum_iterate.py. */
module TuningMoves {
  import opened Prelude
  import opened Sequences
  import opened Text

  // ----- parsers -----

  function CleanLower(s: string): string {
    Lower(Strip(s))
  }

  function Allowed(allowed: seq<string>): string -> bool {
    (s: string) => s in allowed
  }

  /** The allowed items of a comma-separated list, or the default list when there are none. */
  function ParsedNames(raw: string, allowed: seq<string>, defaults: seq<string>): seq<string> {
    var kept := Dedup(Filter(Allowed(allowed), Map(CleanLower, SplitBy(IsComma, raw))));
    if kept == [] then defaults else kept
  }

  method ParseNames(raw: string, allowed: seq<string>, defaults: seq<string>) returns (names: seq<string>)
    requires "" !in allowed
    ensures names == ParsedNames(raw, allowed, defaults)
  {
    var items := SplitBy(IsComma, raw);
    var parsed: seq<string> := [];
    for i := 0 to |items|
      invariant parsed == Dedup(Filter(Allowed(allowed), Map(CleanLower, items[..i])))
    {
      ParsedStep(items, i, allowed);
      var normalized := CleanLower(items[i]);
      if normalized == "" || normalized !in allowed || normalized in parsed {
        continue;
      }
      parsed := parsed + [normalized];
    }
    assert items[..|items|] == items;
    names := if parsed != [] then parsed else defaults;
  }

  lemma ParsedStep(items: seq<string>, i: nat, allowed: seq<string>)
    requires i < |items|
    ensures var before := Dedup(Filter(Allowed(allowed), Map(CleanLower, items[..i])));
            var x := CleanLower(items[i]);
            Dedup(Filter(Allowed(allowed), Map(CleanLower, items[..i + 1])))
            == if x in allowed && x !in before then before + [x] else before
  {
    var p, done := Allowed(allowed), Map(CleanLower, items[..i]);
    var x := CleanLower(items[i]);
    MapSnoc(CleanLower, items, i);
    assert (done + [x])[..|done|] == done;
    var kept := Filter(p, done);
    if x in allowed {
      assert Filter(p, done + [x]) == kept + [x];
      assert (kept + [x])[..|kept|] == kept;
    } else {
      assert Filter(p, done + [x]) == kept + [] == kept;
    }
  }

  /** A parsed choice list is non-empty, free of repetitions and drawn from the allowed values. */
  lemma ParsedNamesMeaning(raw: string, allowed: seq<string>, defaults: seq<string>)
    requires defaults != [] && Distinct(defaults) && forall s :: s in defaults ==> s in allowed
    ensures var names := ParsedNames(raw, allowed, defaults);
            names != [] && Distinct(names) && forall s :: s in names ==> s in allowed
  {
    var kept := Filter(Allowed(allowed), Map(CleanLower, SplitBy(IsComma, raw)));
    FilterMembers(Allowed(allowed), Map(CleanLower, SplitBy(IsComma, raw)));
    DedupMeaning(kept);
  }

  const RANKERS: seq<string> := ["heuristic", "bm25_lite", "hybrid_re2", "rrf_hybrid"]
  const FUSION_MODES: seq<string> := ["linear", "rrf"]
  const POLICIES: seq<string> := ["auto", "bugfix_test", "feature", "refactor", "general"]
  const RRF_KS: seq<int> := [30, 45, 60, 75, 90]

  /** The rankers, fusion modes and policies the script allows, which are also its defaults. */
  lemma ScriptListsParse(raw: string)
    ensures Distinct(ParsedNames(raw, RANKERS, RANKERS)) && ParsedNames(raw, RANKERS, RANKERS) != []
    ensures Distinct(ParsedNames(raw, FUSION_MODES, FUSION_MODES)) && ParsedNames(raw, FUSION_MODES, FUSION_MODES) != []
    ensures Distinct(ParsedNames(raw, POLICIES, POLICIES)) && ParsedNames(raw, POLICIES, POLICIES) != []
    ensures forall s :: s in ParsedNames(raw, RANKERS, RANKERS) ==> s in RANKERS
    ensures forall s :: s in ParsedNames(raw, FUSION_MODES, FUSION_MODES) ==> s in FUSION_MODES
    ensures forall s :: s in ParsedNames(raw, POLICIES, POLICIES) ==> s in POLICIES
  {
    hide ParsedNames;
    assert Distinct(RANKERS) && RANKERS != [];
    assert Distinct(FUSION_MODES) && FUSION_MODES != [];
    assert Distinct(POLICIES) && POLICIES != [];
    ParsedNamesMeaning(raw, RANKERS, RANKERS);
    ParsedNamesMeaning(raw, FUSION_MODES, FUSION_MODES);
    ParsedNamesMeaning(raw, POLICIES, POLICIES);
  }

  /** What one item of the list reads as: an integer raised to at least one, or nothing. `parse`
      is the integer reader of the language. */
  function ReadK(parse: string -> Option<int>): string -> seq<int> {
    (item: string) =>
      if Strip(item) == "" || parse(Strip(item)).None? then [] else [Max(1, parse(Strip(item)).value)]
  }

  /** The integers of a comma-separated list at their first occurrence, or the default list when
      none can be read. */
  function ParsedKs(raw: string, parse: string -> Option<int>): seq<int> {
    var kept := Dedup(FlatMap(ReadK(parse), SplitBy(IsComma, raw)));
    if kept == [] then RRF_KS else kept
  }

  method ParseRrfKs(raw: string, parse: string -> Option<int>) returns (ks: seq<int>)
    ensures ks == ParsedKs(raw, parse)
  {
    hide Dedup, FlatMap, Strip, SplitBy;
    var items := SplitBy(IsComma, raw);
    var parsed: seq<int> := [];
    NothingRead(parse);
    for i := 0 to |items|
      invariant parsed == Dedup(FlatMap(ReadK(parse), items[..i]))
    {
      PrefixStep(items, i);
      ReadStep(parse, items[..i], items[i]);
      var normalized := Strip(items[i]);
      if normalized == "" || parse(normalized).None? {
        continue;
      }
      var value := Max(1, parse(normalized).value);
      if value in parsed {
        continue;
      }
      parsed := parsed + [value];
    }
    assert items[..|items|] == items;
    ks := if parsed != [] then parsed else RRF_KS;
  }

  lemma NothingRead(parse: string -> Option<int>)
    ensures Dedup(FlatMap(ReadK(parse), [])) == []
  {
  }

  lemma ReadStep(parse: string -> Option<int>, done: seq<string>, item: string)
    ensures var (before, text) := (Dedup(FlatMap(ReadK(parse), done)), Strip(item));
            Dedup(FlatMap(ReadK(parse), done + [item]))
            == if text == "" || parse(text).None? || Max(1, parse(text).value) in before then before
               else before + [Max(1, parse(text).value)]
  {
    var all := FlatMap(ReadK(parse), done);
    assert (done + [item])[..|done|] == done;
    hide Strip;
    if Strip(item) == "" || parse(Strip(item)).None? {
      assert all + [] == all;
    } else {
      assert (all + [Max(1, parse(Strip(item)).value)])[..|all|] == all;
    }
  }

  ghost predicate ReadsAs(parse: string -> Option<int>, items: seq<string>, k: int) {
    exists item :: item in items && ReadK(parse)(item) == [k]
  }

  lemma {:induction false} ReadMembers(parse: string -> Option<int>, items: seq<string>, k: int)
    ensures k in FlatMap(ReadK(parse), items) <==> ReadsAs(parse, items, k)
  {
    if items != [] {
      var init, last := items[..|items| - 1], items[|items| - 1];
      ReadMembers(parse, init, k);
      assert items == init + [last];
      assert last in items;
      assert k in ReadK(parse)(last) <==> ReadK(parse)(last) == [k];
    }
  }

  lemma ReadPositive(parse: string -> Option<int>, items: seq<string>, k: int)
    requires ReadsAs(parse, items, k)
    ensures k >= 1
  {
    var item :| item in items && ReadK(parse)(item) == [k];
    assert |ReadK(parse)(item)| == 1;
    assert [k][0] == [Max(1, parse(Strip(item)).value)][0];
  }

  lemma KeptKs(parse: string -> Option<int>, items: seq<string>)
    ensures var kept := Dedup(FlatMap(ReadK(parse), items));
            Distinct(kept) && forall k :: k in kept <==> ReadsAs(parse, items, k)
  {
    var all := FlatMap(ReadK(parse), items);
    DedupMeaning(all);
    hide Dedup, FlatMap;
    forall k ensures k in all <==> ReadsAs(parse, items, k) {
      ReadMembers(parse, items, k);
    }
  }

  lemma DefaultKs()
    ensures RRF_KS != [] && Distinct(RRF_KS) && forall k :: k in RRF_KS ==> k >= 1
  {
  }

  /** The parsed integers are distinct, at least one, never none, and exactly those of the
      readable items whenever there is one. */
  lemma ParsedKsMeaning(raw: string, parse: string -> Option<int>)
    ensures var (ks, items) := (ParsedKs(raw, parse), SplitBy(IsComma, raw));
            && ks != [] && Distinct(ks) && (forall k :: k in ks ==> k >= 1)
            && (if exists k :: ReadsAs(parse, items, k) then forall k :: k in ks <==> ReadsAs(parse, items, k)
                else ks == RRF_KS)
  {
    hide Dedup, FlatMap, SplitBy, ReadsAs, RRF_KS;
    var items := SplitBy(IsComma, raw);
    var kept := Dedup(FlatMap(ReadK(parse), items));
    KeptKs(parse, items);
    DefaultKs();
    forall k | ReadsAs(parse, items, k) ensures k >= 1 {
      ReadPositive(parse, items, k);
    }
    assert kept != [] ==> kept[0] in kept;
  }

  // ----- drawing -----

  /** `rng.choice`: an arbitrary draw, folded onto the list. */
  function Choice<T>(values: seq<T>, draw: nat): T
    requires values != []
  {
    values[draw % |values|]
  }

  /** The index of the first occurrence, or 0 when there is none. */
  function IndexOrZero<T(==)>(values: seq<T>, x: T): (i: nat)
    requires values != []
    ensures i < |values|
    ensures x in values ==> values[i] == x && forall j :: 0 <= j < i ==> values[j] != x
    ensures x !in values ==> i == 0
  {
    if values[0] == x || |values| == 1 then 0
    else
      assert x in values <==> x in values[1..];
      if x in values[1..] then 1 + IndexOrZero(values[1..], x) else 0
  }

  function Low(index: nat, radius: nat): nat {
    if index < radius then 0 else index - radius
  }

  function High(index: nat, radius: nat, size: nat): int {
    if index + radius >= size then size - 1 else index + radius
  }

  /** `_choice_near`: an arbitrary draw within the window around the current value. */
  function ChoiceNear<T(==)>(values: seq<T>, current: T, radius: nat, draw: nat): T
    requires values != []
  {
    var i := IndexOrZero(values, current);
    var lo, hi := Low(i, radius), High(i, radius, |values|);
    values[lo + draw % (hi - lo + 1)]
  }

  /** x stands at most `radius` places from the current value, or from the front when the
      current value is not in the list. */
  ghost predicate Within<T(!new)>(values: seq<T>, current: T, radius: nat, x: T)
    requires values != []
  {
    exists j :: 0 <= j < |values| && values[j] == x
      && IndexOrZero(values, current) - radius <= j <= IndexOrZero(values, current) + radius
  }

  /** A near choice lands in the window, and every value in the window is reached by some draw. */
  lemma ChoiceNearExactly<T(!new)>(values: seq<T>, current: T, radius: nat, x: T)
    requires values != []
    ensures Within(values, current, radius, x) <==> exists draw: nat :: ChoiceNear(values, current, radius, draw) == x
  {
    var i := IndexOrZero(values, current);
    var lo, hi := Low(i, radius), High(i, radius, |values|);
    if Within(values, current, radius, x) {
      var j :| 0 <= j < |values| && values[j] == x && i - radius <= j <= i + radius;
      var d: nat := j - lo;
      SmallMod(d, hi - lo + 1);
      assert ChoiceNear(values, current, radius, d) == x;
    }
    if draw: nat :| ChoiceNear(values, current, radius, draw) == x {
      NearWithin(values, current, radius, draw);
    }
  }

  lemma SmallMod(d: nat, n: nat)
    requires d < n
    ensures d % n == d
  {
  }

  lemma NearWithin<T(!new)>(values: seq<T>, current: T, radius: nat, draw: nat)
    requires values != []
    ensures Within(values, current, radius, ChoiceNear(values, current, radius, draw))
    ensures ChoiceNear(values, current, radius, draw) in values
  {
    var i := IndexOrZero(values, current);
    var lo, hi := Low(i, radius), High(i, radius, |values|);
    var j := lo + draw % (hi - lo + 1);
    assert values[j] == ChoiceNear(values, current, radius, draw);
  }

  // ----- one step of the search -----

  type Weights = Option<map<string, real>>

  datatype Params = Params(
    topK: int,
    minScore: int,
    relativeThreshold: real,
    ranker: string,
    fusionMode: string,
    rrfK: int,
    weights: Weights,
    policy: string)

  datatype Choices = Choices(
    rankers: seq<string>,
    fusionModes: seq<string>,
    rrfKs: seq<int>,
    weights: seq<Weights>,
    policies: seq<string>)

  const TOP_KS: seq<int> := [2, 3, 4, 5, 6, 8]
  const MIN_SCORES: seq<int> := [0, 1, 2, 3, 4]
  const RELATIVE_THRESHOLDS: seq<real> := [0.0, 0.2, 0.3, 0.35, 0.4, 0.45, 0.5, 0.55, 0.6]

  /** `choices or [default]`. */
  function OrElse<T>(values: seq<T>, default_: T): (r: seq<T>)
    ensures r != []
  {
    if values == [] then [default_] else values
  }

  function Rankers(c: Choices): (r: seq<string>) ensures r != [] { OrElse(c.rankers, "heuristic") }
  function FusionModes(c: Choices): (r: seq<string>) ensures r != [] { OrElse(c.fusionModes, "linear") }
  function RrfKs(c: Choices): (r: seq<int>) ensures r != [] { OrElse(c.rrfKs, 60) }
  function WeightSets(c: Choices): (r: seq<Weights>) ensures r != [] { OrElse(c.weights, None) }
  function Policies(c: Choices): (r: seq<string>) ensures r != [] { OrElse(c.policies, "auto") }

  function BaselineParams(): Params {
    Params(8, 2, 0.0, "heuristic", "linear", 60, None, "auto")
  }

  datatype Mode = Baseline | Restart | Explore | Relax | Exploit

  datatype RunMetrics = RunMetrics(precision: real, recall: real, noise: real)

  /** The random numbers of one iteration: the coin of the exploration test and the raw draws. */
  datatype Draws = Draws(coin: real, pick: nat -> nat)

  function RandomParams(c: Choices, d: Draws): Params {
    Params(Choice(TOP_KS, d.pick(0)), Choice(MIN_SCORES, d.pick(1)), Choice(RELATIVE_THRESHOLDS, d.pick(2)),
           Choice(Rankers(c), d.pick(3)), Choice(FusionModes(c), d.pick(4)), Choice(RrfKs(c), d.pick(5)),
           Choice(WeightSets(c), d.pick(6)), Choice(Policies(c), d.pick(7)))
  }

  /** Moves the three numeric knobs by `radius` places and every other parameter by one. */
  function NearParams(c: Choices, best: Params, radius: nat, d: Draws): Params {
    Params(ChoiceNear(TOP_KS, best.topK, radius, d.pick(0)),
           ChoiceNear(MIN_SCORES, best.minScore, radius, d.pick(1)),
           ChoiceNear(RELATIVE_THRESHOLDS, best.relativeThreshold, radius, d.pick(2)),
           ChoiceNear(Rankers(c), best.ranker, 1, d.pick(3)),
           ChoiceNear(FusionModes(c), best.fusionMode, 1, d.pick(4)),
           ChoiceNear(RrfKs(c), best.rrfK, 1, d.pick(5)),
           ChoiceNear(WeightSets(c), best.weights, 1, d.pick(6)),
           ChoiceNear(Policies(c), best.policy, 1, d.pick(7)))
  }

  datatype Settings = Settings(recallFloor: real, exploreRate: real, choices: Choices)

  function PickNext(iteration: int, s: Settings, best: Params, last: Option<RunMetrics>, d: Draws): (Mode, Params) {
    if iteration == 1 then (Baseline, BaselineParams())
    else if iteration % 10 == 0 then (Restart, RandomParams(s.choices, d))
    else if d.coin < s.exploreRate then (Explore, RandomParams(s.choices, d))
    else if last.Some? && last.value.recall < s.recallFloor then (Relax, NearParams(s.choices, best, 2, d))
    else (Exploit, NearParams(s.choices, best, 1, d))
  }

  /** Every parameter is one of its choices. */
  ghost predicate InSpace(c: Choices, p: Params) {
    && p.topK in TOP_KS && p.minScore in MIN_SCORES && p.relativeThreshold in RELATIVE_THRESHOLDS
    && p.ranker in Rankers(c) && p.fusionMode in FusionModes(c) && p.rrfK in RrfKs(c)
    && p.weights in WeightSets(c) && p.policy in Policies(c)
  }

  /** Every parameter is within its radius of the best one. */
  ghost predicate NearBest(c: Choices, best: Params, radius: nat, p: Params) {
    && Within(TOP_KS, best.topK, radius, p.topK)
    && Within(MIN_SCORES, best.minScore, radius, p.minScore)
    && Within(RELATIVE_THRESHOLDS, best.relativeThreshold, radius, p.relativeThreshold)
    && Within(Rankers(c), best.ranker, 1, p.ranker)
    && Within(FusionModes(c), best.fusionMode, 1, p.fusionMode)
    && Within(RrfKs(c), best.rrfK, 1, p.rrfK)
    && Within(WeightSets(c), best.weights, 1, p.weights)
    && Within(Policies(c), best.policy, 1, p.policy)
  }

  lemma ChoiceMember<T>(values: seq<T>, draw: nat)
    requires values != []
    ensures Choice(values, draw) in values
  {
  }

  lemma RandomInSpace(c: Choices, d: Draws)
    ensures InSpace(c, RandomParams(c, d))
  {
    ChoiceMember(TOP_KS, d.pick(0));
    ChoiceMember(MIN_SCORES, d.pick(1));
    ChoiceMember(RELATIVE_THRESHOLDS, d.pick(2));
    ChoiceMember(Rankers(c), d.pick(3));
    ChoiceMember(FusionModes(c), d.pick(4));
    ChoiceMember(RrfKs(c), d.pick(5));
    ChoiceMember(WeightSets(c), d.pick(6));
    ChoiceMember(Policies(c), d.pick(7));
    hide Choice, Rankers, FusionModes, RrfKs, WeightSets, Policies;
  }

  lemma NearMoves(c: Choices, best: Params, radius: nat, d: Draws)
    ensures InSpace(c, NearParams(c, best, radius, d)) && NearBest(c, best, radius, NearParams(c, best, radius, d))
  {
    NearWithin(TOP_KS, best.topK, radius, d.pick(0));
    NearWithin(MIN_SCORES, best.minScore, radius, d.pick(1));
    NearWithin(RELATIVE_THRESHOLDS, best.relativeThreshold, radius, d.pick(2));
    NearWithin(Rankers(c), best.ranker, 1, d.pick(3));
    NearWithin(FusionModes(c), best.fusionMode, 1, d.pick(4));
    NearWithin(RrfKs(c), best.rrfK, 1, d.pick(5));
    NearWithin(WeightSets(c), best.weights, 1, d.pick(6));
    NearWithin(Policies(c), best.policy, 1, d.pick(7));
    hide ChoiceNear, Within, Rankers, FusionModes, RrfKs, WeightSets, Policies, TOP_KS, MIN_SCORES, RELATIVE_THRESHOLDS;
  }

  /** What a step's mode says about its parameters. */
  ghost predicate LegalStep(iteration: int, s: Settings, best: Params, mode: Mode, p: Params) {
    && (mode == Baseline <==> iteration == 1)
    && (mode == Baseline ==> p == BaselineParams())
    && (mode != Baseline ==> InSpace(s.choices, p))
    && (mode == Restart <==> iteration != 1 && iteration % 10 == 0)
    && (mode == Exploit ==> NearBest(s.choices, best, 1, p))
    && (mode == Relax ==> NearBest(s.choices, best, 2, p))
  }

  /** Whatever the random numbers are, a step is legal; the coin alone decides about exploring,
      and otherwise the last recall decides between relaxing and exploiting. */
  lemma PickLegal(iteration: int, s: Settings, best: Params, last: Option<RunMetrics>, d: Draws)
    ensures var (mode, p) := PickNext(iteration, s, best, last, d);
            && LegalStep(iteration, s, best, mode, p)
            && (mode == Relax ==> last.Some? && last.value.recall < s.recallFloor)
            && (mode == Exploit ==> last.None? || last.value.recall >= s.recallFloor)
            && (mode == Explore <==> iteration != 1 && iteration % 10 != 0 && d.coin < s.exploreRate)
  {
    hide InSpace, NearBest, RandomParams, NearParams, BaselineParams;
    RandomInSpace(s.choices, d);
    if last.Some? && last.value.recall < s.recallFloor {
      NearMoves(s.choices, best, 2, d);
    } else {
      NearMoves(s.choices, best, 1, d);
    }
  }
}
