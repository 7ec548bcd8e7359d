/** The hotspot baseline of scripts/run_quality_gate.py: refreshing it, loading it back, and
    summarising the same unchanged files. */
module Hotspots {
  import opened Prelude
  import opened Sequences
  import opened Text

  // ----- the complexity ceiling -----

  function Ceil(x: real): int {
    -(-x).Floor
  }

  /** `score + max(2, ceil(score * 0.1))`, for whatever product the float multiplication gives. */
  function Ceiling(tenth: int -> real, score: int): int {
    score + Max(2, Ceil(tenth(score)))
  }

  /** What is used of the float product: it grows with the score, and rounding it up never
      falls below the exact tenth. */
  ghost predicate RoundedTenth(tenth: int -> real) {
    && (forall s, t :: 0 <= s <= t ==> tenth(s) <= tenth(t))
    && (forall s :: 0 <= s ==> s <= 10 * Ceil(tenth(s)))
  }

  lemma CeilMonotone(x: real, y: real)
    requires x <= y
    ensures Ceil(x) <= Ceil(y)
  {
  }

  /** Every ceiling leaves room for at least two points and a tenth of the score, and a higher
      score has a strictly higher ceiling. */
  lemma CeilingRoom(tenth: int -> real, score: int)
    requires RoundedTenth(tenth) && score >= 0
    ensures Ceiling(tenth, score) >= score + 2
    ensures 10 * Ceiling(tenth, score) >= 11 * score
    ensures forall lower :: 0 <= lower < score ==> Ceiling(tenth, lower) < Ceiling(tenth, score)
  {
    forall lower | 0 <= lower < score ensures Ceiling(tenth, lower) < Ceiling(tenth, score) {
      CeilMonotone(tenth(lower), tenth(score));
    }
  }

  /** An upward error of at most a tenth raises the ceiling, by one, exactly for the multiples
      of ten from twenty on. */
  lemma SlackAtTens(score: nat, product: real)
    requires score as real / 10.0 < product <= score as real / 10.0 + 0.1
    ensures score + Max(2, Ceil(product))
         == Ceiling(s => s as real / 10.0, score) + (if score % 10 == 0 && score >= 20 then 1 else 0)
  {
    var q, r := score / 10, score % 10;
    assert score == 10 * q + r;
    assert score as real == 10.0 * q as real + r as real;
    assert Ceil(product) == q + 1;
    assert Ceil(score as real / 10.0) == if r == 0 then q else q + 1;
  }

  // ----- the baseline file -----

  /** What is measured about a file: coverage from the coverage report, score from its syntax tree. */
  datatype Measure = Measure(coverage: Option<real>, score: Option<int>)

  datatype Entry = Entry(path: string, coverage: Option<real>, score: Option<int>, ceiling: Option<int>)

  /** The outside world while nothing changes on disk: path normalisation, the measured files,
      and the float product used for ceilings. */
  datatype World = World(norm: string -> string, measure: string -> Measure, tenth: int -> real)

  function OrderedPaths(w: World, requested: seq<string>): seq<string> {
    Filter(IsNonEmpty, Map(w.norm, requested))
  }

  function EntryFor(w: World): string -> Entry {
    (path: string) =>
      var m := w.measure(path);
      Entry(path, m.coverage, m.score, if m.score.Some? then Some(Ceiling(w.tenth, m.score.value)) else None)
  }

  function Payload(w: World, requested: seq<string>): seq<Entry> {
    Map(EntryFor(w), OrderedPaths(w, requested))
  }

  method BuildBaselinePayload(w: World, requested: seq<string>) returns (hotspots: seq<Entry>)
    ensures hotspots == Payload(w, requested)
  {
    var paths := OrderedPaths(w, requested);
    hotspots := [];
    for i := 0 to |paths|
      invariant hotspots == Map(EntryFor(w), paths[..i])
    {
      MapSnoc(EntryFor(w), paths, i);
      var m := w.measure(paths[i]);
      var ceiling := if m.score.Some? then Some(Ceiling(w.tenth, m.score.value)) else None;
      hotspots := hotspots + [Entry(paths[i], m.coverage, m.score, ceiling)];
    }
    assert paths[..|paths|] == paths;
  }

  function LoadKey(w: World): Entry -> string {
    (e: Entry) => w.norm(e.path)
  }

  /** The keys of the loaded baseline, in the order in which they first appear. */
  function LoadedKeys(w: World, hotspots: seq<Entry>): seq<string> {
    Filter(IsNonEmpty, Keys(LoadKey(w), hotspots))
  }

  /** The entry a key ends up with: the last one filed under it. */
  function LastFiled(w: World, hotspots: seq<Entry>, key: string): Option<Entry> {
    if hotspots == [] then None
    else if LoadKey(w)(hotspots[|hotspots| - 1]) == key then Some(hotspots[|hotspots| - 1])
    else LastFiled(w, hotspots[..|hotspots| - 1], key)
  }

  ghost predicate Loaded(w: World, hotspots: seq<Entry>, order: seq<string>, baseline: map<string, Entry>) {
    && order == LoadedKeys(w, hotspots)
    && forall k :: if k in baseline then k in order && LastFiled(w, hotspots, k) == Some(baseline[k]) else k !in order
  }

  method LoadBaseline(w: World, hotspots: seq<Entry>) returns (order: seq<string>, baseline: map<string, Entry>)
    ensures Loaded(w, hotspots, order, baseline)
  {
    order, baseline := [], map[];
    for i := 0 to |hotspots|
      invariant Loaded(w, hotspots[..i], order, baseline)
    {
      PrefixStep(hotspots, i);
      LoadStep(w, hotspots[..i], hotspots[i], order, baseline);
      var key := w.norm(hotspots[i].path);
      if key == "" {
        continue;
      }
      if key !in baseline {
        order := order + [key];
      }
      baseline := baseline[key := hotspots[i]];
    }
    assert hotspots[..|hotspots|] == hotspots;
  }

  lemma LoadedKeysSnoc(w: World, before: seq<Entry>, e: Entry)
    ensures var key, ks := LoadKey(w)(e), LoadedKeys(w, before);
            LoadedKeys(w, before + [e]) == if key == "" || key in ks then ks else ks + [key]
  {
    var key, ks := LoadKey(w)(e), Keys(LoadKey(w), before);
    KeysSnoc(LoadKey(w), before, e);
    FilterMembers(IsNonEmpty, ks);
    if key !in ks {
      assert (ks + [key])[..|ks|] == ks;
      assert Filter(IsNonEmpty, ks) + [] == Filter(IsNonEmpty, ks);
    }
  }

  lemma LoadedKeyNonEmpty(w: World, hotspots: seq<Entry>)
    ensures "" !in LoadedKeys(w, hotspots)
  {
    FilterMembers(IsNonEmpty, Keys(LoadKey(w), hotspots));
  }

  lemma LoadStep(w: World, before: seq<Entry>, e: Entry, order: seq<string>, baseline: map<string, Entry>)
    requires Loaded(w, before, order, baseline)
    ensures var key := LoadKey(w)(e);
            if key == "" then Loaded(w, before + [e], order, baseline)
            else Loaded(w, before + [e], if key in baseline then order else order + [key], baseline[key := e])
  {
    hide LoadedKeys, LastFiled;
    LoadedKeysSnoc(w, before, e);
    LoadedKeyNonEmpty(w, before);
    forall k
      ensures LastFiled(w, before + [e], k) == if LoadKey(w)(e) == k then Some(e) else LastFiled(w, before, k)
    {
      LastFiledStep(w, before, e, k);
    }
  }

  lemma LastFiledStep(w: World, before: seq<Entry>, e: Entry, key: string)
    ensures LastFiled(w, before + [e], key) == if LoadKey(w)(e) == key then Some(e) else LastFiled(w, before, key)
  {
    assert (before + [e])[..|before|] == before;
  }

  // ----- the summary -----

  datatype Row = Row(
    path: string,
    missing: bool,
    coverage: Option<real>,
    coverageDelta: Option<real>,
    score: Option<int>,
    scoreDelta: Option<int>,
    ceiling: Option<int>)

  function RealDelta(now: Option<real>, base: Option<real>): Option<real> {
    if now.Some? && base.Some? then Some(now.value - base.value) else None
  }

  function IntDelta(now: Option<int>, base: Option<int>): Option<int> {
    if now.Some? && base.Some? then Some(now.value - base.value) else None
  }

  function RowFor(w: World, baseline: map<string, Entry>): string -> Row {
    (path: string) =>
      var m := w.measure(path);
      if path in baseline then
        Row(path, false, m.coverage, RealDelta(m.coverage, baseline[path].coverage),
            m.score, IntDelta(m.score, baseline[path].score), baseline[path].ceiling)
      else Row(path, true, m.coverage, None, m.score, None, None)
  }

  predicate NotIn(paths: seq<string>, path: string) {
    path !in paths
  }

  function Outside(paths: seq<string>): string -> bool {
    (path: string) => NotIn(paths, path)
  }

  /** The requested paths, then the baseline paths that were not requested. */
  function SummaryPaths(w: World, requested: seq<string>, order: seq<string>): seq<string> {
    OrderedPaths(w, requested) + Filter(Outside(OrderedPaths(w, requested)), order)
  }

  method BuildRows(w: World, paths: seq<string>, baseline: map<string, Entry>)
    returns (rows: seq<Row>, missing: seq<string>)
    ensures rows == Map(RowFor(w, baseline), paths)
    ensures missing == Filter(Absent(baseline), paths)
  {
    rows, missing := [], [];
    for i := 0 to |paths|
      invariant rows == Map(RowFor(w, baseline), paths[..i])
      invariant missing == Filter(Absent(baseline), paths[..i])
    {
      MapSnoc(RowFor(w, baseline), paths, i);
      assert paths[..i + 1][..i] == paths[..i];
      if paths[i] !in baseline {
        missing := missing + [paths[i]];
      }
      rows := rows + [RowFor(w, baseline)(paths[i])];
    }
    assert paths[..|paths|] == paths;
  }

  method BuildHotspotSummary(w: World, requested: seq<string>, hotspots: seq<Entry>)
    returns (rows: seq<Row>, missing: seq<string>, ghost order: seq<string>, ghost baseline: map<string, Entry>)
    ensures Loaded(w, hotspots, order, baseline)
    ensures rows == Map(RowFor(w, baseline), SummaryPaths(w, requested, order))
    ensures missing == Filter(Absent(baseline), SummaryPaths(w, requested, order))
  {
    var keys, loaded := LoadBaseline(w, hotspots);
    order, baseline := keys, loaded;
    rows, missing := BuildRows(w, SummaryPaths(w, requested, keys), loaded);
  }

  function Absent(baseline: map<string, Entry>): string -> bool {
    (path: string) => path !in baseline
  }

  // ----- refresh, reload, summarise -----

  lemma OrderedMember(w: World, requested: seq<string>, path: string)
    ensures path in OrderedPaths(w, requested) <==> path != "" && exists p :: p in requested && w.norm(p) == path
  {
    FilterMembers(IsNonEmpty, Map(w.norm, requested));
    if path in Map(w.norm, requested) {
      var i :| 0 <= i < |requested| && Map(w.norm, requested)[i] == path;
      assert requested[i] in requested;
    }
    if p :| p in requested && w.norm(p) == path {
      var i :| 0 <= i < |requested| && requested[i] == p;
      assert Map(w.norm, requested)[i] == path;
    }
  }

  /** A reloaded key is the normalisation of a path that was written. */
  lemma ReloadedKey(w: World, requested: seq<string>, key: string)
    ensures key in LoadedKeys(w, Payload(w, requested)) <==>
            key != "" && exists q :: q in OrderedPaths(w, requested) && w.norm(q) == key
  {
    var paths, hotspots := OrderedPaths(w, requested), Payload(w, requested);
    FilterMembers(IsNonEmpty, Keys(LoadKey(w), hotspots));
    DedupMember(Map(LoadKey(w), hotspots), key);
    MapMember(LoadKey(w), hotspots, key);
    if e :| e in hotspots && LoadKey(w)(e) == key {
      MapMember(EntryFor(w), paths, e);
    }
    if q :| q in paths && w.norm(q) == key {
      MapMember(EntryFor(w), paths, EntryFor(w)(q));
      assert LoadKey(w)(EntryFor(w)(q)) == key;
    }
  }

  lemma BaselineKeys(w: World, requested: seq<string>, order: seq<string>, baseline: map<string, Entry>, path: string)
    requires Loaded(w, Payload(w, requested), order, baseline)
    ensures path in baseline <==> path != "" && Reachable(w, requested, path)
    ensures path in OrderedPaths(w, requested) ==> path != ""
    ensures path in SummaryPaths(w, requested, order) <==> path in OrderedPaths(w, requested) || path in baseline
  {
    ReloadedKey(w, requested, path);
    OrderedMember(w, requested, path);
    FilterMembers(Outside(OrderedPaths(w, requested)), order);
  }

  /** Some written path is normalised to this one when the baseline is loaded. */
  ghost predicate Reachable(w: World, requested: seq<string>, path: string) {
    exists q :: q in OrderedPaths(w, requested) && w.norm(q) == path
  }

  /** After a refresh no baseline is missing exactly when every normalised path is also the
      normalisation of some normalised path. */
  lemma NothingMissingExactly(w: World, requested: seq<string>, order: seq<string>, baseline: map<string, Entry>)
    requires Loaded(w, Payload(w, requested), order, baseline)
    ensures (forall path :: path in SummaryPaths(w, requested, order) ==> path in baseline) <==>
            (forall path :: path in OrderedPaths(w, requested) ==> Reachable(w, requested, path))
  {
    forall path
      ensures path in baseline <==> path != "" && Reachable(w, requested, path)
      ensures path in OrderedPaths(w, requested) ==> path != ""
      ensures path in SummaryPaths(w, requested, order) <==> path in OrderedPaths(w, requested) || path in baseline
    {
      BaselineKeys(w, requested, order, baseline, path);
    }
    hide *;
  }

  /** A path requested alone is missing after a refresh when a second normalisation changes it. */
  lemma UnstableAlone(w: World, p: string, order: seq<string>, baseline: map<string, Entry>)
    requires w.norm(p) != "" && w.norm(w.norm(p)) != w.norm(p)
    requires Loaded(w, Payload(w, [p]), order, baseline)
    ensures w.norm(p) in SummaryPaths(w, [p], order) && w.norm(p) !in baseline
  {
    OrderedMember(w, [p], w.norm(p));
    assert p in [p];
    BaselineKeys(w, [p], order, baseline, w.norm(p));
    forall q | q in OrderedPaths(w, [p]) ensures q == w.norm(p) {
      OrderedMember(w, [p], q);
    }
    hide OrderedPaths, SummaryPaths, Loaded, Payload;
    assert !Reachable(w, [p], w.norm(p));
  }

  ghost predicate StableNames(w: World, requested: seq<string>) {
    forall p :: p in requested ==> w.norm(w.norm(p)) == w.norm(p)
  }

  lemma {:induction false} LastFiledListed(w: World, hotspots: seq<Entry>, key: string)
    ensures LastFiled(w, hotspots, key).Some? ==>
              LastFiled(w, hotspots, key).value in hotspots && LoadKey(w)(LastFiled(w, hotspots, key).value) == key
  {
    if hotspots != [] && LoadKey(w)(hotspots[|hotspots| - 1]) != key {
      LastFiledListed(w, hotspots[..|hotspots| - 1], key);
    }
  }

  lemma StableEntry(w: World, requested: seq<string>, order: seq<string>, baseline: map<string, Entry>, path: string)
    requires StableNames(w, requested) && path in OrderedPaths(w, requested)
    requires Loaded(w, Payload(w, requested), order, baseline)
    ensures path in baseline && baseline[path] == EntryFor(w)(path)
  {
    var paths, hotspots := OrderedPaths(w, requested), Payload(w, requested);
    OrderedMember(w, requested, path);
    ReloadedKey(w, requested, path);
    LastFiledListed(w, hotspots, path);
    var i :| 0 <= i < |hotspots| && hotspots[i] == baseline[path];
    assert paths[i] in paths;
    OrderedMember(w, requested, paths[i]);
  }

  ghost predicate Unchanged(w: World, row: Row) {
    && !row.missing
    && row.coverageDelta == (if row.coverage.Some? then Some(0.0) else None)
    && row.scoreDelta == (if row.score.Some? then Some(0) else None)
    && (row.score.Some? && row.score.value >= 0 ==>
          && row.ceiling.Some? && row.score.value + 2 <= row.ceiling.value
          && 11 * row.score.value <= 10 * row.ceiling.value)
  }

  lemma UnchangedRow(w: World, requested: seq<string>, order: seq<string>, baseline: map<string, Entry>, path: string)
    requires StableNames(w, requested) && RoundedTenth(w.tenth) && path in OrderedPaths(w, requested)
    requires Loaded(w, Payload(w, requested), order, baseline)
    ensures Unchanged(w, RowFor(w, baseline)(path))
  {
    hide OrderedPaths, Payload, Loaded, Ceiling, RoundedTenth;
    StableEntry(w, requested, order, baseline, path);
    if w.measure(path).score.Some? && w.measure(path).score.value >= 0 {
      CeilingRoom(w.tenth, w.measure(path).score.value);
    }
  }

  lemma OnlyRequested(w: World, requested: seq<string>, order: seq<string>, baseline: map<string, Entry>)
    requires StableNames(w, requested) && Loaded(w, Payload(w, requested), order, baseline)
    ensures SummaryPaths(w, requested, order) == OrderedPaths(w, requested)
  {
    var paths := OrderedPaths(w, requested);
    forall key | key in order ensures key in paths {
      ReloadedKey(w, requested, key);
      var q :| q in paths && w.norm(q) == key;
      OrderedMember(w, requested, q);
    }
    hide OrderedPaths, Payload, Loaded;
    NothingOutside(paths, order);
    assert paths + [] == paths;
  }

  /** Refreshing the baseline and summarising the same files reports every requested path and
      nothing else, no missing baseline, no change in coverage or complexity wherever they were
      measured, and every measured score strictly below its ceiling. */
  lemma RefreshIsNeutral(w: World, requested: seq<string>, order: seq<string>, baseline: map<string, Entry>)
    requires StableNames(w, requested) && RoundedTenth(w.tenth)
    requires Loaded(w, Payload(w, requested), order, baseline)
    ensures SummaryPaths(w, requested, order) == OrderedPaths(w, requested)
    ensures forall path :: path in OrderedPaths(w, requested) ==> Unchanged(w, RowFor(w, baseline)(path))
  {
    OnlyRequested(w, requested, order, baseline);
    forall path | path in OrderedPaths(w, requested) ensures Unchanged(w, RowFor(w, baseline)(path)) {
      UnchangedRow(w, requested, order, baseline, path);
    }
  }

  lemma {:induction false} NothingOutside(paths: seq<string>, order: seq<string>)
    requires forall key :: key in order ==> key in paths
    ensures Filter(Outside(paths), order) == []
  {
    if order != [] {
      assert order[|order| - 1] in order;
      assert forall key :: key in order[..|order| - 1] ==> key in order;
      NothingOutside(paths, order[..|order| - 1]);
    }
  }

  // ----- in terms of the measures and the stored entries -----

  /** With the exact tenth the ceiling is the least number that leaves two points and a tenth. */
  lemma CeilingLeast(score: nat, c: int)
    ensures Ceiling(s => s as real / 10.0, score) <= c <==> c >= score + 2 && 10 * c >= 11 * score
  {
    var q, r := score / 10, score % 10;
    assert score == 10 * q + r;
    assert score as real == 10.0 * q as real + r as real;
    assert Ceil(score as real / 10.0) == if r == 0 then q else q + 1;
  }

  /** The written entry of a file holds what was measured, and a ceiling exactly when there is a score. */
  lemma EntryHolds(w: World, path: string)
    ensures var e := EntryFor(w)(path);
            && e.path == path && e.coverage == w.measure(path).coverage && e.score == w.measure(path).score
            && (e.ceiling.Some? <==> w.measure(path).score.Some?)
            && (e.ceiling.Some? ==> e.ceiling.value == Ceiling(w.tenth, w.measure(path).score.value))
  {
  }

  /** The paths are the normalised requested ones, blank ones left out, in order and with repetitions. */
  lemma PathsGrow(w: World, requested: seq<string>, p: string)
    ensures OrderedPaths(w, []) == []
    ensures OrderedPaths(w, requested + [p])
         == OrderedPaths(w, requested) + (if w.norm(p) == "" then [] else [w.norm(p)])
  {
    assert (requested + [p])[..|requested|] == requested;
    assert Map(w.norm, requested + [p]) == Map(w.norm, requested) + [w.norm(p)];
    FilterSnoc(IsNonEmpty, Map(w.norm, requested), w.norm(p));
  }

  /** Entry i is e, it is filed under the key, and no later one is. */
  ghost predicate FiledLastAt(w: World, hotspots: seq<Entry>, key: string, e: Entry, i: int) {
    0 <= i < |hotspots| && hotspots[i] == e && w.norm(e.path) == key
    && forall j :: i < j < |hotspots| ==> w.norm(hotspots[j].path) != key
  }

  ghost predicate FiledLast(w: World, hotspots: seq<Entry>, key: string, e: Entry) {
    exists i :: FiledLastAt(w, hotspots, key, e, i)
  }

  lemma FiledLastSnoc(w: World, init: seq<Entry>, last: Entry, key: string, e: Entry, i: int)
    ensures FiledLastAt(w, init + [last], key, e, i) <==>
            if i == |init| then e == last && w.norm(last.path) == key
            else FiledLastAt(w, init, key, e, i) && w.norm(last.path) != key
  {
    var all := init + [last];
    assert all[|init|] == last && forall j :: 0 <= j < |init| ==> all[j] == init[j];
  }

  lemma {:induction false} LastFiledMeaning(w: World, hotspots: seq<Entry>, key: string, e: Entry)
    ensures LastFiled(w, hotspots, key) == Some(e) <==> FiledLast(w, hotspots, key, e)
  {
    if hotspots != [] {
      var init, last := hotspots[..|hotspots| - 1], hotspots[|hotspots| - 1];
      assert hotspots == init + [last];
      LastFiledMeaning(w, init, key, e);
      forall i ensures FiledLastAt(w, hotspots, key, e, i) <==>
            if i == |init| then e == last && w.norm(last.path) == key
            else FiledLastAt(w, init, key, e, i) && w.norm(last.path) != key
      {
        FiledLastSnoc(w, init, last, key, e, i);
      }
      assert FiledLastAt(w, hotspots, key, last, |init|) <== w.norm(last.path) == key by {
        FiledLastSnoc(w, init, last, key, last, |init|);
      }
      NeverFiledAtEnd(w, init, key, e);
      hide FiledLastAt;
    }
  }

  lemma NeverFiledAtEnd(w: World, init: seq<Entry>, key: string, e: Entry)
    ensures !FiledLastAt(w, init, key, e, |init|)
  {
  }

  lemma LoadedKeyExactly(w: World, hotspots: seq<Entry>, key: string)
    ensures key in LoadedKeys(w, hotspots) <==> key != "" && exists e :: e in hotspots && w.norm(e.path) == key
  {
    FilterMembers(IsNonEmpty, Keys(LoadKey(w), hotspots));
    DedupMember(Map(LoadKey(w), hotspots), key);
    MapMember(LoadKey(w), hotspots, key);
  }

  /** The loaded baseline holds, for every non-blank normalised path of the file, the last entry
      that is filed under it, and nothing else. */
  lemma LoadedMeaning(w: World, hotspots: seq<Entry>, order: seq<string>, baseline: map<string, Entry>, key: string)
    requires Loaded(w, hotspots, order, baseline)
    ensures key in baseline <==> key != "" && exists e :: e in hotspots && w.norm(e.path) == key
    ensures key in baseline ==> FiledLast(w, hotspots, key, baseline[key])
  {
    LoadedKeyExactly(w, hotspots, key);
    if key in baseline {
      LastFiledMeaning(w, hotspots, key, baseline[key]);
    }
    hide LoadedKeys, LastFiled, FiledLast;
  }

  /** A summary row holds what is measured now, the stored ceiling, and, where both sides have a
      number, what is measured now less what was stored. */
  lemma RowCompares(w: World, baseline: map<string, Entry>, path: string)
    ensures var (row, now) := (RowFor(w, baseline)(path), w.measure(path));
            && row.path == path && row.coverage == now.coverage && row.score == now.score
            && (row.missing <==> path !in baseline)
            && (row.coverageDelta.Some? <==> now.coverage.Some? && path in baseline && baseline[path].coverage.Some?)
            && (row.coverageDelta.Some? ==>
                  baseline[path].coverage.value + row.coverageDelta.value == now.coverage.value)
            && (row.scoreDelta.Some? <==> now.score.Some? && path in baseline && baseline[path].score.Some?)
            && (row.scoreDelta.Some? ==> baseline[path].score.value + row.scoreDelta.value == now.score.value)
            && row.ceiling == (if path in baseline then baseline[path].ceiling else None)
  {
  }

  /** The rows of a summary are those of the requested paths, then those of the stored paths that
      were not requested, in the order in which these were loaded. */
  lemma SummaryListed(w: World, requested: seq<string>, order: seq<string>, path: string)
    ensures var (listed, asked) := (SummaryPaths(w, requested, order), OrderedPaths(w, requested));
            && asked <= listed
            && (path in listed[|asked|..] <==> path in order && path !in asked)
    ensures SummaryPaths(w, requested, []) == OrderedPaths(w, requested)
    ensures SummaryPaths(w, requested, order + [path])
         == SummaryPaths(w, requested, order) + (if path in OrderedPaths(w, requested) then [] else [path])
  {
    var asked := OrderedPaths(w, requested);
    FilterMembers(Outside(asked), order);
    FilterSnoc(Outside(asked), order, path);
    assert SummaryPaths(w, requested, order)[|asked|..] == Filter(Outside(asked), order);
    hide OrderedPaths, Filter;
  }
}
