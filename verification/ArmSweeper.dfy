/** Oracle relabelling of benchmark cases over sweep arms (scripts/run_arm_sweeper.py). */
module ArmSweeper {
  import opened Prelude
  import opened Sequences
  import opened Ordering
  import opened Text

  // ----- the catalog -----

  datatype CatalogError = EmptyCatalog | MissingId | DuplicateId(id: string)

  /** The named entries of the catalog; None is an entry that is not an object and is ignored. */
  function GivenIds(entries: seq<Option<string>>): seq<string> {
    if entries == [] then []
    else GivenIds(entries[..|entries| - 1])
         + (match entries[|entries| - 1] case Some(id) => [Strip(id)] case None => [])
  }

  ghost predicate GoodIds(ids: seq<string>) {
    Distinct(ids) && "" !in ids
  }

  /** A catalog is accepted exactly when it is non-empty and its arm ids are non-blank and
      distinct; the error names the first offending entry. */
  method LoadArmCatalog(entries: seq<Option<string>>) returns (r: Result<seq<string>, CatalogError>)
    ensures r.Ok? <==> entries != [] && GoodIds(GivenIds(entries))
    ensures r.Ok? ==> r.value == GivenIds(entries)
    ensures r.Err? && entries != [] ==>
              exists i :: 0 <= i < |entries| && entries[i].Some? && GoodIds(GivenIds(entries[..i]))
                && r.error == (if Strip(entries[i].value) == "" then MissingId
                               else DuplicateId(Strip(entries[i].value)))
                && !GoodIds(GivenIds(entries[..i + 1]))
  {
    if entries == [] {
      return Err(EmptyCatalog);
    }
    var arms: seq<string> := [];
    var seen: set<string> := {};
    for i := 0 to |entries|
      invariant arms == GivenIds(entries[..i]) && GoodIds(arms)
      invariant seen == set id | id in arms
    {
      assert entries[..i + 1][..i] == entries[..i];
      if entries[i].None? {
        continue;
      }
      var id := Strip(entries[i].value);
      assert GivenIds(entries[..i + 1]) == arms + [id];
      if id == "" || id in seen {
        GivenIdsPrefix(entries, i + 1);
        BadId(arms, id);
        return Err(if id == "" then MissingId else DuplicateId(id));
      }
      arms, seen := arms + [id], seen + {id};
    }
    assert entries[..|entries|] == entries;
    r := Ok(arms);
  }

  lemma BadId(ids: seq<string>, id: string)
    requires id == "" || id in ids
    ensures !GoodIds(ids + [id])
  {
    var all := ids + [id];
    assert all[|ids|] == id;
    if id in ids {
      var k :| 0 <= k < |ids| && ids[k] == id;
      assert all[k] == all[|ids|];
    }
  }

  lemma {:induction false} GivenIdsPrefix(entries: seq<Option<string>>, n: nat)
    requires n <= |entries|
    ensures GivenIds(entries[..n]) <= GivenIds(entries)
    ensures !GoodIds(GivenIds(entries[..n])) ==> !GoodIds(GivenIds(entries))
    decreases |entries|
  {
    if n == |entries| {
      assert entries[..n] == entries;
    } else {
      var init := entries[..|entries| - 1];
      GivenIdsPrefix(init, n);
      assert init[..n] == entries[..n];
    }
    var short, whole := GivenIds(entries[..n]), GivenIds(entries);
    assert forall i :: 0 <= i < |short| ==> short[i] == whole[i];
  }

  // ----- per-case rows -----

  datatype CaseResult = CaseResult(
    caseId: string,
    success: real,
    recall: real,
    precision: real,
    dependency: real,
    noise: real,
    latency: real)

  datatype Arm = Arm(armId: string, caption: string, cases: seq<CaseResult>)

  function ArmIdOf(arm: Arm): string {
    arm.armId
  }

  /** The results of a sweep over the arms of an accepted catalog, in any order. */
  ghost predicate Swept(arms: seq<Arm>, catalog: seq<Option<string>>) {
    GoodIds(GivenIds(catalog)) && multiset(Map(ArmIdOf, arms)) == multiset(GivenIds(catalog))
  }

  /** One arm's result on one case. */
  datatype Row = Row(
    armId: string,
    caption: string,
    success: real,
    recall: real,
    precision: real,
    dependency: real,
    noise: real,
    latency: real)

  datatype Entry = Entry(caseId: string, row: Row)

  function CaseIdOf(e: Entry): string {
    e.caseId
  }

  function EntryOf(arm: Arm, c: CaseResult): Entry {
    Entry(Strip(c.caseId),
          Row(arm.armId, arm.caption, c.success, c.recall, c.precision, c.dependency, c.noise, c.latency))
  }

  function CaseEntries(arm: Arm): CaseResult -> seq<Entry> {
    (c: CaseResult) => if Strip(c.caseId) == "" then [] else [EntryOf(arm, c)]
  }

  function ArmEntries(arm: Arm): seq<Entry> {
    FlatMap(CaseEntries(arm), arm.cases)
  }

  function Entries(arms: seq<Arm>): seq<Entry> {
    FlatMap(ArmEntries, arms)
  }

  // ----- the sort key -----

  /** `noise_rate or 1.0`: a noise of exactly zero is read as one. */
  function EffectiveNoise(noise: real): real {
    if noise == 0.0 then 1.0 else noise
  }

  predicate TailLe(a: Row, b: Row) {
    a.latency < b.latency || (a.latency == b.latency && StringLe(a.armId, b.armId))
  }

  predicate NoiseLe(x: real, y: real, a: Row, b: Row) {
    x < y || (x == y && TailLe(a, b))
  }

  /** The four quality components tie. */
  predicate HeadTie(a: Row, b: Row) {
    a.success == b.success && a.recall == b.recall && a.precision == b.precision && a.dependency == b.dependency
  }

  /** a wins on the first quality component on which the two differ. */
  predicate HeadLt(a: Row, b: Row) {
    if a.success != b.success then a.success > b.success
    else if a.recall != b.recall then a.recall > b.recall
    else if a.precision != b.precision then a.precision > b.precision
    else a.dependency > b.dependency
  }

  /** The order of `_case_sort_key`. */
  predicate CaseLe(a: Row, b: Row) {
    HeadLt(a, b) || (HeadTie(a, b) && NoiseLe(EffectiveNoise(a.noise), EffectiveNoise(b.noise), a, b))
  }

  /** The same order read with the noise as it was measured. */
  predicate RawLe(a: Row, b: Row) {
    HeadLt(a, b) || (HeadTie(a, b) && NoiseLe(a.noise, b.noise, a, b))
  }

  lemma CaseLeOrder()
    ensures TotalPreorder(CaseLe)
    ensures forall a, b :: CaseLe(a, b) && CaseLe(b, a) ==> a.armId == b.armId
  {
    StringLeOrder();
  }

  // ----- relabelling -----

  datatype Verdict = Verdict(caseId: string, oracleArmId: string, oracleLabel: string, rankings: seq<Row>)

  function RowOf(e: Entry): Row {
    e.row
  }

  function CaseRows(caseId: string, entries: seq<Entry>): seq<Row> {
    Map(RowOf, Group(CaseIdOf, caseId, entries))
  }

  function CaseIds(entries: seq<Entry>): seq<string> {
    Sort(StringLe, Keys(CaseIdOf, entries))
  }

  function VerdictOf(caseId: string, rows: seq<Row>): Verdict
    requires rows != []
  {
    SortPermutes(CaseLe, rows);
    var ranked := Sort(CaseLe, rows);
    Verdict(caseId, ranked[0].armId, ranked[0].caption, ranked)
  }

  lemma CaseIdsMeaning(entries: seq<Entry>)
    ensures StrictlySorted(StringLe, CaseIds(entries))
    ensures forall id :: id in CaseIds(entries) <==> exists e :: e in entries && e.caseId == id
  {
    var ks := Keys(CaseIdOf, entries);
    StringLeOrder();
    SortSorted(StringLe, ks);
    SortPermutes(StringLe, ks);
    KeysMeaning(CaseIdOf, entries);
    DistinctPermutation(ks, CaseIds(entries));
    forall id ensures id in CaseIds(entries) <==> exists e :: e in entries && e.caseId == id {
      SortMember(StringLe, ks, id);
      if id in ks {
        var i :| 0 <= i < |entries| && CaseIdOf(entries[i]) == id;
        assert entries[i] in entries;
      }
      if e :| e in entries && e.caseId == id {
        assert CaseIdOf(e) in ks;
      }
    }
  }

  lemma CaseRowsNonEmpty(caseId: string, entries: seq<Entry>)
    requires caseId in CaseIds(entries)
    ensures CaseRows(caseId, entries) != []
  {
    SortMember(StringLe, Keys(CaseIdOf, entries), caseId);
    GroupNonEmpty(CaseIdOf, caseId, entries);
  }

  function VerdictFor(entries: seq<Entry>): string -> Verdict {
    (caseId: string) =>
      var rows := CaseRows(caseId, entries);
      if rows == [] then Verdict(caseId, "", "", []) else VerdictOf(caseId, rows)
  }

  function Verdicts(arms: seq<Arm>): seq<Verdict> {
    Map(VerdictFor(Entries(arms)), CaseIds(Entries(arms)))
  }

  function WinnerId(v: Verdict): string {
    Strip(v.oracleArmId)
  }

  predicate HasWinnerId(v: Verdict) {
    WinnerId(v) != ""
  }

  /** How often each non-blank arm id wins. */
  function WinsOf(id: string, verdicts: seq<Verdict>): nat {
    |Group(WinnerId, id, verdicts)|
  }

  method CollectEntries(arms: seq<Arm>) returns (entries: seq<Entry>)
    ensures entries == Entries(arms)
  {
    entries := [];
    for i := 0 to |arms|
      invariant entries == Entries(arms[..i])
    {
      ghost var before := entries;
      var arm := arms[i];
      for j := 0 to |arm.cases|
        invariant entries == before + FlatMap(CaseEntries(arm), arm.cases[..j])
      {
        assert arm.cases[..j + 1][..j] == arm.cases[..j];
        if Strip(arm.cases[j].caseId) == "" {
          continue;
        }
        entries := entries + [EntryOf(arm, arm.cases[j])];
      }
      assert arm.cases[..|arm.cases|] == arm.cases;
      assert arms[..i + 1][..i] == arms[..i];
    }
    assert arms[..|arms|] == arms;
  }

  /** The distribution holds the exact number of wins of every non-blank id that wins a case. */
  ghost predicate Counted(distribution: map<string, nat>, verdicts: seq<Verdict>) {
    && (forall id :: id in distribution <==> id != "" && WinsOf(id, verdicts) > 0)
    && (forall id :: id in distribution ==> distribution[id] == WinsOf(id, verdicts))
  }

  method BuildOracleRelabel(arms: seq<Arm>) returns (verdicts: seq<Verdict>, distribution: map<string, nat>)
    ensures verdicts == Verdicts(arms)
    ensures Counted(distribution, verdicts)
  {
    var entries := CollectEntries(arms);
    var order, byCase := GroupInto(CaseIdOf, entries);
    var ids := Sort(StringLe, order);
    verdicts := [];
    for i := 0 to |ids|
      invariant verdicts == Map(VerdictFor(entries), ids[..i])
    {
      SortMember(StringLe, order, ids[i]);
      CaseRowsNonEmpty(ids[i], entries);
      verdicts := verdicts + [VerdictOf(ids[i], Map(RowOf, byCase[ids[i]]))];
      MapSnoc(VerdictFor(entries), ids, i);
    }
    assert ids[..|ids|] == ids;
    distribution := CountWinners(verdicts);
  }

  method CountWinners(verdicts: seq<Verdict>) returns (distribution: map<string, nat>)
    ensures Counted(distribution, verdicts)
  {
    distribution := map[];
    for i := 0 to |verdicts|
      invariant Counted(distribution, verdicts[..i])
    {
      assert verdicts[..i + 1][..i] == verdicts[..i];
      var id := WinnerId(verdicts[i]);
      if id != "" {
        distribution := distribution[id := (if id in distribution then distribution[id] else 0) + 1];
      }
    }
    assert verdicts[..|verdicts|] == verdicts;
  }

  // ----- the leaderboard -----

  /** An arm's overall result; None is a rate the report does not carry. */
  datatype ArmResult = ArmResult(
    armId: string,
    summaryRate: Option<real>,
    metricRate: Option<real>,
    precision: real,
    noise: real,
    latencyP95: real)

  /** The success rate that the summary carries, else the one among the metrics. */
  function SuccessRate(r: ArmResult): real {
    if r.summaryRate.Some? then r.summaryRate.value
    else if r.metricRate.Some? then r.metricRate.value
    else 0.0
  }

  /** The order of `_overall_sort_key`. */
  predicate OverallLe(a: ArmResult, b: ArmResult) {
    if SuccessRate(a) != SuccessRate(b) then SuccessRate(a) > SuccessRate(b)
    else if a.precision != b.precision then a.precision > b.precision
    else if EffectiveNoise(a.noise) != EffectiveNoise(b.noise) then EffectiveNoise(a.noise) < EffectiveNoise(b.noise)
    else if a.latencyP95 != b.latencyP95 then a.latencyP95 < b.latencyP95
    else StringLe(a.armId, b.armId)
  }

  lemma OverallLeOrder()
    ensures TotalPreorder(OverallLe)
    ensures forall a, b :: OverallLe(a, b) && OverallLe(b, a) ==> a.armId == b.armId
  {
    StringLeOrder();
  }

  function Leaderboard(results: seq<ArmResult>): seq<ArmResult> {
    Sort(OverallLe, results)
  }

  function BestArmId(results: seq<ArmResult>): string {
    SortPermutes(OverallLe, results);
    if results == [] then "" else Leaderboard(results)[0].armId
  }
}
