/** The oracle winner is optimal, undominated, and independent of the order of the arms. */
module OracleWinner {
  import opened Prelude
  import opened Sequences
  import opened Ordering
  import opened Text
  import opened ArmSweeper

  // ----- optimality -----

  /** The winner of a case heads a sorted permutation of its rows, and none of them beats it. */
  lemma WinnerLeast(caseId: string, rows: seq<Row>)
    requires rows != []
    ensures var v := VerdictOf(caseId, rows);
            && Sorted(CaseLe, v.rankings) && multiset(v.rankings) == multiset(rows)
            && v.rankings != [] && v.oracleArmId == v.rankings[0].armId && v.oracleLabel == v.rankings[0].caption
            && forall row :: row in rows ==> CaseLe(v.rankings[0], row)
  {
    var v := VerdictOf(caseId, rows);
    CaseLeOrder();
    SortPermutes(CaseLe, rows);
    SortSorted(CaseLe, rows);
    forall row | row in rows ensures CaseLe(v.rankings[0], row) {
      SortMember(CaseLe, rows, row);
      FirstIsLeast(CaseLe, v.rankings, row);
    }
  }

  /** At least as good everywhere and better somewhere, with the noise read by `noiseOf`. */
  predicate DominatesBy(noiseA: real, noiseB: real, a: Row, b: Row) {
    && a.success >= b.success && a.recall >= b.recall && a.precision >= b.precision && a.dependency >= b.dependency
    && noiseA <= noiseB && a.latency <= b.latency
    && (a.success > b.success || a.recall > b.recall || a.precision > b.precision || a.dependency > b.dependency
        || noiseA < noiseB || a.latency < b.latency)
  }

  /** No row dominates the winner on the quality metrics, the effective noise and the latency. */
  lemma WinnerUndominated(caseId: string, rows: seq<Row>, other: Row)
    requires other in rows
    ensures var winner := VerdictOf(caseId, rows).rankings[0];
            !DominatesBy(EffectiveNoise(other.noise), EffectiveNoise(winner.noise), other, winner)
  {
    WinnerLeast(caseId, rows);
  }

  // ----- the zero-noise reading -----

  /** The reading of zero as one turns the comparison of a zero-noise row with b around. */
  predicate Misread(zero: Row, b: Row, bFirst: bool) {
    zero.noise == 0.0 && (0.0 < b.noise < 1.0 || (b.noise == 1.0 && bFirst))
  }

  /** The key orders two rows as their measured metrics do, except exactly for rows that tie on
      all four quality metrics where one noise is zero and the other lies in (0, 1), or is one
      and latency and id do not favour the zero-noise row. */
  lemma ZeroNoiseExactly(a: Row, b: Row)
    ensures (CaseLe(a, b) <==> RawLe(a, b)) <==>
            !(HeadTie(a, b) && (Misread(a, b, !TailLe(a, b)) || Misread(b, a, TailLe(a, b))))
  {
  }

  /** The measured noise may dominate the winner, and then only through this reading. */
  lemma RawDominatedExactly(caseId: string, rows: seq<Row>, other: Row)
    requires other in rows
    ensures var winner := VerdictOf(caseId, rows).rankings[0];
            DominatesBy(other.noise, winner.noise, other, winner)
            <==>
            && other.noise == 0.0 && 0.0 < winner.noise <= 1.0
            && HeadTie(other, winner) && other.latency <= winner.latency
  {
    WinnerLeast(caseId, rows);
  }

  /** Row k comes first in its case although another row is better on the measured metrics: it is
      in the lead of the rows of greatest quality, its noise lies in (0, 1], and one of those rows
      has no noise and is no slower. */
  ghost predicate LeadsWrongly(rows: seq<Row>, k: nat) {
    && Leads(LeadsOver, rows, k) && 0.0 < rows[k].noise <= 1.0
    && exists i :: 0 <= i < |rows| && NoiselessRival(rows[i], rows[k])
  }

  /** A row of the same quality as b, without noise and no slower. */
  predicate NoiselessRival(a: Row, b: Row) {
    HeadTie(a, b) && a.noise == 0.0 && a.latency <= b.latency
  }

  /** The order by quality, then by measured noise, where no noise counts as noise one. */
  predicate LeadsOver(a: Row, b: Row) {
    HeadLt(a, b)
    || (HeadTie(a, b) &&
        if a.noise == 0.0 && b.noise == 0.0 then TailLe(a, b)
        else if b.noise == 0.0 then a.noise < 1.0 || (a.noise == 1.0 && TailLe(a, b))
        else if a.noise == 0.0 then 1.0 < b.noise || (b.noise == 1.0 && TailLe(a, b))
        else NoiseLe(a.noise, b.noise, a, b))
  }

  lemma LeadsOverIsCaseLe(rows: seq<Row>, k: nat)
    ensures Leads(LeadsOver, rows, k) <==> Leads(CaseLe, rows, k)
  {
    hide StringLe;
  }

  /** The winner is the first of the rows that lead the case. */
  lemma LeaderWins(caseId: string, rows: seq<Row>, k: nat)
    requires Leads(LeadsOver, rows, k)
    ensures VerdictOf(caseId, rows).rankings[0] == rows[k]
  {
    CaseLeOrder();
    LeadsOverIsCaseLe(rows, k);
    SortHead(CaseLe, rows, k);
  }

  lemma SomeRowLeads(rows: seq<Row>) returns (k: nat)
    requires rows != []
    ensures Leads(LeadsOver, rows, k)
  {
    CaseLeOrder();
    k := SomeLeads(CaseLe, rows);
    LeadsOverIsCaseLe(rows, k);
  }

  /** Some row of the case dominates the winner on the measured metrics exactly when, among the
      rows of greatest quality, one with noise leads wrongly. */
  lemma CaseDominatedExactly(caseId: string, rows: seq<Row>)
    requires rows != []
    ensures var winner := VerdictOf(caseId, rows).rankings[0];
            (exists other :: other in rows && DominatesBy(other.noise, winner.noise, other, winner))
            <==> exists k: nat :: LeadsWrongly(rows, k)
  {
    var winner := VerdictOf(caseId, rows).rankings[0];
    hide VerdictOf, LeadsOver, DominatesBy;
    if other :| other in rows && DominatesBy(other.noise, winner.noise, other, winner) {
      var k := SomeRowLeads(rows);
      LeaderWins(caseId, rows, k);
      RawDominatedExactly(caseId, rows, other);
      assert LeadsWrongly(rows, k);
    }
    if k: nat :| LeadsWrongly(rows, k) {
      LeaderWins(caseId, rows, k);
      var i :| 0 <= i < |rows| && NoiselessRival(rows[i], rows[k]);
      RawDominatedExactly(caseId, rows, rows[i]);
      assert rows[i] in rows;
    }
  }

  /** The failing case: an arm without any noise loses to one that is half noise. */
  lemma ZeroNoiseLoses(caseId: string)
    ensures var clean := Row("a", "a", 1.0, 1.0, 1.0, 1.0, 0.0, 5.0);
            var noisy := Row("b", "b", 1.0, 1.0, 1.0, 1.0, 0.5, 5.0);
            VerdictOf(caseId, [clean, noisy]).oracleArmId == "b" && DominatesBy(clean.noise, noisy.noise, clean, noisy)
  {
    var clean := Row("a", "a", 1.0, 1.0, 1.0, 1.0, 0.0, 5.0);
    var noisy := Row("b", "b", 1.0, 1.0, 1.0, 1.0, 0.5, 5.0);
    WinnerLeast(caseId, [clean, noisy]);
    var winner := VerdictOf(caseId, [clean, noisy]).rankings[0];
    assert winner in multiset([clean, noisy]);
    assert noisy in [clean, noisy];
    assert !CaseLe(clean, noisy);
  }

  /** Without a zero noise among the rows the winner is undominated on the measured metrics. */
  lemma NonZeroNoiseUndominated(caseId: string, rows: seq<Row>, other: Row)
    requires other in rows && forall row :: row in rows ==> row.noise != 0.0
    ensures var winner := VerdictOf(caseId, rows).rankings[0];
            !DominatesBy(other.noise, winner.noise, other, winner)
  {
    RawDominatedExactly(caseId, rows, other);
  }

  // ----- independence of the input order -----

  lemma SameCaseIds(s: seq<Entry>, t: seq<Entry>)
    requires multiset(s) == multiset(t)
    ensures CaseIds(s) == CaseIds(t)
  {
    StringLeOrder();
    CaseIdsMeaning(s);
    CaseIdsMeaning(t);
    forall e ensures e in s <==> e in t {
      assert e in s <==> e in multiset(s);
    }
    StrictlySortedUnique(StringLe, CaseIds(s), CaseIds(t));
  }

  lemma SameCaseRows(caseId: string, s: seq<Entry>, t: seq<Entry>)
    requires multiset(s) == multiset(t)
    ensures multiset(CaseRows(caseId, s)) == multiset(CaseRows(caseId, t))
  {
    GroupPermutation(CaseIdOf, caseId, s, t);
    MapPermutation(RowOf, Group(CaseIdOf, caseId, s), Group(CaseIdOf, caseId, t));
  }

  /** Permuting the rows of a case cannot change which arm wins it, even if ids repeat. */
  lemma SameWinner(caseId: string, rows: seq<Row>, rows': seq<Row>)
    requires rows != [] && multiset(rows) == multiset(rows')
    ensures rows' != []
    ensures VerdictOf(caseId, rows).oracleArmId == VerdictOf(caseId, rows').oracleArmId
  {
    assert |rows| == |multiset(rows)| == |rows'|;
    CaseLeOrder();
    WinnerLeast(caseId, rows);
    WinnerLeast(caseId, rows');
    var w, w' := VerdictOf(caseId, rows).rankings[0], VerdictOf(caseId, rows').rankings[0];
    assert w in multiset(VerdictOf(caseId, rows).rankings);
    assert w' in multiset(VerdictOf(caseId, rows').rankings);
    assert w in rows' && w' in rows;
  }

  ghost predicate SameOracle(v: Verdict, v': Verdict) {
    v.caseId == v'.caseId && v.oracleArmId == v'.oracleArmId && multiset(v.rankings) == multiset(v'.rankings)
  }

  /** Reordering the arms changes neither the relabelled cases nor any oracle arm. */
  lemma OracleOrderIndependent(arms: seq<Arm>, arms': seq<Arm>)
    requires multiset(arms) == multiset(arms')
    ensures |Verdicts(arms)| == |Verdicts(arms')|
    ensures forall i :: 0 <= i < |Verdicts(arms)| ==> SameOracle(Verdicts(arms)[i], Verdicts(arms')[i])
  {
    var s, t := Entries(arms), Entries(arms');
    FlatMapPermutation(ArmEntries, arms, arms');
    SameCaseIds(s, t);
    var ids := CaseIds(s);
    forall i | 0 <= i < |ids| ensures SameOracle(VerdictFor(s)(ids[i]), VerdictFor(t)(ids[i])) {
      var rows, rows' := CaseRows(ids[i], s), CaseRows(ids[i], t);
      assert ids[i] in ids;
      CaseRowsNonEmpty(ids[i], s);
      SameCaseRows(ids[i], s, t);
      SameWinner(ids[i], rows, rows');
      SortPermutes(CaseLe, rows);
      SortPermutes(CaseLe, rows');
    }
  }

  function HasArm(id: string): Row -> bool {
    (row: Row) => row.armId == id
  }

  lemma {:induction false} ArmEntriesOwn(arm: Arm, cases: seq<CaseResult>)
    ensures forall e :: e in FlatMap(CaseEntries(arm), cases) ==> e.row.armId == arm.armId
  {
    if cases != [] {
      ArmEntriesOwn(arm, cases[..|cases| - 1]);
    }
  }

  lemma OwnRows(caseId: string, arm: Arm)
    ensures forall row :: row in CaseRows(caseId, ArmEntries(arm)) ==> row.armId == arm.armId
  {
    var entries := ArmEntries(arm);
    var g := Group(CaseIdOf, caseId, entries);
    ArmEntriesOwn(arm, arm.cases);
    GroupMembers(CaseIdOf, caseId, entries);
    forall row | row in CaseRows(caseId, entries) ensures row.armId == arm.armId {
      var i :| 0 <= i < |g| && CaseRows(caseId, entries)[i] == row;
      assert g[i] in g;
    }
  }

  lemma CaseRowsAppend(caseId: string, s: seq<Entry>, t: seq<Entry>)
    ensures CaseRows(caseId, s + t) == CaseRows(caseId, s) + CaseRows(caseId, t)
  {
    GroupAppend(CaseIdOf, caseId, s, t);
    MapAppend(RowOf, Group(CaseIdOf, caseId, s), Group(CaseIdOf, caseId, t));
  }

  /** The rows of one case that carry an id: what the last arm with another id adds is nothing. */
  lemma RowsOfId(caseId: string, init: seq<Arm>, last: Arm, id: string)
    ensures var own := CaseRows(caseId, ArmEntries(last));
            Filter(HasArm(id), CaseRows(caseId, Entries(init + [last])))
            == Filter(HasArm(id), CaseRows(caseId, Entries(init))) + (if last.armId == id then own else [])
  {
    var own := CaseRows(caseId, ArmEntries(last));
    assert (init + [last])[..|init|] == init;
    CaseRowsAppend(caseId, Entries(init), ArmEntries(last));
    FilterAppend(HasArm(id), CaseRows(caseId, Entries(init)), own);
    OwnRows(caseId, last);
    if last.armId == id {
      FilterAll(HasArm(id), own);
    } else {
      FilterEmpty(HasArm(id), own);
    }
  }

  lemma {:induction false} ForeignId(caseId: string, arms: seq<Arm>, id: string)
    requires forall arm :: arm in arms ==> arm.armId != id
    ensures Filter(HasArm(id), CaseRows(caseId, Entries(arms))) == []
  {
    if arms != [] {
      var init, last := arms[..|arms| - 1], arms[|arms| - 1];
      assert arms == init + [last];
      ForeignId(caseId, init, id);
      RowsOfId(caseId, init, last, id);
    }
  }

  /** With distinct ids the rows that carry an id are those of one arm, in that arm's order. */
  lemma {:induction false} RowsOfArm(caseId: string, arms: seq<Arm>, arm: Arm)
    requires Distinct(Map(ArmIdOf, arms)) && arm in arms
    ensures Filter(HasArm(arm.armId), CaseRows(caseId, Entries(arms))) == CaseRows(caseId, ArmEntries(arm))
  {
    var init, last := arms[..|arms| - 1], arms[|arms| - 1];
    assert arms == init + [last];
    assert forall i :: 0 <= i < |init| ==> Map(ArmIdOf, arms)[i] == init[i].armId;
    RowsOfId(caseId, init, last, arm.armId);
    if arm == last {
      ForeignId(caseId, init, arm.armId);
    } else {
      assert Map(ArmIdOf, init) == Map(ArmIdOf, arms)[..|init|];
      RowsOfArm(caseId, init, arm);
    }
  }

  lemma SameRowsOfId(caseId: string, arms: seq<Arm>, arms': seq<Arm>, id: string)
    requires multiset(arms) == multiset(arms') && Distinct(Map(ArmIdOf, arms))
    ensures Filter(HasArm(id), CaseRows(caseId, Entries(arms))) == Filter(HasArm(id), CaseRows(caseId, Entries(arms')))
  {
    forall arm ensures arm in arms <==> arm in arms' {
      assert arm in arms <==> arm in multiset(arms);
    }
    if arm :| arm in arms && arm.armId == id {
      MapPermutation(ArmIdOf, arms, arms');
      DistinctPermutation(Map(ArmIdOf, arms), Map(ArmIdOf, arms'));
      RowsOfArm(caseId, arms, arm);
      RowsOfArm(caseId, arms', arm);
    } else {
      ForeignId(caseId, arms, id);
      ForeignId(caseId, arms', id);
    }
  }

  /** Rows that tie share the arm, and the rows of one arm keep their order: the ranking of a case
      does not depend on the order of the arms, even if an arm reports the case several times. */
  lemma SameRanking(caseId: string, arms: seq<Arm>, arms': seq<Arm>)
    requires multiset(arms) == multiset(arms') && Distinct(Map(ArmIdOf, arms))
    ensures Sort(CaseLe, CaseRows(caseId, Entries(arms))) == Sort(CaseLe, CaseRows(caseId, Entries(arms')))
  {
    var rows, rows' := CaseRows(caseId, Entries(arms)), CaseRows(caseId, Entries(arms'));
    CaseLeOrder();
    forall x ensures Filter(TieOf(CaseLe, x), rows) == Filter(TieOf(CaseLe, x), rows') {
      FilterStronger(TieOf(CaseLe, x), HasArm(x.armId), rows);
      FilterStronger(TieOf(CaseLe, x), HasArm(x.armId), rows');
      SameRowsOfId(caseId, arms, arms', x.armId);
    }
    SortTiesInvariant(CaseLe, rows, rows');
  }

  /** With distinct arm ids the complete verdicts, rankings included, are independent of the order
      in which the arms were run. */
  lemma VerdictsOrderIndependent(arms: seq<Arm>, arms': seq<Arm>)
    requires multiset(arms) == multiset(arms') && Distinct(Map(ArmIdOf, arms))
    ensures Verdicts(arms) == Verdicts(arms')
  {
    var s, t := Entries(arms), Entries(arms');
    FlatMapPermutation(ArmEntries, arms, arms');
    SameCaseIds(s, t);
    var ids := CaseIds(s);
    forall i | 0 <= i < |ids| ensures VerdictFor(s)(ids[i]) == VerdictFor(t)(ids[i]) {
      SameRanking(ids[i], arms, arms');
      SortPermutes(CaseLe, CaseRows(ids[i], s));
      SortPermutes(CaseLe, CaseRows(ids[i], t));
    }
  }

  /** The catalog enforces such ids: whatever order its arms are run in, the verdicts are the same. */
  lemma CatalogVerdicts(catalog: seq<Option<string>>, arms: seq<Arm>, arms': seq<Arm>)
    requires Swept(arms, catalog) && multiset(arms) == multiset(arms')
    ensures Swept(arms', catalog) && Verdicts(arms) == Verdicts(arms')
  {
    DistinctPermutation(GivenIds(catalog), Map(ArmIdOf, arms));
    MapPermutation(ArmIdOf, arms, arms');
    VerdictsOrderIndependent(arms, arms');
  }

  // ----- the leaderboard -----

  /** At least as good everywhere and better somewhere, with the noise read as given. */
  predicate ArmDominatesBy(noiseA: real, noiseB: real, a: ArmResult, b: ArmResult) {
    && SuccessRate(a) >= SuccessRate(b) && a.precision >= b.precision
    && noiseA <= noiseB && a.latencyP95 <= b.latencyP95
    && (SuccessRate(a) > SuccessRate(b) || a.precision > b.precision || noiseA < noiseB || a.latencyP95 < b.latencyP95)
  }

  /** No arm beats the head of the leaderboard, and none dominates it on success rate, precision,
      effective noise and latency. */
  lemma BestArmLeast(results: seq<ArmResult>, other: ArmResult)
    requires other in results
    ensures var board := Leaderboard(results);
            && board != [] && board[0] in results && BestArmId(results) == board[0].armId
            && OverallLe(board[0], other)
            && !ArmDominatesBy(EffectiveNoise(other.noise), EffectiveNoise(board[0].noise), other, board[0])
  {
    OverallLeOrder();
    SortPermutes(OverallLe, results);
    SortSorted(OverallLe, results);
    SortMember(OverallLe, results, other);
    FirstIsLeast(OverallLe, Leaderboard(results), other);
    SortMember(OverallLe, results, Leaderboard(results)[0]);
  }

  /** On the measured noise an arm dominates the best one exactly when it has no noise where the
      best one has some, up to one, the two tie on success rate and precision, and it is no slower. */
  lemma RawBestArmExactly(results: seq<ArmResult>, other: ArmResult)
    requires other in results
    ensures var board := Leaderboard(results);
            && board != []
            && (ArmDominatesBy(other.noise, board[0].noise, other, board[0]) <==>
                && other.noise == 0.0 && 0.0 < board[0].noise <= 1.0
                && SuccessRate(other) == SuccessRate(board[0]) && other.precision == board[0].precision
                && other.latencyP95 <= board[0].latencyP95)
  {
    BestArmLeast(results, other);
  }

  ghost predicate DistinctIds(results: seq<ArmResult>) {
    forall a, b :: a in results && b in results && a.armId == b.armId ==> a == b
  }

  /** With distinct arm ids the leaderboard does not depend on the order of the results. */
  lemma LeaderboardOrderIndependent(results: seq<ArmResult>, results': seq<ArmResult>)
    requires multiset(results) == multiset(results') && DistinctIds(results)
    ensures Leaderboard(results) == Leaderboard(results')
  {
    OverallLeOrder();
    SortInvariant(OverallLe, results, results');
  }

  // ----- the distribution -----

  function WinCount(verdicts: seq<Verdict>): string -> int {
    (id: string) => WinsOf(id, verdicts)
  }

  lemma {:induction false} GroupSize(id: string, verdicts: seq<Verdict>)
    ensures Total(One, Group(WinnerId, id, verdicts)) == WinsOf(id, verdicts)
  {
    OnesCount(Group(WinnerId, id, verdicts));
  }

  lemma {:induction false} NamedWinsOf(id: string, verdicts: seq<Verdict>)
    ensures WinsOf(id, Filter(HasWinnerId, verdicts)) == if id == "" then 0 else WinsOf(id, verdicts)
  {
    if verdicts != [] {
      var init, last := verdicts[..|verdicts| - 1], verdicts[|verdicts| - 1];
      NamedWinsOf(id, init);
      var kept := Filter(HasWinnerId, init);
      if HasWinnerId(last) {
        assert (kept + [last])[..|kept|] == kept;
      } else {
        assert kept + [] == kept;
      }
    }
  }

  lemma {:induction false} NamedVerdicts(verdicts: seq<Verdict>)
    ensures |Filter(HasWinnerId, verdicts)| == Count(HasWinnerId, verdicts)
  {
    if verdicts != [] {
      NamedVerdicts(verdicts[..|verdicts| - 1]);
    }
  }

  /** Over any enumeration of the winning ids the wins add up to the number of cases with a
      non-blank oracle id, and so to `case_count` exactly when every oracle id is non-blank. */
  lemma DistributionTotal(verdicts: seq<Verdict>, ids: seq<string>)
    requires Distinct(ids) && "" !in ids
    requires forall v :: v in verdicts && HasWinnerId(v) ==> WinnerId(v) in ids
    ensures Total(WinCount(verdicts), ids) == Count(HasWinnerId, verdicts)
    ensures Total(WinCount(verdicts), ids) == |verdicts| <==> forall v :: v in verdicts ==> HasWinnerId(v)
  {
    var named := Filter(HasWinnerId, verdicts);
    FilterMembers(HasWinnerId, verdicts);
    GroupTotalsToWhole(WinnerId, One, named, ids);
    OnesCount(named);
    NamedVerdicts(verdicts);
    var g := GroupTotal(WinnerId, One, named);
    forall id | id in ids ensures g(id) == WinCount(verdicts)(id) {
      GroupSize(id, named);
      NamedWinsOf(id, verdicts);
    }
    TotalCongruent(g, WinCount(verdicts), ids);
    CountFull(HasWinnerId, verdicts);
  }

  lemma {:induction false} EntryFromArm(arms: seq<Arm>)
    ensures forall e :: e in Entries(arms) ==> e.row.armId in Map(ArmIdOf, arms)
  {
    if arms != [] {
      var init, last := arms[..|arms| - 1], arms[|arms| - 1];
      EntryFromArm(init);
      ArmEntriesOwn(last, last.cases);
      assert Map(ArmIdOf, arms) == Map(ArmIdOf, init) + [last.armId];
    }
  }

  lemma {:induction false} GivenIdsStripped(catalog: seq<Option<string>>)
    ensures forall id :: id in GivenIds(catalog) ==> Strip(id) == id
  {
    if catalog != [] {
      GivenIdsStripped(catalog[..|catalog| - 1]);
      if catalog[|catalog| - 1].Some? {
        StripIdempotent(catalog[|catalog| - 1].value);
      }
    }
  }

  lemma RowFromArm(caseId: string, arms: seq<Arm>, row: Row)
    requires row in CaseRows(caseId, Entries(arms))
    ensures row.armId in Map(ArmIdOf, arms)
  {
    var g := Group(CaseIdOf, caseId, Entries(arms));
    GroupMembers(CaseIdOf, caseId, Entries(arms));
    var k :| 0 <= k < |g| && CaseRows(caseId, Entries(arms))[k] == row;
    assert g[k] in g;
    EntryFromArm(arms);
  }

  lemma OracleFromRow(caseId: string, rows: seq<Row>)
    requires rows != []
    ensures exists row :: row in rows && row.armId == VerdictOf(caseId, rows).oracleArmId
  {
    var winner := Sort(CaseLe, rows)[0];
    SortMember(CaseLe, rows, winner);
  }

  lemma VerdictCase(arms: seq<Arm>, v: Verdict) returns (caseId: string)
    requires v in Verdicts(arms)
    ensures CaseRows(caseId, Entries(arms)) != [] && v == VerdictOf(caseId, CaseRows(caseId, Entries(arms)))
  {
    hide VerdictOf, CaseIds, CaseRows, Entries;
    var i :| 0 <= i < |Verdicts(arms)| && Verdicts(arms)[i] == v;
    caseId := CaseIds(Entries(arms))[i];
    assert caseId in CaseIds(Entries(arms));
    CaseRowsNonEmpty(caseId, Entries(arms));
  }

  lemma OracleListed(arms: seq<Arm>, v: Verdict)
    requires v in Verdicts(arms)
    ensures v.oracleArmId in Map(ArmIdOf, arms)
  {
    hide VerdictOf, CaseRows, Verdicts, Entries;
    var caseId := VerdictCase(arms, v);
    OracleFromRow(caseId, CaseRows(caseId, Entries(arms)));
    var row :| row in CaseRows(caseId, Entries(arms)) && row.armId == v.oracleArmId;
    RowFromArm(caseId, arms, row);
  }

  /** Every case of a sweep over a catalog is won by an arm of the catalog. */
  lemma WinnerListed(catalog: seq<Option<string>>, arms: seq<Arm>, v: Verdict)
    requires Swept(arms, catalog) && v in Verdicts(arms)
    ensures HasWinnerId(v) && WinnerId(v) == v.oracleArmId && v.oracleArmId in GivenIds(catalog)
  {
    OracleListed(arms, v);
    GivenIdsStripped(catalog);
    hide Verdicts, Strip;
    assert v.oracleArmId in multiset(Map(ArmIdOf, arms));
  }

  function CountIn(distribution: map<string, nat>): string -> int {
    (id: string) => if id in distribution then distribution[id] else 0
  }

  /** The keys of the reported distribution, in the order in which it is written. */
  function Winners(verdicts: seq<Verdict>): seq<string> {
    SortedSet(StringLe, Map(WinnerId, Filter(HasWinnerId, verdicts)))
  }

  /** For a sweep over a catalog the distribution lists exactly the winning arms, and its values
      add up to `case_count`. */
  lemma CatalogDistribution(catalog: seq<Option<string>>, arms: seq<Arm>, distribution: map<string, nat>)
    requires Swept(arms, catalog) && Counted(distribution, Verdicts(arms))
    ensures var ids := Winners(Verdicts(arms));
            && StrictlySorted(StringLe, ids) && (forall id :: id in ids <==> id in distribution)
            && Total(CountIn(distribution), ids) == |Verdicts(arms)|
  {
    var verdicts, ids := Verdicts(arms), Winners(Verdicts(arms));
    forall v | v in verdicts ensures HasWinnerId(v) {
      WinnerListed(catalog, arms, v);
    }
    WinnersMeaning(verdicts);
    DistributionTotal(verdicts, ids);
    TotalCongruent(CountIn(distribution), WinCount(verdicts), ids);
    hide Verdicts, Winners;
  }

  ghost predicate WonBy(id: string, verdicts: seq<Verdict>) {
    exists v :: v in verdicts && WinnerId(v) == id
  }

  lemma WinsSome(id: string, verdicts: seq<Verdict>)
    ensures WinsOf(id, verdicts) > 0 <==> WonBy(id, verdicts)
  {
    GroupMembers(WinnerId, id, verdicts);
    var group := Group(WinnerId, id, verdicts);
    if group != [] {
      assert group[0] in group;
    }
  }

  lemma NamedWinner(id: string, verdicts: seq<Verdict>)
    ensures id in Map(WinnerId, Filter(HasWinnerId, verdicts)) <==> id != "" && WonBy(id, verdicts)
  {
    var named := Filter(HasWinnerId, verdicts);
    FilterMembers(HasWinnerId, verdicts);
    hide WinnerId, Filter;
    MapMember(WinnerId, named, id);
  }

  lemma WinnersMeaning(verdicts: seq<Verdict>)
    ensures StrictlySorted(StringLe, Winners(verdicts))
    ensures forall id :: id in Winners(verdicts) <==> id != "" && WinsOf(id, verdicts) > 0
    ensures forall v :: v in verdicts && HasWinnerId(v) ==> WinnerId(v) in Winners(verdicts)
  {
    StringLeOrder();
    SortedSetMeaning(StringLe, Map(WinnerId, Filter(HasWinnerId, verdicts)));
    hide SortedSet, WinsOf, WinnerId;
    forall id
      ensures id in Winners(verdicts) <==> id != "" && WonBy(id, verdicts)
      ensures WinsOf(id, verdicts) > 0 <==> WonBy(id, verdicts)
    {
      WinsSome(id, verdicts);
      NamedWinner(id, verdicts);
    }
  }
}
