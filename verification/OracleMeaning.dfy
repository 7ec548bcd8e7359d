/** Which arm wins, in terms of the results the arms report. */
module OracleMeaning {
  import opened Prelude
  import opened Sequences
  import opened Ordering
  import opened Text
  import opened ArmSweeper
  import opened OracleWinner

  // ----- the catalog -----

  /** The arm ids of a catalog are those of its objects, trimmed, in order; other entries are ignored. */
  lemma CatalogIds(catalog: seq<Option<string>>, entry: Option<string>)
    ensures GivenIds([]) == []
    ensures GivenIds(catalog + [entry]) == GivenIds(catalog) + (if entry.Some? then [Strip(entry.value)] else [])
  {
    assert (catalog + [entry])[..|catalog|] == catalog;
  }

  // ----- the priority of the metrics -----

  /** A noise of zero is read as one. */
  ghost predicate ReadNoise(noise: real, read: real) {
    if noise == 0.0 then read == 1.0 else read == noise
  }

  ghost predicate QuieterOrFaster(w: Row, r: Row) {
    forall nw, nr :: ReadNoise(w.noise, nw) && ReadNoise(r.noise, nr) ==>
      && nw <= nr
      && (nw == nr ==> w.latency <= r.latency)
      && (nw == nr && w.latency == r.latency ==> StringLe(w.armId, r.armId))
  }

  /** w is no worse than r: in task success; if those are equal in recall; if those are equal too
      in precision; then in dependency recall; then in noise, latency and arm id. */
  ghost predicate NoWorse(w: Row, r: Row) {
    && w.success >= r.success
    && (w.success == r.success ==> w.recall >= r.recall)
    && (w.success == r.success && w.recall == r.recall ==> w.precision >= r.precision)
    && (w.success == r.success && w.recall == r.recall && w.precision == r.precision ==> w.dependency >= r.dependency)
    && (w.success == r.success && w.recall == r.recall && w.precision == r.precision && w.dependency == r.dependency
        ==> QuieterOrFaster(w, r))
  }

  lemma CaseLeNoWorse(w: Row, r: Row)
    requires CaseLe(w, r)
    ensures NoWorse(w, r)
  {
    hide StringLe;
  }

  /** The ranking of a case goes by this priority, and its winner is no worse than any row. */
  lemma RankedByPriority(caseId: string, rows: seq<Row>)
    requires rows != []
    ensures var v := VerdictOf(caseId, rows);
            && v.rankings != [] && v.oracleArmId == v.rankings[0].armId && v.oracleLabel == v.rankings[0].caption
            && (forall i, j :: 0 <= i < j < |v.rankings| ==> NoWorse(v.rankings[i], v.rankings[j]))
            && forall r :: r in rows ==> NoWorse(v.rankings[0], r)
  {
    WinnerLeast(caseId, rows);
    var v := VerdictOf(caseId, rows);
    hide VerdictOf, NoWorse, CaseLe;
    forall i, j | 0 <= i < j < |v.rankings| ensures NoWorse(v.rankings[i], v.rankings[j]) {
      CaseLeNoWorse(v.rankings[i], v.rankings[j]);
    }
    forall r | r in rows ensures NoWorse(v.rankings[0], r) {
      CaseLeNoWorse(v.rankings[0], r);
    }
  }

  // ----- the rows of a case -----

  /** The arm reports this row for this case. */
  ghost predicate Reports(arm: Arm, caseId: string, row: Row) {
    exists c :: c in arm.cases && Strip(c.caseId) == caseId && Carries(row, arm, c)
  }

  /** The row carries the arm's id and label and the numbers of this result. */
  predicate Carries(row: Row, arm: Arm, c: CaseResult) {
    && row.armId == arm.armId && row.caption == arm.caption
    && row.success == c.success && row.recall == c.recall && row.precision == c.precision
    && row.dependency == c.dependency && row.noise == c.noise && row.latency == c.latency
  }

  ghost predicate Reported(arms: seq<Arm>, caseId: string, row: Row) {
    exists arm :: arm in arms && Reports(arm, caseId, row)
  }

  lemma {:induction false} CaseEntriesFrom(arm: Arm, cases: seq<CaseResult>, e: Entry)
    ensures e in FlatMap(CaseEntries(arm), cases) <==>
            e.caseId != "" && exists c :: c in cases && Strip(c.caseId) == e.caseId && e == EntryOf(arm, c)
  {
    if cases != [] {
      var init, last := cases[..|cases| - 1], cases[|cases| - 1];
      CaseEntriesFrom(arm, init, e);
      assert cases == init + [last];
      assert last in cases;
    }
  }

  lemma ArmEntriesFrom(arm: Arm, e: Entry)
    ensures e in ArmEntries(arm) <==> e.caseId != "" && Reports(arm, e.caseId, e.row)
  {
    CaseEntriesFrom(arm, arm.cases, e);
    assert ArmEntries(arm) == FlatMap(CaseEntries(arm), arm.cases);
    hide ArmEntries, Strip;
    if e.caseId != "" && Reports(arm, e.caseId, e.row) {
      var c :| c in arm.cases && Strip(c.caseId) == e.caseId && Carries(e.row, arm, c);
      assert e == EntryOf(arm, c);
    }
  }

  lemma {:induction false} EntriesFrom(arms: seq<Arm>, e: Entry)
    ensures e in Entries(arms) <==> e.caseId != "" && Reported(arms, e.caseId, e.row)
  {
    if arms != [] {
      var init, last := arms[..|arms| - 1], arms[|arms| - 1];
      EntriesFrom(init, e);
      ArmEntriesFrom(last, e);
      assert arms == init + [last];
      assert last in arms;
      hide Reports, ArmEntries;
    }
  }

  lemma CaseRowsFrom(arms: seq<Arm>, caseId: string, row: Row)
    ensures row in CaseRows(caseId, Entries(arms)) <==> caseId != "" && Reported(arms, caseId, row)
  {
    var entries := Entries(arms);
    var g := Group(CaseIdOf, caseId, entries);
    GroupMembers(CaseIdOf, caseId, entries);
    MapMember(RowOf, g, row);
    EntriesFrom(arms, Entry(caseId, row));
    hide Entries, Group, Reported;
    if row in CaseRows(caseId, entries) {
      var e :| e in g && RowOf(e) == row;
      assert e == Entry(caseId, row);
    }
    if Entry(caseId, row) in entries {
      assert RowOf(Entry(caseId, row)) == row;
    }
  }

  /** A verdict ranks exactly the rows the arms report for its case. */
  lemma VerdictRanksReported(arms: seq<Arm>, v: Verdict, row: Row)
    requires v in Verdicts(arms)
    ensures v.caseId != "" && (row in v.rankings <==> Reported(arms, v.caseId, row))
  {
    hide VerdictOf, CaseRows, Verdicts, Entries, Reported;
    var caseId := VerdictCase(arms, v);
    var rows := CaseRows(caseId, Entries(arms));
    WinnerLeast(caseId, rows);
    VerdictNames(caseId, rows);
    CaseRowsFrom(arms, caseId, row);
    CaseRowsFrom(arms, caseId, rows[0]);
    assert row in v.rankings <==> row in multiset(v.rankings);
    assert row in rows <==> row in multiset(rows);
  }

  lemma VerdictNames(caseId: string, rows: seq<Row>)
    requires rows != []
    ensures VerdictOf(caseId, rows).caseId == caseId
  {
  }

  /** There is exactly one verdict for every case that some arm reports, in the order of the ids. */
  lemma OneVerdictPerCase(arms: seq<Arm>)
    ensures forall i, j :: 0 <= i < j < |Verdicts(arms)| ==>
              && Verdicts(arms)[i].caseId != Verdicts(arms)[j].caseId
              && StringLe(Verdicts(arms)[i].caseId, Verdicts(arms)[j].caseId)
    ensures forall caseId, row :: caseId != "" && Reported(arms, caseId, row) ==>
              exists v :: v in Verdicts(arms) && v.caseId == caseId
  {
    var ids := CaseIds(Entries(arms));
    VerdictIds(arms);
    CaseIdsMeaning(Entries(arms));
    hide Reported, Verdicts, Entries, CaseIds;
    forall i, j | 0 <= i < j < |ids| ensures ids[i] != ids[j] && StringLe(ids[i], ids[j]) {
    }
    forall caseId, row | caseId != "" && Reported(arms, caseId, row)
      ensures exists v :: v in Verdicts(arms) && v.caseId == caseId
    {
      EntriesFrom(arms, Entry(caseId, row));
      var e := Entry(caseId, row);
      assert e in Entries(arms) && e.caseId == caseId;
      assert caseId in ids;
      var i :| 0 <= i < |ids| && ids[i] == caseId;
      assert Verdicts(arms)[i] in Verdicts(arms);
    }
  }

  lemma VerdictIds(arms: seq<Arm>)
    ensures |Verdicts(arms)| == |CaseIds(Entries(arms))|
    ensures forall i :: 0 <= i < |Verdicts(arms)| ==> Verdicts(arms)[i].caseId == CaseIds(Entries(arms))[i]
  {
    hide CaseRows, Entries, CaseIds;
  }

  // ----- the leaderboard -----

  /** The success rate that the summary carries, else the one among the metrics, else zero. */
  ghost predicate Rated(r: ArmResult, rate: real) {
    if r.summaryRate.Some? then r.summaryRate == Some(rate)
    else if r.metricRate.Some? then r.metricRate == Some(rate)
    else rate == 0.0
  }

  /** w is no worse than r: in success rate; if those are equal in precision; then in noise, with
      zero read as one; then in latency; then in arm id. */
  ghost predicate ArmNoWorse(w: ArmResult, r: ArmResult) {
    forall sw, sr, nw, nr :: Rated(w, sw) && Rated(r, sr) && ReadNoise(w.noise, nw) && ReadNoise(r.noise, nr) ==>
      && sw >= sr
      && (sw == sr ==> w.precision >= r.precision)
      && (sw == sr && w.precision == r.precision ==> nw <= nr)
      && (sw == sr && w.precision == r.precision && nw == nr ==> w.latencyP95 <= r.latencyP95)
      && (sw == sr && w.precision == r.precision && nw == nr && w.latencyP95 == r.latencyP95
          ==> StringLe(w.armId, r.armId))
  }

  lemma OverallLeNoWorse(w: ArmResult, r: ArmResult)
    requires OverallLe(w, r)
    ensures ArmNoWorse(w, r)
  {
    hide StringLe;
  }

  /** The leaderboard goes by this priority, and its head is no worse than any arm. */
  lemma BoardByPriority(results: seq<ArmResult>)
    ensures var board := Leaderboard(results);
            && multiset(board) == multiset(results)
            && (forall i, j :: 0 <= i < j < |board| ==> ArmNoWorse(board[i], board[j]))
            && (results != [] ==> board != [] && BestArmId(results) == board[0].armId)
            && (results == [] ==> BestArmId(results) == "")
  {
    OverallLeOrder();
    SortPermutes(OverallLe, results);
    SortSorted(OverallLe, results);
    var board := Leaderboard(results);
    hide ArmNoWorse, OverallLe;
    forall i, j | 0 <= i < j < |board| ensures ArmNoWorse(board[i], board[j]) {
      OverallLeNoWorse(board[i], board[j]);
    }
  }
}
