/** Group-by aggregates of scripts/build_academic_optimization_report.py. */
module AcademicReport {
  import opened Prelude
  import opened Sequences
  import opened Ordering
  import opened Text

  datatype Metric =
    | PrecisionAtK | NoiseRate | LatencyMs | HitAt1 | ReciprocalRank | ChunkHitAtK | DependencyRecall | TaskSuccessHit

  const TRACKED: seq<Metric> :=
    [PrecisionAtK, NoiseRate, LatencyMs, HitAt1, ReciprocalRank, ChunkHitAtK, DependencyRecall, TaskSuccessHit]

  datatype Row = Row(caseId: string, metrics: map<Metric, real>, provider: string, mode: string)

  datatype Metadata = Metadata(surface: string, bucket: string)

  type Catalog = map<string, Metadata>

  function MetricOf(metric: Metric): Row -> real {
    (r: Row) => if metric in r.metrics then r.metrics[metric] else 0.0
  }

  // ----- group names -----

  datatype Axis = Surface | Bucket

  function OrUnknown(s: string): string {
    if Strip(s) == "" then "(unknown)" else Strip(s)
  }

  function MetadataOf(catalog: Catalog, r: Row): Metadata {
    if Strip(r.caseId) in catalog then catalog[Strip(r.caseId)] else Metadata("", "")
  }

  function AxisOf(axis: Axis, catalog: Catalog): Row -> string {
    (r: Row) => match axis
                case Surface => OrUnknown(MetadataOf(catalog, r).surface)
                case Bucket => OrUnknown(MetadataOf(catalog, r).bucket)
  }

  datatype Cell = Cell(surface: string, bucket: string)

  function CellOf(catalog: Catalog): Row -> Cell {
    (r: Row) => Cell(OrUnknown(MetadataOf(catalog, r).surface), OrUnknown(MetadataOf(catalog, r).bucket))
  }

  function CellName(axis: Axis): Cell -> string {
    (c: Cell) => match axis case Surface => c.surface case Bucket => c.bucket
  }

  // ----- aggregates -----

  datatype Aggregate = Aggregate(caseCount: nat, caseIds: seq<string>, means: map<Metric, real>)

  function IdOf(r: Row): string {
    Strip(r.caseId)
  }

  function AggregateOf(rows: seq<Row>): Aggregate {
    Aggregate(|rows|, Sort(StringLe, Filter(IsNonEmpty, Map(IdOf, rows))),
              map metric | metric in TRACKED :: Mean(MetricOf(metric), rows))
  }

  datatype GroupRow = GroupRow(group: string, aggregate: Aggregate)

  datatype CellRow = CellRow(cell: Cell, aggregate: Aggregate)

  /** Larger groups first, then by name. */
  predicate GroupRowLe(a: GroupRow, b: GroupRow) {
    a.aggregate.caseCount > b.aggregate.caseCount
    || (a.aggregate.caseCount == b.aggregate.caseCount && StringLe(a.group, b.group))
  }

  predicate CellRowLe(a: CellRow, b: CellRow) {
    if a.cell.surface == b.cell.surface then StringLe(a.cell.bucket, b.cell.bucket)
    else StringLe(a.cell.surface, b.cell.surface)
  }

  function GroupRowFor(axis: Axis, catalog: Catalog, rows: seq<Row>): string -> GroupRow {
    (name: string) => GroupRow(name, AggregateOf(Group(AxisOf(axis, catalog), name, rows)))
  }

  function CellRowFor(catalog: Catalog, rows: seq<Row>): Cell -> CellRow {
    (cell: Cell) => CellRow(cell, AggregateOf(Group(CellOf(catalog), cell, rows)))
  }

  /** The rows of the by-surface or by-bucket table. */
  function GroupRows(axis: Axis, catalog: Catalog, rows: seq<Row>): seq<GroupRow> {
    Sort(GroupRowLe, Map(GroupRowFor(axis, catalog, rows), Keys(AxisOf(axis, catalog), rows)))
  }

  /** The rows of the surface-by-bucket matrix. */
  function CellRows(catalog: Catalog, rows: seq<Row>): seq<CellRow> {
    Sort(CellRowLe, Map(CellRowFor(catalog, rows), Keys(CellOf(catalog), rows)))
  }

  method ComputeMean(metric: Metric, rows: seq<Row>) returns (mean: real)
    ensures mean == Mean(MetricOf(metric), rows)
  {
    if rows == [] {
      return 0.0;
    }
    var sum := 0.0;
    for i := 0 to |rows|
      invariant sum == Sum(MetricOf(metric), rows[..i])
    {
      assert rows[..i + 1][..i] == rows[..i];
      sum := sum + MetricOf(metric)(rows[i]);
    }
    assert rows[..|rows|] == rows;
    mean := sum / |rows| as real;
  }

  method CollectIds(rows: seq<Row>) returns (caseIds: seq<string>)
    ensures caseIds == Filter(IsNonEmpty, Map(IdOf, rows))
  {
    caseIds := [];
    for i := 0 to |rows|
      invariant caseIds == Filter(IsNonEmpty, Map(IdOf, rows[..i]))
    {
      MapSnoc(IdOf, rows, i);
      assert Map(IdOf, rows[..i + 1])[..i] == Map(IdOf, rows[..i]);
      var caseId := Strip(rows[i].caseId);
      if caseId != "" {
        caseIds := caseIds + [caseId];
      }
    }
    assert rows[..|rows|] == rows;
  }

  method ComputeMeans(rows: seq<Row>) returns (means: map<Metric, real>)
    ensures means == map metric | metric in TRACKED :: Mean(MetricOf(metric), rows)
  {
    hide Mean;
    means := map[];
    for i := 0 to |TRACKED|
      invariant means == map metric | metric in TRACKED[..i] :: Mean(MetricOf(metric), rows)
    {
      var mean := ComputeMean(TRACKED[i], rows);
      means := means[TRACKED[i] := mean];
      PrefixStep(TRACKED, i);
    }
    assert TRACKED[..|TRACKED|] == TRACKED;
  }

  method AggregateGroup(rows: seq<Row>) returns (a: Aggregate)
    ensures a == AggregateOf(rows)
  {
    hide Mean, Filter, Sort;
    var caseIds := CollectIds(rows);
    var means := ComputeMeans(rows);
    a := Aggregate(|rows|, Sort(StringLe, caseIds), means);
  }

  method AggregateRows(axis: Axis, catalog: Catalog, rows: seq<Row>) returns (table: seq<GroupRow>)
    ensures table == GroupRows(axis, catalog, rows)
  {
    hide AggregateOf, AxisOf;
    var order, buckets := GroupInto(AxisOf(axis, catalog), rows);
    var aggregated := [];
    for i := 0 to |order|
      invariant aggregated == Map(GroupRowFor(axis, catalog, rows), order[..i])
    {
      MapSnoc(GroupRowFor(axis, catalog, rows), order, i);
      var a := AggregateGroup(buckets[order[i]]);
      aggregated := aggregated + [GroupRow(order[i], a)];
    }
    assert order[..|order|] == order;
    table := Sort(GroupRowLe, aggregated);
  }

  method AggregateMatrix(catalog: Catalog, rows: seq<Row>) returns (table: seq<CellRow>)
    ensures table == CellRows(catalog, rows)
  {
    hide AggregateOf, CellOf;
    var order, cells := GroupInto(CellOf(catalog), rows);
    var output := [];
    for i := 0 to |order|
      invariant output == Map(CellRowFor(catalog, rows), order[..i])
    {
      MapSnoc(CellRowFor(catalog, rows), order, i);
      var a := AggregateGroup(cells[order[i]]);
      output := output + [CellRow(order[i], a)];
    }
    assert order[..|order|] == order;
    table := Sort(CellRowLe, output);
  }

  // ----- mass: case count times mean -----

  function Mass(metric: Metric, a: Aggregate): real {
    Share(if metric in a.means then a.means[metric] else 0.0, a.caseCount)
  }

  lemma EveryMetric(metric: Metric)
    ensures metric in TRACKED
  {
    match metric
    case PrecisionAtK => assert TRACKED[0] == metric;
    case NoiseRate => assert TRACKED[1] == metric;
    case LatencyMs => assert TRACKED[2] == metric;
    case HitAt1 => assert TRACKED[3] == metric;
    case ReciprocalRank => assert TRACKED[4] == metric;
    case ChunkHitAtK => assert TRACKED[5] == metric;
    case DependencyRecall => assert TRACKED[6] == metric;
    case TaskSuccessHit => assert TRACKED[7] == metric;
  }

  lemma MassIsSum(metric: Metric, rows: seq<Row>)
    ensures Mass(metric, AggregateOf(rows)) == Sum(MetricOf(metric), rows)
  {
    EveryMetric(metric);
    MeanTimesCount(MetricOf(metric), rows);
    hide Mean, TRACKED, Share;
    assert AggregateOf(rows).means[metric] == Mean(MetricOf(metric), rows);
  }

  /** The share of a cell in the group `name` of an axis: everything or nothing. */
  function MassIn(metric: Metric, axis: Axis, name: string): CellRow -> real {
    (row: CellRow) => if CellName(axis)(row.cell) == name then Mass(metric, row.aggregate) else 0.0
  }

  /** The same for a whole number read off an aggregate. */
  function FigureIn(figure: Aggregate -> int, axis: Axis, name: string): CellRow -> int {
    (row: CellRow) => if CellName(axis)(row.cell) == name then figure(row.aggregate) else 0
  }

  function MassOf(metric: Metric): CellRow -> real {
    (row: CellRow) => Mass(metric, row.aggregate)
  }

  function FigureOf(figure: Aggregate -> int): CellRow -> int {
    (row: CellRow) => figure(row.aggregate)
  }

  function CaseCount(a: Aggregate): int {
    a.caseCount
  }

  /** How often a case id is listed. */
  function Listed(id: string): Aggregate -> int {
    (a: Aggregate) => multiset(a.caseIds)[id]
  }

  function IsCase(id: string): Row -> int {
    (r: Row) => if id != "" && IdOf(r) == id then 1 else 0
  }

  /** This figure of an aggregate is a total over its rows. */
  ghost predicate Sums(f: Row -> int, figure: Aggregate -> int) {
    forall rows :: figure(AggregateOf(rows)) == Total(f, rows)
  }

  lemma CaseCountSums()
    ensures Sums(One, CaseCount)
  {
    forall rows: seq<Row> ensures CaseCount(AggregateOf(rows)) == Total(One, rows) {
      OnesCount(rows);
    }
  }

  lemma {:induction false} IdsListed(id: string, rows: seq<Row>)
    ensures multiset(Filter(IsNonEmpty, Map(IdOf, rows)))[id] == Total(IsCase(id), rows)
  {
    if rows != [] {
      var init := rows[..|rows| - 1];
      IdsListed(id, init);
      assert Map(IdOf, rows)[..|init|] == Map(IdOf, init);
    }
  }

  lemma ListedSums(id: string)
    ensures Sums(IsCase(id), Listed(id))
  {
    forall rows: seq<Row> ensures Listed(id)(AggregateOf(rows)) == Total(IsCase(id), rows) {
      IdsListed(id, rows);
      SortPermutes(StringLe, Filter(IsNonEmpty, Map(IdOf, rows)));
    }
  }

  /** Sums over the printed matrix are sums over the cells in any order. */
  lemma CellRowsUnsorted(catalog: Catalog, rows: seq<Row>)
    ensures multiset(CellRows(catalog, rows)) == multiset(Map(CellRowFor(catalog, rows), Keys(CellOf(catalog), rows)))
  {
    SortPermutes(CellRowLe, Map(CellRowFor(catalog, rows), Keys(CellOf(catalog), rows)));
  }

  lemma GroupOfCells(axis: Axis, catalog: Catalog, rows: seq<Row>, name: string, cell: Cell)
    ensures Group(CellOf(catalog), cell, Group(AxisOf(axis, catalog), name, rows))
         == if CellName(axis)(cell) == name then Group(CellOf(catalog), cell, rows) else []
  {
    NestedGroup(CellOf(catalog), AxisOf(axis, catalog), CellName(axis), cell, name, rows);
  }

  lemma CellsOfGroup(axis: Axis, catalog: Catalog, rows: seq<Row>, name: string)
    ensures forall r :: r in Group(AxisOf(axis, catalog), name, rows) ==>
            CellOf(catalog)(r) in Keys(CellOf(catalog), rows)
    ensures Distinct(Keys(CellOf(catalog), rows))
  {
    GroupMembers(AxisOf(axis, catalog), name, rows);
    KeysMeaning(CellOf(catalog), rows);
  }

  /** Figures of the cells of a surface, or of a bucket, add up to that group's. */
  lemma CellFiguresMarginal(
    f: Row -> int, figure: Aggregate -> int, axis: Axis, catalog: Catalog, rows: seq<Row>, name: string)
    requires Sums(f, figure)
    ensures Total(FigureIn(figure, axis, name), CellRows(catalog, rows))
         == figure(AggregateOf(Group(AxisOf(axis, catalog), name, rows)))
  {
    var key, members := CellOf(catalog), Group(AxisOf(axis, catalog), name, rows);
    var cells := Keys(key, rows);
    CellsOfGroup(axis, catalog, rows, name);
    GroupTotalsToWhole(key, f, members, cells);
    forall cell
      ensures GroupTotal(key, f, members)(cell) == FigureIn(figure, axis, name)(CellRowFor(catalog, rows)(cell))
    {
      GroupOfCells(axis, catalog, rows, name, cell);
      hide AggregateOf, CellOf;
    }
    hide FigureIn, CellRowFor, AggregateOf;
    TotalOfMap(FigureIn(figure, axis, name), CellRowFor(catalog, rows), GroupTotal(key, f, members), cells);
    CellRowsUnsorted(catalog, rows);
    TotalPermutation(FigureIn(figure, axis, name), CellRows(catalog, rows), Map(CellRowFor(catalog, rows), cells));
  }

  lemma CellMass(metric: Metric, axis: Axis, catalog: Catalog, rows: seq<Row>, name: string, cell: Cell)
    ensures GroupSum(CellOf(catalog), MetricOf(metric), Group(AxisOf(axis, catalog), name, rows))(cell)
         == MassIn(metric, axis, name)(CellRowFor(catalog, rows)(cell))
  {
    hide Mass, AggregateOf;
    GroupOfCells(axis, catalog, rows, name, cell);
    MassIsSum(metric, Group(CellOf(catalog), cell, rows));
  }

  /** Case count times mean, summed over the cells of a surface or bucket, is that of the group. */
  lemma CellMassMarginal(metric: Metric, axis: Axis, catalog: Catalog, rows: seq<Row>, name: string)
    ensures Sum(MassIn(metric, axis, name), CellRows(catalog, rows))
         == Mass(metric, AggregateOf(Group(AxisOf(axis, catalog), name, rows)))
  {
    var key, members := CellOf(catalog), Group(AxisOf(axis, catalog), name, rows);
    var cells := Keys(key, rows);
    CellsOfGroup(axis, catalog, rows, name);
    GroupSumsToWhole(key, MetricOf(metric), members, cells);
    MassIsSum(metric, members);
    forall cell
      ensures GroupSum(key, MetricOf(metric), members)(cell)
              == MassIn(metric, axis, name)(CellRowFor(catalog, rows)(cell))
    {
      CellMass(metric, axis, catalog, rows, name, cell);
    }
    hide MassIn, CellRowFor, Mass, AggregateOf;
    SumOfMap(MassIn(metric, axis, name), CellRowFor(catalog, rows), GroupSum(key, MetricOf(metric), members), cells);
    CellRowsUnsorted(catalog, rows);
    SumPermutation(MassIn(metric, axis, name), CellRows(catalog, rows), Map(CellRowFor(catalog, rows), cells));
  }

  /** The printed matrix is a common refinement of the by-surface and the by-bucket table: each of
      their rows is the sum of its cells, in case count, in how often it lists any case id, and in
      case count times mean. */
  lemma CellsRefineGroups(axis: Axis, catalog: Catalog, rows: seq<Row>, row: GroupRow, metric: Metric, id: string)
    requires row in GroupRows(axis, catalog, rows)
    ensures row.aggregate.caseCount == Total(FigureIn(CaseCount, axis, row.group), CellRows(catalog, rows))
    ensures Listed(id)(row.aggregate) == Total(FigureIn(Listed(id), axis, row.group), CellRows(catalog, rows))
    ensures Mass(metric, row.aggregate) == Sum(MassIn(metric, axis, row.group), CellRows(catalog, rows))
  {
    GroupRowListed(axis, catalog, rows, row);
    CaseCountSums();
    ListedSums(id);
    CellFiguresMarginal(One, CaseCount, axis, catalog, rows, row.group);
    CellFiguresMarginal(IsCase(id), Listed(id), axis, catalog, rows, row.group);
    CellMassMarginal(metric, axis, catalog, rows, row.group);
    hide GroupRows, CellRows, AggregateOf, Mass, MassIn, FigureIn, Listed, AxisOf;
  }

  lemma GroupRowListed(axis: Axis, catalog: Catalog, rows: seq<Row>, row: GroupRow)
    requires row in GroupRows(axis, catalog, rows)
    ensures row.group in Keys(AxisOf(axis, catalog), rows) && row == GroupRowFor(axis, catalog, rows)(row.group)
  {
    var names, f := Keys(AxisOf(axis, catalog), rows), GroupRowFor(axis, catalog, rows);
    SortMember(GroupRowLe, Map(f, names), row);
    var i :| 0 <= i < |names| && Map(f, names)[i] == row;
    assert names[i] in names;
  }

  lemma CellFiguresOverall(f: Row -> int, figure: Aggregate -> int, catalog: Catalog, rows: seq<Row>)
    requires Sums(f, figure)
    ensures Total(FigureOf(figure), CellRows(catalog, rows)) == figure(AggregateOf(rows))
  {
    var key := CellOf(catalog);
    var cells := Keys(key, rows);
    KeysMeaning(key, rows);
    GroupTotalsToWhole(key, f, rows, cells);
    hide AggregateOf, CellOf;
    assert forall cell :: GroupTotal(key, f, rows)(cell) == FigureOf(figure)(CellRowFor(catalog, rows)(cell));
    hide FigureOf, CellRowFor;
    TotalOfMap(FigureOf(figure), CellRowFor(catalog, rows), GroupTotal(key, f, rows), cells);
    CellRowsUnsorted(catalog, rows);
    TotalPermutation(FigureOf(figure), CellRows(catalog, rows), Map(CellRowFor(catalog, rows), cells));
  }

  lemma CellMassOverall(metric: Metric, catalog: Catalog, rows: seq<Row>)
    ensures Sum(MassOf(metric), CellRows(catalog, rows)) == Mass(metric, AggregateOf(rows))
  {
    var key := CellOf(catalog);
    var cells := Keys(key, rows);
    KeysMeaning(key, rows);
    GroupSumsToWhole(key, MetricOf(metric), rows, cells);
    MassIsSum(metric, rows);
    hide AggregateOf, Mass, CellOf;
    forall cell ensures GroupSum(key, MetricOf(metric), rows)(cell) == MassOf(metric)(CellRowFor(catalog, rows)(cell)) {
      MassIsSum(metric, Group(key, cell, rows));
    }
    hide MassOf, CellRowFor;
    SumOfMap(MassOf(metric), CellRowFor(catalog, rows), GroupSum(key, MetricOf(metric), rows), cells);
    CellRowsUnsorted(catalog, rows);
    SumPermutation(MassOf(metric), CellRows(catalog, rows), Map(CellRowFor(catalog, rows), cells));
  }

  /** Over all cells the case counts, the listed case ids and the masses add up to the overall group. */
  lemma CellsRefineOverall(catalog: Catalog, rows: seq<Row>, metric: Metric, id: string)
    ensures Total(FigureOf(CaseCount), CellRows(catalog, rows)) == AggregateOf(rows).caseCount
    ensures Total(FigureOf(Listed(id)), CellRows(catalog, rows)) == Listed(id)(AggregateOf(rows))
    ensures Sum(MassOf(metric), CellRows(catalog, rows)) == Mass(metric, AggregateOf(rows))
  {
    CaseCountSums();
    ListedSums(id);
    CellFiguresOverall(One, CaseCount, catalog, rows);
    CellFiguresOverall(IsCase(id), Listed(id), catalog, rows);
    CellMassOverall(metric, catalog, rows);
    hide AggregateOf, CellRows, Mass, MassOf, FigureOf, Listed;
  }

  // ----- order of the tables -----

  function GroupOf(row: GroupRow): string {
    row.group
  }

  lemma RowNames(axis: Axis, catalog: Catalog, rows: seq<Row>)
    ensures Map(GroupOf, Map(GroupRowFor(axis, catalog, rows), Keys(AxisOf(axis, catalog), rows)))
         == Keys(AxisOf(axis, catalog), rows)
  {
  }

  /** Every group of an axis has exactly one row, larger groups first and ties by name. */
  lemma GroupRowsOrdered(axis: Axis, catalog: Catalog, rows: seq<Row>)
    ensures Sorted(GroupRowLe, GroupRows(axis, catalog, rows))
    ensures Distinct(Map(GroupOf, GroupRows(axis, catalog, rows)))
    ensures multiset(Map(GroupOf, GroupRows(axis, catalog, rows))) == multiset(Keys(AxisOf(axis, catalog), rows))
  {
    var names, f := Keys(AxisOf(axis, catalog), rows), GroupRowFor(axis, catalog, rows);
    StringLeOrder();
    SortSorted(GroupRowLe, Map(f, names));
    SortPermutes(GroupRowLe, Map(f, names));
    RowNames(axis, catalog, rows);
    MapPermutation(GroupOf, Map(f, names), GroupRows(axis, catalog, rows));
    KeysMeaning(AxisOf(axis, catalog), rows);
    DistinctPermutation(names, Map(GroupOf, GroupRows(axis, catalog, rows)));
  }

  // ----- dominant names -----

  function ProviderOf(r: Row): string {
    if Strip(r.provider) == "" then "(none)" else Strip(r.provider)
  }

  function ModeOf(r: Row): string {
    OrUnknown(r.mode)
  }

  datatype Tally = Tally(name: string, count: nat)

  predicate TallyLe(a: Tally, b: Tally) {
    a.count > b.count || (a.count == b.count && StringLe(a.name, b.name))
  }

  function TallyFor(key: Row -> string, rows: seq<Row>): string -> Tally {
    (name: string) => Tally(name, |Group(key, name, rows)|)
  }

  function Tallies(key: Row -> string, rows: seq<Row>): seq<Tally> {
    Map(TallyFor(key, rows), Keys(key, rows))
  }

  /** The name a report row puts first. */
  function Dominant(key: Row -> string, rows: seq<Row>): string {
    SortPermutes(TallyLe, Tallies(key, rows));
    if rows == [] || Tallies(key, rows) == [] then "" else Sort(TallyLe, Tallies(key, rows))[0].name
  }

  method ListTallies(key: Row -> string, rows: seq<Row>) returns (items: seq<Tally>)
    ensures items == Tallies(key, rows)
  {
    var order, counts := CountInto(key, rows);
    items := [];
    for i := 0 to |order|
      invariant items == Map(TallyFor(key, rows), order[..i])
    {
      MapSnoc(TallyFor(key, rows), order, i);
      items := items + [Tally(order[i], counts[order[i]])];
    }
    assert order[..|order|] == order;
  }

  method FindDominant(key: Row -> string, rows: seq<Row>) returns (name: string)
    ensures name == Dominant(key, rows)
  {
    var items := ListTallies(key, rows);
    if rows == [] || items == [] {
      return "";
    }
    hide Tallies;
    SortPermutes(TallyLe, items);
    name := Sort(TallyLe, items)[0].name;
  }

  method NameDominants(rows: seq<Row>) returns (provider: string, mode: string)
    ensures provider == Dominant(ProviderOf, rows) && mode == Dominant(ModeOf, rows)
  {
    provider := FindDominant(ProviderOf, rows);
    mode := FindDominant(ModeOf, rows);
  }

  lemma TallyLeOrder()
    ensures TotalPreorder(TallyLe)
  {
    StringLeOrder();
  }

  /** The dominant name of a non-empty group occurs most often, and is the least of the names
      that occur as often. */
  lemma DominantMeaning(key: Row -> string, rows: seq<Row>)
    requires rows != []
    ensures Dominant(key, rows) in Keys(key, rows)
    ensures forall r :: r in rows ==>
              var (n, best) := (|Group(key, key(r), rows)|, |Group(key, Dominant(key, rows), rows)|);
              n < best || (n == best && StringLe(Dominant(key, rows), key(r)))
  {
    var names, tallies := Keys(key, rows), Tallies(key, rows);
    KeysMeaning(key, rows);
    assert rows[0] in rows && key(rows[0]) in names;
    TallyLeOrder();
    SortPermutes(TallyLe, tallies);
    SortSorted(TallyLe, tallies);
    var sorted := Sort(TallyLe, tallies);
    SortMember(TallyLe, tallies, sorted[0]);
    var k :| 0 <= k < |names| && tallies[k] == sorted[0];
    assert names[k] in names;
    forall r | r in rows
      ensures TallyLe(sorted[0], TallyFor(key, rows)(key(r)))
    {
      var j :| 0 <= j < |names| && names[j] == key(r);
      assert tallies[j] in tallies;
      SortMember(TallyLe, tallies, tallies[j]);
      FirstIsLeast(TallyLe, sorted, tallies[j]);
    }
  }
}
