/** The academic report in terms of the case rows and the catalog of cases. */
module ReportMeaning {
  import opened Prelude
  import opened Sequences
  import opened Ordering
  import opened Text
  import opened AcademicReport

  // ----- which rows belong to a group -----

  /** What the catalog says about the case of a row; nothing for a case it does not list. */
  function SurfaceIs(catalog: Catalog, name: string): Row -> bool {
    (r: Row) =>
      if Strip(r.caseId) in catalog && Strip(catalog[Strip(r.caseId)].surface) != ""
      then name == Strip(catalog[Strip(r.caseId)].surface) else name == "(unknown)"
  }

  function BucketIs(catalog: Catalog, name: string): Row -> bool {
    (r: Row) =>
      if Strip(r.caseId) in catalog && Strip(catalog[Strip(r.caseId)].bucket) != ""
      then name == Strip(catalog[Strip(r.caseId)].bucket) else name == "(unknown)"
  }

  function BothAre(catalog: Catalog, surface: string, bucket: string): Row -> bool {
    (r: Row) => SurfaceIs(catalog, surface)(r) && BucketIs(catalog, bucket)(r)
  }

  function BelongsTo(axis: Axis, catalog: Catalog, name: string): Row -> bool {
    match axis
    case Surface => SurfaceIs(catalog, name)
    case Bucket => BucketIs(catalog, name)
  }

  lemma AxisMembers(axis: Axis, catalog: Catalog, name: string, rows: seq<Row>)
    ensures Group(AxisOf(axis, catalog), name, rows) == Filter(BelongsTo(axis, catalog, name), rows)
  {
    BlankStripped();
    hide Strip;
    GroupIsFilter(AxisOf(axis, catalog), name, rows, BelongsTo(axis, catalog, name));
  }

  lemma CellMembers(catalog: Catalog, cell: Cell, rows: seq<Row>)
    ensures Group(CellOf(catalog), cell, rows) == Filter(BothAre(catalog, cell.surface, cell.bucket), rows)
  {
    BlankStripped();
    hide Strip;
    forall r ensures BothAre(catalog, cell.surface, cell.bucket)(r) <==> CellOf(catalog)(r) == cell {
      assert SurfaceIs(catalog, cell.surface)(r) <==> CellOf(catalog)(r).surface == cell.surface;
      assert BucketIs(catalog, cell.bucket)(r) <==> CellOf(catalog)(r).bucket == cell.bucket;
    }
    GroupIsFilter(CellOf(catalog), cell, rows, BothAre(catalog, cell.surface, cell.bucket));
  }

  lemma BlankStripped()
    ensures Strip("") == ""
  {
  }

  // ----- what a row of a table says -----

  function HasId(id: string): Row -> bool {
    (r: Row) => id != "" && Strip(r.caseId) == id
  }

  /** The aggregate of these rows: their number, their non-blank case ids, sorted, and the mean of
      every metric, where a metric that a row lacks counts as zero. */
  ghost predicate Summarises(a: Aggregate, rows: seq<Row>) {
    && a.caseCount == |rows|
    && Sorted(StringLe, a.caseIds) && (forall id :: multiset(a.caseIds)[id] == Count(HasId(id), rows))
    && forall metric :: metric in a.means && MeanOfReadings(a.means[metric], metric, rows)
  }

  ghost predicate Reads(f: Row -> real, metric: Metric) {
    forall r: Row :: f(r) == if metric in r.metrics then r.metrics[metric] else 0.0
  }

  ghost predicate MeanOfReadings(mean: real, metric: Metric, rows: seq<Row>) {
    forall f: Row -> real :: Reads(f, metric) ==> Averages(mean, f, rows)
  }

  lemma {:induction false} IdsCounted(id: string, rows: seq<Row>)
    ensures Total(IsCase(id), rows) == Count(HasId(id), rows)
  {
    if rows != [] {
      IdsCounted(id, rows[..|rows| - 1]);
    }
  }

  lemma MeansRead(metric: Metric, rows: seq<Row>)
    ensures metric in AggregateOf(rows).means && MeanOfReadings(AggregateOf(rows).means[metric], metric, rows)
  {
    EveryMetric(metric);
    assert AggregateOf(rows).means[metric] == Mean(MetricOf(metric), rows);
    hide AggregateOf, Mean, Averages;
    forall f: Row -> real | Reads(f, metric) ensures Averages(Mean(MetricOf(metric), rows), f, rows) {
      MeanIs(MetricOf(metric), f, rows);
    }
  }

  lemma AggregateSummarises(rows: seq<Row>)
    ensures Summarises(AggregateOf(rows), rows)
  {
    StringLeOrder();
    SortSorted(StringLe, Filter(IsNonEmpty, Map(IdOf, rows)));
    var a := AggregateOf(rows);
    assert a.caseCount == |rows| && Sorted(StringLe, a.caseIds);
    forall id ensures multiset(a.caseIds)[id] == Count(HasId(id), rows) {
      ListedSums(id);
      IdsCounted(id, rows);
      assert Listed(id)(a) == Total(IsCase(id), rows);
    }
    hide AggregateOf, MeanOfReadings, StringLe;
    forall metric ensures metric in a.means && MeanOfReadings(a.means[metric], metric, rows) {
      MeansRead(metric, rows);
    }
  }

  /** A row of the by-surface or by-bucket table summarises exactly the rows of its group. */
  lemma GroupRowMeaning(axis: Axis, catalog: Catalog, rows: seq<Row>, row: GroupRow)
    requires row in GroupRows(axis, catalog, rows)
    ensures var members := Filter(BelongsTo(axis, catalog, row.group), rows);
            members != [] && Summarises(row.aggregate, members)
  {
    GroupRowListed(axis, catalog, rows, row);
    GroupNonEmpty(AxisOf(axis, catalog), row.group, rows);
    AxisMembers(axis, catalog, row.group, rows);
    hide GroupRows, Summarises, AggregateOf, BelongsTo, Keys, Group, Filter, AxisOf;
    AggregateSummarises(Filter(BelongsTo(axis, catalog, row.group), rows));
  }

  lemma CellRowListed(catalog: Catalog, rows: seq<Row>, row: CellRow)
    requires row in CellRows(catalog, rows)
    ensures row.cell in Keys(CellOf(catalog), rows) && row == CellRowFor(catalog, rows)(row.cell)
  {
    var cells, f := Keys(CellOf(catalog), rows), CellRowFor(catalog, rows);
    SortMember(CellRowLe, Map(f, cells), row);
    MapMember(f, cells, row);
  }

  /** A row of the matrix summarises exactly the rows of its surface and bucket. */
  lemma CellRowMeaning(catalog: Catalog, rows: seq<Row>, row: CellRow)
    requires row in CellRows(catalog, rows)
    ensures var members := Filter(BothAre(catalog, row.cell.surface, row.cell.bucket), rows);
            members != [] && Summarises(row.aggregate, members)
  {
    CellRowListed(catalog, rows, row);
    GroupNonEmpty(CellOf(catalog), row.cell, rows);
    CellMembers(catalog, row.cell, rows);
    hide CellRows, Summarises, AggregateOf, BothAre, Keys, Group, Filter, CellOf;
    AggregateSummarises(Filter(BothAre(catalog, row.cell.surface, row.cell.bucket), rows));
  }

  // ----- the order of the tables -----

  /** Larger groups stand first and groups of one size by name, none twice. */
  lemma GroupsInOrder(axis: Axis, catalog: Catalog, rows: seq<Row>, i: nat, j: nat)
    requires i < j < |GroupRows(axis, catalog, rows)|
    ensures var (a, b) := (GroupRows(axis, catalog, rows)[i], GroupRows(axis, catalog, rows)[j]);
            && a.aggregate.caseCount >= b.aggregate.caseCount && a.group != b.group
            && (a.aggregate.caseCount == b.aggregate.caseCount ==> StringLe(a.group, b.group))
  {
    GroupRowsOrdered(axis, catalog, rows);
    var table := GroupRows(axis, catalog, rows);
    assert GroupRowLe(table[i], table[j]);
    assert Map(GroupOf, table)[i] != Map(GroupOf, table)[j];
  }

  lemma CellRowLeOrder()
    ensures TotalPreorder(CellRowLe)
  {
    StringLeOrder();
    forall a, b, c | CellRowLe(a, b) && CellRowLe(b, c) ensures CellRowLe(a, c) {
    }
  }

  /** Cells stand by surface, and those of one surface by bucket. */
  lemma CellsInOrder(catalog: Catalog, rows: seq<Row>, i: nat, j: nat)
    requires i < j < |CellRows(catalog, rows)|
    ensures var (a, b) := (CellRows(catalog, rows)[i].cell, CellRows(catalog, rows)[j].cell);
            StringLe(a.surface, b.surface) && (a.surface == b.surface ==> StringLe(a.bucket, b.bucket))
  {
    CellRowLeOrder();
    SortSorted(CellRowLe, Map(CellRowFor(catalog, rows), Keys(CellOf(catalog), rows)));
    StringLeOrder();
    assert CellRowLe(CellRows(catalog, rows)[i], CellRows(catalog, rows)[j]);
  }

  // ----- the dominant names -----

  function ProviderIs(name: string): Row -> bool {
    (r: Row) => if Strip(r.provider) == "" then name == "(none)" else name == Strip(r.provider)
  }

  function ModeIs(name: string): Row -> bool {
    (r: Row) => if Strip(r.mode) == "" then name == "(unknown)" else name == Strip(r.mode)
  }

  lemma {:induction false} FilterCount<T>(p: T -> bool, s: seq<T>)
    ensures |Filter(p, s)| == Count(p, s)
  {
    if s != [] {
      FilterCount(p, s[..|s| - 1]);
    }
  }

  lemma ProviderCount(name: string, rows: seq<Row>)
    ensures |Group(ProviderOf, name, rows)| == Count(ProviderIs(name), rows)
  {
    hide Strip;
    GroupIsFilter(ProviderOf, name, rows, ProviderIs(name));
    FilterCount(ProviderIs(name), rows);
  }

  lemma ModeCount(name: string, rows: seq<Row>)
    ensures |Group(ModeOf, name, rows)| == Count(ModeIs(name), rows)
  {
    hide Strip;
    GroupIsFilter(ModeOf, name, rows, ModeIs(name));
    FilterCount(ModeIs(name), rows);
  }

  /** The dominant provider and mode occur, no name occurs more often, and of those that occur as
      often they are the least. Blank ones count under a name of their own. */
  lemma DominantsExactly(rows: seq<Row>, r: Row)
    requires r in rows
    ensures var provider := Dominant(ProviderOf, rows);
            && Count(ProviderIs(provider), rows) > 0
            && forall name :: ProviderIs(name)(r) ==>
                 Count(ProviderIs(name), rows) <= Count(ProviderIs(provider), rows)
                 && (Count(ProviderIs(name), rows) == Count(ProviderIs(provider), rows) ==> StringLe(provider, name))
    ensures var mode := Dominant(ModeOf, rows);
            && Count(ModeIs(mode), rows) > 0
            && forall name :: ModeIs(name)(r) ==>
                 Count(ModeIs(name), rows) <= Count(ModeIs(mode), rows)
                 && (Count(ModeIs(name), rows) == Count(ModeIs(mode), rows) ==> StringLe(mode, name))
  {
    DominantBy(ProviderOf, rows, r);
    DominantBy(ModeOf, rows, r);
    ProviderCount(Dominant(ProviderOf, rows), rows);
    ProviderCount(ProviderOf(r), rows);
    ModeCount(Dominant(ModeOf, rows), rows);
    ModeCount(ModeOf(r), rows);
    hide Dominant, Count, Group, Strip, StringLe;
    assert forall name :: ProviderIs(name)(r) ==> name == ProviderOf(r);
    assert forall name :: ModeIs(name)(r) ==> name == ModeOf(r);
  }

  lemma DominantBy(key: Row -> string, rows: seq<Row>, r: Row)
    requires r in rows
    ensures var (best, name) := (Dominant(key, rows), key(r));
            && Group(key, best, rows) != []
            && |Group(key, name, rows)| <= |Group(key, best, rows)|
            && (|Group(key, name, rows)| == |Group(key, best, rows)| ==> StringLe(best, name))
  {
    DominantMeaning(key, rows);
    GroupNonEmpty(key, Dominant(key, rows), rows);
  }
}
