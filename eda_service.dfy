/** The exploratory-analysis shaping rules: summary counts, the per-column
    numeric/categorical branch, the empty correlation case, the IQR fence and
    the truncation of chart data. The statistics themselves (quantiles, means,
    modes, value counts, correlations, memory use, describe) come from pandas
    and are inputs. */
module EdaService {
  import opened Frames

  const FENCE: real := 1.5
  const MAX_CHARTS: nat := 5
  const MAX_CHART_ENTRIES: nat := 10
  const HISTOGRAM: string := "histogram"

  /** `get_summary`. `memoryUsage` is the formatted `memory_usage(deep=True)`
      text and `numericSummary` the `describe().to_dict()` table. */
  datatype Summary = Summary(
    rowCount: nat,
    columnCount: nat,
    memoryUsage: string,
    missingValues: map<string, nat>,
    dataTypes: map<string, string>,
    numericSummary: map<string, map<string, real>>)

  function GetSummary(f: Frame, memoryUsage: string, numericSummary: map<string, map<string, real>>): (r: Summary)
    ensures r.rowCount == f.rowCount && r.columnCount == |f.columns|
    ensures r.missingValues.Keys == r.dataTypes.Keys == NameSet(f.columns)
    ensures UniqueNames(f.columns) ==> forall i :: 0 <= i < |f.columns| ==>
      && r.missingValues[f.columns[i].name] == NullCount(f.columns[i].cells)
      && r.dataTypes[f.columns[i].name] == DTypeName(f.columns[i].dtype)
  {
    Summary(f.rowCount, |f.columns|, memoryUsage,
            ByName(f.columns, (c: Column) => NullCount(c.cells)),
            ByName(f.columns, (c: Column) => DTypeName(c.dtype)),
            numericSummary)
  }

  /** What pandas computes for one numeric column. */
  datatype Moments = Moments(mean: real, median: real, std: real, min: real, max: real, q25: real, q75: real)

  datatype ColumnStat =
    | NumericStat(mean: real, median: real, std: real, min: real, max: real, q25: real, q75: real)
    | CategoricalStat(unique: nat, mode: Option<string>)

  /** `nunique()`: the number of distinct non-missing cells. */
  function DistinctCount(cells: seq<Cell>): nat {
    |set i | 0 <= i < |cells| && !cells[i].Null? :: cells[i]|
  }

  /** One entry of `get_column_stats`. `modes` is `str` of each value of
      `df[col].mode()`, in pandas' order. */
  function StatOf(c: Column, moments: Column -> Moments, modes: Column -> seq<string>): (s: ColumnStat)
    ensures s.NumericStat? <==> IsInt64OrFloat64(c.dtype)
    ensures s.CategoricalStat? ==> s.unique == DistinctCount(c.cells)
    ensures s.CategoricalStat? ==> (s.mode.None? <==> modes(c) == [])
    ensures s.CategoricalStat? && s.mode.Some? ==> s.mode.value == modes(c)[0]
  {
    if IsInt64OrFloat64(c.dtype) then
      var m := moments(c);
      NumericStat(m.mean, m.median, m.std, m.min, m.max, m.q25, m.q75)
    else
      CategoricalStat(DistinctCount(c.cells), if |modes(c)| > 0 then Some(modes(c)[0]) else None)
  }

  /** `get_column_stats`: one entry per column, filled in column order. */
  method GetColumnStats(f: Frame, moments: Column -> Moments, modes: Column -> seq<string>)
    returns (stats: map<string, ColumnStat>)
    requires UniqueNames(f.columns)
    ensures stats.Keys == NameSet(f.columns)
    ensures forall i :: 0 <= i < |f.columns| ==> stats[f.columns[i].name] == StatOf(f.columns[i], moments, modes)
  {
    stats := map[];
    var i := 0;
    while i < |f.columns|
      invariant 0 <= i <= |f.columns|
      invariant stats.Keys == NameSet(f.columns[..i])
      invariant forall j :: 0 <= j < i ==> stats[f.columns[j].name] == StatOf(f.columns[j], moments, modes)
    {
      var col := f.columns[i];
      stats := stats[col.name := StatOf(col, moments, modes)];
      assert f.columns[..i + 1] == f.columns[..i] + [col];
      i := i + 1;
    }
    assert f.columns[..i] == f.columns;
  }

  /** A numeric dtype outside int64/float64 (an int32 column, say) gets
      categorical statistics, although the other analyses treat it as numeric. */
  lemma NarrowNumericIsCategorical(c: Column, moments: Column -> Moments, modes: Column -> seq<string>)
    requires IsNumber(c.dtype) && !IsInt64OrFloat64(c.dtype)
    ensures StatOf(c, moments, modes).CategoricalStat?
    ensures c in NumericColumns([c])
  {
  }

  /** One row of the matrix: column `a` against every numeric column. */
  function CorrelationRow(numeric: seq<Column>, a: Column, corr: (Column, Column) -> real): (row: map<string, real>)
    ensures row.Keys == NameSet(numeric)
  {
    map b | b in NameSet(numeric) :: corr(a, Lookup(numeric, b).value)
  }

  /** `get_correlation_matrix`; `corr(a, b)` is pandas' Pearson coefficient. */
  function GetCorrelationMatrix(f: Frame, corr: (Column, Column) -> real): (r: map<string, map<string, real>>)
    ensures r == map[] <==> NumericFrameEmpty(f)
    ensures !NumericFrameEmpty(f) ==> r.Keys == NameSet(NumericColumns(f.columns))
    ensures forall a :: a in r ==> r[a].Keys == NameSet(NumericColumns(f.columns))
  {
    var numeric := NumericColumns(f.columns);
    if NumericFrameEmpty(f) then map[]
    else
      var r := map a | a in NameSet(numeric) :: CorrelationRow(numeric, Lookup(numeric, a).value, corr);
      assert numeric[0].name in r;
      r
  }

  /** Entry (a, b) of a non-empty matrix is the coefficient of columns a and b. */
  lemma CorrelationEntry(f: Frame, corr: (Column, Column) -> real, i: nat, j: nat)
    requires UniqueNames(f.columns) && !NumericFrameEmpty(f)
    requires i < |NumericColumns(f.columns)| && j < |NumericColumns(f.columns)|
    ensures var numeric := NumericColumns(f.columns);
      GetCorrelationMatrix(f, corr)[numeric[i].name][numeric[j].name] == corr(numeric[i], numeric[j])
  {
    var numeric := NumericColumns(f.columns);
    NumericColumnsUnique(f.columns);
    assert Lookup(numeric, numeric[i].name) == Some(numeric[i]);
    assert Lookup(numeric, numeric[j].name) == Some(numeric[j]);
  }

  /** The IQR fence of `get_outliers`: outside [Q1 - 1.5 IQR, Q3 + 1.5 IQR].
      A missing cell compares false and is never flagged. */
  predicate OutsideFence(c: Cell, q1: real, q3: real) {
    var iqr := q3 - q1;
    c.Num? && (c.value < q1 - FENCE * iqr || c.value > q3 + FENCE * iqr)
  }

  /** The row indices flagged in one column, given its quartiles. */
  function OutlierRows(c: Column, q1: real, q3: real): (r: seq<nat>)
    ensures forall k :: k in r <==> 0 <= k < |c.cells| && OutsideFence(c.cells[k], q1, q3)
    ensures StrictlyIncreasing(r)
  {
    Positions(c.cells, (x: Cell) => OutsideFence(x, q1, q3))
  }

  /** Values on or inside the fence, and missing values, are never flagged. */
  lemma InsideFenceNotFlagged(c: Column, q1: real, q3: real, k: nat)
    requires k < |c.cells|
    requires c.cells[k].Null? || (c.cells[k].Num? && q1 - FENCE * (q3 - q1) <= c.cells[k].value <= q3 + FENCE * (q3 - q1))
    ensures k !in OutlierRows(c, q1, q3)
  {
  }

  /** `[1, 2, 3, 4, 5, 100]` has quartiles 2.25 and 4.75: only index 5 is flagged. */
  lemma OutlierExample()
    ensures OutlierRows(Column("v", Int64, [Num(1.0), Num(2.0), Num(3.0), Num(4.0), Num(5.0), Num(100.0)]), 2.25, 4.75) == [5]
  {
    var c := Column("v", Int64, [Num(1.0), Num(2.0), Num(3.0), Num(4.0), Num(5.0), Num(100.0)]);
    var r := OutlierRows(c, 2.25, 4.75);
    assert 5 in r;
    forall k | k in r ensures k == 5 {
      assert 0 <= k < 6 && OutsideFence(c.cells[k], 2.25, 4.75);
    }
  }

  /** `get_outliers`: one key per numeric column, each holding that column's
      flagged row indices. `quartiles(c)` is `(quantile(0.25), quantile(0.75))`. */
  method GetOutliers(f: Frame, quartiles: Column -> (real, real)) returns (outliers: map<string, seq<nat>>)
    requires UniqueNames(f.columns)
    ensures outliers.Keys == NameSet(NumericColumns(f.columns))
    ensures forall c :: c in f.columns && IsNumber(c.dtype) ==>
      outliers[c.name] == OutlierRows(c, quartiles(c).0, quartiles(c).1)
  {
    var numeric := NumericColumns(f.columns);
    NumericColumnsUnique(f.columns);
    outliers := map[];
    var i := 0;
    while i < |numeric|
      invariant 0 <= i <= |numeric|
      invariant outliers.Keys == NameSet(numeric[..i])
      invariant forall j :: 0 <= j < i ==>
        outliers[numeric[j].name] == OutlierRows(numeric[j], quartiles(numeric[j]).0, quartiles(numeric[j]).1)
    {
      var col := numeric[i];
      var (q1, q3) := quartiles(col);
      var outlierIndices := OutlierRows(col, q1, q3);
      outliers := outliers[col.name := outlierIndices];
      assert numeric[..i + 1] == numeric[..i] + [col];
      i := i + 1;
    }
    assert numeric[..i] == numeric;
    forall c | c in f.columns && IsNumber(c.dtype)
      ensures outliers[c.name] == OutlierRows(c, quartiles(c).0, quartiles(c).1)
    {
      var j :| 0 <= j < |numeric| && numeric[j] == c;
    }
  }

  /** One entry of `get_chart_data`; `data` is the ordered `value_counts()` dict. */
  datatype Chart = Chart(name: string, kind: string, data: seq<(Cell, nat)>)

  /** One histogram: the column's name and its ten most frequent values. */
  function ChartOf(c: Column, valueCounts: Column -> seq<(Cell, nat)>): (chart: Chart)
    ensures chart.name == c.name && chart.kind == HISTOGRAM
    ensures |chart.data| == Min(MAX_CHART_ENTRIES, |valueCounts(c)|)
    ensures chart.data == valueCounts(c)[..|chart.data|]
  {
    var counts := valueCounts(c);
    Chart(c.name, HISTOGRAM, counts[..Min(MAX_CHART_ENTRIES, |counts|)])
  }

  /** `get_chart_data`: histograms of the first five numeric columns, each with
      the first ten rows of its `value_counts()` (most frequent first). */
  method GetChartData(f: Frame, valueCounts: Column -> seq<(Cell, nat)>) returns (charts: seq<Chart>)
    requires UniqueNames(f.columns)
    ensures var numeric := NumericColumns(f.columns);
      && |charts| == Min(MAX_CHARTS, |numeric|)
      && forall i :: 0 <= i < |charts| ==>
        && charts[i].name == numeric[i].name
        && charts[i].kind == HISTOGRAM
        && |charts[i].data| == Min(MAX_CHART_ENTRIES, |valueCounts(numeric[i])|)
        && charts[i].data == valueCounts(numeric[i])[..|charts[i].data|]
  {
    var numeric := NumericColumns(f.columns);
    var shown := numeric[..Min(MAX_CHARTS, |numeric|)];
    charts := [];
    var i := 0;
    while i < |shown|
      invariant 0 <= i <= |shown|
      invariant |charts| == i
      invariant forall j :: 0 <= j < i ==> charts[j] == ChartOf(numeric[j], valueCounts)
    {
      charts := charts + [ChartOf(shown[i], valueCounts)];
      i := i + 1;
    }
  }
}
