/** The risk engine's own arithmetic: assembling the anomaly report from the
    isolation forest's labels, and the cell-completeness quality score. The
    forest itself (and the mean imputation that feeds it) is a library call;
    its label vector is an input. */
module RiskService {
  import opened Frames

  const MAX_REPORTED: nat := 10
  const ANOMALY_LABEL: int := -1
  const ROW_INDEX_KEY: string := "row_index"
  const NO_NUMERIC_SUMMARY: string := "No numeric columns found"

  /** A reported row: `df.iloc[idx].to_dict()` with "row_index" added. */
  type Row = map<string, Cell>

  /** The dict `detect_anomalies` returns. The early return has no
      "total_anomalies" key; its risk score is the integer 0. */
  datatype RiskReport =
    | NoNumericColumns(anomalies: seq<Row>, riskScore: real, summary: string)
    | Scored(anomalies: seq<Row>, totalAnomalies: nat, riskScore: real, summary: string)

  /** `np.where(predictions == -1)[0]` */
  function AnomalyIndices(predictions: seq<int>): (r: seq<nat>)
    ensures |r| <= |predictions|
    ensures forall k :: k in r <==> 0 <= k < |predictions| && predictions[k] == ANOMALY_LABEL
    ensures StrictlyIncreasing(r)
  {
    Positions(predictions, (p: int) => p == ANOMALY_LABEL)
  }

  /** `df.iloc[idx].to_dict()`: every column's cell in that row. */
  function RowAt(f: Frame, idx: nat): Row {
    ByName(f.columns, (c: Column) => if idx < |c.cells| then c.cells[idx] else Null)
  }

  /** The reported row; a column that is itself named "row_index" is overwritten. */
  function TaggedRow(f: Frame, idx: nat): (row: Row)
    ensures ROW_INDEX_KEY in row && row[ROW_INDEX_KEY] == Num(idx as real)
    ensures row.Keys == NameSet(f.columns) + {ROW_INDEX_KEY}
    ensures WellFormed(f) && idx < f.rowCount ==>
      forall i :: 0 <= i < |f.columns| && f.columns[i].name != ROW_INDEX_KEY ==>
        row[f.columns[i].name] == f.columns[i].cells[idx]
  {
    RowAt(f, idx)[ROW_INDEX_KEY := Num(idx as real)]
  }

  function Digit(d: nat): char
    requires d < 10
  {
    "0123456789"[d]
  }

  /** `str(n)` for a natural number. */
  function NatText(n: nat): string {
    if n < 10 then [Digit(n)] else NatText(n / 10) + [Digit(n % 10)]
  }

  /** `f"{x:.1f}"` for x >= 0, rounding half up. */
  function OneDecimal(x: real): string
    requires x >= 0.0
  {
    var tenths := (x * 10.0 + 0.5).Floor;
    assert tenths >= 0;
    NatText(tenths / 10) + "." + [Digit(tenths % 10)]
  }

  function ScoredSummary(total: nat, riskScore: real): string
    requires riskScore >= 0.0
  {
    "Detected " + NatText(total) + " anomalies (" + OneDecimal(riskScore) + "% of data)"
  }

  lemma PercentageBounds(good: real, total: real)
    requires 0.0 <= good <= total && total > 0.0
    ensures 0.0 <= good / total * 100.0 <= 100.0
    ensures good == total ==> good / total * 100.0 == 100.0
    ensures 2.0 * good == total ==> good / total * 100.0 == 50.0
  {
    assert good / total <= 1.0;
    if 2.0 * good == total {
      assert good / total == good / (2.0 * good);
      assert good / (2.0 * good) == 0.5;
    }
  }

  /** `len(anomaly_indices) / len(df) * 100` */
  function RiskScore(total: nat, rows: nat): (score: real)
    requires rows > 0
    ensures score >= 0.0
    ensures total <= rows ==> score <= 100.0
    ensures total == 0 <==> score == 0.0
    ensures total == rows ==> score == 100.0
  {
    var score := total as real / rows as real * 100.0;
    if total <= rows then PercentageBounds(total as real, rows as real); score else score
  }

  /** `detect_anomalies`; `predictions` is `fit_predict`'s label per row
      (-1 for an anomaly, 1 otherwise). */
  method DetectAnomalies(f: Frame, predictions: seq<int>) returns (report: RiskReport)
    requires |predictions| == f.rowCount
    ensures NumericFrameEmpty(f) ==> report == NoNumericColumns([], 0.0, NO_NUMERIC_SUMMARY)
    ensures !NumericFrameEmpty(f) ==>
      var flagged := AnomalyIndices(predictions);
      && report.Scored?
      && report.totalAnomalies == |flagged|
      && |report.anomalies| == Min(MAX_REPORTED, |flagged|)
      && (forall k :: 0 <= k < |report.anomalies| ==> report.anomalies[k] == TaggedRow(f, flagged[k]))
      && report.riskScore == RiskScore(|flagged|, f.rowCount)
      && 0.0 <= report.riskScore <= 100.0
      && report.summary == ScoredSummary(|flagged|, report.riskScore)
  {
    if NumericFrameEmpty(f) {
      return NoNumericColumns([], 0.0, NO_NUMERIC_SUMMARY);
    }
    var anomalyIndices := AnomalyIndices(predictions);
    var shown := anomalyIndices[..Min(MAX_REPORTED, |anomalyIndices|)];
    var anomalies: seq<Row> := [];
    var j := 0;
    while j < |shown|
      invariant 0 <= j <= |shown|
      invariant |anomalies| == j
      invariant forall k :: 0 <= k < j ==> anomalies[k] == TaggedRow(f, anomalyIndices[k])
    {
      var idx := shown[j];
      var anomalyRow := RowAt(f, idx);
      anomalyRow := anomalyRow[ROW_INDEX_KEY := Num(idx as real)];
      anomalies := anomalies + [anomalyRow];
      j := j + 1;
    }
    var riskScore := RiskScore(|anomalyIndices|, f.rowCount);
    report := Scored(anomalies, |anomalyIndices|, riskScore, ScoredSummary(|anomalyIndices|, riskScore));
  }

  /** The k-th reported row is a row labelled -1 with exactly k such rows
      before it: the report holds the first flagged rows, in ascending order. */
  lemma ReportedRowsAreFirstFlagged(predictions: seq<int>, k: nat)
    requires k < Min(MAX_REPORTED, |AnomalyIndices(predictions)|)
    ensures var flagged := AnomalyIndices(predictions);
      && predictions[flagged[k]] == ANOMALY_LABEL
      && |set i | 0 <= i < flagged[k] && predictions[i] == ANOMALY_LABEL| == k
  {
    var flagged := AnomalyIndices(predictions);
    var before := set i | 0 <= i < flagged[k] && predictions[i] == ANOMALY_LABEL;
    assert flagged[k] in flagged;
    var prefix := set j | 0 <= j < k :: flagged[j];
    assert before == prefix by {
      forall i | i in before ensures i in prefix {
        assert i in flagged;
        var j :| 0 <= j < |flagged| && flagged[j] == i;
      }
    }
    InjectiveImageSize(flagged, k);
  }

  /** A strictly increasing sequence takes k distinct values on its first k places. */
  lemma {:induction false} InjectiveImageSize(s: seq<nat>, k: nat)
    requires StrictlyIncreasing(s) && k <= |s|
    ensures |set j | 0 <= j < k :: s[j]| == k
  {
    if k > 0 {
      InjectiveImageSize(s, k - 1);
      var smaller := set j | 0 <= j < k - 1 :: s[j];
      assert s[k - 1] !in smaller;
      assert (set j | 0 <= j < k :: s[j]) == smaller + {s[k - 1]};
    }
  }

  /** `get_data_quality_score`: the percentage of non-missing cells, 0 for a
      table without cells. */
  function DataQualityScore(f: Frame): (score: real)
    ensures f.rowCount * |f.columns| == 0 ==> score == 0.0
    ensures WellFormed(f) && f.rowCount * |f.columns| > 0 ==>
      score == TotalPresent(f.columns) as real / (f.rowCount * |f.columns|) as real * 100.0
  {
    var totalCells := f.rowCount * |f.columns|;
    var nullCells := TotalNulls(f.columns);
    if totalCells > 0 then
      var score := (totalCells - nullCells) as real / totalCells as real * 100.0;
      if WellFormed(f) then TotalPresentPlusNulls(f.columns, f.rowCount); score else score
    else 0.0
  }

  /** On a loaded frame the score is a percentage. */
  lemma QualityScoreBounds(f: Frame)
    requires WellFormed(f)
    ensures 0.0 <= DataQualityScore(f) <= 100.0
  {
    TotalNullsBound(f.columns, f.rowCount);
    var total := f.rowCount * |f.columns|;
    if total > 0 {
      PercentageBounds((total - TotalNulls(f.columns)) as real, total as real);
    }
  }

  /** A table with cells and no missing cell scores 100. */
  lemma QualityScoreComplete(f: Frame)
    requires WellFormed(f) && TotalNulls(f.columns) == 0 && f.rowCount * |f.columns| > 0
    ensures DataQualityScore(f) == 100.0
  {
    var total := f.rowCount * |f.columns|;
    PercentageBounds(total as real, total as real);
  }

  /** A table whose cells are half missing scores 50. */
  lemma QualityScoreHalf(f: Frame)
    requires WellFormed(f) && 2 * TotalNulls(f.columns) == f.rowCount * |f.columns| > 0
    ensures DataQualityScore(f) == 50.0
  {
    var total := f.rowCount * |f.columns|;
    PercentageBounds((total - TotalNulls(f.columns)) as real, total as real);
  }
}
