/**
  Flattening of the multi-table report's parent-child relationship score
  breakdowns into the three columns of the relationships plot.

  A dictionary is modelled as the sequence of its (key, value) items in
  iteration order.
*/
module PlotUtils {

  /** A metric score: a number, or NaN when the metric could not be computed. */
  datatype Score = NaN | Num(value: real)

  /** A breakdown entry's result dictionary, `{'score': ...}`. */
  datatype MetricResult = MetricResult(score: Score)

  /** (parent table, child table). */
  type TablePair = (string, string)

  /** One metric's breakdown: table pair to result. */
  type ScoreBreakdown = seq<(TablePair, MetricResult)>

  /** Metric name to its breakdown. */
  type ScoreBreakdowns = seq<(string, ScoreBreakdown)>

  /** One row of the plot data: relationship label, metric name, score. */
  datatype PlotRow = PlotRow(relationship: string, metric: string, score: Score)

  /** The relationship label of a table pair: the child first, then an arrow, then the parent. */
  function Label(tables: TablePair): string {
    tables.1 + " → " + tables.0
  }

  /** The rows one metric contributes: one per entry whose score is not NaN, in entry order. */
  function MetricRows(metric: string, breakdown: ScoreBreakdown): seq<PlotRow> {
    if |breakdown| == 0 then []
    else
      var (tables, result) := breakdown[|breakdown| - 1];
      MetricRows(metric, breakdown[..|breakdown| - 1])
        + (if result.score.NaN? then [] else [PlotRow(Label(tables), metric, result.score)])
  }

  /** All rows: the metrics in order, each metric's rows in order. */
  function Rows(breakdowns: ScoreBreakdowns): seq<PlotRow> {
    if |breakdowns| == 0 then []
    else
      var (metric, breakdown) := breakdowns[|breakdowns| - 1];
      Rows(breakdowns[..|breakdowns| - 1]) + MetricRows(metric, breakdown)
  }

  /** The three columns hold `rows`, position by position. */
  ghost predicate ColumnsHold(relationships: seq<string>, metrics: seq<string>, scores: seq<Score>, rows: seq<PlotRow>) {
    && |relationships| == |metrics| == |scores| == |rows|
    && forall k :: 0 <= k < |rows| ==> rows[k] == PlotRow(relationships[k], metrics[k], scores[k])
  }

  /** The plot data: three parallel columns of relationship labels, metric names and scores. */
  method GetTableRelationshipsData(scoreBreakdowns: ScoreBreakdowns)
    returns (relationships: seq<string>, metrics: seq<string>, scores: seq<Score>)
    ensures |relationships| == |metrics| == |scores| == |Rows(scoreBreakdowns)|
    ensures forall k :: 0 <= k < |scores| ==> Rows(scoreBreakdowns)[k] == PlotRow(relationships[k], metrics[k], scores[k])
  {
    relationships, metrics, scores := [], [], [];
    for i := 0 to |scoreBreakdowns|
      invariant ColumnsHold(relationships, metrics, scores, Rows(scoreBreakdowns[..i]))
    {
      var (metric, scoreBreakdown) := scoreBreakdowns[i];
      assert scoreBreakdowns[..i + 1][..i] == scoreBreakdowns[..i];
      for j := 0 to |scoreBreakdown|
        invariant ColumnsHold(relationships, metrics, scores,
                              Rows(scoreBreakdowns[..i]) + MetricRows(metric, scoreBreakdown[..j]))
      {
        var (tables, result) := scoreBreakdown[j];
        assert scoreBreakdown[..j + 1][..j] == scoreBreakdown[..j];
        if !result.score.NaN? {
          relationships := relationships + [Label(tables)];
          metrics := metrics + [metric];
          scores := scores + [result.score];
        }
      }
      assert scoreBreakdown[..|scoreBreakdown|] == scoreBreakdown;
    }
    assert scoreBreakdowns[..|scoreBreakdowns|] == scoreBreakdowns;
  }

  // ---------------------------------------------------------------------------
  // Properties of the flattening
  // ---------------------------------------------------------------------------

  /** The number of entries of one breakdown whose score is not NaN. */
  function ScoredEntries(breakdown: ScoreBreakdown): nat {
    if |breakdown| == 0 then 0
    else (if breakdown[0].1.score.NaN? then 0 else 1) + ScoredEntries(breakdown[1..])
  }

  /** The number of (metric, table pair) entries whose score is not NaN. */
  function ScoredPairs(breakdowns: ScoreBreakdowns): nat {
    if |breakdowns| == 0 then 0 else ScoredEntries(breakdowns[0].1) + ScoredPairs(breakdowns[1..])
  }

  /** Entry order is kept: the rows of a concatenated breakdown are the rows of each part, in turn. */
  lemma {:induction false} MetricRowsAppend(metric: string, a: ScoreBreakdown, b: ScoreBreakdown)
    ensures MetricRows(metric, a + b) == MetricRows(metric, a) + MetricRows(metric, b)
    decreases |b|
  {
    if |b| == 0 {
      assert a + b == a;
    } else {
      assert (a + b)[..|a + b| - 1] == a + b[..|b| - 1];
      MetricRowsAppend(metric, a, b[..|b| - 1]);
    }
  }

  /** Metric order is kept: the rows of concatenated breakdowns are the rows of each part, in turn. */
  lemma {:induction false} RowsAppend(a: ScoreBreakdowns, b: ScoreBreakdowns)
    ensures Rows(a + b) == Rows(a) + Rows(b)
    decreases |b|
  {
    if |b| == 0 {
      assert a + b == a;
    } else {
      var front, last := b[..|b| - 1], b[|b| - 1];
      assert (a + b)[..|a + b| - 1] == a + front && (a + b)[|a + b| - 1] == last;
      RowsAppend(a, front);
      assert Rows(a + b) == Rows(a + front) + MetricRows(last.0, last.1);
      assert Rows(b) == Rows(front) + MetricRows(last.0, last.1);
    }
  }

  lemma {:induction false} MetricRowCount(metric: string, breakdown: ScoreBreakdown)
    ensures |MetricRows(metric, breakdown)| == ScoredEntries(breakdown)
    decreases |breakdown|
  {
    if |breakdown| > 0 {
      assert breakdown == [breakdown[0]] + breakdown[1..];
      MetricRowsAppend(metric, [breakdown[0]], breakdown[1..]);
      assert [breakdown[0]][..0] == [];
      MetricRowCount(metric, breakdown[1..]);
    }
  }

  /** There is one row per (metric, table pair) entry whose score is not NaN. */
  lemma {:induction false} RowCount(breakdowns: ScoreBreakdowns)
    ensures |Rows(breakdowns)| == ScoredPairs(breakdowns)
    decreases |breakdowns|
  {
    if |breakdowns| > 0 {
      assert breakdowns == [breakdowns[0]] + breakdowns[1..];
      RowsAppend([breakdowns[0]], breakdowns[1..]);
      assert [breakdowns[0]][..0] == [];
      MetricRowCount(breakdowns[0].0, breakdowns[0].1);
      RowCount(breakdowns[1..]);
    }
  }

  /** A metric's rows are exactly its entries with a score: label child-first, the metric's name, the score unchanged. */
  lemma {:induction false} MetricRowsExactly(metric: string, breakdown: ScoreBreakdown)
    ensures forall row :: row in MetricRows(metric, breakdown) <==>
      exists j :: 0 <= j < |breakdown| && breakdown[j].1.score.Num?
                  && row == PlotRow(Label(breakdown[j].0), metric, breakdown[j].1.score)
    decreases |breakdown|
  {
    if |breakdown| > 0 {
      var prefix := breakdown[..|breakdown| - 1];
      MetricRowsExactly(metric, prefix);
      assert forall j :: 0 <= j < |prefix| ==> prefix[j] == breakdown[j];
    }
  }

  /**
    The rows are exactly the entries with a score: every row comes from some
    metric i and table pair j with a number as score, and every such entry
    gives a row; no row has a NaN score.
  */
  lemma {:induction false} RowsExactly(breakdowns: ScoreBreakdowns)
    ensures forall row :: row in Rows(breakdowns) <==>
      exists i, j :: 0 <= i < |breakdowns| && 0 <= j < |breakdowns[i].1| && breakdowns[i].1[j].1.score.Num?
                     && row == PlotRow(Label(breakdowns[i].1[j].0), breakdowns[i].0, breakdowns[i].1[j].1.score)
    ensures forall row :: row in Rows(breakdowns) ==> row.score.Num?
    decreases |breakdowns|
  {
    if |breakdowns| > 0 {
      var prefix, last := breakdowns[..|breakdowns| - 1], breakdowns[|breakdowns| - 1];
      RowsExactly(prefix);
      MetricRowsExactly(last.0, last.1);
      assert forall i :: 0 <= i < |prefix| ==> prefix[i] == breakdowns[i];
    }
  }
}
