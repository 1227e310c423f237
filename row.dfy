/** One flat row per invocation result: the six base columns filled from
    the expected and actual invocations, then three columns per metric
    assigned one after another, so that a later assignment to the same
    column replaces an earlier one. */
module FlatRow {
  import opened EvalResults
  import opened Columns

  /** The row literal built before any metric is added. */
  function BaseRow(r: Renderers, evalId: string, inv: InvocationResult): Row
  {
    map[EvalIdKey := Text(evalId),
        PromptKey := Text(r.contentToText(inv.expectedInvocation.userContent)),
        ExpectedResponseKey := Text(r.contentToText(inv.expectedInvocation.finalResponse)),
        ActualResponseKey := Text(r.contentToText(inv.actualInvocation.finalResponse)),
        ExpectedToolCallsKey := Text(r.toolCallsToText(inv.expectedInvocation.intermediateData)),
        ActualToolCallsKey := Text(r.toolCallsToText(inv.actualInvocation.intermediateData))]
  }

  /** The three assignments made for one metric result, in source order. */
  function SetMetric(r: Renderers, row: Row, m: MetricResult): Row
  {
    row[ScoreKey(m.metricName) := ScoreCell(m.score)]
       [StatusKey(m.metricName) := Text(r.statusToText(m.evalStatus))]
       [ThresholdKey(m.metricName) := Number(m.threshold)]
  }

  /** `row` after the assignments for every metric of `ms`, first to last. */
  function WithMetrics(r: Renderers, row: Row, ms: seq<MetricResult>): Row
    decreases |ms|
  {
    if ms == [] then row
    else SetMetric(r, WithMetrics(r, row, ms[..|ms| - 1]), ms[|ms| - 1])
  }

  /** The row produced for one invocation result under `evalId`. */
  function RowFor(r: Renderers, evalId: string, inv: InvocationResult): Row
  {
    WithMetrics(r, BaseRow(r, evalId, inv), inv.evalMetricResults)
  }

  /** The three columns a metric of this name contributes. */
  function MetricColumns(metricName: string): set<string>
  {
    {ScoreKey(metricName), StatusKey(metricName), ThresholdKey(metricName)}
  }

  /** Every column contributed by the metrics of `ms`. */
  function MetricKeys(ms: seq<MetricResult>): set<string>
    decreases |ms|
  {
    if ms == [] then {}
    else MetricKeys(ms[..|ms| - 1]) + MetricColumns(ms[|ms| - 1].metricName)
  }

  predicate DistinctNames(ms: seq<MetricResult>)
  {
    forall p, q :: 0 <= p < q < |ms| ==> ms[p].metricName != ms[q].metricName
  }

  /** No metric after position `p` has the same name as the one at `p`. */
  predicate LastOfItsName(ms: seq<MetricResult>, p: int)
    requires 0 <= p < |ms|
  {
    forall q :: p < q < |ms| ==> ms[q].metricName != ms[p].metricName
  }

  /** A column belongs to `MetricKeys(ms)` exactly when some metric of `ms`
      contributes it. */
  lemma {:induction false} MetricKeysMembership(ms: seq<MetricResult>, k: string)
    ensures k in MetricKeys(ms) <==> exists p :: 0 <= p < |ms| && k in MetricColumns(ms[p].metricName)
  {
    if ms != [] {
      var init := ms[..|ms| - 1];
      MetricKeysMembership(init, k);
      if k in MetricKeys(init) {
        var p :| 0 <= p < |init| && k in MetricColumns(init[p].metricName);
        assert ms[p] == init[p];
      } else if exists p :: 0 <= p < |ms| && k in MetricColumns(ms[p].metricName) {
        var p :| 0 <= p < |ms| && k in MetricColumns(ms[p].metricName);
        if p < |init| {
          assert ms[p] == init[p];
        }
      }
    }
  }

  /** Metric columns never name a base column. */
  lemma {:induction false} BaseKeysDisjointFromMetricKeys(ms: seq<MetricResult>)
    ensures BaseKeys !! MetricKeys(ms)
  {
    if ms != [] {
      BaseKeysDisjointFromMetricKeys(ms[..|ms| - 1]);
      MetricKeysAreNotBaseKeys(ms[|ms| - 1].metricName);
    }
  }

  /** Adding metrics adds exactly their columns. */
  lemma {:induction false} WithMetricsKeys(r: Renderers, row: Row, ms: seq<MetricResult>)
    ensures WithMetrics(r, row, ms).Keys == row.Keys + MetricKeys(ms)
  {
    if ms != [] {
      WithMetricsKeys(r, row, ms[..|ms| - 1]);
    }
  }

  /** A column no metric of `ms` contributes keeps its value. */
  lemma {:induction false} WithMetricsKeepsOtherColumns(r: Renderers, row: Row, ms: seq<MetricResult>, k: string)
    requires k in row && k !in MetricKeys(ms)
    ensures k in WithMetrics(r, row, ms) && WithMetrics(r, row, ms)[k] == row[k]
  {
    if ms != [] {
      WithMetricsKeepsOtherColumns(r, row, ms[..|ms| - 1], k);
    }
  }

  /** The three columns of a metric hold the values of the last metric
      result carrying that name: later assignments win. */
  lemma {:induction false} WithMetricsLatestWins(r: Renderers, row: Row, ms: seq<MetricResult>, p: int)
    requires 0 <= p < |ms| && LastOfItsName(ms, p)
    ensures var out, name := WithMetrics(r, row, ms), ms[p].metricName;
      && ScoreKey(name) in out && out[ScoreKey(name)] == ScoreCell(ms[p].score)
      && StatusKey(name) in out && out[StatusKey(name)] == Text(r.statusToText(ms[p].evalStatus))
      && ThresholdKey(name) in out && out[ThresholdKey(name)] == Number(ms[p].threshold)
  {
    var init, last := ms[..|ms| - 1], ms[|ms| - 1];
    var name := ms[p].metricName;
    MetricKeysCoincide(name, last.metricName);
    MetricKeysCoincide(last.metricName, name);
    if p < |init| {
      assert init[p] == ms[p];
      WithMetricsLatestWins(r, row, init, p);
    }
  }

  /** A metric's three columns are three different names. */
  lemma MetricColumnCount(name: string)
    ensures |MetricColumns(name)| == 3
  {
    MetricKeysCoincide(name, name);
  }

  /** Metrics of different names have no column in common. */
  lemma MetricColumnsDisjoint(a: string, b: string)
    requires a != b
    ensures MetricColumns(a) !! MetricColumns(b)
  {
    MetricKeysCoincide(a, b);
    MetricKeysCoincide(b, a);
  }

  /** The columns of a metric whose name no metric of `ms` carries are not
      among the columns of `ms`. */
  lemma FreshNameFreshColumns(ms: seq<MetricResult>, name: string)
    requires forall p :: 0 <= p < |ms| ==> ms[p].metricName != name
    ensures MetricKeys(ms) !! MetricColumns(name)
  {
    forall k | k in MetricColumns(name)
      ensures k !in MetricKeys(ms)
    {
      MetricKeysMembership(ms, k);
      if k in MetricKeys(ms) {
        var p :| 0 <= p < |ms| && k in MetricColumns(ms[p].metricName);
        MetricColumnsDisjoint(name, ms[p].metricName);
      }
    }
  }

  /** Distinctly named metrics contribute three distinct columns each. */
  lemma {:induction false} MetricKeyCount(ms: seq<MetricResult>)
    requires DistinctNames(ms)
    ensures |MetricKeys(ms)| == 3 * |ms|
  {
    if ms != [] {
      var init, name := ms[..|ms| - 1], ms[|ms| - 1].metricName;
      assert DistinctNames(init);
      MetricKeyCount(init);
      MetricColumnCount(name);
      FreshNameFreshColumns(init, name);
    }
  }

  /** Every row carries the six base columns, each from its fixed source,
      whatever metrics follow. */
  lemma RowBaseColumns(r: Renderers, evalId: string, inv: InvocationResult)
    ensures var row := RowFor(r, evalId, inv);
      && BaseKeys <= row.Keys
      && row[EvalIdKey] == Text(evalId)
      && row[PromptKey] == Text(r.contentToText(inv.expectedInvocation.userContent))
      && row[ExpectedResponseKey] == Text(r.contentToText(inv.expectedInvocation.finalResponse))
      && row[ActualResponseKey] == Text(r.contentToText(inv.actualInvocation.finalResponse))
      && row[ExpectedToolCallsKey] == Text(r.toolCallsToText(inv.expectedInvocation.intermediateData))
      && row[ActualToolCallsKey] == Text(r.toolCallsToText(inv.actualInvocation.intermediateData))
  {
    var ms := inv.evalMetricResults;
    BaseKeysDisjointFromMetricKeys(ms);
    forall k | k in BaseKeys
      ensures k in RowFor(r, evalId, inv) && RowFor(r, evalId, inv)[k] == BaseRow(r, evalId, inv)[k]
    {
      WithMetricsKeepsOtherColumns(r, BaseRow(r, evalId, inv), ms, k);
    }
  }

  /** Each metric result whose name is not repeated later in the same
      invocation appears as its score, the string form of its status, and
      its threshold. */
  lemma RowMetricColumns(r: Renderers, evalId: string, inv: InvocationResult, p: int)
    requires 0 <= p < |inv.evalMetricResults| && LastOfItsName(inv.evalMetricResults, p)
    ensures var row, m := RowFor(r, evalId, inv), inv.evalMetricResults[p];
      && MetricColumns(m.metricName) <= row.Keys
      && row[ScoreKey(m.metricName)] == ScoreCell(m.score)
      && row[StatusKey(m.metricName)] == Text(r.statusToText(m.evalStatus))
      && row[ThresholdKey(m.metricName)] == Number(m.threshold)
  {
    WithMetricsLatestWins(r, BaseRow(r, evalId, inv), inv.evalMetricResults, p);
  }

  /** The row's columns are the base columns plus the metric columns and
      nothing else; with distinct metric names that is 6 + 3k columns. */
  lemma RowColumnSet(r: Renderers, evalId: string, inv: InvocationResult)
    ensures RowFor(r, evalId, inv).Keys == BaseKeys + MetricKeys(inv.evalMetricResults)
    ensures DistinctNames(inv.evalMetricResults) ==>
      |RowFor(r, evalId, inv)| == 6 + 3 * |inv.evalMetricResults|
  {
    var ms := inv.evalMetricResults;
    WithMetricsKeys(r, BaseRow(r, evalId, inv), ms);
    assert BaseRow(r, evalId, inv).Keys == BaseKeys;
    if DistinctNames(ms) {
      BaseKeyCount();
      MetricKeyCount(ms);
      BaseKeysDisjointFromMetricKeys(ms);
      assert BaseKeys * MetricKeys(ms) == {};
    }
  }
}

