/** Column names of a flat row: six fixed base columns and three derived
    columns per metric, named by appending a suffix to the metric's name. */
module Columns {

  const EvalIdKey: string := "eval_id"
  const PromptKey: string := "prompt"
  const ExpectedResponseKey: string := "expected_response"
  const ActualResponseKey: string := "actual_response"
  const ExpectedToolCallsKey: string := "expected_tool_calls"
  const ActualToolCallsKey: string := "actual_tool_calls"

  const BaseKeys: set<string> :=
    {EvalIdKey, PromptKey, ExpectedResponseKey, ActualResponseKey, ExpectedToolCallsKey, ActualToolCallsKey}

  const ScoreSuffix: string := "_score"
  const StatusSuffix: string := "_status"
  const ThresholdSuffix: string := "_threshold"

  /** The column `f"{metric_name}_score"`: the metric's name, then the suffix. */
  function ScoreKey(metricName: string): (k: string)
    ensures EndsWith(k, ScoreSuffix)
  {
    metricName + ScoreSuffix
  }

  /** The column `f"{metric_name}_status"`. */
  function StatusKey(metricName: string): (k: string)
    ensures EndsWith(k, StatusSuffix)
  {
    metricName + StatusSuffix
  }

  /** The column `f"{metric_name}_threshold"`. */
  function ThresholdKey(metricName: string): (k: string)
    ensures EndsWith(k, ThresholdSuffix)
  {
    metricName + ThresholdSuffix
  }

  predicate EndsWith(s: string, suffix: string)
  {
    |suffix| <= |s| && s[|s| - |suffix|..] == suffix
  }

  /** The six base columns are distinct names. */
  lemma BaseKeyCount()
    ensures |BaseKeys| == 6
  {
  }

  /** A string whose last two characters differ from a suffix's last two does not end in it. */
  lemma DiffersAtEnd(s: string, suffix: string)
    requires 2 <= |s| && 2 <= |suffix|
    requires s[|s| - 1] != suffix[|suffix| - 1] || s[|s| - 2] != suffix[|suffix| - 2]
    ensures !EndsWith(s, suffix)
  {
  }

  /** None of the base columns ends in a metric suffix: the suffixes end
      in "re", "us" and "ld", the base names in "id", "pt", "se" and "ls". */
  lemma BaseKeysHaveNoMetricSuffix(k: string)
    requires k in BaseKeys
    ensures !EndsWith(k, ScoreSuffix) && !EndsWith(k, StatusSuffix) && !EndsWith(k, ThresholdSuffix)
  {
    assert 6 <= |k| && k[|k| - 2..] in {"id", "pt", "se", "ls"};
    assert k[|k| - 1] == k[|k| - 2..][1] && k[|k| - 2] == k[|k| - 2..][0];
    DiffersAtEnd(k, ScoreSuffix);
    DiffersAtEnd(k, StatusSuffix);
    DiffersAtEnd(k, ThresholdSuffix);
  }

  /** A metric column never coincides with a base column, so assigning it
      cannot overwrite one. */
  lemma MetricKeysAreNotBaseKeys(metricName: string)
    ensures ScoreKey(metricName) !in BaseKeys
    ensures StatusKey(metricName) !in BaseKeys
    ensures ThresholdKey(metricName) !in BaseKeys
  {
    var s, t, h := ScoreKey(metricName), StatusKey(metricName), ThresholdKey(metricName);
    assert s[|metricName|..] == ScoreSuffix;
    assert t[|metricName|..] == StatusSuffix;
    assert h[|metricName|..] == ThresholdSuffix;
    if s in BaseKeys { BaseKeysHaveNoMetricSuffix(s); }
    if t in BaseKeys { BaseKeysHaveNoMetricSuffix(t); }
    if h in BaseKeys { BaseKeysHaveNoMetricSuffix(h); }
  }

  /** Two metric columns coincide exactly when they are of the same kind and
      belong to metrics of the same name. */
  lemma MetricKeysCoincide(a: string, b: string)
    ensures ScoreKey(a) == ScoreKey(b) <==> a == b
    ensures StatusKey(a) == StatusKey(b) <==> a == b
    ensures ThresholdKey(a) == ThresholdKey(b) <==> a == b
    ensures ScoreKey(a) != StatusKey(b)
    ensures ScoreKey(a) != ThresholdKey(b)
    ensures StatusKey(a) != ThresholdKey(b)
  {
    if ScoreKey(a) == ScoreKey(b) { assert a == ScoreKey(a)[..|a|] == ScoreKey(b)[..|b|] == b; }
    if StatusKey(a) == StatusKey(b) { assert a == StatusKey(a)[..|a|] == StatusKey(b)[..|b|] == b; }
    if ThresholdKey(a) == ThresholdKey(b) { assert a == ThresholdKey(a)[..|a|] == ThresholdKey(b)[..|b|] == b; }
    var s, t, h := ScoreKey(a), StatusKey(b), ThresholdKey(b);
    assert s[|s| - 1] == 'e' && t[|t| - 1] == 's';
    var t', h' := StatusKey(a), ThresholdKey(b);
    assert h[|h| - 1] == 'd';
    assert t'[|t'| - 1] == 's' && h'[|h'| - 1] == 'd';
  }

  /** Each metric column is the metric's name followed by its suffix. */
  lemma MetricKeyShape(metricName: string)
    ensures |ScoreKey(metricName)| == |metricName| + |ScoreSuffix| && ScoreKey(metricName)[..|metricName|] == metricName
    ensures |StatusKey(metricName)| == |metricName| + |StatusSuffix| && StatusKey(metricName)[..|metricName|] == metricName
    ensures |ThresholdKey(metricName)| == |metricName| + |ThresholdSuffix| && ThresholdKey(metricName)[..|metricName|] == metricName
  {
  }

  /** The column names of the metric `response_match_score`. */
  lemma ExampleColumnNames()
    ensures ScoreKey("response_match_score") == "response_match_score_score"
    ensures StatusKey("response_match_score") == "response_match_score_status"
    ensures ThresholdKey("response_match_score") == "response_match_score_threshold"
  {
  }
}
