# Flattening agent-evaluation results into CSV rows

`googleadk2csv.py` runs an agent through an evaluation set with the
evaluation framework and writes every result to one CSV file. The
framework returns a dictionary from eval id to a list of case results.
Each case result holds a list of per-invocation results, and each
invocation result holds a list of metric results. `run_evaluation` turns
this tree into flat rows and writes them. This project models that
flattening step and the write-or-skip decision after it.

- `EvalResults` (`eval_results.dfy`): the framework's result objects as
  immutable datatypes. The dictionary is a sequence of `(evalId, cases)`
  pairs in insertion order. `DistinctIds` states that no id repeats. The
  content renderers and `str(eval_status)` are the fields of a
  `Renderers` record of total functions. A row is a
  `map<string, Cell>`.
- `Columns` (`columns.dfy`): the six base column names and the
  `_score` / `_status` / `_threshold` suffixes. Proves that no metric
  column can name a base column. Also proves that two metric columns
  coincide only when they are of the same kind and belong to metrics of
  the same name.
- `FlatRow` (`row.dfy`): the row of one invocation result. The base row
  literal comes first, then three successive map assignments per metric,
  as in the source. Proves which columns a row has, where each value
  comes from, and that a later metric of the same name wins.
- `Flatten` (`flatten.dfy`): `FlattenResults` is the three nested loops
  that append one row per invocation result. The metric loop is in
  `BuildRow`. The method is proved equal to the specification function
  `Flattened`. Lemmas give the row count and the exact position of every
  invocation result's row. Another lemma shows that every row comes from
  such a position, and another that the `eval_id` column selects exactly
  one id's block of rows. The optional detailed console report is a
  returned list of messages, and the rows are proved not to depend on its
  flag.
- `Export` (`export.dfy`): the `if all_results_for_csv:` guard. A table
  is written exactly when some invocation result exists. Otherwise the
  run prints the "no results" message.

Facts about `googleadk2csv.py` that shape the model:
- A row has six base columns, set by the dictionary literal at lines
  104-121.
- Metric names may repeat within one invocation. The later metric's three
  columns win, because lines 123-129 assign them into the same dictionary.
- The status cell is always `str(eval_status)` (lines 126-128).
- A row is modelled as the contents of the dictionary the code builds: a
  `map` from column name to cell. The order in which keys were inserted is
  not part of the model.

## Model

| member | source | states |
|---|---|---|
| `Columns.ScoreKey` | googleadk2csv.py:125 | the score column of a metric ends in `_score` |
| `Columns.StatusKey` | googleadk2csv.py:126-128 | the status column of a metric ends in `_status` |
| `Columns.ThresholdKey` | googleadk2csv.py:129 | the threshold column of a metric ends in `_threshold` |
| `Columns.BaseKeyCount` | googleadk2csv.py:104-121 | the six base column names are pairwise distinct |
| `Columns.BaseKeysHaveNoMetricSuffix` | googleadk2csv.py:104-129 | no base column name ends in `_score`, `_status` or `_threshold` |
| `Columns.MetricKeysAreNotBaseKeys` | googleadk2csv.py:123-129 | `name_score`, `name_status` and `name_threshold` are never base columns, for every metric name |
| `Columns.MetricKeyShape` | googleadk2csv.py:125-129 | each of a metric's three columns starts with the metric's name and is exactly as long as the name plus its suffix, so it is the name followed by the suffix |
| `Columns.MetricKeysCoincide` | googleadk2csv.py:125-129 | two metric columns are equal iff they have the same suffix and the same metric name; different suffixes never collide |
| `FlatRow.BaseRow` | googleadk2csv.py:104-121 | definition without a contract of its own: the six-entry dictionary literal, each cell the rendering named at 105-120; `RowBaseColumns` and `RowColumnSet` state its columns and values |
| `FlatRow.SetMetric` | googleadk2csv.py:124-129 | definition without a contract of its own: the three assignments for one metric, in source order; `WithMetricsKeys`, `WithMetricsKeepsOtherColumns` and `WithMetricsLatestWins` state their effect |
| `FlatRow.WithMetrics` | googleadk2csv.py:123-129 | definition without a contract of its own: the metric loop as successive assignments, first metric to last; the three `WithMetrics…` lemmas state which columns it adds, keeps and overwrites |
| `FlatRow.RowFor` | googleadk2csv.py:104-129 | definition without a contract of its own: the base row followed by the metric assignments; `RowBaseColumns`, `RowMetricColumns` and `RowColumnSet` state its contents |
| `FlatRow.MetricKeysMembership` | googleadk2csv.py:123-129 | a column is among the metric columns of a list iff some metric in the list contributes it |
| `FlatRow.BaseKeysDisjointFromMetricKeys` | googleadk2csv.py:104-129 | the metric columns of any metric list are disjoint from the base columns |
| `FlatRow.WithMetricsKeys` | googleadk2csv.py:123-129 | the metric assignments add exactly the metrics' columns to the row's keys |
| `FlatRow.WithMetricsKeepsOtherColumns` | googleadk2csv.py:123-129 | a column that no metric names keeps its value through the metric assignments |
| `FlatRow.WithMetricsLatestWins` | googleadk2csv.py:123-129 | the three columns of a name hold the score, status string and threshold of the last metric with that name |
| `FlatRow.MetricColumnCount` | googleadk2csv.py:125-129 | one metric's three columns are three different names |
| `FlatRow.MetricColumnsDisjoint` | googleadk2csv.py:125-129 | metrics of different names share no column |
| `FlatRow.FreshNameFreshColumns` | googleadk2csv.py:123-129 | a name carried by no metric of a list gives columns outside that list's columns |
| `FlatRow.MetricKeyCount` | googleadk2csv.py:123-129 | k distinctly named metrics contribute exactly 3k columns |
| `FlatRow.RowBaseColumns` | googleadk2csv.py:104-121 | every row has the six base columns: `eval_id` is the outer key, `prompt` is the expected user content rendered, the responses are the expected/actual final responses rendered, the tool-call columns are the expected/actual intermediate data rendered, and the metric assignments do not change them |
| `FlatRow.RowMetricColumns` | googleadk2csv.py:123-129 | a metric not followed by a same-named one appears as its score, `str` of its status and its threshold |
| `FlatRow.RowColumnSet` | googleadk2csv.py:104-129 | a row's keys are exactly the base columns plus the metric columns; with distinct metric names it has 6 + 3k columns |
| `Flatten.Flattened` | googleadk2csv.py:100-131 | reference definition without a contract of its own: the rows of every id, case and invocation result in traversal order; `RowCount`, `FlattenedAt` and `RowOrigin` state its length, order and origin |
| `Flatten.InvocationRowsAt` | googleadk2csv.py:103-131 | a case's rows are one per invocation result, the k-th being that invocation's row |
| `Flatten.CaseRowsLength` | googleadk2csv.py:102-131 | one eval id contributes as many rows as its cases hold invocation results |
| `Flatten.RowCount` | googleadk2csv.py:100-131 | the number of rows is the total number of invocation results over all cases of all eval ids |
| `Flatten.CaseRowsAppend` | googleadk2csv.py:102 | cases processed in sequence give their rows in sequence |
| `Flatten.FlattenedAppend` | googleadk2csv.py:101 | eval ids processed in sequence give their rows in sequence |
| `Flatten.CaseRowsSplit` | googleadk2csv.py:102-131 | an eval id's rows are those of the cases before j, then case j's, then those after |
| `Flatten.FlattenedSplit` | googleadk2csv.py:101-131 | all rows are those of the ids before i, then id i's, then those after |
| `Flatten.CaseRowsAt` | googleadk2csv.py:102-131 | within one id, invocation k of case j is row (invocations of earlier cases) + k |
| `Flatten.FlattenedBlockAt` | googleadk2csv.py:100-131 | the m-th row of id i is row (invocations of earlier ids) + m of the whole output |
| `Flatten.FlattenedAt` | googleadk2csv.py:100-131 | invocation k of case j of id i is row (invocations of earlier ids) + (invocations of earlier cases) + k, built under id i |
| `Flatten.CaseRowOrigin` | googleadk2csv.py:102-131 | within one id, every row is the row of some invocation of some case, at the position `CaseRowsAt` gives |
| `Flatten.RowOrigin` | googleadk2csv.py:100-131 | every row is the row of some invocation of some case of some id, at the position `FlattenedAt` gives: no row is invented, merged or reordered |
| `Flatten.EveryRowHasBaseColumns` | googleadk2csv.py:100-131 | every output row has the six base columns and an `eval_id` taken from the input |
| `Flatten.NoRowsIffNoInvocations` | googleadk2csv.py:100-103 | there are no rows iff there are no invocation results, in particular for no ids or only empty cases |
| `Flatten.CaseInvocationCountAppend` | googleadk2csv.py:102 | invocation counts add up over consecutive case lists |
| `Flatten.TotalInvocationsAppend` | googleadk2csv.py:101 | invocation counts add up over consecutive eval ids |
| `Flatten.PositionInBlock` | googleadk2csv.py:101-131 | the rows of id i lie below the count of invocations up to and including id i |
| `Flatten.PrefixCountMonotone` | googleadk2csv.py:101 | longer prefixes of the ids hold at least as many invocation results |
| `Flatten.EvalIdColumnSelectsItsBlock` | googleadk2csv.py:101-105 | with distinct dictionary keys, a row's `eval_id` equals id i iff the row lies in id i's block of positions |
| `Flatten.DetailMessage` | googleadk2csv.py:135-140 | the report of a row opens with the `--- Eval ID: … ---` header carrying the row's eval id and closes with the actual response and a newline |
| `Flatten.DetailMessages` | googleadk2csv.py:134-140 | one report per row |
| `Flatten.DetailMessagesAt` | googleadk2csv.py:134-140 | there are as many reports as rows, and the n-th report is the report of the n-th row |
| `Flatten.BuildRow` | googleadk2csv.py:104-129 | the loop over metric results yields exactly the specified row of the invocation result |
| `Flatten.FlattenResults` | googleadk2csv.py:100-140 | the nested loops yield exactly `Flattened`, one row per invocation result, each with its text columns; the detailed report is `DetailMessages` of the rows (one message per row in row order, by `DetailMessagesAt`) when the flag is set and empty otherwise; the rows do not depend on the flag |
| `Export.SaveResults` | googleadk2csv.py:143-148 | a table is written iff there is at least one row, and then it holds exactly the rows, the output file name and the encoding given |
| `Export.SaveMessage` | googleadk2csv.py:146-148 | the "No evaluation results to save." line is printed iff nothing was written; the "saved" line ends with the name of the file written |
| `Export.SavedIffAnyInvocation` | googleadk2csv.py:143-148 | a table is written iff some invocation result exists, and it holds all rows in order |
| `Export.EmptyInputSavesNothing` | googleadk2csv.py:143-148 | no ids, or ids with only empty invocation lists, take the "No evaluation results to save." branch |
| `Export.ProcessResults` | googleadk2csv.py:100-148 | flattening then saving: the outcome is a write of all rows iff there are invocation results, and the console holds the optional reports followed by the save message |
| `Columns.ExampleColumnNames` | googleadk2csv.py:125-129 | the metric `response_match_score` gets the columns `response_match_score_score`, `response_match_score_status` and `response_match_score_threshold` |
| `Flatten.SingleInvocationExample` | googleadk2csv.py:100-131 | one id `case_1` with one invocation and the metric `response_match_score` (0.5, failed, 0.8) gives one row of nine columns: the six base cells rendered from the invocation and the metric's score, status and threshold |

## Left out

- Argument parsing and the asyncio entry point (`parse_args`, `main`) are not modelled. They only pass values through to `run_evaluation`.
- Loading the evaluation config and the eval set, resolving the agent module and the metrics, and awaiting the framework's evaluation are not modelled. They are file I/O and calls into the external framework. Their result, the dictionary of results by eval id, is the model's input.
- The internals of the framework's content and tool-call renderers and of `str` on a status are not modelled. They are foreign code, so they appear as arbitrary total functions. A renderer that raises an exception is not modelled either.
- Scores and thresholds are `real`, and an absent score is `None`. The code only copies them and does no floating-point arithmetic on them.
- Writing the CSV is not modelled beyond the decision and what is handed over: the rows, the file name and the encoding. How pandas applies them is not modelled. That covers the union of columns, the empty cells, `index=False` and the encoding of the text.
- A row's key insertion order is not modelled, because a `map` has no order. In the source this order fixes the CSV header order: `pd.DataFrame` at line 144 takes columns in the order they first appear across the rows. That is the six base keys in the order of the literal at 104-121, then each metric's `_score`, `_status` and `_threshold` at its first assignment in 123-129. A repeated metric name keeps the position of its first assignment.
- A failing write is not modelled. `df.to_csv` at line 145 can raise, for example on an unwritable path or an encoding that cannot represent the rendered text. The source then never prints the "saved" line at 146, while `Export.ProcessResults` always ends the console with it when rows exist.
- The console output before flattening (the verbose `[INFO]` lines and "Running evaluation..." / "Evaluation complete.") is not modelled. Each printed message is modelled without the newline that `print` appends.
- `Flatten.FlattenResults`: the detailed report reads the eval id from the row's `eval_id` column, where the code uses the loop variable. `FlatRow.RowBaseColumns` proves that the two are equal.
- The two example agents and the test file are not modelled. The agents are configuration objects for an external LLM agent, and the tests only call the framework's own evaluation entry point.
