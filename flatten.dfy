/** The flattening loop of `run_evaluation`: eval ids in order, then the
    case results of each, then the invocation results of each case, one
    row appended per invocation result. */
module Flatten {
  import opened EvalResults
  import opened Columns
  import opened FlatRow

  /** The rows of one case result's invocation results, in order. */
  function InvocationRows(r: Renderers, evalId: string, invs: seq<InvocationResult>): seq<Row>
    decreases |invs|
  {
    if invs == [] then []
    else InvocationRows(r, evalId, invs[..|invs| - 1]) + [RowFor(r, evalId, invs[|invs| - 1])]
  }

  /** The rows of every case result under one eval id, case after case. */
  function CaseRows(r: Renderers, evalId: string, cases: seq<CaseResult>): seq<Row>
    decreases |cases|
  {
    if cases == [] then []
    else
      CaseRows(r, evalId, cases[..|cases| - 1])
      + InvocationRows(r, evalId, cases[|cases| - 1].evalMetricResultPerInvocation)
  }

  /** The rows of every eval id, id after id. */
  function Flattened(r: Renderers, results: ResultsById): seq<Row>
    decreases |results|
  {
    if results == [] then []
    else
      Flattened(r, results[..|results| - 1])
      + CaseRows(r, results[|results| - 1].0, results[|results| - 1].1)
  }

  /** Number of invocation results over a sequence of case results. */
  function CaseInvocationCount(cases: seq<CaseResult>): nat
    decreases |cases|
  {
    if cases == [] then 0
    else CaseInvocationCount(cases[..|cases| - 1]) + |cases[|cases| - 1].evalMetricResultPerInvocation|
  }

  /** Number of invocation results over all eval ids. */
  function TotalInvocations(results: ResultsById): nat
    decreases |results|
  {
    if results == [] then 0
    else TotalInvocations(results[..|results| - 1]) + CaseInvocationCount(results[|results| - 1].1)
  }

  /** Indexing into the middle part of a concatenation. */
  lemma IndexInMiddle<T>(a: seq<T>, b: seq<T>, c: seq<T>, k: int)
    requires 0 <= k < |b|
    ensures |a| + k < |a + b + c| && (a + b + c)[|a| + k] == b[k]
  {
  }

  /** The i-th row of an invocation list is the row of its i-th invocation result. */
  lemma {:induction false} InvocationRowsAt(r: Renderers, evalId: string, invs: seq<InvocationResult>)
    ensures |InvocationRows(r, evalId, invs)| == |invs|
    ensures forall k :: 0 <= k < |invs| ==> InvocationRows(r, evalId, invs)[k] == RowFor(r, evalId, invs[k])
  {
    if invs != [] {
      InvocationRowsAt(r, evalId, invs[..|invs| - 1]);
    }
  }

  /** One row per invocation result under one eval id. */
  lemma {:induction false} CaseRowsLength(r: Renderers, evalId: string, cases: seq<CaseResult>)
    ensures |CaseRows(r, evalId, cases)| == CaseInvocationCount(cases)
  {
    if cases != [] {
      CaseRowsLength(r, evalId, cases[..|cases| - 1]);
      InvocationRowsAt(r, evalId, cases[|cases| - 1].evalMetricResultPerInvocation);
    }
  }

  /** One row per invocation result, summed over every case result of every
      eval id: nothing is filtered and nothing is merged. */
  lemma {:induction false} RowCount(r: Renderers, results: ResultsById)
    ensures |Flattened(r, results)| == TotalInvocations(results)
  {
    if results != [] {
      RowCount(r, results[..|results| - 1]);
      CaseRowsLength(r, results[|results| - 1].0, results[|results| - 1].1);
    }
  }

  /** Case results processed one after another give their rows one after another. */
  lemma {:induction false} CaseRowsAppend(r: Renderers, evalId: string, a: seq<CaseResult>, b: seq<CaseResult>)
    ensures CaseRows(r, evalId, a + b) == CaseRows(r, evalId, a) + CaseRows(r, evalId, b)
    decreases |b|
  {
    if b != [] {
      var ab := a + b;
      assert ab[..|ab| - 1] == a + b[..|b| - 1];
      assert ab[|ab| - 1] == b[|b| - 1];
      CaseRowsAppend(r, evalId, a, b[..|b| - 1]);
    } else {
      assert a + b == a;
    }
  }

  /** Eval ids processed one after another give their rows one after
      another: the output keeps the input's id order. */
  lemma {:induction false} FlattenedAppend(r: Renderers, a: ResultsById, b: ResultsById)
    ensures Flattened(r, a + b) == Flattened(r, a) + Flattened(r, b)
    decreases |b|
  {
    if b != [] {
      var ab := a + b;
      assert ab[..|ab| - 1] == a + b[..|b| - 1];
      assert ab[|ab| - 1] == b[|b| - 1];
      FlattenedAppend(r, a, b[..|b| - 1]);
    } else {
      assert a + b == a;
    }
  }

  /** The rows under one eval id split around case j. */
  lemma CaseRowsSplit(r: Renderers, evalId: string, cases: seq<CaseResult>, j: int)
    requires 0 <= j < |cases|
    ensures CaseRows(r, evalId, cases)
         == CaseRows(r, evalId, cases[..j])
          + InvocationRows(r, evalId, cases[j].evalMetricResultPerInvocation)
          + CaseRows(r, evalId, cases[j + 1..])
  {
    var before, here, after := cases[..j], [cases[j]], cases[j + 1..];
    assert cases == before + here + after;
    CaseRowsAppend(r, evalId, before + here, after);
    CaseRowsAppend(r, evalId, before, here);
    assert here[..0] == [];
  }

  /** Within one eval id, invocation k of case j lands after every
      invocation of the cases before j. */
  lemma CaseRowsAt(r: Renderers, evalId: string, cases: seq<CaseResult>, j: int, k: int)
    requires 0 <= j < |cases| && 0 <= k < |cases[j].evalMetricResultPerInvocation|
    ensures CaseInvocationCount(cases[..j]) + k < |CaseRows(r, evalId, cases)|
    ensures CaseRows(r, evalId, cases)[CaseInvocationCount(cases[..j]) + k]
         == RowFor(r, evalId, cases[j].evalMetricResultPerInvocation[k])
  {
    var invs := cases[j].evalMetricResultPerInvocation;
    CaseRowsSplit(r, evalId, cases, j);
    CaseRowsLength(r, evalId, cases[..j]);
    InvocationRowsAt(r, evalId, invs);
    IndexInMiddle(CaseRows(r, evalId, cases[..j]), InvocationRows(r, evalId, invs), CaseRows(r, evalId, cases[j + 1..]), k);
  }

  /** All rows split around eval id i. */
  lemma FlattenedSplit(r: Renderers, results: ResultsById, i: int)
    requires 0 <= i < |results|
    ensures Flattened(r, results)
         == Flattened(r, results[..i]) + CaseRows(r, results[i].0, results[i].1) + Flattened(r, results[i + 1..])
  {
    var before, here, after := results[..i], [results[i]], results[i + 1..];
    assert results == before + here + after;
    FlattenedAppend(r, before + here, after);
    FlattenedAppend(r, before, here);
    assert here[..0] == [];
  }

  /** The rows of eval id i start after the rows of the ids before it. */
  lemma FlattenedBlockAt(r: Renderers, results: ResultsById, i: int, m: int)
    requires 0 <= i < |results| && 0 <= m < |CaseRows(r, results[i].0, results[i].1)|
    ensures TotalInvocations(results[..i]) + m < |Flattened(r, results)|
    ensures Flattened(r, results)[TotalInvocations(results[..i]) + m]
         == CaseRows(r, results[i].0, results[i].1)[m]
  {
    var here := CaseRows(r, results[i].0, results[i].1);
    FlattenedSplit(r, results, i);
    RowCount(r, results[..i]);
    IndexInMiddle(Flattened(r, results[..i]), here, Flattened(r, results[i + 1..]), m);
  }

  /** Row order: invocation k of case j of eval id i is row number
      (invocations of ids before i) + (invocations of cases before j) + k,
      and that row is built from that invocation under that id. */
  lemma FlattenedAt(r: Renderers, results: ResultsById, i: int, j: int, k: int)
    requires 0 <= i < |results| && 0 <= j < |results[i].1|
    requires 0 <= k < |results[i].1[j].evalMetricResultPerInvocation|
    ensures TotalInvocations(results[..i]) + CaseInvocationCount(results[i].1[..j]) + k < |Flattened(r, results)|
    ensures Flattened(r, results)[TotalInvocations(results[..i]) + CaseInvocationCount(results[i].1[..j]) + k]
         == RowFor(r, results[i].0, results[i].1[j].evalMetricResultPerInvocation[k])
  {
    CaseRowsAt(r, results[i].0, results[i].1, j, k);
    FlattenedBlockAt(r, results, i, CaseInvocationCount(results[i].1[..j]) + k);
  }

  lemma AppendAssociative<T>(a: seq<T>, b: seq<T>, c: seq<T>)
    ensures (a + b) + c == a + (b + c)
  {
  }

  /** Indexing into either side of a concatenation. */
  lemma IndexInConcat<T>(a: seq<T>, b: seq<T>, n: int)
    requires 0 <= n < |a| + |b|
    ensures n < |a| ==> (a + b)[n] == a[n]
    ensures |a| <= n ==> (a + b)[n] == b[n - |a|]
  {
  }

  /** Within one eval id, every row comes from some invocation `k` of some
      case `j`, at the position `CaseRowsAt` gives it. */
  lemma {:induction false} CaseRowOrigin(r: Renderers, evalId: string, cases: seq<CaseResult>, n: int)
    returns (j: int, k: int)
    requires 0 <= n < |CaseRows(r, evalId, cases)|
    ensures 0 <= j < |cases| && 0 <= k < |cases[j].evalMetricResultPerInvocation|
    ensures n == CaseInvocationCount(cases[..j]) + k
    ensures CaseRows(r, evalId, cases)[n] == RowFor(r, evalId, cases[j].evalMetricResultPerInvocation[k])
    decreases |cases|
  {
    var init, invs := cases[..|cases| - 1], cases[|cases| - 1].evalMetricResultPerInvocation;
    CaseRowsLength(r, evalId, init);
    InvocationRowsAt(r, evalId, invs);
    IndexInConcat(CaseRows(r, evalId, init), InvocationRows(r, evalId, invs), n);
    if n < |CaseRows(r, evalId, init)| {
      j, k := CaseRowOrigin(r, evalId, init, n);
      assert init[..j] == cases[..j] && init[j] == cases[j];
    } else {
      j, k := |cases| - 1, n - CaseInvocationCount(init);
    }
  }

  /** Every output row comes from some invocation `k` of some case `j` of
      some eval id `i`, at the position `FlattenedAt` gives it: no row is
      invented. */
  lemma {:induction false} RowOrigin(r: Renderers, results: ResultsById, n: int)
    returns (i: int, j: int, k: int)
    requires 0 <= n < |Flattened(r, results)|
    ensures 0 <= i < |results| && 0 <= j < |results[i].1|
    ensures 0 <= k < |results[i].1[j].evalMetricResultPerInvocation|
    ensures n == TotalInvocations(results[..i]) + CaseInvocationCount(results[i].1[..j]) + k
    ensures Flattened(r, results)[n] == RowFor(r, results[i].0, results[i].1[j].evalMetricResultPerInvocation[k])
    decreases |results|
  {
    var init, last := results[..|results| - 1], results[|results| - 1];
    RowCount(r, init);
    IndexInConcat(Flattened(r, init), CaseRows(r, last.0, last.1), n);
    if n < |Flattened(r, init)| {
      i, j, k := RowOrigin(r, init, n);
      assert init[..i] == results[..i] && init[i] == results[i];
    } else {
      i := |results| - 1;
      j, k := CaseRowOrigin(r, last.0, last.1, n - TotalInvocations(init));
    }
  }

  /** Every output row carries the six base columns, and its `eval_id` is
      one of the input's eval ids. */
  lemma EveryRowHasBaseColumns(r: Renderers, results: ResultsById, n: int)
    requires 0 <= n < |Flattened(r, results)|
    ensures BaseKeys <= Flattened(r, results)[n].Keys
    ensures exists i :: 0 <= i < |results| && Flattened(r, results)[n][EvalIdKey] == Text(results[i].0)
  {
    var i, j, k := RowOrigin(r, results, n);
    RowBaseColumns(r, results[i].0, results[i].1[j].evalMetricResultPerInvocation[k]);
  }

  /** No rows at all exactly when there are no invocation results at all,
      whether there are no eval ids or only empty case lists. */
  lemma NoRowsIffNoInvocations(r: Renderers, results: ResultsById)
    ensures Flattened(r, results) == [] <==> TotalInvocations(results) == 0
    ensures (forall i, j :: 0 <= i < |results| && 0 <= j < |results[i].1|
               ==> results[i].1[j].evalMetricResultPerInvocation == [])
            ==> Flattened(r, results) == []
  {
    RowCount(r, results);
    if forall i, j :: 0 <= i < |results| && 0 <= j < |results[i].1|
         ==> results[i].1[j].evalMetricResultPerInvocation == [] {
      if Flattened(r, results) != [] {
        var i, j, k := RowOrigin(r, results, 0);
      }
    }
  }

  /** Invocation counts add up over consecutive case lists. */
  lemma {:induction false} CaseInvocationCountAppend(a: seq<CaseResult>, b: seq<CaseResult>)
    ensures CaseInvocationCount(a + b) == CaseInvocationCount(a) + CaseInvocationCount(b)
    decreases |b|
  {
    if b != [] {
      var ab := a + b;
      assert ab[..|ab| - 1] == a + b[..|b| - 1];
      CaseInvocationCountAppend(a, b[..|b| - 1]);
    } else {
      assert a + b == a;
    }
  }

  /** Invocation counts add up over consecutive eval ids. */
  lemma {:induction false} TotalInvocationsAppend(a: ResultsById, b: ResultsById)
    ensures TotalInvocations(a + b) == TotalInvocations(a) + TotalInvocations(b)
    decreases |b|
  {
    if b != [] {
      var ab := a + b;
      assert ab[..|ab| - 1] == a + b[..|b| - 1];
      TotalInvocationsAppend(a, b[..|b| - 1]);
    } else {
      assert a + b == a;
    }
  }

  /** The rows of eval id i occupy the positions from
      TotalInvocations(results[..i]) up to TotalInvocations(results[..i + 1]). */
  lemma PositionInBlock(results: ResultsById, i: int, j: int, k: int)
    requires 0 <= i < |results| && 0 <= j < |results[i].1|
    requires 0 <= k < |results[i].1[j].evalMetricResultPerInvocation|
    ensures TotalInvocations(results[..i]) + CaseInvocationCount(results[i].1[..j]) + k
          < TotalInvocations(results[..i + 1])
  {
    var cases := results[i].1;
    assert results[..i + 1][..i] == results[..i];
    assert cases == cases[..j] + ([cases[j]] + cases[j + 1..]);
    CaseInvocationCountAppend(cases[..j], [cases[j]] + cases[j + 1..]);
    CaseInvocationCountAppend([cases[j]], cases[j + 1..]);
    assert [cases[j]][..0] == [];
  }

  /** Longer prefixes hold at least as many invocation results. */
  lemma PrefixCountMonotone(results: ResultsById, a: int, b: int)
    requires 0 <= a <= b <= |results|
    ensures TotalInvocations(results[..a]) <= TotalInvocations(results[..b])
  {
    assert results[..b] == results[..a] + results[a..b];
    TotalInvocationsAppend(results[..a], results[a..b]);
  }

  /** Because a dictionary never repeats an eval id, the `eval_id` column
      picks out exactly the block of rows produced under that id. */
  lemma EvalIdColumnSelectsItsBlock(r: Renderers, results: ResultsById, i: int, n: int)
    requires DistinctIds(results) && 0 <= i < |results| && 0 <= n < |Flattened(r, results)|
    ensures EvalIdKey in Flattened(r, results)[n]
    ensures Flattened(r, results)[n][EvalIdKey] == Text(results[i].0)
        <==> TotalInvocations(results[..i]) <= n < TotalInvocations(results[..i + 1])
  {
    var i', j, k := RowOrigin(r, results, n);
    RowBaseColumns(r, results[i'].0, results[i'].1[j].evalMetricResultPerInvocation[k]);
    PositionInBlock(results, i', j, k);
    if i' < i {
      PrefixCountMonotone(results, i' + 1, i);
    } else if i < i' {
      PrefixCountMonotone(results, i + 1, i');
    }
  }

  /** A row's text columns for the detailed console report. */
  predicate HasDetailColumns(row: Row)
  {
    && EvalIdKey in row && row[EvalIdKey].Text?
    && PromptKey in row && row[PromptKey].Text?
    && ExpectedResponseKey in row && row[ExpectedResponseKey].Text?
    && ActualResponseKey in row && row[ActualResponseKey].Text?
  }

  /** The detailed report printed for one row: its eval id, prompt,
      expected and actual response. */
  function DetailMessage(row: Row): (msg: string)
    requires HasDetailColumns(row)
    ensures "\n--- Eval ID: " + row[EvalIdKey].text + " ---\n" <= msg
    ensures EndsWith(msg, row[ActualResponseKey].text + "\n")
  {
    "\n--- Eval ID: " + row[EvalIdKey].text + " ---\n"
      + "Prompt:\n" + row[PromptKey].text + "\n"
      + "Expected:\n" + row[ExpectedResponseKey].text + "\n"
      + "Actual:\n" + row[ActualResponseKey].text + "\n"
  }

  /** The detailed reports of all rows, in row order. */
  function DetailMessages(rows: seq<Row>): (msgs: seq<string>)
    requires forall n :: 0 <= n < |rows| ==> HasDetailColumns(rows[n])
    ensures |msgs| == |rows|
    decreases |rows|
  {
    if rows == [] then []
    else DetailMessages(rows[..|rows| - 1]) + [DetailMessage(rows[|rows| - 1])]
  }

  /** One report per row, the n-th being the report of the n-th row. */
  lemma {:induction false} DetailMessagesAt(rows: seq<Row>)
    requires forall n :: 0 <= n < |rows| ==> HasDetailColumns(rows[n])
    ensures |DetailMessages(rows)| == |rows|
    ensures forall n :: 0 <= n < |rows| ==> DetailMessages(rows)[n] == DetailMessage(rows[n])
  {
    if rows != [] {
      DetailMessagesAt(rows[..|rows| - 1]);
    }
  }

  /** Builds the row of one invocation result: the six base columns, then
      the score, status and threshold columns of each metric result in
      turn, later assignments replacing earlier ones. */
  method BuildRow(r: Renderers, evalId: string, invocationResult: InvocationResult) returns (baseRow: Row)
    ensures baseRow == RowFor(r, evalId, invocationResult)
  {
    var metrics := invocationResult.evalMetricResults;
    baseRow := BaseRow(r, evalId, invocationResult);
    var q := 0;
    while q < |metrics|
      invariant 0 <= q <= |metrics|
      invariant baseRow == WithMetrics(r, BaseRow(r, evalId, invocationResult), metrics[..q])
    {
      var metricName := metrics[q].metricName;
      baseRow := baseRow[ScoreKey(metricName) := ScoreCell(metrics[q].score)];
      baseRow := baseRow[StatusKey(metricName) := Text(r.statusToText(metrics[q].evalStatus))];
      baseRow := baseRow[ThresholdKey(metricName) := Number(metrics[q].threshold)];
      assert metrics[..q + 1][..q] == metrics[..q];
      q := q + 1;
    }
    assert metrics[..q] == metrics;
  }

  /** One more invocation result adds its row at the end. */
  lemma InvocationRowsStep(r: Renderers, evalId: string, invs: seq<InvocationResult>, k: int)
    requires 0 <= k < |invs|
    ensures InvocationRows(r, evalId, invs[..k + 1]) == InvocationRows(r, evalId, invs[..k]) + [RowFor(r, evalId, invs[k])]
  {
    assert invs[..k + 1][..k] == invs[..k];
  }

  /** One more case result adds its rows at the end. */
  lemma CaseRowsStep(r: Renderers, evalId: string, cases: seq<CaseResult>, j: int)
    requires 0 <= j < |cases|
    ensures CaseRows(r, evalId, cases[..j + 1])
         == CaseRows(r, evalId, cases[..j]) + InvocationRows(r, evalId, cases[j].evalMetricResultPerInvocation)
  {
    assert cases[..j + 1][..j] == cases[..j];
  }

  /** One more eval id adds its rows at the end. */
  lemma FlattenedStep(r: Renderers, results: ResultsById, i: int)
    requires 0 <= i < |results|
    ensures Flattened(r, results[..i + 1]) == Flattened(r, results[..i]) + CaseRows(r, results[i].0, results[i].1)
  {
    assert results[..i + 1][..i] == results[..i];
  }

  /** Appending a row appends its detailed report. */
  lemma DetailMessagesStep(rows: seq<Row>, row: Row)
    requires forall n :: 0 <= n < |rows| ==> HasDetailColumns(rows[n])
    requires HasDetailColumns(row)
    ensures forall n :: 0 <= n < |rows + [row]| ==> HasDetailColumns((rows + [row])[n])
    ensures DetailMessages(rows + [row]) == DetailMessages(rows) + [DetailMessage(row)]
  {
  }

  /** The flattening loop. Appends one row per invocation result, eval id
      by eval id, case by case; when `printDetailedResults` is set it also
      reports each row on the console. The rows do not depend on that flag. */
  method FlattenResults(r: Renderers, results: ResultsById, printDetailedResults: bool)
    returns (rows: seq<Row>, console: seq<string>)
    ensures rows == Flattened(r, results)
    ensures |rows| == TotalInvocations(results)
    ensures forall n :: 0 <= n < |rows| ==> HasDetailColumns(rows[n])
    ensures console == if printDetailedResults then DetailMessages(rows) else []
  {
    rows, console := [], [];
    var i := 0;
    while i < |results|
      invariant 0 <= i <= |results|
      invariant rows == Flattened(r, results[..i])
      invariant forall n :: 0 <= n < |rows| ==> HasDetailColumns(rows[n])
      invariant console == if printDetailedResults then DetailMessages(rows) else []
    {
      var evalId, evalCaseResults := results[i].0, results[i].1;
      ghost var rowsOfEarlierIds := rows;
      var j := 0;
      while j < |evalCaseResults|
        invariant 0 <= j <= |evalCaseResults|
        invariant rows == rowsOfEarlierIds + CaseRows(r, evalId, evalCaseResults[..j])
        invariant forall n :: 0 <= n < |rows| ==> HasDetailColumns(rows[n])
        invariant console == if printDetailedResults then DetailMessages(rows) else []
      {
        var invocationResults := evalCaseResults[j].evalMetricResultPerInvocation;
        ghost var rowsOfEarlierCases := rows;
        var k := 0;
        while k < |invocationResults|
          invariant 0 <= k <= |invocationResults|
          invariant rows == rowsOfEarlierCases + InvocationRows(r, evalId, invocationResults[..k])
          invariant forall n :: 0 <= n < |rows| ==> HasDetailColumns(rows[n])
          invariant console == if printDetailedResults then DetailMessages(rows) else []
        {
          var baseRow := BuildRow(r, evalId, invocationResults[k]);
          RowBaseColumns(r, evalId, invocationResults[k]);
          DetailMessagesStep(rows, baseRow);
          InvocationRowsStep(r, evalId, invocationResults, k);
          AppendAssociative(rowsOfEarlierCases, InvocationRows(r, evalId, invocationResults[..k]), [baseRow]);
          rows := rows + [baseRow];
          if printDetailedResults {
            console := console + [DetailMessage(baseRow)];
          }
          k := k + 1;
        }
        assert invocationResults[..k] == invocationResults;
        CaseRowsStep(r, evalId, evalCaseResults, j);
        AppendAssociative(rowsOfEarlierIds, CaseRows(r, evalId, evalCaseResults[..j]), InvocationRows(r, evalId, invocationResults));
        j := j + 1;
      }
      assert evalCaseResults[..j] == evalCaseResults;
      FlattenedStep(r, results, i);
      i := i + 1;
    }
    assert results[..i] == results;
    RowCount(r, results);
  }

  /** One eval id with one case result holding one invocation result scored
      by one metric gives one row of nine columns. */
  lemma SingleInvocationExample(r: Renderers, inv: InvocationResult)
    requires inv.evalMetricResults == [MetricResult("response_match_score", Some(0.5), Failed, 0.8)]
    ensures var rows := Flattened(r, [("case_1", [CaseResult([inv])])]);
      && |rows| == 1
      && |rows[0]| == 9
      && rows[0].Keys == BaseKeys + {"response_match_score_score", "response_match_score_status",
                                     "response_match_score_threshold"}
      && rows[0]["eval_id"] == Text("case_1")
      && rows[0]["prompt"] == Text(r.contentToText(inv.expectedInvocation.userContent))
      && rows[0]["expected_response"] == Text(r.contentToText(inv.expectedInvocation.finalResponse))
      && rows[0]["actual_response"] == Text(r.contentToText(inv.actualInvocation.finalResponse))
      && rows[0]["expected_tool_calls"] == Text(r.toolCallsToText(inv.expectedInvocation.intermediateData))
      && rows[0]["actual_tool_calls"] == Text(r.toolCallsToText(inv.actualInvocation.intermediateData))
      && rows[0]["response_match_score_score"] == Number(0.5)
      && rows[0]["response_match_score_status"] == Text(r.statusToText(Failed))
      && rows[0]["response_match_score_threshold"] == Number(0.8)
  {
    var results := [("case_1", [CaseResult([inv])])];
    var m := inv.evalMetricResults[0];
    RowCount(r, results);
    FlattenedAt(r, results, 0, 0, 0);
    assert results[..0] == [] && results[0].1[..0] == [];
    RowBaseColumns(r, "case_1", inv);
    RowColumnSet(r, "case_1", inv);
    RowMetricColumns(r, "case_1", inv, 0);
    assert inv.evalMetricResults[..0] == [];
    assert MetricKeys(inv.evalMetricResults) == MetricColumns(m.metricName);
    ExampleColumnNames();
  }
}
