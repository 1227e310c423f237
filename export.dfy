/** The end of `run_evaluation`: the rows are written as a CSV table only
    when there is at least one; otherwise a "no results" message is the
    only outcome. */
module Export {
  import opened EvalResults
  import opened Columns
  import opened FlatRow
  import opened Flatten

  /** What happens to the rows: a table written to the output file in the
      chosen encoding, or nothing written. */
  datatype SaveOutcome =
    | CsvWritten(outputFilename: string, encoding: string, table: seq<Row>)
    | NothingSaved

  /** The write-or-skip decision on the collected rows: a non-empty list is
      written whole to the named file in the named encoding, an empty one is
      not written at all. */
  function SaveResults(rows: seq<Row>, outputFilename: string, encoding: string): (outcome: SaveOutcome)
    ensures outcome.CsvWritten? <==> rows != []
    ensures outcome.CsvWritten? ==>
      outcome.table == rows && outcome.outputFilename == outputFilename && outcome.encoding == encoding
  {
    if |rows| > 0 then CsvWritten(outputFilename, encoding, rows) else NothingSaved
  }

  /** The console line reporting the decision. The "no results" line is
      printed exactly when nothing was written, and the "saved" line names
      the file written. */
  function SaveMessage(outcome: SaveOutcome): (msg: string)
    ensures outcome.NothingSaved? <==> msg == "No evaluation results to save."
    ensures outcome.CsvWritten? ==> EndsWith(msg, outcome.outputFilename)
  {
    match outcome
    case CsvWritten(outputFilename, _, _) => "Saved all evaluation results to " + outputFilename
    case NothingSaved => "No evaluation results to save."
  }

  /** A table is written exactly when some invocation result exists, and it
      then holds every row, in order; otherwise nothing is written. */
  lemma SavedIffAnyInvocation(r: Renderers, results: ResultsById, outputFilename: string, encoding: string)
    ensures SaveResults(Flattened(r, results), outputFilename, encoding).CsvWritten?
        <==> TotalInvocations(results) > 0
    ensures TotalInvocations(results) > 0 ==>
      SaveResults(Flattened(r, results), outputFilename, encoding)
        == CsvWritten(outputFilename, encoding, Flattened(r, results))
  {
    RowCount(r, results);
  }

  /** No eval ids, or eval ids whose case results hold no invocation
      results, end in the "no results" branch. */
  lemma EmptyInputSavesNothing(r: Renderers, results: ResultsById, outputFilename: string, encoding: string)
    requires forall i, j :: 0 <= i < |results| && 0 <= j < |results[i].1|
               ==> results[i].1[j].evalMetricResultPerInvocation == []
    ensures SaveResults(Flattened(r, results), outputFilename, encoding) == NothingSaved
    ensures SaveMessage(SaveResults(Flattened(r, results), outputFilename, encoding))
         == "No evaluation results to save."
  {
    NoRowsIffNoInvocations(r, results);
  }

  /** Steps 4 and 5 of `run_evaluation`: flatten the results, optionally
      report each row, then write the table or report that there is none.
      The detailed-report flag adds console output only. */
  method ProcessResults(r: Renderers, results: ResultsById, outputFilename: string, encoding: string,
                        printDetailedResults: bool)
    returns (rows: seq<Row>, outcome: SaveOutcome, console: seq<string>)
    ensures rows == Flattened(r, results) && |rows| == TotalInvocations(results)
    ensures outcome.CsvWritten? <==> TotalInvocations(results) > 0
    ensures outcome.CsvWritten? ==> outcome == CsvWritten(outputFilename, encoding, rows)
    ensures forall n :: 0 <= n < |rows| ==> HasDetailColumns(rows[n])
    ensures console == (if printDetailedResults then DetailMessages(rows) else []) + [SaveMessage(outcome)]
  {
    var details;
    rows, details := FlattenResults(r, results, printDetailedResults);
    outcome := SaveResults(rows, outputFilename, encoding);
    console := details + [SaveMessage(outcome)];
  }
}
