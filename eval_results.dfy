/** The evaluation framework's nested result objects, as immutable values.
    Only the fields the flattening step reads are kept; the structured
    content and tool-call payloads stay opaque, and the framework's text
    renderers are passed in as total functions. */
module EvalResults {

  datatype Option<+T> = None | Some(value: T)

  /** A structured message (a prompt or a final response) as the framework holds it. */
  type Content

  /** The intermediate data of an invocation: the tool calls it made or expected. */
  type IntermediateData

  /** Outcome of one metric on one invocation. */
  datatype EvalStatus = Passed | Failed | NotEvaluated

  /** One conversation turn, expected or actual. */
  datatype Invocation = Invocation(
    userContent: Content,
    finalResponse: Content,
    intermediateData: IntermediateData)

  /** A named metric's outcome; the score may be absent, the threshold is
      always set. Neither is ever computed with, only copied. */
  datatype MetricResult = MetricResult(
    metricName: string,
    score: Option<real>,
    evalStatus: EvalStatus,
    threshold: real)

  /** The expected and actual turn together with every metric computed on it. */
  datatype InvocationResult = InvocationResult(
    expectedInvocation: Invocation,
    actualInvocation: Invocation,
    evalMetricResults: seq<MetricResult>)

  /** One run of an evaluation case: its per-invocation results in turn order. */
  datatype CaseResult = CaseResult(evalMetricResultPerInvocation: seq<InvocationResult>)

  /** The results by eval id, in the dictionary's insertion order. */
  type ResultsById = seq<(string, seq<CaseResult>)>

  /** A dictionary never repeats a key. */
  predicate DistinctIds(results: ResultsById)
  {
    forall i, j :: 0 <= i < j < |results| ==> results[i].0 != results[j].0
  }

  /** The framework's content and tool-call renderers and `str` of a status:
      deterministic, total, and otherwise unknown. */
  datatype Renderers = Renderers(
    contentToText: Content -> string,
    toolCallsToText: IntermediateData -> string,
    statusToText: EvalStatus -> string)

  /** The value held in one cell of a flat row. */
  datatype Cell = Text(text: string) | Number(value: real) | NoneValue

  /** A flat row: column name to cell. */
  type Row = map<string, Cell>

  /** An absent score is stored as `None`, a present one as the number. */
  function ScoreCell(score: Option<real>): Cell
  {
    match score
    case None => NoneValue
    case Some(v) => Number(v)
  }
}


