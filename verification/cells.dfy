/** The outcome of one (model, input) evaluation and the nested results map
    `model id -> input id -> CellResult` that the relay returns and every
    prompt stores. */
module Cells {
  import opened Wrappers

  /** `{ output, error, input_tokens, output_tokens }`; `None` is JSON `null`. */
  datatype CellResult = CellResult(
    output: Option<string>,
    error: Option<string>,
    inputTokens: Option<int>,
    outputTokens: Option<int>)

  type Grid = map<string, map<string, CellResult>>

  /** A resolved success: output and both token counts present, no error. */
  predicate IsSuccess(c: CellResult) {
    c.output.Some? && c.error.None? && c.inputTokens.Some? && c.outputTokens.Some?
  }

  /** A resolved failure: an error message and every other field null. */
  predicate IsFailure(c: CellResult) {
    c.output.None? && c.error.Some? && c.inputTokens.None? && c.outputTokens.None?
  }

  /** Exactly one of success and failure. */
  predicate IsResolved(c: CellResult) {
    IsSuccess(c) != IsFailure(c)
  }

  /** The cell written for a call that returned content and token counts. */
  function Succeeded(content: string, inputTokens: int, outputTokens: int): (c: CellResult)
    ensures IsSuccess(c) && IsResolved(c)
    ensures c.output == Some(content)
    ensures c.inputTokens == Some(inputTokens) && c.outputTokens == Some(outputTokens)
  {
    CellResult(Some(content), None, Some(inputTokens), Some(outputTokens))
  }

  /** The cell written for a call that failed with `message`. */
  function Failed(message: string): (c: CellResult)
    ensures IsFailure(c) && IsResolved(c)
    ensures c.error == Some(message)
  {
    CellResult(None, Some(message), None, None)
  }

  /** Every cell of the grid is resolved. */
  predicate AllResolved(g: Grid) {
    forall m, i :: m in g && i in g[m] ==> IsResolved(g[m][i])
  }
}
