/** What a results-table cell shows (`ResultCellContent`), and the token
    totals under each column of both pages. */
module Display {
  import opened Wrappers
  import opened Text
  import opened Cells
  import opened Config
  import Workbench

  // ---------------------------------------------------------------------------
  // Result cell

  const ErrorLength: nat := 150
  const OutputLength: nat := 200

  datatype ToggleLabel = ShowMore | ShowLess

  /** The output paragraph: the text shown, whether `...` follows it, and the
      expand/collapse button when the output is long. */
  datatype OutputBody = OutputBody(text: string, ellipsis: bool, toggle: Option<ToggleLabel>)

  datatype View =
      /** The dashed "No result" placeholder. */
    | NoResult
      /** The error paragraph with its (possibly shortened) text. */
    | ErrorText(text: string)
      /** The output card: the paragraph when there is output text, the
          `<in>+<out> tok` line when both counts are present, and the value
          the copy button copies. */
    | Output(body: Option<OutputBody>, tokens: Option<(int, int)>, copy: string)

  /** `cell.error` is truthy: present and not the empty string. */
  predicate HasError(c: CellResult) {
    c.error.Some? && c.error.value != []
  }

  /** `(cell.output?.length ?? 0) > 200`. */
  predicate IsLong(c: CellResult) {
    c.output.Some? && |c.output.value| > OutputLength
  }

  /** `ResultCellContent` for a cell (`None` when the map has no entry) and
      the expanded flag. */
  function Classify(cell: Option<CellResult>, expanded: bool): (v: View)
    ensures v.NoResult? <==> cell.None?
    ensures v.ErrorText? <==> cell.Some? && HasError(cell.value)
    ensures v.ErrorText? ==>
      var e := cell.value.error.value;
      v.text == (if |e| <= 150 then e else e[..150] + "...")
    ensures v.Output? ==>
      var c := cell.value;
      && (v.body.Some? <==> c.output.Some? && c.output.value != [])
      && (v.tokens.Some? <==> c.inputTokens.Some? && c.outputTokens.Some?)
      && (v.tokens.Some? ==> v.tokens.value == (c.inputTokens.value, c.outputTokens.value))
      && (c.output.Some? ==> v.copy == c.output.value)
      && (c.output.None? ==> v.copy == "")
    ensures v.Output? && v.body.Some? ==>
      var out := cell.value.output.value;
      && (v.body.value.toggle.Some? <==> |out| > 200)
      && (v.body.value.ellipsis <==> |out| > 200 && !expanded)
      && (expanded ==> v.body.value.text == out && v.body.value.toggle != Some(ShowMore))
      && (!expanded ==> v.body.value.text == Prefix(out, 200) && v.body.value.toggle != Some(ShowLess))
  {
    match cell
    case None => NoResult
    case Some(c) =>
      if HasError(c) then ErrorText(Truncate(c.error, ErrorLength))
      else
        var body :=
          if c.output.Some? && c.output.value != [] then
            var out := c.output.value;
            Some(OutputBody(
              if expanded then out else Prefix(out, OutputLength),
              IsLong(c) && !expanded,
              if IsLong(c) then Some(if expanded then ShowLess else ShowMore) else None))
          else None;
        var tokens :=
          if c.inputTokens.Some? && c.outputTokens.Some? then Some((c.inputTokens.value, c.outputTokens.value))
          else None;
        Output(body, tokens, c.output.GetOr(""))
  }

  /** The shown error never exceeds 153 code units. A short output looks the
      same expanded or collapsed; a long one shows exactly its first 200 code
      units and `...` when collapsed, and all of it when expanded. */
  lemma ClassifyBounds(cell: CellResult)
    ensures Classify(Some(cell), true).ErrorText? ==> |Classify(Some(cell), true).text| <= 153
    ensures !IsLong(cell) ==> Classify(Some(cell), true) == Classify(Some(cell), false)
    ensures IsLong(cell) && !HasError(cell) ==>
      var collapsed := Classify(Some(cell), false).body.value;
      var full := Classify(Some(cell), true).body.value;
      && |collapsed.text| == 200 && collapsed.ellipsis && collapsed.toggle == Some(ShowMore)
      && collapsed.text <= full.text && full.text == cell.output.value && !full.ellipsis
  {
    if cell.output.Some? && !IsLong(cell) {
      assert Prefix(cell.output.value, OutputLength) == cell.output.value;
    }
  }

  /** On the cells the relay writes: a success shows its output card with the
      token line; a failure with a non-empty message shows the error; a
      failure with an empty message shows an empty card without tokens. */
  lemma ClassifyRelayCell(cell: CellResult, expanded: bool)
    requires IsResolved(cell)
    ensures IsSuccess(cell) ==>
      var v := Classify(Some(cell), expanded);
      v.Output? && v.tokens == Some((cell.inputTokens.value, cell.outputTokens.value)) && v.copy == cell.output.value
    ensures IsFailure(cell) && cell.error.value != [] ==> Classify(Some(cell), expanded).ErrorText?
    ensures IsFailure(cell) && cell.error.value == [] ==>
      Classify(Some(cell), expanded) == Output(None, None, "")
  {
  }

  // ---------------------------------------------------------------------------
  // Token totals

  /** What the totals loop reads from a cell. */
  datatype Counted = Counted(error: Option<string>, inputTokens: Option<int>, outputTokens: Option<int>)

  datatype Totals = Totals(input: int, output: int)

  /** `cell && !cell.error`: a cell counts when present with a missing or
      empty error. */
  predicate Counts(cell: Option<Counted>) {
    cell.Some? && (cell.value.error.None? || cell.value.error.value == [])
  }

  /** One cell's share: its counts (`null` as 0) when it counts, else 0. */
  function Share(cell: Option<Counted>): (t: Totals)
    ensures !Counts(cell) ==> t == Totals(0, 0)
    ensures Counts(cell) ==>
      t.input == cell.value.inputTokens.GetOr(0) && t.output == cell.value.outputTokens.GetOr(0)
  {
    if Counts(cell) then Totals(cell.value.inputTokens.GetOr(0), cell.value.outputTokens.GetOr(0))
    else Totals(0, 0)
  }

  /** The loop `tIn += i; tOut += o` over the column's cells. */
  function Sum(cells: seq<Option<Counted>>): Totals
  {
    if |cells| == 0 then Totals(0, 0)
    else
      var rest := Sum(cells[..|cells| - 1]);
      var last := Share(cells[|cells| - 1]);
      Totals(rest.input + last.input, rest.output + last.output)
  }

  /** Sums add up over a split of the cells. */
  lemma {:induction false} SumAppend(a: seq<Option<Counted>>, b: seq<Option<Counted>>)
    ensures Sum(a + b).input == Sum(a).input + Sum(b).input
    ensures Sum(a + b).output == Sum(a).output + Sum(b).output
    decreases |b|
  {
    if |b| > 0 {
      assert (a + b)[..|a + b| - 1] == a + b[..|b| - 1];
      SumAppend(a, b[..|b| - 1]);
    } else {
      assert a + b == a;
    }
  }

  /** With non-negative counts the totals are non-negative. */
  lemma {:induction false} SumNonNegative(cells: seq<Option<Counted>>)
    requires forall j :: 0 <= j < |cells| && cells[j].Some? ==>
      cells[j].value.inputTokens.GetOr(0) >= 0 && cells[j].value.outputTokens.GetOr(0) >= 0
    ensures Sum(cells).input >= 0 && Sum(cells).output >= 0
  {
    if |cells| > 0 {
      SumNonNegative(cells[..|cells| - 1]);
    }
  }

  /** Cells that do not count leave the totals at zero. */
  lemma {:induction false} SumOfUncounted(cells: seq<Option<Counted>>)
    requires forall j :: 0 <= j < |cells| ==> !Counts(cells[j])
    ensures Sum(cells) == Totals(0, 0)
  {
    if |cells| > 0 {
      SumOfUncounted(cells[..|cells| - 1]);
    }
  }

  /** Changing one cell changes the totals by the difference of its shares. */
  lemma SumReplace(cells: seq<Option<Counted>>, k: nat, c: Option<Counted>)
    requires k < |cells|
    ensures Sum(cells[k := c]).input == Sum(cells).input - Share(cells[k]).input + Share(c).input
    ensures Sum(cells[k := c]).output == Sum(cells).output - Share(cells[k]).output + Share(c).output
  {
    var pre, post := cells[..k], cells[k + 1..];
    assert cells == pre + [cells[k]] + post;
    assert cells[k := c] == pre + [c] + post;
    SumAppend(pre + [cells[k]], post);
    SumAppend(pre, [cells[k]]);
    SumAppend(pre + [c], post);
    SumAppend(pre, [c]);
    assert [cells[k]][..0] == [];
    assert [c][..0] == [];
  }

  function FromCell(c: CellResult): Counted {
    Counted(c.error, c.inputTokens, c.outputTokens)
  }

  function FromScored(c: Workbench.ScoredCell): Counted {
    Counted(c.error, c.inputTokens, c.outputTokens)
  }

  /** `results[modelId]?.[inputId]`. */
  function Lookup(results: Grid, modelId: string, inputId: string): (c: Option<CellResult>)
    ensures c.Some? <==> modelId in results && inputId in results[modelId]
    ensures c.Some? ==> c.value == results[modelId][inputId]
  {
    if modelId in results && inputId in results[modelId] then Some(results[modelId][inputId]) else None
  }

  /** The legacy `getTotals`: one prompt's results for one model, over the
      snapshot inputs in order. */
  function LegacyTotals(results: Grid, modelId: string, inputs: seq<InputItem>): Totals
  {
    Sum(LegacyColumn(results, modelId, inputs))
  }

  function LegacyColumn(results: Grid, modelId: string, inputs: seq<InputItem>): (cells: seq<Option<Counted>>)
    ensures |cells| == |inputs|
    ensures forall j :: 0 <= j < |inputs| ==>
      cells[j] == (var c := Lookup(results, modelId, inputs[j].id); if c.Some? then Some(FromCell(c.value)) else None)
  {
    seq(|inputs|, j requires 0 <= j < |inputs| =>
      var c := Lookup(results, modelId, inputs[j].id);
      if c.Some? then Some(FromCell(c.value)) else None)
  }

  /** The current page's model-first totals: the active variant's results for
      one model, over the posts with content. */
  function CurrentColumn(results: Workbench.VariantResults, model: string, posts: seq<Workbench.ManualPost>): (cells: seq<Option<Counted>>)
    ensures |cells| == |posts|
    ensures forall j :: 0 <= j < |posts| ==>
      (cells[j].Some? <==> model in results && posts[j].id in results[model])
    ensures forall j :: 0 <= j < |posts| && cells[j].Some? ==>
      cells[j].value == FromScored(results[model][posts[j].id])
  {
    seq(|posts|, j requires 0 <= j < |posts| =>
      if model in results && posts[j].id in results[model] then Some(FromScored(results[model][posts[j].id])) else None)
  }

  /** The current page's model-first totals row for one model. */
  function CurrentTotals(results: Workbench.VariantResults, model: string, posts: seq<Workbench.ManualPost>): Totals
  {
    Sum(CurrentColumn(results, model, posts))
  }

  /** `cell && !cell.error` on the page's own cell shape. */
  predicate IsClean(results: Workbench.VariantResults, model: string, postId: string) {
    && model in results && postId in results[model]
    && (results[model][postId].error.None? || results[model][postId].error.value == [])
  }

  /** The token sums the totals loop computes, read off the results map
      directly: over the posts in order, each present cell without an error
      adds its counts, `null` as 0. */
  function CleanInput(results: Workbench.VariantResults, model: string, posts: seq<Workbench.ManualPost>): int
  {
    if |posts| == 0 then 0
    else
      var id := posts[|posts| - 1].id;
      CleanInput(results, model, posts[..|posts| - 1])
        + (if IsClean(results, model, id) then results[model][id].inputTokens.GetOr(0) else 0)
  }

  function CleanOutput(results: Workbench.VariantResults, model: string, posts: seq<Workbench.ManualPost>): int
  {
    if |posts| == 0 then 0
    else
      var id := posts[|posts| - 1].id;
      CleanOutput(results, model, posts[..|posts| - 1])
        + (if IsClean(results, model, id) then results[model][id].outputTokens.GetOr(0) else 0)
  }

  /** The current page's totals are the token sums over the cells present
      without an error; errored and missing cells add nothing. */
  lemma {:induction false} CurrentTotalsCountClean(results: Workbench.VariantResults, model: string, posts: seq<Workbench.ManualPost>)
    ensures var t := CurrentTotals(results, model, posts);
            && t.input == CleanInput(results, model, posts)
            && t.output == CleanOutput(results, model, posts)
  {
    if |posts| > 0 {
      var n := |posts| - 1;
      CurrentTotalsCountClean(results, model, posts[..n]);
      var col := CurrentColumn(results, model, posts);
      assert col[..n] == CurrentColumn(results, model, posts[..n]);
    }
  }

  /** In a column of relay-written cells, only successes add tokens: the
      totals equal the sums over the successful cells' counts. */
  lemma {:induction false} LegacyTotalsCountSuccesses(results: Grid, modelId: string, inputs: seq<InputItem>)
    requires AllResolved(results)
    ensures var t := LegacyTotals(results, modelId, inputs);
            && t.input == SuccessInput(results, modelId, inputs)
            && t.output == SuccessOutput(results, modelId, inputs)
  {
    if |inputs| > 0 {
      var n := |inputs| - 1;
      LegacyTotalsCountSuccesses(results, modelId, inputs[..n]);
      var col := LegacyColumn(results, modelId, inputs);
      assert col[..n] == LegacyColumn(results, modelId, inputs[..n]);
    }
  }

  /** The token sums over the successful cells of a column. */
  function SuccessInput(results: Grid, modelId: string, inputs: seq<InputItem>): int
  {
    if |inputs| == 0 then 0
    else
      var c := Lookup(results, modelId, inputs[|inputs| - 1].id);
      SuccessInput(results, modelId, inputs[..|inputs| - 1])
        + (if c.Some? && IsSuccess(c.value) then c.value.inputTokens.value else 0)
  }

  function SuccessOutput(results: Grid, modelId: string, inputs: seq<InputItem>): int
  {
    if |inputs| == 0 then 0
    else
      var c := Lookup(results, modelId, inputs[|inputs| - 1].id);
      SuccessOutput(results, modelId, inputs[..|inputs| - 1])
        + (if c.Some? && IsSuccess(c.value) then c.value.outputTokens.value else 0)
  }
}
