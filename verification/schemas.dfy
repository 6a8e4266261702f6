/** The zod schemas of the evaluate API, as parsers and predicates over JSON.

    There are two request schemas. The web app's own schema accepts an empty
    prompt and empty input contents; the shared package's schema requires
    both to be non-empty. Both require at least one non-empty model id and at
    least one input with a non-empty `input_id`, and both take a temperature
    in [0, 2] that defaults to 0.7 when the key is absent. Unknown keys are
    dropped, as `z.object` does by default. */
module Schemas {
  import opened Wrappers
  import opened Json
  import Cells
  import Relay

  /** What a request schema produces: the request with its default filled in. */
  datatype EvaluateRequest = EvaluateRequest(
    prompt: string,
    models: seq<string>,
    inputs: seq<Relay.InputRef>,
    temperature: real)

  /** The two request schemas differ only in these two minimum lengths. */
  datatype Strictness = Loose | Strict {
    function MinPrompt(): nat { if this.Strict? then 1 else 0 }
    function MinContent(): nat { if this.Strict? then 1 else 0 }
  }

  const DefaultTemperature: real := 0.7
  const MinTemperature: real := 0.0
  const MaxTemperature: real := 2.0

  // ---------------------------------------------------------------------------
  // Request schema: what it accepts, stated element-wise

  predicate IsModelId(v: Value) {
    v.Str? && |v.s| >= 1
  }

  predicate IsInputItem(v: Value, minContent: nat) {
    && v.Obj?
    && "input_id" in v.fields && v.fields["input_id"].Str? && |v.fields["input_id"].s| >= 1
    && "content" in v.fields && v.fields["content"].Str? && |v.fields["content"].s| >= minContent
  }

  /** `z.number().min(0).max(2).default(0.7)`: an absent key takes the default;
      `null` or any non-number fails. */
  predicate IsTemperature(t: Option<Value>) {
    t.None? || (t.value.Number? && MinTemperature <= t.value.n <= MaxTemperature)
  }

  /** The request schema's acceptance condition. */
  predicate Conforms(v: Value, mode: Strictness) {
    && v.Obj?
    && "prompt" in v.fields && v.fields["prompt"].Str? && |v.fields["prompt"].s| >= mode.MinPrompt()
    && "models" in v.fields && v.fields["models"].Arr? && |v.fields["models"].items| >= 1
    && (forall i :: 0 <= i < |v.fields["models"].items| ==> IsModelId(v.fields["models"].items[i]))
    && "inputs" in v.fields && v.fields["inputs"].Arr? && |v.fields["inputs"].items| >= 1
    && (forall i :: 0 <= i < |v.fields["inputs"].items| ==> IsInputItem(v.fields["inputs"].items[i], mode.MinContent()))
    && IsTemperature(Member(v, "temperature"))
  }

  /** A parsed request that the schema could have produced. */
  predicate WellFormed(r: EvaluateRequest, mode: Strictness) {
    && |r.prompt| >= mode.MinPrompt()
    && |r.models| >= 1 && (forall i :: 0 <= i < |r.models| ==> |r.models[i]| >= 1)
    && |r.inputs| >= 1
    && (forall i :: 0 <= i < |r.inputs| ==> |r.inputs[i].inputId| >= 1 && |r.inputs[i].content| >= mode.MinContent())
    && MinTemperature <= r.temperature <= MaxTemperature
  }

  // ---------------------------------------------------------------------------
  // Request schema: the parser

  function ParseModelIds(items: seq<Value>): (r: Option<seq<string>>)
    ensures r.Some? <==> forall i :: 0 <= i < |items| ==> IsModelId(items[i])
    ensures r.Some? ==> |r.value| == |items| && forall i :: 0 <= i < |items| ==> r.value[i] == items[i].s
  {
    if |items| == 0 then Some([])
    else if !IsModelId(items[0]) then None
    else match ParseModelIds(items[1..])
      case None => None
      case Some(rest) => Some([items[0].s] + rest)
  }

  function ParseInputs(items: seq<Value>, minContent: nat): (r: Option<seq<Relay.InputRef>>)
    ensures r.Some? <==> forall i :: 0 <= i < |items| ==> IsInputItem(items[i], minContent)
    ensures r.Some? ==> |r.value| == |items| && forall i :: 0 <= i < |items| ==>
      r.value[i] == Relay.InputRef(items[i].fields["input_id"].s, items[i].fields["content"].s)
  {
    if |items| == 0 then Some([])
    else if !IsInputItem(items[0], minContent) then None
    else match ParseInputs(items[1..], minContent)
      case None => None
      case Some(rest) =>
        Some([Relay.InputRef(items[0].fields["input_id"].s, items[0].fields["content"].s)] + rest)
  }

  function ParseTemperature(t: Option<Value>): (r: Option<real>)
    ensures r.Some? <==> IsTemperature(t)
    ensures t.None? ==> r == Some(DefaultTemperature)
    ensures r.Some? && t.Some? ==> r.value == t.value.n
  {
    match t
    case None => Some(DefaultTemperature)
    case Some(Number(n)) => if MinTemperature <= n <= MaxTemperature then Some(n) else None
    case Some(_) => None
  }

  /** `EvaluateRequestSchema.safeParse(v)`: the parsed request, or `None`. */
  function ParseRequest(v: Value, mode: Strictness): (r: Option<EvaluateRequest>)
    ensures r.Some? <==> Conforms(v, mode)
    ensures r.Some? ==> WellFormed(r.value, mode)
    ensures r.Some? ==> r.value.prompt == v.fields["prompt"].s
    ensures r.Some? ==> Some(r.value.models) == ParseModelIds(v.fields["models"].items)
    ensures r.Some? ==> Some(r.value.inputs) == ParseInputs(v.fields["inputs"].items, mode.MinContent())
    ensures r.Some? ==> Some(r.value.temperature) == ParseTemperature(Member(v, "temperature"))
    ensures r.Some? && "temperature" !in v.fields ==> r.value.temperature == 0.7
  {
    if !v.Obj? then None
    else
      var prompt := Member(v, "prompt");
      var models := Member(v, "models");
      var inputs := Member(v, "inputs");
      if !(prompt.Some? && prompt.value.Str? && |prompt.value.s| >= mode.MinPrompt()) then None
      else if !(models.Some? && models.value.Arr? && |models.value.items| >= 1) then None
      else if !(inputs.Some? && inputs.value.Arr? && |inputs.value.items| >= 1) then None
      else
        var ms := ParseModelIds(models.value.items);
        var xs := ParseInputs(inputs.value.items, mode.MinContent());
        var t := ParseTemperature(Member(v, "temperature"));
        if ms.None? || xs.None? || t.None? then None
        else Some(EvaluateRequest(prompt.value.s, ms.value, xs.value, t.value))
  }

  // ---------------------------------------------------------------------------
  // Encoding and round trips

  function EncodeInput(x: Relay.InputRef): Value {
    Obj(map["input_id" := Str(x.inputId), "content" := Str(x.content)])
  }

  function EncodeModels(models: seq<string>): (items: seq<Value>)
    ensures |items| == |models|
    ensures forall i :: 0 <= i < |models| ==> items[i] == Str(models[i])
  {
    seq(|models|, i requires 0 <= i < |models| => Str(models[i]))
  }

  function EncodeInputs(inputs: seq<Relay.InputRef>): (items: seq<Value>)
    ensures |items| == |inputs|
    ensures forall i :: 0 <= i < |inputs| ==> items[i] == EncodeInput(inputs[i])
  {
    seq(|inputs|, i requires 0 <= i < |inputs| => EncodeInput(inputs[i]))
  }

  /** The JSON a client sends for a request (with the temperature spelled out). */
  function EncodeRequest(r: EvaluateRequest): Value {
    Obj(map[
      "prompt" := Str(r.prompt),
      "models" := Arr(EncodeModels(r.models)),
      "inputs" := Arr(EncodeInputs(r.inputs)),
      "temperature" := Number(r.temperature)])
  }

  /** Encoded model ids parse back exactly when none is empty. */
  lemma ModelIdsRoundTrip(models: seq<string>)
    ensures ParseModelIds(EncodeModels(models)).Some? <==> forall i :: 0 <= i < |models| ==> |models[i]| >= 1
    ensures ParseModelIds(EncodeModels(models)).Some? ==> ParseModelIds(EncodeModels(models)).value == models
  {
    var items := EncodeModels(models);
    assert (forall i :: 0 <= i < |items| ==> IsModelId(items[i])) <==> (forall i :: 0 <= i < |models| ==> |models[i]| >= 1) by {
      forall i | 0 <= i < |items|
        ensures IsModelId(items[i]) <==> |models[i]| >= 1
      {
        assert items[i] == Str(models[i]);
      }
    }
  }

  /** Encoded inputs parse back exactly when every id is non-empty and every
      content meets the minimum. */
  lemma InputsRoundTrip(inputs: seq<Relay.InputRef>, minContent: nat)
    ensures ParseInputs(EncodeInputs(inputs), minContent).Some? <==>
      forall i :: 0 <= i < |inputs| ==> |inputs[i].inputId| >= 1 && |inputs[i].content| >= minContent
    ensures ParseInputs(EncodeInputs(inputs), minContent).Some? ==> ParseInputs(EncodeInputs(inputs), minContent).value == inputs
  {
    var items := EncodeInputs(inputs);
    assert (forall i :: 0 <= i < |items| ==> IsInputItem(items[i], minContent)) <==>
           (forall i :: 0 <= i < |inputs| ==> |inputs[i].inputId| >= 1 && |inputs[i].content| >= minContent) by {
      forall i | 0 <= i < |items|
        ensures IsInputItem(items[i], minContent) <==> |inputs[i].inputId| >= 1 && |inputs[i].content| >= minContent
      {
        assert items[i] == EncodeInput(inputs[i]);
      }
    }
    var r := ParseInputs(items, minContent);
    if r.Some? {
      forall i | 0 <= i < |inputs|
        ensures r.value[i] == inputs[i]
      {
        assert items[i] == EncodeInput(inputs[i]);
      }
    }
  }

  /** Every well-formed request survives encoding and parsing unchanged, and
      the parser accepts exactly the encodings of well-formed requests. */
  lemma RequestRoundTrip(r: EvaluateRequest, mode: Strictness)
    ensures ParseRequest(EncodeRequest(r), mode).Some? <==> WellFormed(r, mode)
    ensures WellFormed(r, mode) ==> ParseRequest(EncodeRequest(r), mode) == Some(r)
  {
    var v := EncodeRequest(r);
    assert Member(v, "prompt") == Some(Str(r.prompt));
    assert Member(v, "models") == Some(Arr(EncodeModels(r.models)));
    assert Member(v, "inputs") == Some(Arr(EncodeInputs(r.inputs)));
    assert Member(v, "temperature") == Some(Number(r.temperature));
    var ms := ParseModelIds(EncodeModels(r.models));
    var xs := ParseInputs(EncodeInputs(r.inputs), mode.MinContent());
    var t := ParseTemperature(Some(Number(r.temperature)));
    assert ParseRequest(v, mode) ==
      if |r.prompt| >= mode.MinPrompt() && |r.models| >= 1 && |r.inputs| >= 1 && ms.Some? && xs.Some? && t.Some?
      then Some(EvaluateRequest(r.prompt, ms.value, xs.value, t.value))
      else None;
    ModelIdsRoundTrip(r.models);
    InputsRoundTrip(r.inputs, mode.MinContent());
  }

  /** Parsing normalises: re-encoding a parsed request and parsing it again
      gives the same request. */
  lemma ParseIsNormalising(v: Value, mode: Strictness)
    requires ParseRequest(v, mode).Some?
    ensures ParseRequest(EncodeRequest(ParseRequest(v, mode).value), mode) == ParseRequest(v, mode)
  {
    RequestRoundTrip(ParseRequest(v, mode).value, mode);
  }

  // ---------------------------------------------------------------------------
  // The two request schemas compared

  lemma {:induction false} InputsRefine(items: seq<Value>)
    requires ParseInputs(items, 1).Some?
    ensures ParseInputs(items, 0) == ParseInputs(items, 1)
  {
    if |items| > 0 {
      InputsRefine(items[1..]);
    }
  }

  /** Refinement: whatever the package's strict schema accepts, the web app's
      loose schema accepts too, with the same result. */
  lemma StrictRefinesLoose(v: Value)
    requires ParseRequest(v, Strict).Some?
    ensures ParseRequest(v, Loose) == ParseRequest(v, Strict)
  {
    InputsRefine(v.fields["inputs"].items);
  }

  /** The refinement is proper: an empty prompt (or empty input content) passes
      the loose schema and fails the strict one. */
  lemma LooseIsWeaker(model: string, inputId: string)
    requires |model| >= 1 && |inputId| >= 1
    ensures var r := EvaluateRequest("", [model], [Relay.InputRef(inputId, "")], 0.7);
            && ParseRequest(EncodeRequest(r), Loose) == Some(r)
            && ParseRequest(EncodeRequest(r), Strict).None?
  {
    var r := EvaluateRequest("", [model], [Relay.InputRef(inputId, "")], 0.7);
    RequestRoundTrip(r, Loose);
    RequestRoundTrip(r, Strict);
  }

  /** The body the relay handler reads for a parsed request. */
  function AsBody(r: EvaluateRequest): Relay.Body {
    Relay.Body(Some(r.prompt), Some(r.models), Some(r.inputs), Some(r.temperature))
  }

  /** The strict schema is enough for the relay's required-field gate, and the
      loose one is not: its empty prompt is turned away with 400. */
  lemma StrictPassesRelayGate(v: Value)
    ensures ParseRequest(v, Strict).Some? ==> Relay.HasRequiredFields(AsBody(ParseRequest(v, Strict).value))
    ensures ParseRequest(v, Loose).Some? && v.fields["prompt"].s == "" ==>
      !Relay.HasRequiredFields(AsBody(ParseRequest(v, Loose).value))
  {
  }

  // ---------------------------------------------------------------------------
  // Cell and response schemas

  predicate NullableStr(v: Option<Value>) {
    v.Some? && (v.value.Null? || v.value.Str?)
  }

  predicate NullableNumber(v: Option<Value>) {
    v.Some? && (v.value.Null? || v.value.Number?)
  }

  /** `CellResultSchema`: all four keys present, each `null` or of its type.
      Which of them are `null` is not constrained. */
  predicate ValidCell(v: Value) {
    && v.Obj?
    && NullableStr(Member(v, "output"))
    && NullableStr(Member(v, "error"))
    && NullableNumber(Member(v, "input_tokens"))
    && NullableNumber(Member(v, "output_tokens"))
  }

  function StrOrNull(s: Option<string>): Value {
    if s.Some? then Str(s.value) else Null
  }

  function NumberOrNull(n: Option<int>): Value {
    if n.Some? then Number(n.value as real) else Null
  }

  /** The JSON form of a cell. */
  function EncodeCell(c: Cells.CellResult): Value {
    Obj(map[
      "output" := StrOrNull(c.output),
      "error" := StrOrNull(c.error),
      "input_tokens" := NumberOrNull(c.inputTokens),
      "output_tokens" := NumberOrNull(c.outputTokens)])
  }

  function DecodeString(v: Value): (r: Option<Option<string>>)
    ensures r.Some? <==> v.Null? || v.Str?
  {
    match v
    case Null => Some(None)
    case Str(s) => Some(Some(s))
    case _ => None
  }

  /** A whole token count; fractional counts are not cells the relay writes. */
  function DecodeCount(v: Value): (r: Option<Option<int>>)
    ensures r.Some? ==> v.Null? || v.Number?
  {
    match v
    case Null => Some(None)
    case Number(n) => if n.Floor as real == n then Some(Some(n.Floor)) else None
    case _ => None
  }

  /** Reads a cell back, accepting only whole token counts. */
  function DecodeCell(v: Value): (r: Option<Cells.CellResult>)
    ensures r.Some? ==> ValidCell(v)
  {
    if !(v.Obj? && "output" in v.fields && "error" in v.fields
         && "input_tokens" in v.fields && "output_tokens" in v.fields) then None
    else
      var o := DecodeString(v.fields["output"]);
      var e := DecodeString(v.fields["error"]);
      var i := DecodeCount(v.fields["input_tokens"]);
      var t := DecodeCount(v.fields["output_tokens"]);
      if o.None? || e.None? || i.None? || t.None? then None
      else Some(Cells.CellResult(o.value, e.value, i.value, t.value))
  }

  /** Every cell, whatever its combination of nulls (all-null included),
      encodes to JSON the cell schema accepts, and decodes back to itself. */
  lemma CellRoundTrip(c: Cells.CellResult)
    ensures ValidCell(EncodeCell(c))
    ensures DecodeCell(EncodeCell(c)) == Some(c)
  {
    var v := EncodeCell(c);
    if c.inputTokens.Some? {
      assert (c.inputTokens.value as real).Floor == c.inputTokens.value;
    }
    if c.outputTokens.Some? {
      assert (c.outputTokens.value as real).Floor == c.outputTokens.value;
    }
  }

  /** The cell schema does not enforce the exactly-one rule: a cell that is
      neither a success nor a failure still validates. */
  lemma CellSchemaAllowsUnresolved()
    ensures ValidCell(EncodeCell(Cells.CellResult(None, None, None, None)))
    ensures !Cells.IsResolved(Cells.CellResult(None, None, None, None))
  {
    CellRoundTrip(Cells.CellResult(None, None, None, None));
  }

  /** `z.record(z.string(), z.record(z.string(), CellResultSchema))`. */
  predicate ValidResults(v: Value) {
    && v.Obj?
    && forall m :: m in v.fields ==>
         && v.fields[m].Obj?
         && forall i :: i in v.fields[m].fields ==> ValidCell(v.fields[m].fields[i])
  }

  /** `EvaluateResponseSchema`. */
  predicate ValidResponse(v: Value) {
    Member(v, "results").Some? && ValidResults(Member(v, "results").value)
  }

  function EncodeGrid(g: Cells.Grid): Value {
    Obj(map m | m in g :: Obj(map i | i in g[m] :: EncodeCell(g[m][i])))
  }

  function EncodeResults(g: Cells.Grid): Value {
    Obj(map["results" := EncodeGrid(g)])
  }

  /** Every results map encodes to a valid response whose keys are the map's
      keys and whose cells decode back to the map's cells. */
  lemma ResultsConform(g: Cells.Grid)
    ensures ValidResponse(EncodeResults(g))
    ensures var r := EncodeGrid(g);
            && r.fields.Keys == g.Keys
            && forall m :: m in g ==>
                 && r.fields[m].fields.Keys == g[m].Keys
                 && forall i :: i in g[m] ==> DecodeCell(r.fields[m].fields[i]) == Some(g[m][i])
  {
    forall m, i | m in g && i in g[m]
      ensures DecodeCell(EncodeGrid(g).fields[m].fields[i]) == Some(g[m][i])
      ensures ValidCell(EncodeGrid(g).fields[m].fields[i])
    {
      CellRoundTrip(g[m][i]);
    }
  }

  // ---------------------------------------------------------------------------
  // Generic envelopes

  /** A record of string arrays: the field-errors form of an API error. */
  predicate IsFieldErrors(v: Value) {
    && v.Obj?
    && forall k :: k in v.fields ==>
         && v.fields[k].Arr?
         && forall j :: 0 <= j < |v.fields[k].items| ==> v.fields[k].items[j].Str?
  }

  /** `ApiErrorSchema`: `error` is a string or a record of string arrays. */
  predicate ValidApiError(v: Value) {
    Member(v, "error").Some? && (Member(v, "error").value.Str? || IsFieldErrors(Member(v, "error").value))
  }

  function EncodeError(message: string): Value {
    Obj(map["error" := Str(message)])
  }

  function EncodeFieldErrors(errors: map<string, seq<string>>): Value {
    Obj(map["error" := Obj(map k | k in errors :: Arr(seq(|errors[k]|, j requires 0 <= j < |errors[k]| => Str(errors[k][j]))))])
  }

  /** Both error forms validate, and an error of any other JSON type does not. */
  lemma ApiErrorForms(message: string, errors: map<string, seq<string>>, other: Value)
    requires !other.Str? && !other.Obj?
    ensures ValidApiError(EncodeError(message))
    ensures ValidApiError(EncodeFieldErrors(errors))
    ensures !ValidApiError(Obj(map["error" := other]))
  {
  }

  /** Every response the relay handler produces validates: its error bodies
      against the error schema, its results against the response schema. */
  lemma RelayResponsesConform(resp: Relay.Response)
    ensures resp.ErrorResponse? ==> ValidApiError(EncodeError(resp.error))
    ensures resp.ResultsResponse? ==> ValidResponse(EncodeResults(resp.results))
  {
    if resp.ResultsResponse? {
      ResultsConform(resp.results);
    }
  }
}
