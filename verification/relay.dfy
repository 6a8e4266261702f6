/** The relay endpoint `POST /api/evaluate`: it resolves the API key, checks
    the required fields, builds one task per (model, input) pair in
    model-major order, calls the provider once per task, and folds the
    settled outcomes into `model -> input id -> CellResult`.

    The provider is an oracle: `upstream(k, call)` is the reply to the `k`-th
    task's call. Because every task catches its own failure and turns it into
    an error cell, waiting for all of them (`Promise.allSettled`) is a plain
    map over the tasks. */
module Relay {
  import opened Wrappers
  import opened Cells
  import Upstream
  import Json

  datatype InputRef = InputRef(inputId: string, content: string)

  /** The request body as read by the handler; a missing field is `None`. */
  datatype Body = Body(
    prompt: Option<string>,
    models: Option<seq<string>>,
    inputs: Option<seq<InputRef>>,
    temperature: Option<real>)

  /** The `x-api-key` header and the body (`None` when it is not valid JSON). */
  datatype Request = Request(apiKeyHeader: Option<string>, body: Option<Body>)

  datatype Response =
    | ErrorResponse(status: nat, error: string)
    | ResultsResponse(results: Grid)

  /** The handler's response and the provider calls it made, in task order. */
  datatype Handled = Handled(response: Response, sent: seq<Upstream.Call>)

  datatype Task = Task(model: string, inputId: string, content: string)

  const DefaultTemperature: real := 0.7
  const NoApiKeyError: string := "No API key provided"
  const InvalidJsonError: string := "Invalid JSON body"
  const MissingFieldsError: string := "Missing required fields: prompt, models, inputs"

  /** `req.headers.get('x-api-key') || process.env.OPENROUTER_API_KEY`, with
      an empty result counting as no key. */
  function ApiKey(header: Option<string>, serverKey: Option<string>): (key: Option<string>)
    ensures key.Some? ==> key.value != ""
    ensures key.None? <==> (header.None? || header.value == "") && (serverKey.None? || serverKey.value == "")
    ensures header.Some? && header.value != "" ==> key == header
    ensures (header.None? || header.value == "") ==> key.Some? ==> key == serverKey
  {
    if header.Some? && header.value != "" then header
    else if serverKey.Some? && serverKey.value != "" then serverKey
    else None
  }

  /** Not `!prompt || !models?.length || !inputs?.length`. */
  predicate HasRequiredFields(b: Body) {
    && b.prompt.Some? && b.prompt.value != ""
    && b.models.Some? && |b.models.value| > 0
    && b.inputs.Some? && |b.inputs.value| > 0
  }

  // ---------------------------------------------------------------------------
  // Tasks

  /** The inner loop: one task per input for a fixed model. */
  function Row(model: string, inputs: seq<InputRef>): (r: seq<Task>)
    ensures |r| == |inputs|
    ensures forall b :: 0 <= b < |inputs| ==> r[b] == Task(model, inputs[b].inputId, inputs[b].content)
  {
    if |inputs| == 0 then []
    else [Task(model, inputs[0].inputId, inputs[0].content)] + Row(model, inputs[1..])
  }

  /** The nested loops: every model, and for each model every input. */
  function Tasks(models: seq<string>, inputs: seq<InputRef>): seq<Task>
  {
    if |models| == 0 then [] else Row(models[0], inputs) + Tasks(models[1..], inputs)
  }

  /** Exactly `|models| * |inputs|` tasks. */
  lemma {:induction false} TasksLength(models: seq<string>, inputs: seq<InputRef>)
    ensures |Tasks(models, inputs)| == |models| * |inputs|
  {
    if |models| > 0 {
      TasksLength(models[1..], inputs);
      assert |models| * |inputs| == (|models| - 1) * |inputs| + |inputs|;
    }
  }

  /** The position of the task for (models[a], inputs[b]) when there are `n`
      inputs: `a` whole rows of `n`, then `b`. */
  function Pos(a: nat, b: nat, n: nat): nat
  {
    if a == 0 then b else n + Pos(a - 1, b, n)
  }

  /** `Pos(a, b, n)` is the row-major index `a * n + b`. */
  lemma {:induction false} PosIsRowMajor(a: nat, b: nat, n: nat)
    ensures Pos(a, b, n) == a * n + b
  {
    if a > 0 {
      PosIsRowMajor(a - 1, b, n);
      assert a * n == (a - 1) * n + n;
    }
  }

  /** The pair (models[a], inputs[b]) sits at `Pos(a, b, |inputs|)`: model-major,
      then input order. */
  lemma {:induction false} TaskAt(models: seq<string>, inputs: seq<InputRef>, a: nat, b: nat)
    requires a < |models| && b < |inputs|
    ensures Pos(a, b, |inputs|) < |Tasks(models, inputs)|
    ensures Tasks(models, inputs)[Pos(a, b, |inputs|)] == Task(models[a], inputs[b].inputId, inputs[b].content)
  {
    var n := |inputs|;
    var R := Row(models[0], inputs);
    var rest := Tasks(models[1..], inputs);
    assert Tasks(models, inputs) == R + rest;
    assert |R| == n;
    if a == 0 {
      assert Pos(a, b, n) == b;
      assert (R + rest)[b] == R[b];
    } else {
      var p := Pos(a - 1, b, n);
      assert Pos(a, b, n) == n + p;
      TaskAt(models[1..], inputs, a - 1, b);
      assert models[1..][a - 1] == models[a];
      assert (R + rest)[n + p] == rest[p];
    }
  }

  /** Every task pairs one of the models with one of the inputs. */
  lemma {:induction false} TaskFrom(models: seq<string>, inputs: seq<InputRef>, k: nat)
    requires k < |Tasks(models, inputs)|
    ensures Tasks(models, inputs)[k].model in models
    ensures exists b :: 0 <= b < |inputs| && Tasks(models, inputs)[k] == Task(Tasks(models, inputs)[k].model, inputs[b].inputId, inputs[b].content)
  {
    var R := Row(models[0], inputs);
    var rest := Tasks(models[1..], inputs);
    assert Tasks(models, inputs) == R + rest;
    if k < |R| {
      assert (R + rest)[k] == R[k];
    } else {
      assert (R + rest)[k] == rest[k - |R|];
      TaskFrom(models[1..], inputs, k - |R|);
    }
  }

  // ---------------------------------------------------------------------------
  // Folding outcomes into the results map

  /** The cell a task resolves to: the normalised content and token counts, or
      the thrown error's message with everything else null. */
  function CellOf(outcome: Result<Upstream.Completion, string>): (c: CellResult)
    ensures IsResolved(c)
    ensures outcome.Success? ==>
      && IsSuccess(c)
      && c.output == Some(outcome.value.content)
      && c.inputTokens == Some(outcome.value.inputTokens)
      && c.outputTokens == Some(outcome.value.outputTokens)
    ensures outcome.Failure? ==> IsFailure(c) && c.error == Some(outcome.error)
  {
    match outcome
    case Success(v) => Succeeded(v.content, v.inputTokens, v.outputTokens)
    case Failure(e) => Failed(e)
  }

  /** `results[model][inputId]` exists. */
  predicate HasCell(g: Grid, model: string, inputId: string) {
    model in g && inputId in g[model]
  }

  /** `if (!results[model]) results[model] = {}; results[model][inputId] = cell`. */
  function Place(g: Grid, t: Task, c: CellResult): (g': Grid)
    ensures forall m :: m in g' <==> m in g || m == t.model
    ensures forall m, i :: HasCell(g', m, i) <==> HasCell(g, m, i) || (m == t.model && i == t.inputId)
    ensures t.model in g' && t.inputId in g'[t.model] && g'[t.model][t.inputId] == c
    ensures forall m, i :: HasCell(g, m, i) && (m != t.model || i != t.inputId) ==>
      m in g' && i in g'[m] && g'[m][i] == g[m][i]
  {
    g[t.model := (if t.model in g then g[t.model] else map[])[t.inputId := c]]
  }

  /** The results loop over the settled tasks, in task order. */
  function Collect(tasks: seq<Task>, cells: seq<CellResult>): Grid
    requires |tasks| == |cells|
  {
    if |tasks| == 0 then map[]
    else Place(Collect(tasks[..|tasks| - 1], cells[..|cells| - 1]), tasks[|tasks| - 1], cells[|cells| - 1])
  }

  /** The outer keys are the tasks' models, and a (model, input id) cell exists
      exactly when some task carries that pair. */
  lemma CollectKeys(tasks: seq<Task>, cells: seq<CellResult>)
    requires |tasks| == |cells|
    ensures forall m :: m in Collect(tasks, cells) <==> exists k :: 0 <= k < |tasks| && tasks[k].model == m
    ensures forall m, i :: HasCell(Collect(tasks, cells), m, i) <==>
      exists k :: 0 <= k < |tasks| && tasks[k].model == m && tasks[k].inputId == i
  {
    CollectModels(tasks, cells);
    CollectCells(tasks, cells);
  }

  lemma CollectModels(tasks: seq<Task>, cells: seq<CellResult>)
    requires |tasks| == |cells|
    ensures forall m :: m in Collect(tasks, cells) <==> exists k :: 0 <= k < |tasks| && tasks[k].model == m
  {
    forall m
      ensures m in Collect(tasks, cells) <==> exists k :: 0 <= k < |tasks| && tasks[k].model == m
    {
      CollectHasModel(tasks, cells, m);
    }
  }

  lemma {:induction false} CollectHasModel(tasks: seq<Task>, cells: seq<CellResult>, m: string)
    requires |tasks| == |cells|
    ensures m in Collect(tasks, cells) <==> exists k :: 0 <= k < |tasks| && tasks[k].model == m
  {
    if |tasks| > 0 {
      var n := |tasks| - 1;
      var ts := tasks[..n];
      CollectHasModel(ts, cells[..n], m);
      assert Collect(tasks, cells) == Place(Collect(ts, cells[..n]), tasks[n], cells[n]);
      if exists k :: 0 <= k < n && ts[k].model == m {
        var k :| 0 <= k < n && ts[k].model == m;
        assert tasks[k].model == m;
      }
      if exists k :: 0 <= k < |tasks| && tasks[k].model == m {
        var k :| 0 <= k < |tasks| && tasks[k].model == m;
        if k < n {
          assert ts[k].model == m;
        }
      }
    }
  }

  lemma CollectCells(tasks: seq<Task>, cells: seq<CellResult>)
    requires |tasks| == |cells|
    ensures forall m, i :: HasCell(Collect(tasks, cells), m, i) <==>
      exists k :: 0 <= k < |tasks| && tasks[k].model == m && tasks[k].inputId == i
  {
    forall m, i
      ensures HasCell(Collect(tasks, cells), m, i) <==>
        exists k :: 0 <= k < |tasks| && tasks[k].model == m && tasks[k].inputId == i
    {
      CollectHasCell(tasks, cells, m, i);
    }
  }

  lemma {:induction false} CollectHasCell(tasks: seq<Task>, cells: seq<CellResult>, m: string, i: string)
    requires |tasks| == |cells|
    ensures HasCell(Collect(tasks, cells), m, i) <==>
      exists k :: 0 <= k < |tasks| && tasks[k].model == m && tasks[k].inputId == i
  {
    if |tasks| > 0 {
      var n := |tasks| - 1;
      var ts := tasks[..n];
      CollectHasCell(ts, cells[..n], m, i);
      assert Collect(tasks, cells) == Place(Collect(ts, cells[..n]), tasks[n], cells[n]);
      if exists k :: 0 <= k < n && ts[k].model == m && ts[k].inputId == i {
        var k :| 0 <= k < n && ts[k].model == m && ts[k].inputId == i;
        assert tasks[k] == ts[k];
      }
      if exists k :: 0 <= k < |tasks| && tasks[k].model == m && tasks[k].inputId == i {
        var k :| 0 <= k < |tasks| && tasks[k].model == m && tasks[k].inputId == i;
        if k < n {
          assert ts[k] == tasks[k];
        }
      }
    }
  }

  /** A cell holds the outcome of the last task written under its key. */
  lemma {:induction false} CollectLastWrite(tasks: seq<Task>, cells: seq<CellResult>, k: nat)
    requires |tasks| == |cells|
    requires k < |tasks|
    requires forall j :: k < j < |tasks| ==> tasks[j].model != tasks[k].model || tasks[j].inputId != tasks[k].inputId
    ensures HasCell(Collect(tasks, cells), tasks[k].model, tasks[k].inputId)
    ensures Collect(tasks, cells)[tasks[k].model][tasks[k].inputId] == cells[k]
  {
    var n := |tasks| - 1;
    if k < n {
      var ts, cs := tasks[..n], cells[..n];
      assert forall j :: 0 <= j < n ==> ts[j] == tasks[j];
      CollectLastWrite(ts, cs, k);
    }
  }

  /** Every cell of the map is one of the settled cells. */
  lemma {:induction false} CollectFrom(tasks: seq<Task>, cells: seq<CellResult>)
    requires |tasks| == |cells|
    ensures forall m, i :: HasCell(Collect(tasks, cells), m, i) ==> Collect(tasks, cells)[m][i] in cells
  {
    if |tasks| > 0 {
      var n := |tasks| - 1;
      CollectFrom(tasks[..n], cells[..n]);
      assert forall c :: c in cells[..n] ==> c in cells;
    }
  }

  /** Changing the outcome of task `k` alone changes at most the cell under
      task `k`'s key; the keys themselves do not depend on outcomes at all. */
  lemma {:induction false} CollectIsolation(tasks: seq<Task>, cells1: seq<CellResult>, cells2: seq<CellResult>, k: nat)
    requires |tasks| == |cells1| == |cells2|
    requires k < |tasks|
    requires forall j :: 0 <= j < |tasks| && j != k ==> cells1[j] == cells2[j]
    ensures forall m :: m in Collect(tasks, cells1) <==> m in Collect(tasks, cells2)
    ensures forall m, i :: HasCell(Collect(tasks, cells1), m, i) <==> HasCell(Collect(tasks, cells2), m, i)
    ensures forall m, i :: HasCell(Collect(tasks, cells1), m, i) && (m != tasks[k].model || i != tasks[k].inputId) ==>
      Collect(tasks, cells1)[m][i] == Collect(tasks, cells2)[m][i]
  {
    var n := |tasks| - 1;
    if n > k {
      CollectIsolation(tasks[..n], cells1[..n], cells2[..n], k);
      assert tasks[..n][k] == tasks[k];
    } else if n == k && n > 0 {
      assert cells1[..n] == cells2[..n];
    }
  }

  /** With every settled cell resolved, the whole map is. */
  lemma CollectResolved(tasks: seq<Task>, cells: seq<CellResult>)
    requires |tasks| == |cells|
    requires forall j :: 0 <= j < |cells| ==> IsResolved(cells[j])
    ensures AllResolved(Collect(tasks, cells))
  {
    CollectFrom(tasks, cells);
  }

  // ---------------------------------------------------------------------------
  // The handler

  /** The provider call for one task. */
  function CallFor(key: string, prompt: string, temperature: real, t: Task): Upstream.Call
  {
    Upstream.MakeCall(key, t.model, prompt, t.content, temperature)
  }

  function CallsFor(key: string, prompt: string, temperature: real, tasks: seq<Task>): (calls: seq<Upstream.Call>)
    ensures |calls| == |tasks|
    ensures forall k :: 0 <= k < |tasks| ==> calls[k] == CallFor(key, prompt, temperature, tasks[k])
  {
    seq(|tasks|, k requires 0 <= k < |tasks| => CallFor(key, prompt, temperature, tasks[k]))
  }

  function Settle(calls: seq<Upstream.Call>, upstream: (nat, Upstream.Call) -> Upstream.Reply,
                  stringify: Json.Value -> string): (cells: seq<CellResult>)
    ensures |cells| == |calls|
    ensures forall k :: 0 <= k < |calls| ==> cells[k] == CellOf(Upstream.Normalise(upstream(k, calls[k]), stringify))
  {
    seq(|calls|, k requires 0 <= k < |calls| => CellOf(Upstream.Normalise(upstream(k, calls[k]), stringify)))
  }

  /** The request passes all three gates. */
  predicate Admitted(req: Request, serverKey: Option<string>) {
    ApiKey(req.apiKeyHeader, serverKey).Some? && req.body.Some? && HasRequiredFields(req.body.value)
  }

  /** The tasks an admitted request fans out to. */
  function TasksOf(req: Request, serverKey: Option<string>): seq<Task>
    requires Admitted(req, serverKey)
  {
    Tasks(req.body.value.models.value, req.body.value.inputs.value)
  }

  /** The calls an admitted request makes, one per task. */
  function CallsOf(req: Request, serverKey: Option<string>): seq<Upstream.Call>
    requires Admitted(req, serverKey)
  {
    var b := req.body.value;
    CallsFor(ApiKey(req.apiKeyHeader, serverKey).value, b.prompt.value,
             b.temperature.GetOr(DefaultTemperature), TasksOf(req, serverKey))
  }

  /** `POST /api/evaluate`. The gates come first and make no provider call:
      401 without a key, 400 for an unparsable body or a missing field. */
  function Post(req: Request, serverKey: Option<string>,
                upstream: (nat, Upstream.Call) -> Upstream.Reply,
                stringify: Json.Value -> string): (h: Handled)
    ensures ApiKey(req.apiKeyHeader, serverKey).None? ==>
      h == Handled(ErrorResponse(401, NoApiKeyError), [])
    ensures ApiKey(req.apiKeyHeader, serverKey).Some? && req.body.None? ==>
      h == Handled(ErrorResponse(400, InvalidJsonError), [])
    ensures ApiKey(req.apiKeyHeader, serverKey).Some? && req.body.Some? && !HasRequiredFields(req.body.value) ==>
      h == Handled(ErrorResponse(400, MissingFieldsError), [])
    ensures h.response.ResultsResponse? <==> Admitted(req, serverKey)
    ensures h.response.ResultsResponse? ==>
      |h.sent| == |req.body.value.models.value| * |req.body.value.inputs.value|
  {
    if !Admitted(req, serverKey) then
      if ApiKey(req.apiKeyHeader, serverKey).None? then Handled(ErrorResponse(401, NoApiKeyError), [])
      else if req.body.None? then Handled(ErrorResponse(400, InvalidJsonError), [])
      else Handled(ErrorResponse(400, MissingFieldsError), [])
    else
      var tasks := TasksOf(req, serverKey);
      var calls := CallsOf(req, serverKey);
      TasksLength(req.body.value.models.value, req.body.value.inputs.value);
      Handled(ResultsResponse(Collect(tasks, Settle(calls, upstream, stringify))), calls)
  }

  /** The calls made for an admitted request: the pair (models[a], inputs[i])
      is sent at position `Pos(a, i, |inputs|)`, which is `a * |inputs| + i`, as the two-message chat request
      for that model and input, with temperature 0.7 when the body gives none. */
  lemma PostCall(req: Request, serverKey: Option<string>,
                 upstream: (nat, Upstream.Call) -> Upstream.Reply, stringify: Json.Value -> string,
                 a: nat, i: nat)
    requires Admitted(req, serverKey)
    requires a < |req.body.value.models.value| && i < |req.body.value.inputs.value|
    ensures var b := req.body.value;
            var h := Post(req, serverKey, upstream, stringify);
            var k := Pos(a, i, |b.inputs.value|);
            && k < |h.sent|
            && Upstream.IsChatFor(h.sent[k], ApiKey(req.apiKeyHeader, serverKey).value,
                                  b.models.value[a], b.prompt.value, b.inputs.value[i].content,
                                  if b.temperature.Some? then b.temperature.value else 0.7)
  {
    TaskAt(req.body.value.models.value, req.body.value.inputs.value, a, i);
  }

  /** Completeness: the results' models are exactly the requested models, each
      model's input ids are exactly the requested input ids, and every cell is
      either a success or a failure, never a mix. */
  lemma PostComplete(req: Request, serverKey: Option<string>,
                     upstream: (nat, Upstream.Call) -> Upstream.Reply, stringify: Json.Value -> string)
    requires Admitted(req, serverKey)
    ensures var b := req.body.value;
            var g := Post(req, serverKey, upstream, stringify).response.results;
            forall m :: m in g <==> m in b.models.value
    ensures var b := req.body.value;
            var g := Post(req, serverKey, upstream, stringify).response.results;
            forall m, x :: HasCell(g, m, x) <==>
              m in b.models.value && exists j :: 0 <= j < |b.inputs.value| && b.inputs.value[j].inputId == x
    ensures AllResolved(Post(req, serverKey, upstream, stringify).response.results)
  {
    var b := req.body.value;
    var models, inputs := b.models.value, b.inputs.value;
    var tasks := TasksOf(req, serverKey);
    var cells := Settle(CallsOf(req, serverKey), upstream, stringify);
    var g := Collect(tasks, cells);
    assert Post(req, serverKey, upstream, stringify).response.results == g;
    CollectKeys(tasks, cells);
    CollectResolved(tasks, cells);
    forall m | m in models
      ensures m in g
    {
      var a :| 0 <= a < |models| && models[a] == m;
      TaskAt(models, inputs, a, 0);
    }
    forall m | m in g
      ensures m in models
    {
      var k :| 0 <= k < |tasks| && tasks[k].model == m;
      TaskFrom(models, inputs, k);
    }
    forall m, x | m in models && (exists j :: 0 <= j < |inputs| && inputs[j].inputId == x)
      ensures HasCell(g, m, x)
    {
      var a :| 0 <= a < |models| && models[a] == m;
      var j :| 0 <= j < |inputs| && inputs[j].inputId == x;
      TaskAt(models, inputs, a, j);
    }
    forall m, x | HasCell(g, m, x)
      ensures exists j :: 0 <= j < |inputs| && inputs[j].inputId == x
    {
      var k :| 0 <= k < |tasks| && tasks[k].model == m && tasks[k].inputId == x;
      TaskFrom(models, inputs, k);
    }
  }

  /** A cell holds its own task's outcome: when no later task has the same
      (model, input id) key, the cell under task `k`'s key is the normalised
      reply to task `k`'s call. A repeated model or input id is overwritten by
      the later task. */
  lemma PostLastWriterWins(req: Request, serverKey: Option<string>,
                           upstream: (nat, Upstream.Call) -> Upstream.Reply, stringify: Json.Value -> string, k: nat)
    requires Admitted(req, serverKey)
    requires k < |TasksOf(req, serverKey)|
    requires var ts := TasksOf(req, serverKey);
             forall j :: k < j < |ts| ==> ts[j].model != ts[k].model || ts[j].inputId != ts[k].inputId
    ensures var t := TasksOf(req, serverKey)[k];
            var h := Post(req, serverKey, upstream, stringify);
            && HasCell(h.response.results, t.model, t.inputId)
            && h.response.results[t.model][t.inputId] == CellOf(Upstream.Normalise(upstream(k, h.sent[k]), stringify))
  {
    var tasks := TasksOf(req, serverKey);
    var cells := Settle(CallsOf(req, serverKey), upstream, stringify);
    CollectLastWrite(tasks, cells, k);
  }

  /** With distinct model ids and distinct input ids, the cell for
      (models[a], inputs[i]) is the outcome of exactly the call for that pair. */
  lemma PostCellOwnOutcome(req: Request, serverKey: Option<string>,
                           upstream: (nat, Upstream.Call) -> Upstream.Reply, stringify: Json.Value -> string,
                           a: nat, i: nat)
    requires Admitted(req, serverKey)
    requires var ms := req.body.value.models.value;
             forall p, q :: 0 <= p < q < |ms| ==> ms[p] != ms[q]
    requires var xs := req.body.value.inputs.value;
             forall p, q :: 0 <= p < q < |xs| ==> xs[p].inputId != xs[q].inputId
    requires a < |req.body.value.models.value| && i < |req.body.value.inputs.value|
    ensures var b := req.body.value;
            var g := Post(req, serverKey, upstream, stringify).response.results;
            var k := Pos(a, i, |b.inputs.value|);
            && HasCell(g, b.models.value[a], b.inputs.value[i].inputId)
            && k < |CallsOf(req, serverKey)|
            && g[b.models.value[a]][b.inputs.value[i].inputId]
               == CellOf(Upstream.Normalise(upstream(k, CallsOf(req, serverKey)[k]), stringify))
  {
    var b := req.body.value;
    var models, inputs := b.models.value, b.inputs.value;
    var n := |inputs|;
    var tasks := TasksOf(req, serverKey);
    var k := Pos(a, i, n);
    TaskAt(models, inputs, a, i);
    TasksLength(models, inputs);
    forall j | k < j < |tasks|
      ensures tasks[j].model != tasks[k].model || tasks[j].inputId != tasks[k].inputId
    {
      TaskIndexUnique(models, inputs, a, i, j);
    }
    PostLastWriterWins(req, serverKey, upstream, stringify, k);
  }

  /** With distinct keys, a later task never repeats the key of the task
      for (models[a], inputs[i]). */
  lemma {:induction false} TaskIndexUnique(models: seq<string>, inputs: seq<InputRef>, a: nat, i: nat, j: nat)
    requires forall p, q :: 0 <= p < q < |models| ==> models[p] != models[q]
    requires forall p, q :: 0 <= p < q < |inputs| ==> inputs[p].inputId != inputs[q].inputId
    requires a < |models| && i < |inputs|
    requires Pos(a, i, |inputs|) < j < |Tasks(models, inputs)|
    ensures Tasks(models, inputs)[j].model != models[a] || Tasks(models, inputs)[j].inputId != inputs[i].inputId
  {
    var n := |inputs|;
    var R := Row(models[0], inputs);
    var rest := Tasks(models[1..], inputs);
    assert Tasks(models, inputs) == R + rest;
    if j < n {
      assert a == 0;
      assert (R + rest)[j] == R[j];
    } else {
      assert (R + rest)[j] == rest[j - n];
      if a == 0 {
        TaskFrom(models[1..], inputs, j - n);
        var q :| 0 <= q < |models[1..]| && models[1..][q] == rest[j - n].model;
        assert models[q + 1] == rest[j - n].model;
      } else {
        TaskIndexUnique(models[1..], inputs, a - 1, i, j - n);
        assert models[1..][a - 1] == models[a];
      }
    }
  }

  /** Isolation: if two provider oracles differ only on task `k`, the two
      results maps have the same keys and agree on every cell except the one
      under task `k`'s (model, input id) key. */
  lemma PostIsolation(req: Request, serverKey: Option<string>,
                      up1: (nat, Upstream.Call) -> Upstream.Reply, up2: (nat, Upstream.Call) -> Upstream.Reply,
                      stringify: Json.Value -> string, k: nat)
    requires Admitted(req, serverKey)
    requires k < |TasksOf(req, serverKey)|
    requires forall j: nat, c :: j != k ==> up1(j, c) == up2(j, c)
    ensures var t := TasksOf(req, serverKey)[k];
            var g1 := Post(req, serverKey, up1, stringify).response.results;
            var g2 := Post(req, serverKey, up2, stringify).response.results;
            && (forall m :: m in g1 <==> m in g2)
            && (forall m, i :: HasCell(g1, m, i) <==> HasCell(g2, m, i))
            && (forall m, i :: HasCell(g1, m, i) && (m != t.model || i != t.inputId) ==> g1[m][i] == g2[m][i])
  {
    var tasks := TasksOf(req, serverKey);
    var calls := CallsOf(req, serverKey);
    CollectIsolation(tasks, Settle(calls, up1, stringify), Settle(calls, up2, stringify), k);
  }
}
