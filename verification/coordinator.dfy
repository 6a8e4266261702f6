/** The legacy page's evaluation run (`runEval`): it sends one relay request
    per non-blank prompt, in order, and records the returned results in the
    live test and in a snapshot of the run.

    The environment is an oracle. `relay(k, request)` says whether the abort
    signal was already set when prompt `k`'s turn came, and what the relay
    exchange produced. `JSON.parse` of an error body and the string
    conversion of a non-string `error` value are parameters. */
module Coordinator {
  import opened Wrappers
  import opened Text
  import Json
  import Seqs
  import opened Cells
  import opened Config
  import Relay

  // ---------------------------------------------------------------------------
  // What a run works on

  predicate IsRunnable(p: PromptItem) {
    !IsBlank(p.prompt)
  }

  predicate HasContent(i: InputItem) {
    !IsBlank(i.content)
  }

  predicate IsEnabled(m: ModelItem) {
    m.enabled
  }

  /** `prompts.filter(p => p.prompt.trim().length > 0)`. */
  function PromptsToRun(prompts: seq<PromptItem>): seq<PromptItem> {
    Seqs.Filter(prompts, IsRunnable)
  }

  /** `inputs.filter(i => i.content.trim().length > 0)`. */
  function ValidInputs(inputs: seq<InputItem>): seq<InputItem> {
    Seqs.Filter(inputs, HasContent)
  }

  /** `models.filter(m => m.enabled !== false)`. */
  function EnabledModels(models: seq<ModelItem>): seq<ModelItem> {
    Seqs.Filter(models, IsEnabled)
  }

  /** Whether the run button is enabled. */
  predicate CanEval(test: TestConfig, evaluating: bool, apiKey: string) {
    && |ValidInputs(test.inputs)| > 0
    && |EnabledModels(test.models)| > 0
    && |PromptsToRun(test.prompts)| > 0
    && !evaluating
    && !IsBlank(apiKey)
  }

  /** The run button is enabled exactly when there is a non-blank input, an
      enabled model and a non-blank prompt, nothing is running, and the key
      is not blank. */
  lemma {:induction false} CanEvalIff(test: TestConfig, evaluating: bool, apiKey: string)
    ensures CanEval(test, evaluating, apiKey) <==>
      && (exists i :: 0 <= i < |test.inputs| && !IsBlank(test.inputs[i].content))
      && (exists i :: 0 <= i < |test.models| && test.models[i].enabled)
      && (exists i :: 0 <= i < |test.prompts| && !IsBlank(test.prompts[i].prompt))
      && !evaluating
      && !IsBlank(apiKey)
  {
    NonEmptyFilter(test.inputs, HasContent);
    NonEmptyFilter(test.models, IsEnabled);
    NonEmptyFilter(test.prompts, IsRunnable);
  }

  lemma NonEmptyFilter<T>(s: seq<T>, p: T -> bool)
    ensures |Seqs.Filter(s, p)| > 0 <==> exists i :: 0 <= i < |s| && p(s[i])
  {
    if exists i :: 0 <= i < |s| && p(s[i]) {
      var i :| 0 <= i < |s| && p(s[i]);
      Seqs.FilterMembers(s, p);
      assert s[i] in Seqs.Filter(s, p);
    }
  }

  // ---------------------------------------------------------------------------
  // The relay request for one prompt

  function ModelIds(models: seq<ModelItem>): (ids: seq<string>)
    ensures |ids| == |models|
    ensures forall i :: 0 <= i < |models| ==> ids[i] == models[i].modelId
  {
    seq(|models|, i requires 0 <= i < |models| => models[i].modelId)
  }

  function InputRefs(inputs: seq<InputItem>): (refs: seq<Relay.InputRef>)
    ensures |refs| == |inputs|
    ensures forall i :: 0 <= i < |inputs| ==> refs[i] == Relay.InputRef(inputs[i].id, inputs[i].content)
  {
    seq(|inputs|, i requires 0 <= i < |inputs| => Relay.InputRef(inputs[i].id, inputs[i].content))
  }

  /** What a run sends for one prompt: the key header, the trimmed prompt, the
      enabled models' ids, the valid inputs (content untrimmed), and the
      test's temperature. */
  function RequestFor(apiKey: string, p: PromptItem, inputs: seq<InputItem>, models: seq<ModelItem>, temperature: real): (r: Relay.Request)
    ensures r.apiKeyHeader == Some(apiKey) && r.body.Some?
    ensures r.body.value.prompt == Some(Trim(p.prompt)) && r.body.value.temperature == Some(temperature)
    ensures r.body.value.models.Some? && |r.body.value.models.value| == |models|
    ensures forall i :: 0 <= i < |models| ==> r.body.value.models.value[i] == models[i].modelId
    ensures r.body.value.inputs.Some? && |r.body.value.inputs.value| == |inputs|
    ensures forall i :: 0 <= i < |inputs| ==> r.body.value.inputs.value[i] == Relay.InputRef(inputs[i].id, inputs[i].content)
  {
    Relay.Request(Some(apiKey),
      Some(Relay.Body(Some(Trim(p.prompt)), Some(ModelIds(models)), Some(InputRefs(inputs)), Some(temperature))))
  }

  // ---------------------------------------------------------------------------
  // Relay replies and the error text

  /** What a thrown value looks like to the `catch` block. */
  datatype Failure =
    | AbortError
    | Thrown(message: string)
    | NonErrorThrown

  datatype RelayReply =
      /** A 2xx reply; `results` is `data.results`, `None` when absent or null. */
    | Answered(results: Option<Grid>)
      /** A non-2xx reply with its body text (`''` when reading it failed). */
    | Refused(status: nat, text: string)
      /** `fetch` or `res.json()` rejected. */
    | Raised(failure: Failure)

  /** One prompt's turn: whether the abort signal was already set, and, if
      not, what the relay exchange produced. */
  datatype Step = Step(abortedBefore: bool, reply: RelayReply)

  const TimeoutMessage: string := "Request timed out (5 min). Try fewer prompts, inputs, or models."
  const UnknownErrorMessage: string := "Unknown error"
  const BodyExcerptLength: nat := 200

  /** The `errorMsg` of a refused request. `parse` is `JSON.parse` (`None`
      when it throws); `render` is the string conversion a template literal
      applies to a non-string value. Reading `.error` of a parsed `null`
      throws, which lands in the same branch as a parse failure. */
  function RelayErrorText(status: nat, text: string, parse: string -> Option<Json.Value>,
                          render: Json.Value -> string): (msg: string)
    ensures (parse(text).None? || parse(text) == Some(Json.Null)) && text == [] ==> msg == "HTTP " + Decimal(status)
    ensures (parse(text).None? || parse(text) == Some(Json.Null)) && text != [] ==>
      msg == "HTTP " + Decimal(status) + ": " + Prefix(text, 200)
    ensures parse(text).Some? && !parse(text).value.Null? ==>
      var e := Json.Member(parse(text).value, "error");
      && (e.Some? && Json.Truthy(e.value) && e.value.Str? ==> msg == e.value.s)
      && (e.Some? && Json.Truthy(e.value) && !e.value.Str? ==> msg == render(e.value))
      && (e.None? || !Json.Truthy(e.value) ==> msg == "HTTP " + Decimal(status))
  {
    var base := "HTTP " + Decimal(status);
    var parsed := parse(text);
    if parsed.None? || parsed.value.Null? then
      if |text| > 0 then base + ": " + Prefix(text, BodyExcerptLength) else base
    else
      var e := Json.Member(parsed.value, "error");
      if e.Some? && Json.Truthy(e.value) then
        if e.value.Str? then e.value.s else render(e.value)
      else base
  }

  /** The excerpt of an unparsable body never exceeds 200 code units and is
      the whole body when it is that short; the status always leads. */
  lemma RelayErrorExcerpt(status: nat, text: string, parse: string -> Option<Json.Value>,
                          render: Json.Value -> string)
    requires parse(text).None?
    ensures var msg := RelayErrorText(status, text, parse, render);
            && "HTTP " + Decimal(status) <= msg
            && |msg| <= |"HTTP " + Decimal(status)| + 2 + 200
            && (0 < |text| <= 200 ==> msg == "HTTP " + Decimal(status) + ": " + text)
  {
  }

  /** The message the loop throws for a refused request. */
  function RefusalMessage(p: PromptItem, status: nat, text: string, parse: string -> Option<Json.Value>,
                          render: Json.Value -> string): string
  {
    p.name + ": " + RelayErrorText(status, text, parse, render)
  }

  // ---------------------------------------------------------------------------
  // The loop

  /** How the loop ended: it ran out of prompts, saw the abort signal, threw
      for a refused request (with the refusal's prompt, status and body), or
      threw because the exchange itself failed. */
  datatype Outcome =
    | Finished
    | Stopped
    | Refusal(prompt: PromptItem, status: nat, text: string)
    | Threw(failure: Failure)

  /** The grids answered by consecutive prompts from the first one on, the
      requests sent, and how the loop ended. */
  datatype LoopResult = LoopResult(answered: seq<Grid>, sent: seq<Relay.Request>, end: Outcome)

  /** What the run fixed at its start, with the request each prompt to run
      will send. */
  datatype Plan = Plan(apiKey: string, toRun: seq<PromptItem>, inputs: seq<InputItem>, models: seq<ModelItem>,
                       temperature: real, requests: seq<Relay.Request>)

  /** A plan holds one request per prompt to run. */
  type FixedPlan = plan: Plan | |plan.requests| == |plan.toRun| witness Plan([], [], [], [], 0.0, [])

  function PlanRequest(plan: FixedPlan, k: nat): Relay.Request
    requires k < |plan.toRun|
  {
    plan.requests[k]
  }

  /** How a loop halted by prompt `p`'s unanswered reply ends. */
  function Halt(p: PromptItem, reply: RelayReply): (o: Outcome)
    requires !reply.Answered?
    ensures o.Refusal? || o.Threw?
  {
    match reply
    case Refused(status, text) => Refusal(p, status, text)
    case Raised(f) => Threw(f)
  }

  /** The `for` loop from prompt `k` on. */
  function Loop(plan: FixedPlan, relay: (nat, Relay.Request) -> Step, k: nat): (r: LoopResult)
    requires k <= |plan.toRun|
    ensures |r.answered| <= |r.sent| <= |plan.toRun| - k
    decreases |plan.toRun| - k
  {
    if k == |plan.toRun| then LoopResult([], [], Finished)
    else
      var step := relay(k, PlanRequest(plan, k));
      if step.abortedBefore then LoopResult([], [], Stopped)
      else if !step.reply.Answered? then LoopResult([], [PlanRequest(plan, k)], Halt(plan.toRun[k], step.reply))
      else
        var rest := Loop(plan, relay, k + 1);
        LoopResult([step.reply.results.GetOr(map[])] + rest.answered, [PlanRequest(plan, k)] + rest.sent, rest.end)
  }

  /** One answered step: the loop from `k` sends prompt `k`'s request and
      then continues from `k + 1`. */
  lemma LoopUnfold(plan: FixedPlan, relay: (nat, Relay.Request) -> Step, k: nat)
    requires k < |plan.toRun|
    requires !relay(k, PlanRequest(plan, k)).abortedBefore && relay(k, PlanRequest(plan, k)).reply.Answered?
    ensures var r := Loop(plan, relay, k);
            var rest := Loop(plan, relay, k + 1);
            && r.sent == [PlanRequest(plan, k)] + rest.sent
            && r.answered == [relay(k, PlanRequest(plan, k)).reply.results.GetOr(map[])] + rest.answered
            && r.end == rest.end
  {
  }

  /** Request `j` of the loop from `k` is prompt `k + j`'s, and its step saw
      no abort. */
  lemma {:induction false} LoopSentAt(plan: FixedPlan, relay: (nat, Relay.Request) -> Step, k: nat, j: nat)
    requires k <= |plan.toRun|
    requires j < |Loop(plan, relay, k).sent|
    ensures k + j < |plan.toRun|
    ensures Loop(plan, relay, k).sent[j] == PlanRequest(plan, k + j)
    ensures !relay(k + j, PlanRequest(plan, k + j)).abortedBefore
    decreases j
  {
    if j > 0 {
      LoopUnfold(plan, relay, k);
      LoopSentAt(plan, relay, k + 1, j - 1);
    }
  }

  /** Request `j` of the loop is prompt `k + j`'s, and its step saw no abort. */
  lemma LoopSent(plan: FixedPlan, relay: (nat, Relay.Request) -> Step, k: nat)
    requires k <= |plan.toRun|
    ensures var r := Loop(plan, relay, k);
            forall j :: 0 <= j < |r.sent| ==>
              r.sent[j] == PlanRequest(plan, k + j) && !relay(k + j, r.sent[j]).abortedBefore
  {
    var r := Loop(plan, relay, k);
    forall j | 0 <= j < |r.sent|
      ensures r.sent[j] == PlanRequest(plan, k + j) && !relay(k + j, r.sent[j]).abortedBefore
    {
      LoopSentAt(plan, relay, k, j);
    }
  }

  /** Answered grid `j` of the loop from `k` is the `data.results ?? {}` of
      step `k + j`, whose reply was an answer. */
  lemma {:induction false} LoopAnsweredAt(plan: FixedPlan, relay: (nat, Relay.Request) -> Step, k: nat, j: nat)
    requires k <= |plan.toRun|
    requires j < |Loop(plan, relay, k).answered|
    ensures k + j < |plan.toRun|
    ensures relay(k + j, PlanRequest(plan, k + j)).reply.Answered?
    ensures Loop(plan, relay, k).answered[j] == relay(k + j, PlanRequest(plan, k + j)).reply.results.GetOr(map[])
    decreases j
  {
    LoopUnfold(plan, relay, k);
    if j > 0 {
      LoopAnsweredAt(plan, relay, k + 1, j - 1);
    }
  }

  /** Answered grid `j` is the `data.results ?? {}` of step `k + j`, whose
      reply was an answer. */
  lemma LoopAnswered(plan: FixedPlan, relay: (nat, Relay.Request) -> Step, k: nat)
    requires k <= |plan.toRun|
    ensures var r := Loop(plan, relay, k);
            forall j :: 0 <= j < |r.answered| ==>
              && relay(k + j, r.sent[j]).reply.Answered?
              && r.answered[j] == relay(k + j, r.sent[j]).reply.results.GetOr(map[])
  {
    var r := Loop(plan, relay, k);
    forall j | 0 <= j < |r.answered|
      ensures relay(k + j, r.sent[j]).reply.Answered?
      ensures r.answered[j] == relay(k + j, r.sent[j]).reply.results.GetOr(map[])
    {
      LoopSentAt(plan, relay, k, j);
      LoopAnsweredAt(plan, relay, k, j);
    }
  }

  /** With every request answered, either every prompt ran or the next
      step saw the abort. */
  lemma {:induction false} LoopStoppedCleanly(plan: FixedPlan, relay: (nat, Relay.Request) -> Step, k: nat)
    requires k <= |plan.toRun|
    requires |Loop(plan, relay, k).answered| == |Loop(plan, relay, k).sent|
    ensures var r := Loop(plan, relay, k);
            || (r.end == Finished && k + |r.sent| == |plan.toRun|)
            || (r.end == Stopped && k + |r.sent| < |plan.toRun|
                && relay(k + |r.sent|, PlanRequest(plan, k + |r.sent|)).abortedBefore)
    decreases |plan.toRun| - k
  {
    if k < |plan.toRun| {
      var step := relay(k, PlanRequest(plan, k));
      if !step.abortedBefore && step.reply.Answered? {
        LoopUnfold(plan, relay, k);
        LoopStoppedCleanly(plan, relay, k + 1);
      }
    }
  }

  /** Otherwise exactly the last request went unanswered and its failure ends
      the loop: a refusal throws the prompt's name and the relay error text,
      a rejection throws as it is. */
  lemma {:induction false} LoopThrew(plan: FixedPlan, relay: (nat, Relay.Request) -> Step, k: nat)
    requires k <= |plan.toRun|
    requires |Loop(plan, relay, k).answered| < |Loop(plan, relay, k).sent|
    ensures var r := Loop(plan, relay, k);
            && |r.answered| + 1 == |r.sent|
            && k + |r.answered| < |plan.toRun|
            && var i := k + |r.answered|;
               && !relay(i, PlanRequest(plan, i)).reply.Answered?
               && r.end == Halt(plan.toRun[i], relay(i, PlanRequest(plan, i)).reply)
    decreases |plan.toRun| - k
  {
    var step := relay(k, PlanRequest(plan, k));
    if !step.abortedBefore && step.reply.Answered? {
      LoopUnfold(plan, relay, k);
      LoopThrew(plan, relay, k + 1);
    }
  }

  // ---------------------------------------------------------------------------
  // Recording results

  /** `ps.findIndex(p => p.id === id)`, `|ps|` when there is none. */
  function FirstIndex(ps: seq<PromptItem>, id: string): (i: nat)
    ensures i <= |ps|
    ensures i < |ps| ==> ps[i].id == id
    ensures forall j :: 0 <= j < i ==> ps[j].id != id
  {
    if |ps| == 0 then 0 else if ps[0].id == id then 0 else 1 + FirstIndex(ps[1..], id)
  }

  /** The snapshot update: `find` the first prompt with that id and set its results. */
  function SetFirst(ps: seq<PromptItem>, id: string, g: Grid): seq<PromptItem>
  {
    var i := FirstIndex(ps, id);
    if i < |ps| then ps[i := ps[i].(results := g)] else ps
  }

  /** The live update: every prompt with that id gets the results. */
  function SetAll(ps: seq<PromptItem>, id: string, g: Grid): seq<PromptItem>
  {
    seq(|ps|, j requires 0 <= j < |ps| => if ps[j].id == id then ps[j].(results := g) else ps[j])
  }

  /** The results most recently answered for a prompt with this id. */
  function LastAnswer(toRun: seq<PromptItem>, answered: seq<Grid>, id: string): Option<Grid>
    requires |answered| <= |toRun|
  {
    if |answered| == 0 then None
    else if toRun[|answered| - 1].id == id then Some(answered[|answered| - 1])
    else LastAnswer(toRun, answered[..|answered| - 1], id)
  }

  /** The snapshot prompts: the prompts to run with their results cleared,
      then one `SetFirst` per answered prompt, in order. */
  function Record(snap: seq<PromptItem>, toRun: seq<PromptItem>, answered: seq<Grid>): seq<PromptItem>
    requires |answered| <= |toRun|
  {
    if |answered| == 0 then snap
    else SetFirst(Record(snap, toRun, answered[..|answered| - 1]), toRun[|answered| - 1].id, answered[|answered| - 1])
  }

  /** The live prompts after one `SetAll` per answered prompt, in order. */
  function Publish(prompts: seq<PromptItem>, toRun: seq<PromptItem>, answered: seq<Grid>): seq<PromptItem>
    requires |answered| <= |toRun|
  {
    if |answered| == 0 then prompts
    else SetAll(Publish(prompts, toRun, answered[..|answered| - 1]), toRun[|answered| - 1].id, answered[|answered| - 1])
  }

  function Cleared(ps: seq<PromptItem>): (r: seq<PromptItem>)
    ensures |r| == |ps|
    ensures forall j :: 0 <= j < |ps| ==> r[j] == ps[j].(results := map[])
  {
    seq(|ps|, j requires 0 <= j < |ps| => ps[j].(results := map[]))
  }

  /** Two prompt lists with the same ids position by position find the same index. */
  lemma FirstIndexSameIds(a: seq<PromptItem>, b: seq<PromptItem>, id: string)
    requires |a| == |b|
    requires forall j :: 0 <= j < |a| ==> a[j].id == b[j].id
    ensures FirstIndex(a, id) == FirstIndex(b, id)
  {
    var i, k := FirstIndex(a, id), FirstIndex(b, id);
    assert i < |a| ==> b[i].id == id;
    assert k < |b| ==> a[k].id == id;
  }

  /** The live prompts keep their order, ids, names and texts; a prompt's
      results are those last answered for its id, or unchanged when no
      answered prompt has its id. */
  lemma {:induction false} PublishSpec(prompts: seq<PromptItem>, toRun: seq<PromptItem>, answered: seq<Grid>)
    requires |answered| <= |toRun|
    ensures |Publish(prompts, toRun, answered)| == |prompts|
    ensures forall j :: 0 <= j < |prompts| ==>
      Publish(prompts, toRun, answered)[j]
        == prompts[j].(results := LastAnswer(toRun, answered, prompts[j].id).GetOr(prompts[j].results))
  {
    if |answered| > 0 {
      PublishSpec(prompts, toRun, answered[..|answered| - 1]);
    }
  }

  /** The snapshot prompts keep the order, ids, names and texts of the prompts
      run. Only the first prompt with a given id holds results: those last
      answered for that id, or `{}` when none was; every later prompt with
      the same id stays at `{}`. */
  lemma {:induction false} RecordSpec(toRun: seq<PromptItem>, answered: seq<Grid>)
    requires |answered| <= |toRun|
    ensures |Record(Cleared(toRun), toRun, answered)| == |toRun|
    ensures forall j :: 0 <= j < |toRun| ==>
      Record(Cleared(toRun), toRun, answered)[j]
        == toRun[j].(results :=
             if FirstIndex(toRun, toRun[j].id) == j then LastAnswer(toRun, answered, toRun[j].id).GetOr(map[])
             else map[])
  {
    RecordKeepsIds(toRun, answered);
    forall j | 0 <= j < |toRun|
      ensures Record(Cleared(toRun), toRun, answered)[j]
        == toRun[j].(results :=
             if FirstIndex(toRun, toRun[j].id) == j then LastAnswer(toRun, answered, toRun[j].id).GetOr(map[])
             else map[])
    {
      RecordAt(toRun, answered, j);
    }
  }

  /** Recording results keeps the length and the ids of the prompts run. */
  lemma {:induction false} RecordKeepsIds(toRun: seq<PromptItem>, answered: seq<Grid>)
    requires |answered| <= |toRun|
    ensures |Record(Cleared(toRun), toRun, answered)| == |toRun|
    ensures forall j :: 0 <= j < |toRun| ==> Record(Cleared(toRun), toRun, answered)[j].id == toRun[j].id
  {
    if |answered| > 0 {
      RecordKeepsIds(toRun, answered[..|answered| - 1]);
    }
  }

  /** Snapshot prompt `j` after the answers so far. */
  lemma {:induction false} RecordAt(toRun: seq<PromptItem>, answered: seq<Grid>, j: nat)
    requires |answered| <= |toRun| && j < |toRun|
    ensures |Record(Cleared(toRun), toRun, answered)| == |toRun|
    ensures Record(Cleared(toRun), toRun, answered)[j]
        == toRun[j].(results :=
             if FirstIndex(toRun, toRun[j].id) == j then LastAnswer(toRun, answered, toRun[j].id).GetOr(map[])
             else map[])
  {
    RecordKeepsIds(toRun, answered);
    if |answered| > 0 {
      var n := |answered| - 1;
      var g, id := answered[n], toRun[n].id;
      var prev := Record(Cleared(toRun), toRun, answered[..n]);
      RecordAt(toRun, answered[..n], j);
      RecordKeepsIds(toRun, answered[..n]);
      FirstIndexSameIds(prev, toRun, id);
      var f := FirstIndex(toRun, id);
      assert f <= n;
      var r := Record(Cleared(toRun), toRun, answered);
      assert r == prev[f := prev[f].(results := g)];
      if toRun[j].id == id {
        assert LastAnswer(toRun, answered, id) == Some(g);
      } else {
        assert r[j] == prev[j];
        assert LastAnswer(toRun, answered, toRun[j].id) == LastAnswer(toRun, answered[..n], toRun[j].id);
      }
    }
  }

  /** With pairwise-distinct prompt ids, snapshot prompt `j` holds exactly the
      results answered for prompt `j`, or `{}` when the loop did not get
      that far. */
  lemma RecordDistinct(toRun: seq<PromptItem>, answered: seq<Grid>)
    requires |answered| <= |toRun|
    requires forall i, j :: 0 <= i < j < |toRun| ==> toRun[i].id != toRun[j].id
    ensures |Record(Cleared(toRun), toRun, answered)| == |toRun|
    ensures forall j :: 0 <= j < |toRun| ==>
      Record(Cleared(toRun), toRun, answered)[j]
        == toRun[j].(results := if j < |answered| then answered[j] else map[])
  {
    RecordSpec(toRun, answered);
    forall j | 0 <= j < |toRun|
      ensures LastAnswer(toRun, answered, toRun[j].id).GetOr(map[]) == if j < |answered| then answered[j] else map[]
    {
      LastAnswerDistinct(toRun, answered, j);
    }
  }

  lemma {:induction false} LastAnswerDistinct(toRun: seq<PromptItem>, answered: seq<Grid>, j: nat)
    requires |answered| <= |toRun| && j < |toRun|
    requires forall i, k :: 0 <= i < k < |toRun| ==> toRun[i].id != toRun[k].id
    ensures LastAnswer(toRun, answered, toRun[j].id) == if j < |answered| then Some(answered[j]) else None
  {
    if |answered| > 0 {
      var n := |answered| - 1;
      if n != j {
        LastAnswerDistinct(toRun, answered[..n], j);
      }
    }
  }

  // ---------------------------------------------------------------------------
  // The whole run

  /** The error shown after the run. Nothing when the loop ran out of prompts
      or saw the abort signal. A throw while the signal is set and another
      run has taken over the controller is silent; otherwise an abort shows
      the timeout text, a refusal the prompt's name and the relay error
      text, another error its message, and a non-error value a fixed text. */
  function ErrorAfter(end: Outcome, parse: string -> Option<Json.Value>, render: Json.Value -> string,
                      signalAborted: bool, stillCurrent: bool): (e: Option<string>)
    ensures e.Some? <==> (end.Refusal? || end.Threw?) && !(signalAborted && !stillCurrent)
    ensures e.Some? ==>
      && (end.Refusal? ==> e.value == RefusalMessage(end.prompt, end.status, end.text, parse, render))
      && (end == Threw(AbortError) ==> e.value == TimeoutMessage)
      && (end.Threw? && end.failure.Thrown? ==> e.value == end.failure.message)
      && (end == Threw(NonErrorThrown) ==> e.value == UnknownErrorMessage)
  {
    if end.Finished? || end.Stopped? || (signalAborted && !stillCurrent) then None
    else match end
      case Refusal(p, status, text) => Some(RefusalMessage(p, status, text, parse, render))
      case Threw(AbortError) => Some(TimeoutMessage)
      case Threw(Thrown(m)) => Some(m)
      case Threw(NonErrorThrown) => Some(UnknownErrorMessage)
  }

  /** The state a run leaves behind: the snapshot (written however the loop
      ended), the test's live prompts, the requests sent, and the error. */
  datatype Run = Run(snapshot: ResultSnapshot, prompts: seq<PromptItem>, sent: seq<Relay.Request>, error: Option<string>)

  function PlanOf(test: TestConfig, apiKey: string): (plan: FixedPlan)
    ensures plan.toRun == PromptsToRun(test.prompts)
    ensures plan.inputs == ValidInputs(test.inputs)
    ensures plan.models == EnabledModels(test.models)
    ensures forall k :: 0 <= k < |plan.toRun| ==>
      plan.requests[k] == RequestFor(apiKey, plan.toRun[k], plan.inputs, plan.models, test.temperature)
  {
    var toRun := PromptsToRun(test.prompts);
    var inputs := ValidInputs(test.inputs);
    var models := EnabledModels(test.models);
    Plan(apiKey, toRun, inputs, models, test.temperature,
      seq(|toRun|, k requires 0 <= k < |toRun| => RequestFor(apiKey, toRun[k], inputs, models, test.temperature)))
  }

  /** `runEval`. `None` is the early return that changes nothing.
      `signalAborted` and `stillCurrent` describe the controller when a
      failure reaches the `catch` block. */
  function RunEval(test: TestConfig, apiKey: string, relay: (nat, Relay.Request) -> Step,
                   parse: string -> Option<Json.Value>, render: Json.Value -> string,
                   signalAborted: bool, stillCurrent: bool): (r: Option<Run>)
    ensures r.None? <==>
      |PromptsToRun(test.prompts)| == 0 || |ValidInputs(test.inputs)| == 0 || |EnabledModels(test.models)| == 0
    ensures r.Some? ==>
      && r.value.snapshot.inputs == ValidInputs(test.inputs)
      && r.value.snapshot.models == EnabledModels(test.models)
      && |r.value.snapshot.prompts| == |PromptsToRun(test.prompts)|
      && |r.value.prompts| == |test.prompts|
      && |r.value.sent| <= |PromptsToRun(test.prompts)|
  {
    var plan := PlanOf(test, apiKey);
    if |plan.toRun| == 0 || |plan.inputs| == 0 || |plan.models| == 0 then None
    else
      var l := Loop(plan, relay, 0);
      RecordSpec(plan.toRun, l.answered);
      PublishSpec(test.prompts, plan.toRun, l.answered);
      Some(Run(
        ResultSnapshot(plan.inputs, Record(Cleared(plan.toRun), plan.toRun, l.answered), plan.models),
        Publish(test.prompts, plan.toRun, l.answered),
        l.sent,
        ErrorAfter(l.end, parse, render, signalAborted, stillCurrent)))
  }

  lemma RunEvalParts(test: TestConfig, apiKey: string, relay: (nat, Relay.Request) -> Step,
                     parse: string -> Option<Json.Value>, render: Json.Value -> string,
                     signalAborted: bool, stillCurrent: bool)
    ensures RunEval(test, apiKey, relay, parse, render, signalAborted, stillCurrent).Some? ==>
            var plan := PlanOf(test, apiKey);
            var l := Loop(plan, relay, 0);
            var run := RunEval(test, apiKey, relay, parse, render, signalAborted, stillCurrent).value;
            && run.snapshot.prompts == Record(Cleared(plan.toRun), plan.toRun, l.answered)
            && run.prompts == Publish(test.prompts, plan.toRun, l.answered)
            && run.sent == l.sent
            && run.error == ErrorAfter(l.end, parse, render, signalAborted, stillCurrent)
  {
  }

  /** The whole loop from the first prompt: request `j` is prompt `j`'s and
      saw no abort, every request but the last was answered, and a loop that
      ends before the last prompt without a failure saw the abort. */
  lemma LoopOrder(plan: FixedPlan, relay: (nat, Relay.Request) -> Step)
    ensures var l := Loop(plan, relay, 0);
            && (forall j :: 0 <= j < |l.sent| ==>
                  l.sent[j] == PlanRequest(plan, j) && !relay(j, l.sent[j]).abortedBefore)
            && (forall j :: 0 <= j && j + 1 < |l.sent| ==> relay(j, l.sent[j]).reply.Answered?)
            && (!l.end.Refusal? && !l.end.Threw? && |l.sent| < |plan.toRun| ==>
                  relay(|l.sent|, PlanRequest(plan, |l.sent|)).abortedBefore)
  {
    var l := Loop(plan, relay, 0);
    forall j | 0 <= j < |l.sent|
      ensures l.sent[j] == PlanRequest(plan, j) && !relay(j, l.sent[j]).abortedBefore
    {
      LoopSentAt(plan, relay, 0, j);
    }
    LoopAnsweredBeforeLast(plan, relay);
    LoopEarlyStop(plan, relay);
  }

  /** Every request of the loop but the last was answered. */
  lemma LoopAnsweredBeforeLast(plan: FixedPlan, relay: (nat, Relay.Request) -> Step)
    ensures var l := Loop(plan, relay, 0);
            forall j :: 0 <= j && j + 1 < |l.sent| ==> relay(j, l.sent[j]).reply.Answered?
  {
    var l := Loop(plan, relay, 0);
    if |l.answered| < |l.sent| {
      LoopThrew(plan, relay, 0);
    }
    forall j | 0 <= j && j + 1 < |l.sent|
      ensures relay(j, l.sent[j]).reply.Answered?
    {
      LoopSentAt(plan, relay, 0, j);
      LoopAnsweredAt(plan, relay, 0, j);
    }
  }

  /** A loop that ends before the last prompt without a failure saw the
      abort at the next step. */
  lemma LoopEarlyStop(plan: FixedPlan, relay: (nat, Relay.Request) -> Step)
    ensures var l := Loop(plan, relay, 0);
            !l.end.Refusal? && !l.end.Threw? && |l.sent| < |plan.toRun| ==>
              relay(|l.sent|, PlanRequest(plan, |l.sent|)).abortedBefore
  {
    var l := Loop(plan, relay, 0);
    if |l.answered| < |l.sent| {
      LoopThrew(plan, relay, 0);
    } else {
      LoopStoppedCleanly(plan, relay, 0);
    }
  }

  /** How the loop's end relates to its last request: no failure when the
      last request was answered or none was sent; otherwise the end carries
      the last reply's refusal or failure. */
  lemma LoopEnd(plan: FixedPlan, relay: (nat, Relay.Request) -> Step)
    ensures var l := Loop(plan, relay, 0);
            var n := |l.sent|;
            && (n == 0 || relay(n - 1, l.sent[n - 1]).reply.Answered? ==> !l.end.Refusal? && !l.end.Threw?)
            && (n > 0 ==>
                  var last := relay(n - 1, l.sent[n - 1]).reply;
                  && (last.Refused? ==> l.end == Refusal(plan.toRun[n - 1], last.status, last.text))
                  && (last.Raised? ==> l.end == Threw(last.failure)))
  {
    var l := Loop(plan, relay, 0);
    var n := |l.sent|;
    if n > 0 {
      LoopSentAt(plan, relay, 0, n - 1);
    }
    if |l.answered| < n {
      LoopThrew(plan, relay, 0);
    } else {
      LoopStoppedCleanly(plan, relay, 0);
      if n > 0 {
        LoopAnsweredAt(plan, relay, 0, n - 1);
      }
    }
  }

  /** Prompts go out one at a time in array order, only non-blank ones, and
      nothing is sent once the abort signal has been seen: request `j` is
      the `j`-th prompt to run, sent only when its step saw no abort, and
      every request but the last was answered. A run that ends early with
      no error, and not silenced, ended because the next step saw the abort. */
  lemma RunOrder(test: TestConfig, apiKey: string, relay: (nat, Relay.Request) -> Step,
                 parse: string -> Option<Json.Value>, render: Json.Value -> string,
                 signalAborted: bool, stillCurrent: bool)
    ensures RunEval(test, apiKey, relay, parse, render, signalAborted, stillCurrent).Some? ==>
            var run := RunEval(test, apiKey, relay, parse, render, signalAborted, stillCurrent).value;
            var plan := PlanOf(test, apiKey);
            && (forall j :: 0 <= j < |run.sent| ==>
                  && run.sent[j] == RequestFor(apiKey, plan.toRun[j], plan.inputs, plan.models, test.temperature)
                  && !IsBlank(plan.toRun[j].prompt)
                  && !relay(j, run.sent[j]).abortedBefore)
            && (forall j :: 0 <= j && j + 1 < |run.sent| ==> relay(j, run.sent[j]).reply.Answered?)
            && (run.error.None? && !(signalAborted && !stillCurrent) && |run.sent| < |plan.toRun| ==>
                  relay(|run.sent|, RequestFor(apiKey, plan.toRun[|run.sent|], plan.inputs, plan.models, test.temperature)).abortedBefore)
  {
    if RunEval(test, apiKey, relay, parse, render, signalAborted, stillCurrent).Some? {
      var plan := PlanOf(test, apiKey);
      var l := Loop(plan, relay, 0);
      RunEvalParts(test, apiKey, relay, parse, render, signalAborted, stillCurrent);
      LoopOrder(plan, relay);
      forall j | 0 <= j < |l.sent|
        ensures !IsBlank(plan.toRun[j].prompt)
      {
        assert IsRunnable(plan.toRun[j]);
      }
    }
  }

  /** The snapshot holds exactly the valid inputs and the enabled models, and
      the prompts run in order. Only the first snapshot prompt with a given
      id holds results: those last answered for that id, or `{}` when none
      was; the test's own prompts take the last answer for their id. */
  lemma RunSnapshot(test: TestConfig, apiKey: string, relay: (nat, Relay.Request) -> Step,
                    parse: string -> Option<Json.Value>, render: Json.Value -> string,
                    signalAborted: bool, stillCurrent: bool)
    ensures RunEval(test, apiKey, relay, parse, render, signalAborted, stillCurrent).Some? ==>
            var run := RunEval(test, apiKey, relay, parse, render, signalAborted, stillCurrent).value;
            var toRun := PromptsToRun(test.prompts);
            var answered := Loop(PlanOf(test, apiKey), relay, 0).answered;
            && |answered| <= |run.sent|
            && run.snapshot.inputs == ValidInputs(test.inputs)
            && run.snapshot.models == EnabledModels(test.models)
            && (forall j :: 0 <= j < |toRun| ==>
                  run.snapshot.prompts[j] == toRun[j].(results :=
                    if FirstIndex(toRun, toRun[j].id) == j then LastAnswer(toRun, answered, toRun[j].id).GetOr(map[])
                    else map[]))
            && (forall j :: 0 <= j < |test.prompts| ==>
                  run.prompts[j] == test.prompts[j].(results :=
                    LastAnswer(toRun, answered, test.prompts[j].id).GetOr(test.prompts[j].results)))
  {
    if RunEval(test, apiKey, relay, parse, render, signalAborted, stillCurrent).Some? {
      var plan := PlanOf(test, apiKey);
      var l := Loop(plan, relay, 0);
      RunEvalParts(test, apiKey, relay, parse, render, signalAborted, stillCurrent);
      RecordSpec(plan.toRun, l.answered);
      PublishSpec(test.prompts, plan.toRun, l.answered);
    }
  }

  /** The error after a run: none when the last request sent was answered (or
      none was sent); none when silenced; otherwise the refusal text with the
      prompt's name, the timeout text for an abort, or the thrown message. */
  lemma RunError(test: TestConfig, apiKey: string, relay: (nat, Relay.Request) -> Step,
                 parse: string -> Option<Json.Value>, render: Json.Value -> string,
                 signalAborted: bool, stillCurrent: bool)
    ensures RunEval(test, apiKey, relay, parse, render, signalAborted, stillCurrent).Some? ==>
            var run := RunEval(test, apiKey, relay, parse, render, signalAborted, stillCurrent).value;
            var plan := PlanOf(test, apiKey);
            var n := |run.sent|;
            && (n == 0 || relay(n - 1, run.sent[n - 1]).reply.Answered? ==> run.error.None?)
            && (signalAborted && !stillCurrent ==> run.error.None?)
            && (n > 0 && !(signalAborted && !stillCurrent) ==>
                  var last := relay(n - 1, run.sent[n - 1]).reply;
                  && (last.Refused? ==> run.error == Some(RefusalMessage(plan.toRun[n - 1], last.status, last.text, parse, render)))
                  && (last == Raised(AbortError) ==> run.error == Some(TimeoutMessage))
                  && (last.Raised? && last.failure.Thrown? ==> run.error == Some(last.failure.message))
                  && (last == Raised(NonErrorThrown) ==> run.error == Some(UnknownErrorMessage)))
  {
    if RunEval(test, apiKey, relay, parse, render, signalAborted, stillCurrent).Some? {
      var plan := PlanOf(test, apiKey);
      RunEvalParts(test, apiKey, relay, parse, render, signalAborted, stillCurrent);
      LoopEnd(plan, relay);
    }
  }

  /** Whenever the button is enabled, a run does start, and every request it
      sends passes all three gates of the relay, whatever the server's own key. */
  lemma EnabledRunPassesRelayGates(test: TestConfig, apiKey: string, relay: (nat, Relay.Request) -> Step,
                                   parse: string -> Option<Json.Value>, render: Json.Value -> string,
                                   signalAborted: bool, stillCurrent: bool, serverKey: Option<string>)
    requires CanEval(test, false, apiKey)
    ensures RunEval(test, apiKey, relay, parse, render, signalAborted, stillCurrent).Some?
    ensures var run := RunEval(test, apiKey, relay, parse, render, signalAborted, stillCurrent).value;
            forall j :: 0 <= j < |run.sent| ==> Relay.Admitted(run.sent[j], serverKey)
  {
    var plan := PlanOf(test, apiKey);
    var l := Loop(plan, relay, 0);
    RunEvalParts(test, apiKey, relay, parse, render, signalAborted, stillCurrent);
    forall j | 0 <= j < |l.sent|
      ensures Relay.Admitted(l.sent[j], serverKey)
    {
      LoopSentAt(plan, relay, 0, j);
      assert IsRunnable(plan.toRun[j]);
      RequestForAdmitted(apiKey, plan.toRun[j], plan.inputs, plan.models, test.temperature, serverKey);
    }
  }

  /** The request for a non-blank prompt, with a non-blank key, some inputs
      and some models, passes the relay's gates. */
  lemma RequestForAdmitted(apiKey: string, p: PromptItem, inputs: seq<InputItem>, models: seq<ModelItem>,
                           temperature: real, serverKey: Option<string>)
    requires !IsBlank(apiKey) && !IsBlank(p.prompt) && |inputs| > 0 && |models| > 0
    ensures Relay.Admitted(RequestFor(apiKey, p, inputs, models, temperature), serverKey)
  {
  }
}
