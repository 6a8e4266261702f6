/** The client's configuration records, the built-in model list, the default
    test, and id generation. Both the legacy page and the shared types file
    define these identically. */
module Config {
  import opened Wrappers
  import opened Text
  import opened Cells

  datatype InputItem = InputItem(id: string, name: string, content: string)
  datatype PromptItem = PromptItem(id: string, name: string, prompt: string, results: Grid)
  datatype ModelItem = ModelItem(id: string, name: string, modelId: string, enabled: bool)

  datatype TestConfig = TestConfig(
    id: string,
    name: string,
    inputs: seq<InputItem>,
    prompts: seq<PromptItem>,
    models: seq<ModelItem>,
    temperature: real)

  /** What the results table shows: the inputs, prompts (with results) and
      models of the last run. */
  datatype ResultSnapshot = ResultSnapshot(inputs: seq<InputItem>, prompts: seq<PromptItem>, models: seq<ModelItem>)

  const DefaultModels: seq<ModelItem> := [
    ModelItem("m1", "mistral-small-3.2-24b-instruct", "mistralai/mistral-small-3.2-24b-instruct", true),
    ModelItem("m2", "gemini-2.5-flash-lite", "google/gemini-2.5-flash-lite", true),
    ModelItem("m3", "gemini-3-flash-preview", "google/gemini-3-flash-preview", true),
    ModelItem("m4", "claude-opus-4.6", "anthropic/claude-opus-4.6", true),
    ModelItem("m5", "claude-opus-4.5", "anthropic/claude-opus-4.5", true),
    ModelItem("m6", "gpt-5.2-chat", "openai/gpt-5.2-chat", true)
  ]

  const DefaultTemperature: real := 0.7

  /** The built-in list: six enabled models with pairwise-distinct ids and
      model ids. */
  lemma DefaultModelsDistinct()
    ensures |DefaultModels| == 6
    ensures forall i :: 0 <= i < |DefaultModels| ==> DefaultModels[i].enabled
    ensures forall i, j :: 0 <= i < j < |DefaultModels| ==>
      DefaultModels[i].id != DefaultModels[j].id && DefaultModels[i].modelId != DefaultModels[j].modelId
  {
    forall i, j | 0 <= i < j < |DefaultModels|
      ensures DefaultModels[i].id != DefaultModels[j].id
      ensures DefaultModels[i].modelId != DefaultModels[j].modelId
    {
      assert DefaultModels[i].id[1] != DefaultModels[j].id[1];
      assert DefaultModels[i].name != DefaultModels[j].name;
    }
  }

  /** `makeDefaultTest(id, name)`: one empty input, one empty prompt with no
      results, a copy of the built-in models, temperature 0.7. */
  function MakeDefaultTest(id: string, name: string): (t: TestConfig)
    ensures t.id == id && t.name == name
    ensures t.inputs == [InputItem("i1", "Input 1", "")]
    ensures t.prompts == [PromptItem("p1", "Prompt 1", "", map[])]
    ensures t.models == DefaultModels
    ensures t.temperature == 0.7
  {
    TestConfig(id, name, [InputItem("i1", "Input 1", "")], [PromptItem("p1", "Prompt 1", "", map[])], DefaultModels, DefaultTemperature)
  }

  /** A freshly generated id and the module counter after the call. */
  datatype Minted = Minted(id: string, next: nat)

  /** `genId(prefix)`: the prefix, the clock reading `now`, `-`, and the
      module-level counter, which then moves on by one. */
  function GenId(prefix: string, now: nat, counter: nat): (m: Minted)
    ensures m.next == counter + 1
    ensures prefix <= m.id
  {
    Minted(prefix + Decimal(now) + "-" + Decimal(counter), counter + 1)
  }

  /** Ids with the same prefix determine both the clock reading and the
      counter: two calls that differ in either give different ids. */
  lemma GenIdInjective(prefix: string, now1: nat, c1: nat, now2: nat, c2: nat)
    requires GenId(prefix, now1, c1).id == GenId(prefix, now2, c2).id
    ensures now1 == now2 && c1 == c2
  {
    var n1, n2 := Decimal(now1), Decimal(now2);
    var k1, k2 := Decimal(c1), Decimal(c2);
    var id := GenId(prefix, now1, c1).id;
    assert id[|prefix|..] == n1 + ("-" + k1);
    assert id[|prefix|..] == n2 + ("-" + k2);
    DigitRunStops(n1, "-" + k1);
    DigitRunStops(n2, "-" + k2);
    DecimalInjective(now1, now2);
    assert id[|prefix| + |n1| + 1..] == k1;
    assert id[|prefix| + |n2| + 1..] == k2;
    DecimalInjective(c1, c2);
  }

  /** A run of `genId` calls with clock readings `nows`, starting from
      `counter`: the ids, and the counter afterwards. */
  function GenIds(prefix: string, nows: seq<nat>, counter: nat): (ids: seq<string>)
    ensures |ids| == |nows|
    ensures forall i :: 0 <= i < |nows| ==> ids[i] == GenId(prefix, nows[i], counter + i).id
  {
    if |nows| == 0 then []
    else [GenId(prefix, nows[0], counter).id] + GenIds(prefix, nows[1..], counter + 1)
  }

  /** Whatever the clock says (even the same millisecond throughout, or a
      clock that goes backwards), the ids of one run are pairwise distinct. */
  lemma GenIdsDistinct(prefix: string, nows: seq<nat>, counter: nat)
    ensures forall i, j :: 0 <= i < j < |nows| ==> GenIds(prefix, nows, counter)[i] != GenIds(prefix, nows, counter)[j]
  {
    var ids := GenIds(prefix, nows, counter);
    forall i, j | 0 <= i < j < |nows|
      ensures ids[i] != ids[j]
    {
      GenIdCounterDistinct(prefix, nows[i], counter + i, nows[j], counter + j);
    }
  }

  /** Calls with different counters mint different ids. */
  lemma GenIdCounterDistinct(prefix: string, now1: nat, c1: nat, now2: nat, c2: nat)
    requires c1 != c2
    ensures GenId(prefix, now1, c1).id != GenId(prefix, now2, c2).id
  {
    if GenId(prefix, now1, c1).id == GenId(prefix, now2, c2).id {
      GenIdInjective(prefix, now1, c1, now2, c2);
    }
  }
}
