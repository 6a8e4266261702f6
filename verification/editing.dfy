/** The legacy page's configuration edits: removing an input, prompt or model
    (never the last one), toggling a model, adding a model by id, and
    restoring the "Input N" / "Prompt N" / model counters when a test is
    loaded. The same removal rule serves the current page's variants. */
module Editing {
  import opened Wrappers
  import opened Text
  import Seqs
  import opened Config

  // ---------------------------------------------------------------------------
  // Removing an item

  predicate DistinctIds<T>(items: seq<T>, idOf: T -> string) {
    forall i, j :: 0 <= i < j < |items| ==> idOf(items[i]) != idOf(items[j])
  }

  /** The filter predicate `x => x.id !== id`. */
  function Other<T>(idOf: T -> string, id: string): T -> bool {
    x => idOf(x) != id
  }

  /** The list after a removal, and which item is active afterwards. */
  datatype Removal<T> = Removal(items: seq<T>, active: string)

  /** `items.findIndex(x => x.id !== id)`, `|items|` when there is none. */
  function FirstOther<T>(items: seq<T>, idOf: T -> string, id: string): (k: nat)
    ensures k <= |items|
    ensures k < |items| ==> idOf(items[k]) != id
    ensures forall j :: 0 <= j < k ==> idOf(items[j]) == id
  {
    if |items| == 0 then 0
    else if idOf(items[0]) != id then 0
    else 1 + FirstOther(items[1..], idOf, id)
  }

  /** `removeInput` / `removePrompt` / `removeModel` (and the current page's
      `removeVariant`): nothing happens while at most one item is left;
      otherwise every item with that id goes, and when the removed id was
      the active one, the first item with another id becomes active (the
      first item's id when there is none). */
  function RemoveItem<T>(items: seq<T>, idOf: T -> string, id: string, active: string): (r: Removal<T>)
    ensures |items| <= 1 ==> r == Removal(items, active)
    ensures |r.items| <= |items|
    ensures |items| > 1 ==> forall j :: 0 <= j < |r.items| ==> r.items[j] in items && idOf(r.items[j]) != id
    ensures |items| > 1 ==> forall j :: 0 <= j < |items| && idOf(items[j]) != id ==> items[j] in r.items
    ensures active != id ==> r.active == active
    ensures |items| > 1 && active == id && (exists j :: 0 <= j < |items| && idOf(items[j]) != id) ==>
              r.active != id && exists j :: 0 <= j < |r.items| && idOf(r.items[j]) == r.active
    ensures |items| > 1 && active == id ==>
              forall k :: 0 <= k < |items| && idOf(items[k]) != id && (forall j :: 0 <= j < k ==> idOf(items[j]) == id) ==>
                r.active == idOf(items[k])
    ensures |items| > 1 && active == id && (forall j :: 0 <= j < |items| ==> idOf(items[j]) == id) ==>
              r.active == idOf(items[0])
  {
    if |items| <= 1 then Removal(items, active)
    else
      var kept := Seqs.Filter(items, Other(idOf, id));
      Seqs.FilterMembers(items, Other(idOf, id));
      var k := FirstOther(items, idOf, id);
      var next := if active != id then active else if k < |items| then idOf(items[k]) else idOf(items[0]);
      assert k < |items| ==> items[k] in kept;
      Removal(kept, next)
  }

  /** With distinct ids, removing a present id takes out exactly that item
      and keeps the others in order; at least one item remains and the ids
      stay distinct. */
  lemma RemoveExactlyOne<T>(items: seq<T>, idOf: T -> string, id: string, active: string, k: nat)
    requires DistinctIds(items, idOf)
    requires |items| > 1 && k < |items| && idOf(items[k]) == id
    ensures RemoveItem(items, idOf, id, active).items == items[..k] + items[k + 1..]
    ensures |RemoveItem(items, idOf, id, active).items| == |items| - 1 >= 1
    ensures DistinctIds(RemoveItem(items, idOf, id, active).items, idOf)
  {
    var p := Other(idOf, id);
    forall j | 0 <= j < |items| && j != k
      ensures p(items[j])
    {
      assert idOf(items[j]) != idOf(items[k]);
    }
    FilterDropsOne(items, p, k);
    DistinctWithout(items, idOf, k);
  }

  /** A filter that rejects exactly position `k` removes that position. */
  lemma {:induction false} FilterDropsOne<T>(items: seq<T>, p: T -> bool, k: nat)
    requires k < |items| && !p(items[k])
    requires forall j :: 0 <= j < |items| && j != k ==> p(items[j])
    ensures Seqs.Filter(items, p) == items[..k] + items[k + 1..]
  {
    var rest := items[1..];
    if k == 0 {
      assert forall j :: 0 <= j < |rest| ==> p(rest[j]) by {
        forall j | 0 <= j < |rest|
          ensures p(rest[j])
        {
          assert rest[j] == items[j + 1];
        }
      }
      Seqs.FilterKeepsAll(rest, p);
      assert Seqs.Filter(items, p) == Seqs.Filter(rest, p);
    } else {
      assert forall j :: 0 <= j < |rest| && j != k - 1 ==> p(rest[j]) by {
        forall j | 0 <= j < |rest| && j != k - 1
          ensures p(rest[j])
        {
          assert rest[j] == items[j + 1];
        }
      }
      FilterDropsOne(rest, p, k - 1);
      assert Seqs.Filter(items, p) == [items[0]] + Seqs.Filter(rest, p);
      assert items[..k] == [items[0]] + rest[..k - 1];
      assert items[k + 1..] == rest[k..];
    }
  }

  /** Taking one item out of a list with distinct ids leaves distinct ids. */
  lemma DistinctWithout<T>(items: seq<T>, idOf: T -> string, k: nat)
    requires DistinctIds(items, idOf) && k < |items|
    ensures DistinctIds(items[..k] + items[k + 1..], idOf)
  {
    var r := items[..k] + items[k + 1..];
    forall i, j | 0 <= i < j < |r|
      ensures idOf(r[i]) != idOf(r[j])
    {
      var i' := if i < k then i else i + 1;
      var j' := if j < k then j else j + 1;
      assert r[i] == items[i'] && r[j] == items[j'];
    }
  }

  /** Removing an id no item has changes no item. */
  lemma RemoveAbsent<T>(items: seq<T>, idOf: T -> string, id: string, active: string)
    requires forall j :: 0 <= j < |items| ==> idOf(items[j]) != id
    ensures RemoveItem(items, idOf, id, active).items == items
  {
    if |items| > 1 {
      Seqs.FilterKeepsAll(items, Other(idOf, id));
    }
  }

  // ---------------------------------------------------------------------------
  // Toggling a model

  /** `toggleModel(id)`: the model with that id switches between enabled and
      disabled. */
  function ToggleEnabled(models: seq<ModelItem>, id: string): (r: seq<ModelItem>)
    ensures |r| == |models|
    ensures forall j :: 0 <= j < |models| ==>
      && r[j].(enabled := models[j].enabled) == models[j]
      && (r[j].enabled <==> (if models[j].id == id then !models[j].enabled else models[j].enabled))
  {
    seq(|models|, j requires 0 <= j < |models| =>
      if models[j].id == id then models[j].(enabled := if models[j].enabled == false then true else false)
      else models[j])
  }

  /** Toggling the same model twice restores the list. */
  lemma ToggleTwice(models: seq<ModelItem>, id: string)
    ensures ToggleEnabled(ToggleEnabled(models, id), id) == models
  {
    var r := ToggleEnabled(ToggleEnabled(models, id), id);
    forall j | 0 <= j < |models|
      ensures r[j] == models[j]
    {
      assert r[j].(enabled := models[j].enabled) == models[j];
    }
  }

  // ---------------------------------------------------------------------------
  // Adding a model by id

  predicate HasModelId(models: seq<ModelItem>, modelId: string) {
    exists j :: 0 <= j < |models| && models[j].modelId == modelId
  }

  predicate DistinctModelIds(models: seq<ModelItem>) {
    forall i, j :: 0 <= i < j < |models| ==> models[i].modelId != models[j].modelId
  }

  /** What `addModel` reads and writes: the models of the test, the text
      field, the active model, the `genId` counter and the model counter. */
  datatype ModelForm = ModelForm(models: seq<ModelItem>, field: string, active: string, idCounter: nat, modelNum: nat)

  /** `addModel` at clock reading `now`: a blank field changes nothing; a
      model id already in the list only clears the field; otherwise a new
      enabled model with a fresh `m…` id, the short name and the trimmed id
      is appended and made active, and the field is cleared. */
  function AddModel(f: ModelForm, now: nat): (r: ModelForm)
    ensures IsBlank(f.field) ==> r == f
    ensures !IsBlank(f.field) ==> r.field == ""
    ensures !IsBlank(f.field) && HasModelId(f.models, Trim(f.field)) ==> r == f.(field := "")
    ensures !IsBlank(f.field) && !HasModelId(f.models, Trim(f.field)) ==>
      var added := ModelItem(GenId("m", now, f.idCounter).id, ShortModelName(Trim(f.field)), Trim(f.field), true);
      && r.models == f.models + [added]
      && r.active == added.id
      && r.idCounter == f.idCounter + 1 && r.modelNum == f.modelNum + 1
  {
    var trimmed := Trim(f.field);
    if trimmed == [] then f
    else if HasModelId(f.models, trimmed) then f.(field := "")
    else
      var minted := GenId("m", now, f.idCounter);
      var item := ModelItem(minted.id, ShortModelName(trimmed), trimmed, true);
      ModelForm(f.models + [item], "", item.id, minted.next, f.modelNum + 1)
  }

  /** After a non-blank add the trimmed id is in the list, and a list without
      repeated model ids still has none. */
  lemma AddModelKeepsIdsDistinct(f: ModelForm, now: nat)
    requires DistinctModelIds(f.models)
    ensures DistinctModelIds(AddModel(f, now).models)
    ensures !IsBlank(f.field) ==> HasModelId(AddModel(f, now).models, Trim(f.field))
  {
    var r := AddModel(f, now);
    if !IsBlank(f.field) && !HasModelId(f.models, Trim(f.field)) {
      assert r.models[|f.models|].modelId == Trim(f.field);
      forall i, j | 0 <= i < j < |r.models|
        ensures r.models[i].modelId != r.models[j].modelId
      {
        if j == |f.models| {
          assert r.models[i] == f.models[i];
        } else {
          assert r.models[i] == f.models[i] && r.models[j] == f.models[j];
        }
      }
    }
  }

  /** A model added by id has a non-blank id that is already trimmed. */
  lemma AddModelTrimmed(f: ModelForm, now: nat)
    requires AddModel(f, now).models != f.models
    ensures var added := AddModel(f, now).models[|f.models|];
            !IsBlank(added.modelId) && Trim(added.modelId) == added.modelId && added.enabled
  {
    TrimIdempotent(f.field);
  }

  /** Submitting the same text a second time adds nothing. */
  lemma AddModelIdempotent(f: ModelForm, now1: nat, now2: nat)
    ensures var once := AddModel(f, now1);
            AddModel(once.(field := f.field), now2).models == once.models
  {
    var once := AddModel(f, now1);
    if !IsBlank(f.field) && !HasModelId(f.models, Trim(f.field)) {
      assert once.models[|f.models|].modelId == Trim(f.field);
    }
  }

  // ---------------------------------------------------------------------------
  // Counter restoration

  /** The next numbers `addInput`, `addPrompt` and `addEmptyModel` use. */
  datatype Counters = Counters(nextInput: nat, nextPrompt: nat, nextModel: nat)

  const InputTag: string := "Input "
  const PromptTag: string := "Prompt "

  /** The reduce in `syncCounters`: the largest number read from a name by
      the label pattern, `0` when no name matches. */
  function MaxLabel(names: seq<string>, tag: string): (m: nat)
    ensures forall j :: 0 <= j < |names| && LabelNumber(names[j], tag).Some? ==>
      LabelNumber(names[j], tag).value <= m
    ensures m == 0 || exists j :: 0 <= j < |names| && LabelNumber(names[j], tag) == Some(m)
  {
    if |names| == 0 then 0
    else
      var rest := MaxLabel(names[..|names| - 1], tag);
      var last := LabelNumber(names[|names| - 1], tag);
      if last.Some? && last.value > rest then last.value else rest
  }

  /** The `name` of every item, in order. */
  function Names<T>(items: seq<T>, nameOf: T -> string): (names: seq<string>)
    ensures |names| == |items|
    ensures forall j :: 0 <= j < |items| ==> names[j] == nameOf(items[j])
  {
    seq(|items|, j requires 0 <= j < |items| => nameOf(items[j]))
  }

  function InputNames(inputs: seq<InputItem>): (names: seq<string>)
    ensures |names| == |inputs| && forall j :: 0 <= j < |inputs| ==> names[j] == inputs[j].name
  {
    Names(inputs, (x: InputItem) => x.name)
  }

  function PromptNames(prompts: seq<PromptItem>): (names: seq<string>)
    ensures |names| == |prompts| && forall j :: 0 <= j < |prompts| ==> names[j] == prompts[j].name
  {
    Names(prompts, (x: PromptItem) => x.name)
  }

  function Max(a: nat, b: nat): nat {
    if a >= b then a else b
  }

  /** One counter of `syncCounters`: above the largest number found by the
      label pattern and above the number of items. */
  function NextNumber(names: seq<string>, tag: string): (n: nat)
    ensures n > |names|
    ensures forall j :: 0 <= j < |names| && LabelNumber(names[j], tag).Some? ==> LabelNumber(names[j], tag).value < n
  {
    Max(MaxLabel(names, tag) + 1, |names| + 1)
  }

  /** `syncCounters(test)`. */
  function SyncCounters(test: TestConfig): (c: Counters)
    ensures c.nextModel == |test.models| + 1
    ensures c.nextInput > |test.inputs| && c.nextPrompt > |test.prompts|
    ensures forall j :: 0 <= j < |test.inputs| && LabelNumber(test.inputs[j].name, InputTag).Some? ==>
      LabelNumber(test.inputs[j].name, InputTag).value < c.nextInput
    ensures forall j :: 0 <= j < |test.prompts| && LabelNumber(test.prompts[j].name, PromptTag).Some? ==>
      LabelNumber(test.prompts[j].name, PromptTag).value < c.nextPrompt
  {
    Counters(
      NextNumber(InputNames(test.inputs), InputTag),
      NextNumber(PromptNames(test.prompts), PromptTag),
      |test.models| + 1)
  }

  /** A counter is the least number above both the count and every number
      found by the label pattern: it is the count plus one, or one more than
      the number of some matching name. */
  lemma {:induction false} NextNumberLeast(names: seq<string>, tag: string)
    ensures var n := NextNumber(names, tag);
            n == |names| + 1 || exists j :: 0 <= j < |names| && LabelNumber(names[j], tag) == Some(n - 1)
  {
    var m := MaxLabel(names, tag);
    if m + 1 > |names| + 1 {
      var j :| 0 <= j < |names| && LabelNumber(names[j], tag) == Some(m);
    }
  }

  /** Both restored counters are the least numbers above the count and above
      every number found in an "Input N" (resp. "Prompt N") name, so neither
      is larger than it needs to be. */
  lemma SyncCountersLeast(test: TestConfig)
    ensures var c := SyncCounters(test);
            || c.nextInput == |test.inputs| + 1
            || exists j :: 0 <= j < |test.inputs| && LabelNumber(test.inputs[j].name, InputTag) == Some(c.nextInput - 1)
    ensures var c := SyncCounters(test);
            || c.nextPrompt == |test.prompts| + 1
            || exists j :: 0 <= j < |test.prompts| && LabelNumber(test.prompts[j].name, PromptTag) == Some(c.nextPrompt - 1)
  {
    InputCounterLeast(test);
    PromptCounterLeast(test);
  }

  lemma InputCounterLeast(test: TestConfig)
    ensures var c := SyncCounters(test);
            || c.nextInput == |test.inputs| + 1
            || exists j :: 0 <= j < |test.inputs| && LabelNumber(test.inputs[j].name, InputTag) == Some(c.nextInput - 1)
  {
    var c := SyncCounters(test);
    var names := InputNames(test.inputs);
    NextNumberLeast(names, InputTag);
    if c.nextInput != |test.inputs| + 1 {
      var j :| 0 <= j < |names| && LabelNumber(names[j], InputTag) == Some(c.nextInput - 1);
      assert names[j] == test.inputs[j].name;
    }
  }

  lemma PromptCounterLeast(test: TestConfig)
    ensures var c := SyncCounters(test);
            || c.nextPrompt == |test.prompts| + 1
            || exists j :: 0 <= j < |test.prompts| && LabelNumber(test.prompts[j].name, PromptTag) == Some(c.nextPrompt - 1)
  {
    var c := SyncCounters(test);
    var names := PromptNames(test.prompts);
    NextNumberLeast(names, PromptTag);
    if c.nextPrompt != |test.prompts| + 1 {
      var j :| 0 <= j < |names| && LabelNumber(names[j], PromptTag) == Some(c.nextPrompt - 1);
      assert names[j] == test.prompts[j].name;
    }
  }

  /** The next name `addInput` generates, `Input <nextInput>`, is not the name
      of any input of the loaded test; likewise for prompts. */
  lemma SyncCountersFresh(test: TestConfig)
    ensures var c := SyncCounters(test);
            && (forall j :: 0 <= j < |test.inputs| ==> test.inputs[j].name != InputTag + Decimal(c.nextInput))
            && (forall j :: 0 <= j < |test.prompts| ==> test.prompts[j].name != PromptTag + Decimal(c.nextPrompt))
  {
    var c := SyncCounters(test);
    LabelNumberOfGenerated(InputTag, c.nextInput);
    LabelNumberOfGenerated(PromptTag, c.nextPrompt);
  }
}
