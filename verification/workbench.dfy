/** The current page's editing state: manual posts, prompt variants with the
    `v<N>` counter, and the selected and custom model lists. */
module Workbench {
  import opened Wrappers
  import opened Text
  import Seqs
  import Editing

  /** A post to evaluate against; `labelText` is the `label` field. */
  datatype ManualPost = ManualPost(id: string, labelText: string, content: string)

  /** The page's own cell shape; `None` is JSON `null`. */
  datatype ScoredCell = ScoredCell(
    score: Option<real>,
    reasoning: Option<string>,
    postRecap: Option<string>,
    actions: Option<seq<string>>,
    comment: Option<string>,
    error: Option<string>,
    inputTokens: Option<int>,
    outputTokens: Option<int>)

  type VariantResults = map<string, map<string, ScoredCell>>

  datatype PromptVariant = PromptVariant(id: string, name: string, prompt: string, results: VariantResults)

  /** The selection the page starts with when none was saved. */
  const DefaultModels: seq<string> := [
    "google/gemini-2.0-flash",
    "deepseek/deepseek-chat-v3",
    "meta-llama/llama-3.3-70b-instruct",
    "anthropic/claude-3.5-haiku",
    "qwen/qwen-2.5-72b-instruct"
  ]

  /** `makeDefaultVariant()`. */
  const DefaultVariant: PromptVariant := PromptVariant("v1", "v1 Default", "", map[])

  function PostId(p: ManualPost): string {
    p.id
  }

  function VariantId(v: PromptVariant): string {
    v.id
  }

  // ---------------------------------------------------------------------------
  // Posts

  datatype Board = Board(posts: seq<ManualPost>, variants: seq<PromptVariant>)

  /** `removePost(id)`: nothing happens while one post is left; otherwise the
      posts with that id go and every variant loses its results, keeping its
      id, name and prompt. */
  function RemovePost(b: Board, id: string): (r: Board)
    ensures |b.posts| <= 1 ==> r == b
    ensures |b.posts| > 1 ==>
      && (forall j :: 0 <= j < |r.posts| ==> r.posts[j] in b.posts && r.posts[j].id != id)
      && (forall j :: 0 <= j < |b.posts| && b.posts[j].id != id ==> b.posts[j] in r.posts)
      && |r.variants| == |b.variants|
      && (forall j :: 0 <= j < |b.variants| ==> r.variants[j] == b.variants[j].(results := map[]))
  {
    if |b.posts| <= 1 then b
    else
      Board(Editing.RemoveItem(b.posts, PostId, id, "").items,
            seq(|b.variants|, j requires 0 <= j < |b.variants| => b.variants[j].(results := map[])))
  }

  /** With distinct post ids, removing a present post takes out exactly that
      post and keeps the rest in order, and at least one post remains. */
  lemma RemovePostExactlyOne(b: Board, id: string, k: nat)
    requires Editing.DistinctIds(b.posts, PostId)
    requires |b.posts| > 1 && k < |b.posts| && b.posts[k].id == id
    ensures RemovePost(b, id).posts == b.posts[..k] + b.posts[k + 1..]
    ensures |RemovePost(b, id).posts| >= 1
  {
    Editing.RemoveExactlyOne(b.posts, PostId, id, "", k);
  }

  // ---------------------------------------------------------------------------
  // Variants and their counter

  /** The variants, the active variant and the next variant number. */
  datatype VariantState = VariantState(variants: seq<PromptVariant>, active: string, counter: nat)

  /** Every id of the form `v<N>` has `N` below the counter. */
  predicate CounterAbove(variants: seq<PromptVariant>, counter: nat) {
    forall j :: 0 <= j < |variants| && VariantNumber(variants[j].id).Some? ==>
      VariantNumber(variants[j].id).value < counter
  }

  /** The reduce in the variant loader: the largest `N` among ids that match
      `/^v(\d+)$/` exactly, `0` when none does. */
  function MaxVariantNumber(variants: seq<PromptVariant>): (m: nat)
    ensures forall j :: 0 <= j < |variants| && VariantNumber(variants[j].id).Some? ==>
      VariantNumber(variants[j].id).value <= m
    ensures m == 0 || exists j :: 0 <= j < |variants| && VariantNumber(variants[j].id) == Some(m)
  {
    if |variants| == 0 then 0
    else
      var rest := MaxVariantNumber(variants[..|variants| - 1]);
      var last := VariantNumber(variants[|variants| - 1].id);
      if last.Some? && last.value > rest then last.value else rest
  }

  /** Loading the variants of a test type: a non-empty saved list is taken as
      it is, its first variant made active and the counter set one above the
      largest `v<N>` id; otherwise the default variant `v1` with counter 2. */
  function RestoreVariants(loaded: Option<seq<PromptVariant>>): (s: VariantState)
    ensures loaded.Some? && |loaded.value| > 0 ==>
      && s.variants == loaded.value
      && s.active == loaded.value[0].id
      && (s.counter == 1 || exists j :: 0 <= j < |s.variants| && VariantNumber(s.variants[j].id) == Some(s.counter - 1))
    ensures loaded.None? || |loaded.value| == 0 ==> s == VariantState([DefaultVariant], "v1", 2)
    ensures CounterAbove(s.variants, s.counter)
  {
    if loaded.Some? && |loaded.value| > 0 then
      VariantState(loaded.value, loaded.value[0].id, MaxVariantNumber(loaded.value) + 1)
    else
      assert VariantNumber(DefaultVariant.id) == Some(1) by {
        VariantNumberOfGenerated(1);
        assert "v" + Decimal(1) == "v1";
      }
      VariantState([DefaultVariant], "v1", 2)
  }

  /** While the counter is above every `v<N>` id, the id `addVariant` makes
      next is not taken. */
  lemma CounterAboveFresh(variants: seq<PromptVariant>, counter: nat)
    requires CounterAbove(variants, counter)
    ensures forall j :: 0 <= j < |variants| ==> variants[j].id != "v" + Decimal(counter)
  {
    VariantNumberOfGenerated(counter);
  }

  /** `addVariant()`: appends `v<counter>` named `v<counter> Untitled` with an
      empty prompt and no results, makes it active and moves the counter on. */
  function AddVariant(s: VariantState): (r: VariantState)
    ensures |r.variants| == |s.variants| + 1 && r.variants[..|s.variants|] == s.variants
    ensures r.active == r.variants[|s.variants|].id
    ensures VariantNumber(r.active) == Some(s.counter)
    ensures r.variants[|s.variants|] ==
      PromptVariant("v" + Decimal(s.counter), "v" + Decimal(s.counter) + " Untitled", "", map[])
    ensures r.counter == s.counter + 1
  {
    VariantNumberOfGenerated(s.counter);
    var id := "v" + Decimal(s.counter);
    var v := PromptVariant(id, id + " Untitled", "", map[]);
    assert (s.variants + [v])[..|s.variants|] == s.variants;
    VariantState(s.variants + [v], id, s.counter + 1)
  }

  /** Adding a variant keeps the counter above every `v<N>` id, and a list
      with distinct ids stays that way. */
  lemma AddVariantKeepsInvariant(s: VariantState)
    requires CounterAbove(s.variants, s.counter)
    requires Editing.DistinctIds(s.variants, VariantId)
    ensures CounterAbove(AddVariant(s).variants, AddVariant(s).counter)
    ensures Editing.DistinctIds(AddVariant(s).variants, VariantId)
  {
    var r := AddVariant(s);
    CounterAboveFresh(s.variants, s.counter);
    var n := |s.variants|;
    forall i, j | 0 <= i < j < |r.variants|
      ensures VariantId(r.variants[i]) != VariantId(r.variants[j])
    {
      assert r.variants[i] == s.variants[i];
      if j < n {
        assert r.variants[j] == s.variants[j];
      }
    }
    forall j | 0 <= j < |r.variants| && VariantNumber(r.variants[j].id).Some?
      ensures VariantNumber(r.variants[j].id).value < r.counter
    {
      if j < n {
        assert r.variants[j] == s.variants[j];
      }
    }
  }

  /** `removeVariant(id)` keeps the counter invariant. */
  lemma RemoveVariantKeepsInvariant(s: VariantState, id: string)
    requires CounterAbove(s.variants, s.counter)
    ensures CounterAbove(Editing.RemoveItem(s.variants, VariantId, id, s.active).items, s.counter)
  {
    var r := Editing.RemoveItem(s.variants, VariantId, id, s.active).items;
    forall j | 0 <= j < |r| && VariantNumber(r[j].id).Some?
      ensures VariantNumber(r[j].id).value < s.counter
    {
      var i :| 0 <= i < |s.variants| && s.variants[i] == r[j];
    }
  }

  // ---------------------------------------------------------------------------
  // Selected and custom models

  function Unequal(model: string): string -> bool {
    m => m != model
  }

  predicate NoDuplicates(s: seq<string>) {
    forall i, j :: 0 <= i < j < |s| ==> s[i] != s[j]
  }

  /** `toggleModel(model)`: a selected model is removed (every copy of it), an
      unselected one is appended; every other model keeps its membership. */
  function ToggleSelected(selected: seq<string>, model: string): (r: seq<string>)
    ensures model in r <==> model !in selected
    ensures forall x :: x != model ==> (x in r <==> x in selected)
    ensures model !in selected ==> r == selected + [model]
    ensures model in selected ==> |r| < |selected|
  {
    if model in selected then
      var r := Seqs.Filter(selected, Unequal(model));
      Seqs.FilterMembers(selected, Unequal(model));
      Seqs.FilterLength(selected, Unequal(model));
      CountRejectedPositive(selected, Unequal(model), model);
      r
    else selected + [model]
  }

  lemma {:induction false} CountRejectedPositive(s: seq<string>, p: string -> bool, x: string)
    requires x in s && !p(x)
    ensures Seqs.CountRejected(s, p) > 0
  {
    if s[0] != x {
      CountRejectedPositive(s[1..], p, x);
    }
  }

  /** Toggling an unselected model twice restores the selection. */
  lemma ToggleSelectedTwice(selected: seq<string>, model: string)
    requires model !in selected
    ensures ToggleSelected(ToggleSelected(selected, model), model) == selected
  {
    DropAfter(selected, model);
  }

  /** Removing a selected model keeps every other model in its place: the
      selection is the column order and the order of `models` in each run
      request. */
  lemma ToggleSelectedRemoves(a: seq<string>, b: seq<string>, model: string)
    requires model !in a && model !in b
    ensures ToggleSelected(a + [model] + b, model) == a + b
  {
    RemoveKeepsOrder(a, b, model);
  }

  /** Filtering `model` out of `a + [model] + b` gives `a + b`. */
  lemma RemoveKeepsOrder(a: seq<string>, b: seq<string>, model: string)
    requires model !in a && model !in b
    ensures Seqs.Filter(a + [model] + b, Unequal(model)) == a + b
  {
    var p := Unequal(model);
    Seqs.FilterConcat(a + [model], b, p);
    DropAfter(a, model);
    KeepAll(b, model);
  }

  lemma DropAfter(a: seq<string>, model: string)
    requires model !in a
    ensures Seqs.Filter(a + [model], Unequal(model)) == a
  {
    var p := Unequal(model);
    Seqs.FilterConcat(a, [model], p);
    KeepAll(a, model);
    assert Seqs.Filter([model], p) == [] by {
      assert [model][1..] == [];
    }
  }

  lemma KeepAll(a: seq<string>, model: string)
    requires model !in a
    ensures Seqs.Filter(a, Unequal(model)) == a
  {
    assert forall i :: 0 <= i < |a| ==> Unequal(model)(a[i]);
    Seqs.FilterKeepsAll(a, Unequal(model));
  }

  /** The custom list, the selection and the text field. */
  datatype ModelLists = ModelLists(custom: seq<string>, selected: seq<string>, field: string)

  /** `addCustomModel()` as written. A blank field changes nothing. An id
      that is available or already custom is selected unless it already is.
      Any other id is appended to the custom list and to the selection, even
      when the selection already holds it. The field is cleared. */
  function AddCustomModel(l: ModelLists, available: seq<string>): (r: ModelLists)
    ensures IsBlank(l.field) ==> r == l
    ensures !IsBlank(l.field) ==> r.field == "" && Trim(l.field) in r.selected
    ensures !IsBlank(l.field) && (Trim(l.field) in available || Trim(l.field) in l.custom) ==>
      && r.custom == l.custom
      && r.selected == (if Trim(l.field) in l.selected then l.selected else l.selected + [Trim(l.field)])
    ensures !IsBlank(l.field) && Trim(l.field) !in available && Trim(l.field) !in l.custom ==>
      r.custom == l.custom + [Trim(l.field)] && r.selected == l.selected + [Trim(l.field)]
  {
    var t := Trim(l.field);
    if t == [] then l
    else if t in available || t in l.custom then
      ModelLists(l.custom, if t in l.selected then l.selected else l.selected + [t], "")
    else ModelLists(l.custom + [t], l.selected + [t], "")
  }

  /** An id that is selected but neither available nor custom is selected a
      second time. The selection starts as the default list, and the
      available list stays empty when fetching it fails, so typing a default
      model's id reaches this case. */
  lemma AddCustomModelDuplicates(l: ModelLists, available: seq<string>)
    requires !IsBlank(l.field)
    requires Trim(l.field) !in available && Trim(l.field) !in l.custom && Trim(l.field) in l.selected
    ensures !NoDuplicates(AddCustomModel(l, available).selected)
  {
    var t := Trim(l.field);
    var r := AddCustomModel(l, available);
    var i :| 0 <= i < |l.selected| && l.selected[i] == t;
    assert r.selected[i] == r.selected[|l.selected|];
  }

  /** `addCustomModel()` with the selection check applied to a new id as well:
      what the known-id branch already does. */
  function AddCustomModelChecked(l: ModelLists, available: seq<string>): (r: ModelLists)
    ensures IsBlank(l.field) ==> r == l
    ensures !IsBlank(l.field) ==> r.field == "" && Trim(l.field) in r.selected && Trim(l.field) in available + r.custom
    ensures forall x :: x != Trim(l.field) ==> (x in r.selected <==> x in l.selected) && (x in r.custom <==> x in l.custom)
  {
    var t := Trim(l.field);
    if t == [] then l
    else
      var selected := if t in l.selected then l.selected else l.selected + [t];
      if t in available || t in l.custom then ModelLists(l.custom, selected, "")
      else ModelLists(l.custom + [t], selected, "")
  }

  /** The checked version never repeats an entry in either list. */
  lemma AddCustomModelCheckedNoDuplicates(l: ModelLists, available: seq<string>)
    requires NoDuplicates(l.custom) && NoDuplicates(l.selected)
    ensures NoDuplicates(AddCustomModelChecked(l, available).custom)
    ensures NoDuplicates(AddCustomModelChecked(l, available).selected)
  {
    var r := AddCustomModelChecked(l, available);
    AppendFresh(l.custom, Trim(l.field));
    AppendFresh(l.selected, Trim(l.field));
  }

  lemma AppendFresh(s: seq<string>, x: string)
    requires NoDuplicates(s)
    ensures x !in s ==> NoDuplicates(s + [x])
  {
    if x !in s {
      var r := s + [x];
      forall i, j | 0 <= i < j < |r|
        ensures r[i] != r[j]
      {
        assert r[i] == s[i];
      }
    }
  }

  /** `removeCustomModel(model)`: every copy of the id leaves both lists; all
      other entries stay, in order, and the field is untouched. */
  function RemoveCustomModel(l: ModelLists, model: string): (r: ModelLists)
    ensures model !in r.custom && model !in r.selected
    ensures forall x :: x != model ==> (x in r.custom <==> x in l.custom) && (x in r.selected <==> x in l.selected)
    ensures r.field == l.field
  {
    Seqs.FilterMembers(l.custom, Unequal(model));
    Seqs.FilterMembers(l.selected, Unequal(model));
    ModelLists(Seqs.Filter(l.custom, Unequal(model)), Seqs.Filter(l.selected, Unequal(model)), l.field)
  }

  /** Removing a custom model keeps the other entries of both lists in order. */
  lemma RemoveCustomModelKeepsOrder(l: ModelLists, a: seq<string>, b: seq<string>, c: seq<string>, d: seq<string>, model: string)
    requires l.custom == a + [model] + b && l.selected == c + [model] + d
    requires model !in a && model !in b && model !in c && model !in d
    ensures RemoveCustomModel(l, model) == ModelLists(a + b, c + d, l.field)
  {
    RemoveKeepsOrder(a, b, model);
    RemoveKeepsOrder(c, d, model);
  }

  /** An id missing from both lists leaves them as they are. */
  lemma RemoveCustomModelAbsent(l: ModelLists, model: string)
    requires model !in l.custom && model !in l.selected
    ensures RemoveCustomModel(l, model) == l
  {
    KeepAll(l.custom, model);
    KeepAll(l.selected, model);
  }

  /** The Findings case on its own input: with the default selection, no
      available models and no custom ones, typing the first default id
      selects it twice. */
  lemma DefaultSelectionDuplicates()
    ensures !NoDuplicates(AddCustomModel(ModelLists([], DefaultModels, "google/gemini-2.0-flash"), []).selected)
  {
    var f := "google/gemini-2.0-flash";
    assert !IsJsSpace(f[0]) && !IsJsSpace(f[|f| - 1]);
    assert Trim(f) == f;
    assert DefaultModels[0] == f;
    AddCustomModelDuplicates(ModelLists([], DefaultModels, f), []);
  }

  /** Removing a custom model just added under a new id restores both lists. */
  lemma RemoveUndoesAdd(l: ModelLists, available: seq<string>)
    requires !IsBlank(l.field)
    requires Trim(l.field) !in available && Trim(l.field) !in l.custom && Trim(l.field) !in l.selected
    ensures RemoveCustomModel(AddCustomModelChecked(l, available), Trim(l.field)) == l.(field := "")
  {
    DropAfter(l.custom, Trim(l.field));
    DropAfter(l.selected, Trim(l.field));
  }
}
