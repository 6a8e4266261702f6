# prompttester core in Dafny

prompttester is a prompt workbench. A user writes prompts and inputs, picks
models, and runs every prompt against every (model, input) pair. The browser
sends one request per prompt to the relay endpoint `POST /api/evaluate`. The
relay fans the request out to the OpenRouter chat-completion API, one call
per pair. It then folds the outcomes into a results map
`model id -> input id -> CellResult`, where each cell holds either output
and token counts or an error message.

This project models the parts of that system that decide something:

- `Relay` (relay.dfy) is the relay handler. It covers the API-key and
  required-field gates (401/400), the model-major cross-product of tasks,
  and the fold of outcomes into the results map.
- `Upstream` (upstream.dfy) is the provider adapter `callOpenRouter`. It
  covers the request it sends, the non-2xx error text, and how content and
  usage are normalised. The same function appears in `route.ts` and in
  `services/openrouter.ts`.
- `Schemas` (schemas.dfy) holds the zod schemas of the evaluate API as
  parsers and predicates over JSON. These are the web app's loose request
  schema, the shared package's strict one, and the cell, response and
  error schemas.
- `Config` (config.dfy) holds the client records, the built-in model list,
  `makeDefaultTest`, and `genId` with its clock reading and counter made
  explicit. The legacy page defines the same constants and the same
  `genId`.
- `Coordinator` (coordinator.dfy) is the legacy page's `canEval` and
  `runEval`. It covers the prompt-by-prompt loop with its abort check, the
  relay error text, the live results update, the result snapshot, and the
  error shown after the run.
- `Editing` (editing.dfy) holds the legacy page's list edits: remove with
  the at-least-one guard, `toggleModel`, `addModel`, and `syncCounters`.
- `Workbench` (workbench.dfy) holds the current page's edits: `removePost`,
  the `v<N>` variant counter, `toggleModel`, `addCustomModel` and
  `removeCustomModel`.
- `Display` (display.dfy) is what a result cell shows (`ResultCellContent`)
  and the token totals under a column on both pages.
- `Landing` (landing.dfy) is the landing page's content schema
  (`LandingPageSchema`) as a parser with length bounds.
- The supporting modules are `Wrappers` (Option, Result), `Json` (JSON
  values), `Seqs` (`filter`) and `Text`. `Text` covers the JavaScript
  string operations the code uses: `trim`, `slice`, number printing,
  `parseInt` of a digit run, `split('/')`, the regular expressions
  `/:.*$/`, `/Input (\d+)/` and `/^v(\d+)$/`, `truncate` and
  `shortModelName`.

Strings are sequences of UTF-16 code units, one `char` each. That is how
JavaScript's `length` and `slice` and zod's `min`/`max` count them.

Several things outside the program are parameters:

- **The network.** `upstream(k, call)` is the reply to the relay's `k`-th
  provider call. `relay(k, request)` is what the legacy page's `k`-th
  request to the relay produced, and whether the abort signal was already
  set when its turn came.
- **Foreign functions.** `JSON.parse`, `JSON.stringify`, the string
  conversion of a non-string value, and zod's `url()` check are the
  parameters `parse`, `stringify`, `render` and `isUrl`.
- **The clock.** `Date.now()` is the `now` argument of `genId`.

## Model

| member | source | states |
|---|---|---|
| Relay.ApiKey | apps/web/src/app/api/evaluate/route.ts:64-67 | A non-empty header key wins, and a non-empty server key is the fallback. There is no key (the 401 case) exactly when both are missing or empty. |
| Relay.Post | apps/web/src/app/api/evaluate/route.ts:63-130 | With no key: 401 "No API key provided" and no provider call. Unparsable body: 400 "Invalid JSON body". Empty prompt or missing/empty models or inputs: 400 "Missing required fields: prompt, models, inputs". No provider call is made in either 400 case. A results map comes back exactly when all gates pass, after exactly \|models\|·\|inputs\| calls. |
| Relay.TasksLength | apps/web/src/app/api/evaluate/route.ts:83-109 | The nested loops build exactly \|models\|·\|inputs\| tasks. |
| Relay.PosIsRowMajor | apps/web/src/app/api/evaluate/route.ts:85-86 | The task position of (model a, input b) is a·\|inputs\|+b. |
| Relay.TaskAt | apps/web/src/app/api/evaluate/route.ts:85-108 | The task for (models[a], inputs[b]) sits at position a·\|inputs\|+b: model-major, then input order. |
| Relay.TaskFrom | apps/web/src/app/api/evaluate/route.ts:85-107 | Every task pairs a requested model with one of the requested inputs. |
| Relay.TaskIndexUnique | apps/web/src/app/api/evaluate/route.ts:85-107 | With distinct model ids and distinct input ids, no later task repeats the (model, input id) key of an earlier one. |
| Relay.CellOf | apps/web/src/app/api/evaluate/route.ts:87-104 | A fulfilled call gives a success cell: the content and both token counts, with a null error. A thrown error gives a failure cell: its message, with null output and counts. Either way the cell is exactly one of the two. |
| Relay.Place | apps/web/src/app/api/evaluate/route.ts:117-120 | Writing one cell creates the model's inner map when missing, sets that one cell, and leaves every other cell and key as it was. |
| Relay.CollectKeys | apps/web/src/app/api/evaluate/route.ts:114-127 | The outer keys are exactly the tasks' models. A (model, input id) cell exists exactly when some task carries that pair. |
| Relay.CollectLastWrite | apps/web/src/app/api/evaluate/route.ts:116-127 | A cell holds the outcome of the last task written under its key. |
| Relay.CollectFrom | apps/web/src/app/api/evaluate/route.ts:115-127 | Every cell in the map is one of the settled cells. |
| Relay.CollectIsolation | apps/web/src/app/api/evaluate/route.ts:112-127 | If only task k's outcome changes, the keys stay the same and every cell except task k's is unchanged. |
| Relay.CollectResolved | apps/web/src/app/api/evaluate/route.ts:114-127 | If every settled cell is a success or a failure, so is every cell of the map. |
| Relay.PostCall | apps/web/src/app/api/evaluate/route.ts:85-95 | The call for (models[a], inputs[i]) is call number a·\|inputs\|+i. It is the two-message chat request for that key, model, prompt and input content, with temperature 0.7 when the body gives none. |
| Relay.PostComplete | apps/web/src/app/api/evaluate/route.ts:114-129 | The result's models are exactly the requested models. Each model's input ids are exactly the requested input ids. Every cell is a success or a failure, never a mix. |
| Relay.PostLastWriterWins | apps/web/src/app/api/evaluate/route.ts:116-127 | If no later task shares task k's key, the cell under that key is the normalised reply to task k's call. A repeated model or input id is overwritten by the later task. |
| Relay.PostCellOwnOutcome | apps/web/src/app/api/evaluate/route.ts:85-127 | With distinct model ids and input ids, the cell for (models[a], inputs[i]) is the outcome of exactly the call for that pair. |
| Relay.PostIsolation | apps/web/src/app/api/evaluate/route.ts:87-127 | Two provider behaviours that differ only on task k give results with the same keys. The two results agree on every cell except task k's. |
| Upstream.Normalise | apps/web/src/services/openrouter.ts:8-38 | A network failure gives its message. A non-2xx status gives the "OpenRouter status" message. An unparsable 2xx body gives the parser's message. A completion comes back exactly when the status is 2xx and the body parsed. The completion holds the content and the two token counts read from the parsed body. |
| Upstream.MakeCall | apps/web/src/services/openrouter.ts:8-23 | The call goes to the chat-completions endpoint with "Bearer <key>". Its body holds the model, the system prompt then the user message, the temperature, and max_tokens 4096. |
| Upstream.HttpErrorMessage | apps/web/src/services/openrouter.ts:25-28 | The message starts "OpenRouter <status>: ". The rest is a prefix of the body of at most 300 code units, and empty when the body could not be read. |
| Upstream.ContentOf | apps/web/src/services/openrouter.ts:31-35 | A string at choices[0].message.content is the content as it is. Other JSON there is its stringification. No choices, no first message, no content or null content each give ''. |
| Upstream.InputTokensOf | apps/web/src/services/openrouter.ts:32-36 | The input count is usage.prompt_tokens. It is 0 when usage or the figure is absent. |
| Upstream.OutputTokensOf | apps/web/src/services/openrouter.ts:32-37 | The output count is usage.completion_tokens. It is 0 when usage or the figure is absent. |
| Upstream.HttpErrorMessageShape | apps/web/src/app/api/evaluate/route.ts:45-48 | The non-2xx message is "OpenRouter <status>: " followed by a prefix of the body of min(300, \|body\|) code units. It quotes the whole body when the body is that short. |
| Upstream.HttpErrorMessageNamesStatus | apps/web/src/services/openrouter.ts:25-28 | Different statuses never give the same error message, whatever the bodies. |
| Upstream.ContentPath | apps/web/src/services/openrouter.ts:30-35 | The content callOpenRouter resolves with is string content unchanged, or other JSON as its stringification. A missing or null step anywhere on choices[0].message.content gives ''. |
| Upstream.TokenCounts | apps/web/src/services/openrouter.ts:32-37 | The token counts callOpenRouter resolves with are usage.prompt_tokens and usage.completion_tokens. Each is 0 when absent or when usage itself is absent. |
| Schemas.ParseModelIds | apps/web/src/types/prompt-tester.ts:5 | The models array parses exactly when every entry is a non-empty string, and the strings are kept in order. |
| Schemas.ParseInputs | apps/web/src/types/prompt-tester.ts:6-11 | The inputs array parses exactly when every entry has a non-empty input_id and content of the minimum length, and the pairs are kept in order. |
| Schemas.ParseTemperature | apps/web/src/types/prompt-tester.ts:12 | An absent temperature becomes 0.7. A number in [0, 2] is kept. Anything else, null included, is rejected. |
| Schemas.ParseRequest | apps/web/src/types/prompt-tester.ts:3-13 | A request parses exactly when it meets the schema's conditions. The result is a well-formed request. It keeps the prompt, the model ids and the (input_id, content) pairs in order. Its temperature is the given one, or 0.7 when the key is absent. |
| Schemas.ModelIdsRoundTrip | packages/types/src/index.ts:14 | Encoded model ids parse exactly when none is empty, and then parse back to the same ids. |
| Schemas.InputsRoundTrip | packages/types/src/index.ts:15-20 | Encoded inputs parse exactly when every id is non-empty and every content meets the schema's minimum, and then parse back to the same inputs. |
| Schemas.RequestRoundTrip | packages/types/src/index.ts:12-22 | The encoding of a request parses exactly when the request is well formed, and then parses back to the same request (both schemas). |
| Schemas.ParseIsNormalising | apps/web/src/types/prompt-tester.ts:3-13 | Re-encoding a parsed request and parsing it again gives the same request. |
| Schemas.InputsRefine | packages/types/src/index.ts:15-20 | Inputs the strict schema accepts are accepted by the loose one, with the same result. |
| Schemas.StrictRefinesLoose | packages/types/src/index.ts:12-22 | Every request the shared package's strict schema accepts, the web app's loose schema accepts too, with the same result. |
| Schemas.LooseIsWeaker | packages/types/src/index.ts:13-18 | The refinement is proper: an empty prompt with empty input content passes the loose schema and fails the strict one. |
| Schemas.StrictPassesRelayGate | apps/web/src/app/api/evaluate/route.ts:78-80 | A strictly valid request passes the relay's required-field gate. A loosely valid request with an empty prompt is turned away there. |
| Schemas.DecodeCell | packages/types/src/index.ts:5-10 | Whatever decodes as a cell satisfies the cell schema. |
| Schemas.CellRoundTrip | packages/types/src/index.ts:5-10 | Every cell, whatever its nulls (all-null included), encodes to JSON the cell schema accepts, and decodes back to itself. |
| Schemas.CellSchemaAllowsUnresolved | packages/types/src/index.ts:5-10 | The cell schema does not enforce "output xor error": an all-null cell validates although it is neither a success nor a failure. |
| Schemas.ResultsConform | packages/types/src/index.ts:24-26 | Every results map encodes to a valid response with the same keys at both levels, and every cell decodes back. |
| Schemas.ApiErrorForms | packages/types/src/index.ts:33-35 | A string error and a record of string arrays both validate. An error of any other JSON type does not. |
| Schemas.RelayResponsesConform | packages/types/src/index.ts:24-26 | Every results body the relay sends validates against the evaluate response schema. |
| Config.DefaultModelsDistinct | apps/web/src/types/prompt-tester.ts:67-74 | The built-in list has six entries, all enabled, with pairwise-distinct ids and model ids. |
| Config.MakeDefaultTest | apps/web/src/types/prompt-tester.ts:81-90 | The default test has one empty input i1 ("Input 1") and one empty prompt p1 ("Prompt 1") with no results. It also has the built-in models and temperature 0.7. |
| Config.GenId | apps/web/src/types/prompt-tester.ts:76-79 | The id starts with the prefix, and the module counter moves on by exactly one. |
| Config.GenIdInjective | apps/web/src/types/prompt-tester.ts:76-79 | Two ids with the same prefix are equal only if both the clock reading and the counter are equal. |
| Config.GenIds | apps/web/src/types/prompt-tester.ts:76-79 | A run of calls uses consecutive counter values, one per call. |
| Config.GenIdsDistinct | apps/web/src/types/prompt-tester.ts:76-79 | The ids of one run are pairwise distinct whatever the clock says, even a repeated or backward reading. |
| Coordinator.CanEvalIff | legacy/apps/web/src/app/page.tsx:755-756 | The run button is enabled exactly when: some input is non-blank, some model is enabled, some prompt is non-blank, no run is in progress, and the key is not blank. |
| Coordinator.RelayErrorText | legacy/apps/web/src/app/page.tsx:802-811 | The text starts as "HTTP <status>". A parsed body with a truthy error field replaces it: a string as it is, anything else rendered. An unparsable non-empty body appends ": " and at most 200 code units of it. |
| Coordinator.RelayErrorExcerpt | legacy/apps/web/src/app/page.tsx:806-810 | For an unparsable body the text starts with the status, is at most 202 code units longer, and quotes a short body whole. |
| Coordinator.Loop | legacy/apps/web/src/app/page.tsx:782-829 | The loop answers at most as many prompts as it sends, and sends at most one request per prompt to run. |
| Coordinator.LoopSent | legacy/apps/web/src/app/page.tsx:782-799 | Request j of the loop from prompt k is prompt k+j's request, sent only when that step saw no abort. |
| Coordinator.LoopAnswered | legacy/apps/web/src/app/page.tsx:814-815 | Answered grid j is data.results ?? {} of a reply that was an answer. |
| Coordinator.LoopStoppedCleanly | legacy/apps/web/src/app/page.tsx:782-783 | With every request answered, either every prompt ran, or the next step saw the abort and nothing more was sent. |
| Coordinator.LoopThrew | legacy/apps/web/src/app/page.tsx:801-812 | Otherwise exactly the last request went unanswered. Its refusal (prompt, status, body) or its failure ends the loop. |
| Coordinator.LoopOrder | legacy/apps/web/src/app/page.tsx:782-829 | From the first prompt: request j is prompt j's and saw no abort, and every request but the last was answered. A loop that stops early without a failure saw the abort. |
| Coordinator.LoopEnd | legacy/apps/web/src/app/page.tsx:801-829 | The loop ends without a failure when the last request was answered or none was sent. Otherwise its end carries the last reply's refusal or failure. |
| Coordinator.FirstIndex | legacy/apps/web/src/app/page.tsx:826 | The index found is that of the first prompt with the id, or none. |
| Coordinator.PublishSpec | legacy/apps/web/src/app/page.tsx:817-823 | The live prompts keep their order and fields. A prompt's results are those last answered for its id, or unchanged when none was. |
| Coordinator.RecordSpec | legacy/apps/web/src/app/page.tsx:778-827 | The snapshot keeps the prompts run, in order. Only the first prompt with a given id holds results: those last answered for it, or {}. Later prompts with the same id stay {}. |
| Coordinator.LastAnswerDistinct | legacy/apps/web/src/app/page.tsx:815-827 | With distinct ids, the last answer for prompt j's id is answer j if the loop got that far, else none. |
| Coordinator.RecordDistinct | legacy/apps/web/src/app/page.tsx:778-827 | With distinct prompt ids, snapshot prompt j holds exactly answer j, or {} when the loop stopped before it. |
| Coordinator.ErrorAfter | legacy/apps/web/src/app/page.tsx:830-836 | There is an error exactly when the loop threw and was not silenced. A throw is silenced when the signal is aborted and another run owns the controller. The error is the refusal text with the prompt's name, the timeout text for an abort, the thrown message, or "Unknown error" for a non-Error value. |
| Coordinator.RunEval | legacy/apps/web/src/app/page.tsx:758-850 | The run does nothing exactly when there is no prompt to run, no valid input or no enabled model. Otherwise the snapshot has the valid inputs, the enabled models and one prompt per prompt run. At most one request goes out per prompt. |
| Coordinator.RunOrder | legacy/apps/web/src/app/page.tsx:759-799 | Prompts go out one at a time, in array order, only non-blank ones, and none after the abort signal was seen. Request j carries the key, prompt j's trimmed text, the enabled models' ids, the valid inputs and the temperature. Every request but the last was answered. |
| Coordinator.RequestFor | legacy/apps/web/src/app/page.tsx:786-797 | The request for one prompt carries the key header and the trimmed prompt. It lists the ids of the given models and the (id, content) pairs of the given inputs in order, with the test's temperature. |
| Coordinator.RunSnapshot | legacy/apps/web/src/app/page.tsx:776-848 | The snapshot is written however the loop ended. It holds exactly the valid inputs and enabled models. Only prompts whose relay call returned hold results. The test's own prompts take the last answer for their id. |
| Coordinator.RunError | legacy/apps/web/src/app/page.tsx:801-836 | The error after a run is none when the last request was answered or the throw was silenced. Otherwise it is the refusal text, the timeout text, the thrown message, or "Unknown error", according to the last reply. |
| Coordinator.EnabledRunPassesRelayGates | legacy/apps/web/src/app/page.tsx:755-799 | When the button is enabled a run starts, and every request it sends passes all three gates of the relay. |
| Editing.RemoveItem | legacy/apps/web/src/app/page.tsx:640-649 | Nothing happens while at most one item is left. Otherwise exactly the items with other ids remain. When the removed id was active, the first item with another id becomes active. When every item has that id, the first item's id stays active. |
| Editing.RemoveExactlyOne | legacy/apps/web/src/app/page.tsx:671-677 | With distinct ids, removing a present id takes out exactly that item and keeps the rest in order. At least one item remains, and the ids stay distinct. |
| Editing.RemoveAbsent | legacy/apps/web/src/app/page.tsx:715-724 | Removing an id no item has leaves the list unchanged. |
| Editing.ToggleEnabled | legacy/apps/web/src/app/page.tsx:730-735 | Only the enabled flag of the models with that id flips. Every other field and model is unchanged. |
| Editing.ToggleTwice | legacy/apps/web/src/app/page.tsx:730-735 | Toggling the same model twice restores the list. |
| Editing.AddModel | legacy/apps/web/src/app/page.tsx:692-706 | A blank field changes nothing, and an id already present only clears the field. Otherwise a new enabled model is appended and made active. It has a fresh id, the short name and the trimmed id, and both counters move on. |
| Editing.AddModelKeepsIdsDistinct | legacy/apps/web/src/app/page.tsx:694-697 | After a non-blank add the trimmed id is present. A list without repeated model ids still has none. |
| Editing.AddModelTrimmed | legacy/apps/web/src/app/page.tsx:693-703 | An added model's id is non-blank and already trimmed. |
| Editing.AddModelIdempotent | legacy/apps/web/src/app/page.tsx:694-698 | Submitting the same text a second time adds nothing. |
| Editing.MaxLabel | legacy/apps/web/src/app/page.tsx:536-539 | The result is the largest number matched in any name, or 0 when no name matches. |
| Editing.SyncCounters | legacy/apps/web/src/app/page.tsx:535-549 | The next input and prompt numbers exceed both the count and every number in an "Input N" / "Prompt N" name. The next model number is count + 1. |
| Editing.SyncCountersLeast | legacy/apps/web/src/app/page.tsx:540-546 | Each of the input and prompt counters is the least such number: count + 1, or one above a number some name carries. With SyncCounters this fixes both as max(largest number + 1, count + 1). |
| Editing.SyncCountersFresh | legacy/apps/web/src/app/page.tsx:535-549 | The next generated "Input N" and "Prompt N" names are not taken. |
| Workbench.RemovePost | apps/web/src/app/page.tsx:553-557 | Nothing happens while one post is left. Otherwise exactly the posts with other ids remain, and every variant loses its results, keeping everything else. |
| Workbench.RemovePostExactlyOne | apps/web/src/app/page.tsx:553-556 | With distinct ids, exactly the named post goes and the rest keep their order. |
| Workbench.MaxVariantNumber | apps/web/src/app/page.tsx:482-485 | The result is the largest N among ids that match ^v(\d+)$, or 0. |
| Workbench.RestoreVariants | apps/web/src/app/page.tsx:476-491 | A non-empty saved list is taken as it is, its first variant is active, and the counter is one above the largest v<N>. Otherwise the default v1 with counter 2. Either way the counter is above every v<N> id. |
| Workbench.CounterAboveFresh | apps/web/src/app/page.tsx:561-568 | While the counter is above every v<N> id, the next id v<counter> is not taken. |
| Workbench.AddVariant | apps/web/src/app/page.tsx:561-571 | Exactly one variant is appended after the old ones: id `v<counter>`, name `v<counter> Untitled`, an empty prompt and no results. It becomes active, its id reads back as the counter, and the counter moves on by one. |
| Workbench.AddVariantKeepsInvariant | apps/web/src/app/page.tsx:561-571 | Adding keeps the counter above every v<N> id. A list with distinct ids keeps them distinct. |
| Workbench.RemoveVariantKeepsInvariant | apps/web/src/app/page.tsx:573-582 | Removing a variant keeps the counter above every v<N> id. |
| Workbench.ToggleSelected | apps/web/src/app/page.tsx:599-605 | The model's membership flips. A model that was not selected is appended. A selected one is removed, shortening the list. Every other model keeps its membership. |
| Workbench.ToggleSelectedTwice | apps/web/src/app/page.tsx:599-605 | Toggling an unselected model twice restores the selection. |
| Workbench.ToggleSelectedRemoves | apps/web/src/app/page.tsx:599-605 | Removing a selected model keeps every other model in its order, so `a + [m] + b` becomes `a + b`. |
| Workbench.AddCustomModel | apps/web/src/app/page.tsx:607-630 | As written: a blank field changes nothing. A known id is selected at most once. A new id is appended to both the custom list and the selection. |
| Workbench.AddCustomModelDuplicates | apps/web/src/app/page.tsx:620-628 | An id that is selected but neither available nor custom ends up in the selection twice. |
| Workbench.DefaultSelectionDuplicates | apps/web/src/app/page.tsx:443-448 | With the default selection and empty available and custom lists, typing `google/gemini-2.0-flash` selects it twice. |
| Workbench.AddCustomModelChecked | apps/web/src/app/page.tsx:607-630 | Corrected: the id ends up selected and known, the field is cleared, and no other entry of either list changes. |
| Workbench.AddCustomModelCheckedNoDuplicates | apps/web/src/app/page.tsx:611-628 | The corrected add never repeats an entry in either list. |
| Workbench.RemoveCustomModel | apps/web/src/app/page.tsx:632-641 | The id leaves both lists, every other entry keeps its membership, and the field is untouched. |
| Workbench.RemoveCustomModelKeepsOrder | apps/web/src/app/page.tsx:632-641 | In both lists the remaining entries keep their order: `a + [m] + b` becomes `a + b`. |
| Workbench.RemoveCustomModelAbsent | apps/web/src/app/page.tsx:632-641 | An id in neither list changes nothing. |
| Workbench.RemoveUndoesAdd | apps/web/src/app/page.tsx:632-641 | Removing a custom model just added under a new id restores both lists. |
| Display.Classify | apps/web/src/components/result-cell.tsx:17-60 | An absent cell shows "No result". A truthy error shows the error cut at 150 code units plus "...". Otherwise the output card: text only for non-empty output, a toggle iff over 200 code units, 200 code units and "..." when collapsed. It shows a token line iff both counts are present, and copies the output or ''. |
| Display.ClassifyBounds | apps/web/src/components/result-cell.tsx:25-54 | A shown error is at most 153 code units. A short output looks the same expanded or collapsed. A long one shows exactly 200 code units and "..." collapsed, and all of it expanded. |
| Display.ClassifyRelayCell | apps/web/src/components/result-cell.tsx:17-60 | A relay success shows its output card with the token line. A failure with a non-empty message shows the error. One with an empty message shows an empty card without tokens. |
| Display.Share | apps/web/src/app/page.tsx:1104-1108 | A present cell without an error adds its counts, null as 0. Any other cell adds nothing. |
| Display.SumAppend | apps/web/src/app/page.tsx:1103-1114 | The totals of two runs of cells add up. |
| Display.SumNonNegative | apps/web/src/app/page.tsx:1103-1114 | With non-negative counts the totals are non-negative. |
| Display.SumOfUncounted | legacy/apps/web/src/app/page.tsx:1097-1103 | Cells that are absent or carry an error leave the totals at zero. |
| Display.SumReplace | legacy/apps/web/src/app/page.tsx:1097-1103 | Changing one cell changes the totals by exactly the difference of its shares. |
| Display.Lookup | legacy/apps/web/src/app/page.tsx:1098 | results[model]?.[input] is present exactly when both keys are, and is then that cell. |
| Display.LegacyColumn | legacy/apps/web/src/app/page.tsx:1092-1098 | The column has one entry per snapshot input, in order, holding that input's cell when present. |
| Display.CurrentColumn | apps/web/src/app/page.tsx:1103-1104 | The column has one entry per post. An entry is present exactly when the active variant has a cell for that model and post, and then it holds that cell's error and counts. |
| Display.CurrentTotalsCountClean | apps/web/src/app/page.tsx:1103-1114 | The totals row adds, over the posts in order, the counts of every cell that is present without an error, null as 0. Errored and missing cells add nothing. |
| Display.LegacyTotalsCountSuccesses | legacy/apps/web/src/app/page.tsx:1090-1104 | Over relay-written cells only successes add tokens. The totals equal the sums over the successful cells' counts. |
| Text.Truncate | apps/web/src/app/page.tsx:85-88 | A missing or empty text gives ''. A text that fits comes back unchanged. A longer one gives its first maxLen code units and "...". |
| Text.Trim | legacy/apps/web/src/app/page.tsx:693 | The trimmed text is no longer than the input, and it neither starts nor ends with white space. |
| Text.TrimSlice | legacy/apps/web/src/app/page.tsx:693 | The trimmed text is a slice of the input with only white space outside it. |
| Text.BlankIffAllSpace | legacy/apps/web/src/app/page.tsx:694 | A field is blank, so that addModel ignores it, exactly when every code unit is white space. |
| Text.TrimIdempotent | legacy/apps/web/src/app/page.tsx:693 | Trimming twice gives the same text as trimming once. |
| Text.TruncateShape | apps/web/src/app/page.tsx:85-88 | A truncation is at most maxLen + 3 code units and keeps a prefix of the text. It is the text itself exactly when the text fits. |
| Text.ColonTailFrom | apps/web/src/app/page.tsx:93 | The cut is at the leftmost ':' with no line terminator after it, or at the end when there is none. |
| Text.StripColonTail | apps/web/src/app/page.tsx:93 | The result is a prefix of the name. On a single line it is the name cut at the first ':'. |
| Text.StripColonTailSingleLine | apps/web/src/app/page.tsx:93 | On one line, /:.*$/ cuts at the first ':' and leaves no ':'. |
| Text.ShortModelNameOfQualified | apps/web/src/app/page.tsx:90-94 | The short name of vendor/model[:tag] is model. |
| Text.ShortModelName | apps/web/src/app/page.tsx:90-94 | The short name never holds a '/'. An id without '/' keeps its whole text up to the /:.*$/ cut, which on one line is the first ':'. An id with a '/' uses the text between the first and the second '/' (a/b/c gives b). |
| Text.LabelNumberOfGenerated | legacy/apps/web/src/app/page.tsx:537 | A name generated as "Input N" reads back as N under /Input (\d+)/. |
| Text.LabelNumberSound | legacy/apps/web/src/app/page.tsx:537 | A number is read only where the label is followed by a digit. A name without digits yields none. |
| Text.LabelNumberComplete | legacy/apps/web/src/app/page.tsx:537 | Wherever the label is followed by a digit, a number is read. |
| Text.LabelNumberLeftmost | legacy/apps/web/src/app/page.tsx:537 | The number read is the maximal digit run after the leftmost match. |
| Text.VariantNumber | apps/web/src/app/page.tsx:483 | An id matches ^v(\d+)$ exactly when it is 'v' followed by at least one digit and nothing else. |
| Text.VariantNumberOfGenerated | apps/web/src/app/page.tsx:483-484 | The id v<N> matches with number N. |
| Landing.ParseCta | apps/landing/src/content/landing/schemas.ts:3-6 | A CTA parses exactly when the label has 1 to 40 code units and the href is a URL, and keeps both. |
| Landing.ParseHero | apps/landing/src/content/landing/schemas.ts:8-14 | A hero parses exactly when badge 1–80, title 1–80, body 10–800 and helperText 1–200 hold and the CTA parses. |
| Landing.ParseItem | apps/landing/src/content/landing/schemas.ts:16-20 | An item parses exactly when emoji 1–4, title 1–60 and body 10–400 hold. |
| Landing.ParseTriple | apps/landing/src/content/landing/schemas.ts:24 | The tuple parses exactly when it is an array of exactly three parseable items. |
| Landing.ParseFeatures | apps/landing/src/content/landing/schemas.ts:22-25 | The features parse exactly when the title has 1 to 60 code units and the items form a valid triple. |
| Landing.ParseTrust | apps/landing/src/content/landing/schemas.ts:33-35 | The trust section parses exactly when its items form a valid triple. |
| Landing.ParseFinalCta | apps/landing/src/content/landing/schemas.ts:37-41 | The final CTA parses exactly when title 1–80 and body 10–400 hold and the CTA parses. |
| Landing.ParseFooter | apps/landing/src/content/landing/schemas.ts:43-45 | The footer parses exactly when the tagline has 1 to 200 code units. |
| Landing.ParsePage | apps/landing/src/content/landing/schemas.ts:47-53 | The page parses exactly when all five sections parse, and the result is valid. |
| Landing.ItemRoundTrip | apps/landing/src/content/landing/schemas.ts:27-31 | An item's JSON parses back to it exactly when the item is valid. |
| Landing.TripleRoundTrip | apps/landing/src/content/landing/schemas.ts:34 | Items parse back exactly when there are three and each is valid. |
| Landing.CtaRoundTrip | apps/landing/src/content/landing/schemas.ts:3-6 | A CTA parses back to itself exactly when it is valid. |
| Landing.HeroRoundTrip | apps/landing/src/content/landing/schemas.ts:8-14 | A hero parses back to itself exactly when it is valid. |
| Landing.FeaturesRoundTrip | apps/landing/src/content/landing/schemas.ts:22-25 | The features parse back exactly when valid. |
| Landing.TrustRoundTrip | apps/landing/src/content/landing/schemas.ts:33-35 | The trust section parses back exactly when valid. |
| Landing.FinalCtaRoundTrip | apps/landing/src/content/landing/schemas.ts:37-41 | The final CTA parses back exactly when valid. |
| Landing.FooterRoundTrip | apps/landing/src/content/landing/schemas.ts:43-45 | The footer parses back exactly when valid. |
| Landing.PageRoundTrip | apps/landing/src/content/landing/schemas.ts:47-53 | A page parses back to itself exactly when every section is valid, and is rejected otherwise. |
| Landing.CtaIgnoresExtraKeys | apps/landing/src/content/landing/schemas.ts:3-6 | Unknown keys are dropped: a CTA object with extra fields parses to the same button. |

## Left out

- **`ApiResponseSchema`** (packages/types/src/index.ts:30-31) is not modelled. It is a generic `{ data }` wrapper that no route here produces or parses.
- **Network I/O.** The provider exchange, the relay exchange and the pricing fetch are left out. Replies are oracle parameters indexed by call position, and `res.text()` / `res.json()` failures are part of the oracle's reply.
- **Concurrency and timing.** `Promise.allSettled` is a plain map over the tasks, because every task catches its own failure. The rejected branch of the fold (route.ts:122-126) cannot be reached and is not modelled. The 5-minute timer and `AbortController` become per-step abort flags plus the `signalAborted` and `stillCurrent` facts at the `catch`.
- Relay.CellOf: The 'Unknown error' text (route.ts:101) is not modelled. `callOpenRouter` only throws `Error` values (the network error, its own `Error`, the JSON parse error), so every failure carries a message.
- Relay.Post: The body is read as a record whose fields are present or absent. A body whose fields have other JSON types (a string for `models`, say) is outside the model. So is a body that parses to JSON `null`: the destructuring at route.ts:76 throws outside the try, so the handler answers 500, and the model has no 500 case.
- Relay.PostComplete: Ids are plain keys here. In the handler `results` and its inner maps are plain objects. A model id naming a property of `Object.prototype` (`constructor`, `__proto__`) finds that inherited value at route.ts:119, so no own key is created and the cell is written onto the inherited object. An input id `__proto__` replaces the inner object's prototype instead of adding a cell. The completeness promise covers only ids that are not such names.
- Relay.CollectKeys: The same restriction applies: the key sets are those of a map, not of a plain object whose inherited properties shadow some ids.
- **Persistence.** localStorage, the cache helpers and the auto-save effects are left out. A saved variant list is the `Option` argument of `Workbench.RestoreVariants`.
- **Floating point.** Pricing, cost and monthly-cost estimates and their formatting are left out, and so is `scoreColor`. Token totals are integers.
- Text.LabelNumber: It reads digits exactly. `parseInt` loses precision above 2^53, which is not modelled.
- Text.VariantNumber: It reads digits exactly. The `parseInt` at page.tsx:484 loses precision above 2^53 in the same way, which is not modelled.
- Upstream.Normalise: A 2xx body that parses to JSON `null` makes `data.choices` throw at openrouter.ts:31, and that error is not modelled. The counts are whole numbers or absent. A non-integer or string `prompt_tokens`/`completion_tokens` passes through unchanged in the source, but the model's `Usage` cannot hold it.
- Schemas.DecodeCell: It reads only whole token counts, while the cell schema accepts any number. Every cell the relay writes has whole counts.
- **Current page runs.** The current page's `canEval`/`runEval` are left out. They send fields (`test_type`, thresholds, `posts`) that the relay does not read, and composing them with the relay would model behaviour that is not in these files.
- **Other edits.** `addInput`, `addPrompt`, `addEmptyModel`, renames, content updates and test switching are plain appends and field writes. They are not modelled.
- **React state.** State updates are modelled as applied in order to one state. The legacy remove operations read the list once for both the guard and the filter.
- Coordinator.RunEval: The progress text, the `evaluating` flag and clearing the timer are not modelled. They do not affect the results, the snapshot or the error.

## Findings

| source | as written | input that shows it | evidently intended | confidence | as-written member | corrected member |
|---|---|---|---|---|---|---|
| apps/web/src/app/page.tsx:620-628 | `addCustomModel` appends a new trimmed id to the selection without checking whether the selection already holds it. | No saved selection, so the selection is DEFAULT_MODELS (page.tsx:443-448). The models fetch fails, so `availableModels` stays `[]`. The user then types `google/gemini-2.0-flash`. That id is selected but neither available nor custom, so it is selected twice and is listed twice in the `models` of every run request (page.tsx:687). | The check the known-id branch already makes (page.tsx:611-618) applies to a new id too, so the selection never repeats an entry. | not executed | Workbench.AddCustomModel, Workbench.AddCustomModelDuplicates, Workbench.DefaultSelectionDuplicates | Workbench.AddCustomModelChecked, Workbench.AddCustomModelCheckedNoDuplicates |
