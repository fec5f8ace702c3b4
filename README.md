# Workforce crew editor and execution core, in Dafny

Workforce lets a user assemble a *crew*: agents with a role, a goal, a
backstory and an LLM configuration, and tasks whose descriptions are text
templates with `{name}` placeholders. A FastAPI backend stores crews and
executes them. A React frontend edits them and starts executions. This
project models the logic that relates the templates to the variables
declared for them, at edit time and at execution time, and proves what that
logic guarantees.

Modules, in dependency order:

- `Wrappers`: `Option` and `Result`.
- `Text`: JavaScript first-occurrence `replace`; Python `split`, `join`,
  `replace` and `strip`; `str` of an integer.
- `ODict`: a Python dictionary as an insertion-ordered list of pairs.
  `Put` is `d[k] = v`. An assigned key keeps its place and a new key goes
  last.
- `JsObject`: the names a plain JavaScript object inherits, and what
  `obj[k] = v` does when `k` is `__proto__`.
- `Values`: the JSON scalars the backend binds, Python `str` of them, and a
  stored parameter definition.
- `Template`: the placeholder scan `/\{([^}]+)\}/g` and the auto-brace of
  the description field.
- `CrewForm`: the editor's crew value and every editing handler of
  `CrewEdit.js` and `CrewCreate.js`. Handlers return the next crew value.
  The add-then-delete `forEach` synchronisation is a method with a loop,
  proved equal to its specification function.
- `FormSubmit`: the two `handleSubmit` transforms.
- `FormLoad`: the edit page's load mapping of the `GET /crews/{id}`
  response.
- `CrewStore`: `create_crew` and `get_crew`. The two creation loops are
  methods proved against specification functions.
- `Binding`: the first pass of `execute_crew` for one task. Its loops are
  methods proved against specification functions: crew inputs, dependency
  outputs, checking of supplied values, default filling and substitution
  into the description.
- `Execution`: the whole execute endpoint.
  - The agents dictionary, the first pass over all tasks and the second
    pass that runs them.
  - The `name: value` harvesting of results.
  - The execution record, a class whose status the endpoint updates in
    place.
  - Running a task is a function parameter `run`.
- `ExecutionForm`: the execution dialogs of `CrewDetail.js` and
  `CrewList.js`. This covers the blank parameter form and its nested
  update, and the request each page sends.
- `ExecutionsView`: status colours and the failure handling of the two
  executions pages.
- `Tools`: the `TOOLS` table and `get_available_tools`.

Behaviour the model pins down, all following the code:

- **Tasks run in stored order.** The code builds no dependency graph,
  topological order or cycle check: the second pass takes the tasks as
  they are stored.
  - The dependency loop of `execute_crew` never binds anything
    (`Binding.DependenciesBindNothing`). It reads `task_outputs`, which only
    the second pass fills, so the dictionary is still empty while the loop
    runs (the first pass passes it as `map[]`). Apart from that, the loop
    iterates over the stored JSON text character by character, while
    `task_outputs` is keyed by integer ids.
- **A newly found placeholder gets the text `"Parameter for <t>"`.** The
  code stores this string, not a definition object.
- **Output variables are never stored.** `create_crew` does not write a
  task's output variables, and `get_crew` returns none. A crew created
  through the API therefore harvests no outputs.
- **Missing-variable errors cannot happen for API-created crews.**
  `create_crew` stores `ParameterDefinition.dict()`, which always has a
  `default` key. So a crew created through the API never fails an
  execution for a missing variable
  (`Execution.CreatedCrewNeverMissesAVariable`).
- **An unknown LLM provider fails or borrows.** `provider` may be any
  string, and the provider dispatch has no `else`. If the first agent's
  provider is none of `anthropic`, `openai` and `openai_compatible`, `llm`
  is read before any assignment; the raise ends the execution `failed`
  before any task is bound. A later agent with such a provider gets the
  previous agent's model client.
- **The key `__proto__` is dropped by assignment.** `obj["__proto__"] = ''`
  on a plain object calls the inherited setter, which ignores a string.
  So the execution dialog's blank form has no field for a declared name
  `__proto__`, and renaming a crew variable to `__proto__` loses it.
- **A crew without tasks ends `failed`.** The name `result` still holds
  the database query result, which the JSON encoder of the completed
  record refuses.
- **Loaded agents are always verbose.** The edit page loads
  `verbose: agent.verbose || true`.
- **Both execution dialogs send a body whose only field is `inputs`.** The
  backend's `CrewExecutionParams` declares `input_variables` and
  `task_params`, not `inputs`. The model computes the body each page
  builds. The backend side takes its parameters as given.

## Model

| member | source | states |
|---|---|---|
| Text.IndexOf | frontend/src/pages/CrewEdit.js:798-801 | the index found is an occurrence of the pattern, no earlier index is one, and there is a result exactly when the text contains the pattern |
| Text.IndexOfContains | frontend/src/pages/CrewEdit.js:798-801 | the search finds an index exactly when the text contains the pattern |
| Text.ReplaceFirstShape | frontend/src/pages/CrewEdit.js:834-837 | replacing with a literal text, as `replace` does for the delete button's empty replacement, rewrites only the first occurrence and keeps the text before it and everything after it, later occurrences included; without an occurrence the text is unchanged |
| Text.ExpandedLiteral | frontend/src/pages/CrewEdit.js:798-801 | a replacement without `$` has no pattern to expand and is inserted as it is |
| Text.JsReplaceLiteral | frontend/src/pages/CrewEdit.js:798-801 | JavaScript `replace` with a string pattern and a `$`-free replacement rewrites only the first occurrence, literally |
| Text.DollarAmpersandRepeatsMatch | frontend/src/pages/CrewEdit.js:798-801 | a `$&` in the replacement inserts the matched text: renaming `{a}` to `{$&}` in `Hi {a}` gives `Hi {{a}}` |
| Text.ReplaceFirstUndo | frontend/src/pages/CrewEdit.js:792-802 | rewriting `{k}` to `{k'}` and back, literally, restores the description when `{k'}` did not occur and `k'` holds no `{`; this is what the rename's `replace` does when neither name holds a `$` (`Text.JsReplaceLiteral`) |
| Text.ReplaceFirstThenBack | frontend/src/pages/CrewEdit.js:798-801 | replacing the first occurrence of `p` by an absent marker `q` that opens with its only `{`, and then `q` back by `p`, both literally, restores the text |
| Text.Split | app/routers/crews.py:371 | Python `split` always yields at least one piece |
| Text.JoinSplit | app/routers/crews.py:371 | joining the pieces of a split with the separator gives the text back |
| Text.SplitJoin | frontend/src/pages/Executions.js:61-64 | pieces without a one-character separator, joined with it and split on it, come back unchanged |
| Text.SplitPiecesFree | app/routers/crews.py:371 | no piece of a split contains the separator |
| Text.SplitHasSecondPiece | app/routers/crews.py:370-371 | a split yields a second piece exactly when the separator occurs, so `split(...)[1]` after the `in` test cannot fail |
| Text.ReplaceAllIsJoinOfSplit | app/routers/crews.py:342 | Python `replace` of every occurrence is the pieces between occurrences glued with the replacement |
| Text.SplitAt | app/routers/crews.py:371 | a split cuts at the first occurrence of the separator and splits the rest the same way |
| Text.ReplaceAllAt | app/routers/crews.py:342 | replacing every occurrence rewrites the first one and then replaces every occurrence in the rest |
| Text.TrimStart | app/routers/crews.py:371 | the result is a suffix that starts with no whitespace, and only whitespace was removed |
| Text.TrimEnd | app/routers/crews.py:371 | the result is a prefix that ends with no whitespace, and only whitespace was removed |
| Text.StripIsTrimmedSlice | app/routers/crews.py:371 | `strip` gives a slice of the text with no whitespace at either end and removes only whitespace |
| Text.Decimal | app/routers/crews.py:273 | `str` of a natural number is a non-empty string of digits |
| Text.DecimalInjective | app/routers/crews.py:273 | distinct task ids give distinct keys |
| ODict.Keys | app/routers/crews.py:104 | the keys of a dictionary, in insertion order, one per entry |
| ODict.ValuesOf | app/routers/crews.py:128 | `d.values()` in insertion order, one per entry |
| ODict.GetSpec | app/routers/crews.py:273 | `d.get(k)` finds a value exactly when `k` is a key, and the value found is stored under `k` |
| ODict.PutKeys | app/routers/crews.py:104 | `d[k] = v` keeps an existing key in its place and appends a new one |
| ODict.PutGet | app/routers/crews.py:104 | after `d[k] = v`, `k` maps to `v` and every other key to what it mapped to before |
| ODict.PutUnique | app/routers/crews.py:104 | assignment keeps the keys unique |
| ODict.PutHasKey | app/routers/crews.py:104 | after an assignment the keys are the old keys and `k` |
| Template.CloseFrom | frontend/src/pages/CrewEdit.js:126 | the first `}` at or after a position, with no `}` before it |
| Template.HeadTokenIsBracedName | frontend/src/pages/CrewEdit.js:126-127 | a `{` whose next `}` is at least two characters on starts a match whose token holds no `}` and appears braced at the start |
| Template.TokenIsBracedName | frontend/src/pages/CrewEdit.js:126-127 | every token of the placeholder scan is non-empty, holds no `}` and appears braced in the text |
| Template.NoOpeningBraceNoTokens | frontend/src/pages/CrewEdit.js:126-127 | a text without `{` has no tokens |
| Template.AutoBrace | frontend/src/pages/CrewEdit.js:722-731 | a value ending in `{` is stored with `}` appended, any other value as typed, and the stored value never ends in `{` (the same handler is at CrewCreate.js lines 700-709) |
| Template.EmptyBracesAddNoToken | frontend/src/pages/CrewEdit.js:725-727 | the `{}` that auto-brace leaves adds no token when every earlier placeholder is finished |
| Template.DanglingBraceSwallowsTypedBrace | frontend/src/pages/CrewEdit.js:725-727 | after an unfinished `{a`, a typed `{` is stored as `{a{}`, whose one token is `a{` |
| Template.PlainPrefix | frontend/src/pages/CrewEdit.js:126 | text without `{` in front adds no tokens |
| Template.BracedHead | frontend/src/pages/CrewEdit.js:126 | a braced name at the front is the first token |
| Template.TwoPlaceholders | frontend/src/pages/CrewEdit.js:126-127 | for any names `a` and `b` without `}`, the description `{a} for {b}` yields `a` then `b` |
| CrewForm.Placeholder | frontend/src/pages/CrewEdit.js:135 | the value a new placeholder gets is truthy |
| CrewForm.AddPlaceholders | frontend/src/pages/CrewEdit.js:132-137 | after the add pass the keys are the old keys and the tokens that are not names inherited from `Object.prototype`; a token whose lookup `existingParams[param]` is falsy holds the placeholder text, every other key keeps its value |
| CrewForm.DropUnlisted | frontend/src/pages/CrewEdit.js:139-144 | after the delete pass exactly the keys that are tokens remain, with unchanged values |
| CrewForm.SyncInputParameters | frontend/src/pages/CrewEdit.js:130-146 | the two `forEach` passes compute the synchronised parameters: the tokens, less inherited names such as `constructor` that were not own keys, a truthy old value kept, otherwise the placeholder text (the same loop is at CrewCreate.js lines 99-115) |
| CrewForm.HandleTaskChange | frontend/src/pages/CrewEdit.js:104-153 | the task change handler computes the next crew: the field is set, and a description ending in `}` re-synchronises the input parameters (the same handler is at CrewCreate.js lines 73-122) |
| CrewForm.TaskChangeIsLocal | frontend/src/pages/CrewEdit.js:104-153 | a change touches the edited task only, and nothing outside the tasks |
| CrewForm.UnclosedDescriptionKeepsParameters | frontend/src/pages/CrewEdit.js:122-148 | a description not ending in `}` replaces the description and leaves every registry as it was |
| CrewForm.ClosedDescriptionKeysAreTokens | frontend/src/pages/CrewEdit.js:124-146 | after a description ending in `}`, a name is a parameter exactly when it is a scanned token and either was a parameter or is not inherited from `Object.prototype` |
| CrewForm.InheritedTokenNotAdded | frontend/src/pages/CrewEdit.js:133-137 | a token such as `{constructor}` that names an inherited member and is not a parameter yet is not added, because `!existingParams[param]` reads the inherited member |
| CrewForm.ClosedDescriptionValues | frontend/src/pages/CrewEdit.js:133-137 | a token stays or becomes a parameter unless it is an inherited name that was not one; a truthy old value is kept, and a new token or one with a falsy value gets `Parameter for <t>` |
| CrewForm.SyncIdempotent | frontend/src/pages/CrewEdit.js:130-146 | synchronising twice with the same tokens is synchronising once |
| CrewForm.DescriptionChangeIdempotent | frontend/src/pages/CrewEdit.js:124-148 | applying the same description twice gives the crew that applying it once gives |
| CrewForm.TypedBraceAddsNoParameter | frontend/src/pages/CrewEdit.js:722-731 | typing `{` after finished placeholders stores `{}` appended and leaves the parameter names as the tokens of the earlier text, less inherited names that were not parameters |
| CrewForm.WithRegistry | frontend/src/pages/CrewEdit.js:155-181 | replacing one registry of a task leaves the other registries and the description as they were |
| CrewForm.Renamed | frontend/src/pages/CrewEdit.js:155-171 | removing the key from a spread copy and then spreading with the computed key `[newKey]` moves the value to the new name, drops the old name and keeps every other entry |
| CrewForm.RenameBack | frontend/src/pages/CrewEdit.js:155-171 | renaming back to an unused name restores the object |
| CrewForm.RegistryEditIsLocal | frontend/src/pages/CrewEdit.js:155-181 | `handleParameterChange`, `removeParameter` and `addParameter` change exactly one entry of one registry of one task |
| CrewForm.RenameMovesValue | frontend/src/pages/CrewEdit.js:792-803 | a rename moves the value, rewrites only the first `{k}` (expanding `$` patterns of the new name as `replace` does), and re-synchronises the input parameters only when the new description ends in `}`; output variables only move the value |
| CrewForm.RenamedTask | frontend/src/pages/CrewEdit.js:792-803 | when the rewritten description does not end in `}`, a rename changes only the task's registry and, for the description's registries, the first `{k}` in its description |
| CrewForm.DeleteRemovesEntry | frontend/src/pages/CrewEdit.js:830-838 | a delete removes the entry and only the first `{k}` of the description, then goes through the task change handler |
| CrewForm.ReplaceKeepsUnclosedEnd | frontend/src/pages/CrewEdit.js:798-802 | a description not ending in `}` still does not after its first `{k}` is rewritten |
| CrewForm.RenameRoundTrip | frontend/src/pages/CrewEdit.js:792-803 | renaming a parameter to an unused name and back restores the crew, when neither name holds a `$` and under the stated conditions on the description |
| CrewForm.StripFirstOfTwoPlaceholders | frontend/src/pages/CrewEdit.js:833-836 | stripping `{k}` from `{k} {k}` leaves ` {k}`, whose one token is `k` |
| CrewForm.DeleteLeavingOneToken | frontend/src/pages/CrewEdit.js:830-838 | a delete whose stripped description ends in `}` and names only `k` leaves exactly `k` with the placeholder text, or no parameter when `k` is an inherited name |
| CrewForm.DeleteWithRepeatedPlaceholderReAdds | frontend/src/pages/CrewEdit.js:830-838 | deleting a parameter named twice in the description brings it back with the placeholder text, unless it is an inherited name, which is then gone |
| CrewForm.WithCrewVars | frontend/src/pages/CrewEdit.js:361-419 | replacing one crew-level object leaves the other one, the agents and the tasks as they were |
| CrewForm.CrewVarAdded | frontend/src/pages/CrewEdit.js:361-364 | the add button maps `""` to `""` and keeps every other entry |
| CrewForm.CrewVarRenamed | frontend/src/pages/CrewEdit.js:377-383 | the name field moves the description to the new name and drops the old name; when the new name is `__proto__` and is not an own key, the assignment stores nothing and the variable is lost |
| CrewForm.CrewVarSet | frontend/src/pages/CrewEdit.js:399-402 | the description field sets one entry and keeps the others; only an assignment to `__proto__` that is not an own key stores nothing |
| CrewForm.CrewVarDeleted | frontend/src/pages/CrewEdit.js:415-418 | the delete button removes one entry and keeps the others |
| CrewForm.CrewVarRenameRoundTrip | frontend/src/pages/CrewEdit.js:377-383 | renaming a crew variable to an unused name and back restores the crew; renaming it to `__proto__` loses it at once, and renaming back to `__proto__` loses it then |
| CrewForm.TaskAdded | frontend/src/pages/CrewCreate.js:172-188 | `addTask` appends exactly one blank task and keeps the other tasks and the rest of the crew |
| CrewForm.AgentAdded | frontend/src/pages/CrewEdit.js:183-202 | `addAgent` appends exactly one blank agent and keeps everything else |
| CrewForm.WithoutIndex | frontend/src/pages/CrewEdit.js:222-230 | the filter drops one element when the index is in range and none otherwise |
| CrewForm.WithoutIndexAt | frontend/src/pages/CrewCreate.js:195-198 | after filtering, the element at each position is the original one before the index and the next original one from the index on |
| CrewForm.WithoutIndexIsSplice | frontend/src/pages/CrewCreate.js:195-198 | the filter cuts out exactly the element at the index and keeps the order of the rest |
| CrewForm.TaskRemoved | frontend/src/pages/CrewEdit.js:227-230 | `removeTask` changes only the task list |
| CrewForm.AgentRemoved | frontend/src/pages/CrewEdit.js:222-225 | `removeAgent` changes only the agent list |
| FormSubmit.WrapRoundTrip | frontend/src/pages/CrewEdit.js:241-258 | every wrapped entry names its key, is of type `string` and required, and the definitions' descriptions are the object's values |
| FormSubmit.AgentSubmitRoundTrip | frontend/src/pages/CrewEdit.js:259-272 | gathering an agent's flat LLM fields into `llm_config` loses nothing |
| FormSubmit.CreateSubmission | frontend/src/pages/CrewCreate.js:205-270 | the create payload has one agent and one task per form agent and task |
| FormSubmit.EditSubmission | frontend/src/pages/CrewEdit.js:238-282 | the edit payload has one agent and one task per form agent and task |
| FormSubmit.CreateSubmissionWrapsEveryRegistry | frontend/src/pages/CrewCreate.js:223-249 | every task registry entry `k -> v` is sent as the required string definition `k` describing `v`, with the same names, so the payload carries every value of the form's registries |
| FormSubmit.EditSubmissionSendsRegistriesRaw | frontend/src/pages/CrewEdit.js:273-281 | the edit page sends task registries as they are, each value unchanged under its name |
| FormSubmit.CrewVariablesWrappedOnBothPages | frontend/src/pages/CrewCreate.js:252-269 | both pages wrap the crew-level objects identically, and the definitions' descriptions are the objects' values |
| FormLoad.Loaded | frontend/src/pages/CrewEdit.js:60-86 | the loaded crew has one agent and one task per agent and task of the response |
| FormLoad.LoadedAgentsAreVerbose | frontend/src/pages/CrewEdit.js:69 | every loaded agent is verbose, even one stored as not verbose |
| FormLoad.AgentLoadSubmitRoundTrip | frontend/src/pages/CrewEdit.js:65-76 | a verbose agent with a provider, a model and no empty optional field is submitted again as it was stored, with an empty tool list |
| FormLoad.MissingModelLoadsDefaults | frontend/src/pages/CrewEdit.js:70-71 | an agent without provider and model loads with `anthropic` and `claude-3-5-haiku-20241022` |
| FormLoad.LoadedRegistries | frontend/src/pages/CrewEdit.js:77-85 | a loaded task's registries hold exactly the stored names with their stored definitions, and no output variables |
| FormLoad.LoadedDefinitionsSurviveEdit | frontend/src/pages/CrewEdit.js:133-137 | a loaded definition is truthy, so a description edit that still names it keeps it |
| CrewStore.StoredDef | app/routers/crews.py:116-117 | `.dict()` keeps name, description and type and always writes `required` and `default` |
| CrewStore.StoredDefs | app/routers/crews.py:116-117 | the stored registry holds one `.dict()` per definition, in order |
| CrewStore.AgentRows | app/routers/crews.py:87-103 | one agent row per agent of the request |
| CrewStore.CreateAgents | app/routers/crews.py:86-104 | the agent loop writes one row per agent and builds the role dictionary |
| CrewStore.CreateTasks | app/routers/crews.py:107-125 | the task loop writes one row per task and stops at the first unknown role |
| CrewStore.TaskAgents | app/routers/crews.py:108-111 | looking up every task's role either fails or finds one agent per task |
| CrewStore.TaskAgentsOk | app/routers/crews.py:108-111 | every lookup succeeds exactly when every task's role is a key of the role dictionary |
| CrewStore.TaskAgentsFound | app/routers/crews.py:110-120 | the agent found for a task is the one its role maps to |
| CrewStore.TaskAgentsErrSticks | app/routers/crews.py:110-111 | once a role is unknown the loop reports that failure whatever tasks follow |
| CrewStore.CreateCrew | app/routers/crews.py:64-142 | the endpoint checks the name, then runs the two loops |
| CrewStore.RoleMapIsLastAgent | app/routers/crews.py:104 | a role is in the dictionary exactly when some agent has it, and maps to the last such agent |
| CrewStore.RoleMapInRange | app/routers/crews.py:104 | the role dictionary has unique keys and only positions of agents as values |
| CrewStore.TaskRowsOk | app/routers/crews.py:108-125 | the task loop succeeds exactly when every role is known, and then writes every task's row in order |
| CrewStore.TaskRowsFirstUnknownRole | app/routers/crews.py:110-111 | the rejection names the role of the first task whose role has no agent |
| CrewStore.CreateSucceedsIff | app/routers/crews.py:72-111 | a create succeeds exactly when the name is new and every task's role is an agent's role |
| CrewStore.CreateRejections | app/routers/crews.py:72-111 | a taken name is reported before any role; otherwise the first unknown role is reported |
| CrewStore.CreatedTaskRows | app/routers/crews.py:113-121 | each task row is bound to the last agent with its role, keeps the task's text and definitions, and stores no output variables |
| CrewStore.RoleMapEntries | app/routers/crews.py:104 | every entry of the role dictionary is a role and the last agent with it |
| CrewStore.RoleMapCoversAgents | app/routers/crews.py:104 | every role of the request is a key of the dictionary |
| CrewStore.RoleMapMembers | app/routers/crews.py:104 | the values of the role dictionary are one agent per role of the request, each the last agent with it, with no role twice |
| CrewStore.RowsShareMemberRole | app/routers/crews.py:87-104 | an agent row whose role a member carries has that role among the member rows too |
| CrewStore.CreatedMembers | app/routers/crews.py:127-133 | the crew's members are one agent per role, each the last with that role |
| CrewStore.StoredColumnsHaveDefaults | app/routers/crews.py:116-117 | every stored definition has a `default` key, whatever the request sent |
| CrewStore.GetCrew | app/routers/crews.py:150-196 | an id the query does not find is answered 404 `Crew not found`; a found crew is answered with one agent per member, in member order, and one task per task row |
| CrewStore.CreatedWellFormed | app/routers/crews.py:113-133 | a created crew references only agents it stored |
| CrewStore.CreatedTaskRoleHasMember | app/routers/crews.py:120-133 | the role of every task's agent is the role of one of the crew's members |
| CrewStore.ReadBackCreated | app/routers/crews.py:185-195 | reading back a created crew gives each task its text, its role, its definitions as `.dict()` wrote them (empty when none was sent) and its dependencies |
| CrewStore.ColumnReadBack | app/routers/crews.py:191-192 | a registry column read back is the stored registry, or empty |
| Binding.AssignAll | app/routers/crews.py:286-287 | the assignment loop computes the prefixed assignments in order |
| Binding.AssignedGetEntry | app/routers/crews.py:286-287 | every assigned entry can be read back under its prefixed name |
| Binding.AssignedGetOther | app/routers/crews.py:286-287 | a name no entry is assigned to keeps its value |
| Binding.AcceptSupplied | app/routers/crews.py:296-317 | the check loop over supplied values computes the checked bindings or the first rejection |
| Binding.AcceptedOk | app/routers/crews.py:298-317 | the check succeeds exactly when every supplied name is declared, and then binds each name to the value sent |
| Binding.AcceptedFirstUnknown | app/routers/crews.py:300-304 | the first undeclared supplied name is the one rejected |
| Binding.AcceptedFailsOnUnknown | app/routers/crews.py:298-317 | the check fails only on an undeclared name |
| Binding.FillMissing | app/routers/crews.py:320-336 | the fill loop computes the filled bindings or the first missing name |
| Binding.FilledKeys | app/routers/crews.py:320-327 | after the fill the bound names are those bound before and the declared ones |
| Binding.FilledKeeps | app/routers/crews.py:320-321 | a name bound before the fill keeps its value |
| Binding.FilledDefault | app/routers/crews.py:327 | a declared name that was not bound gets its `default`, or None |
| Binding.FilledOkWhen | app/routers/crews.py:320-336 | without a required unbound name lacking a `default`, the fill succeeds |
| Binding.FilledFirstMissing | app/routers/crews.py:322-326 | the first required unbound name without a `default` is the one reported |
| Binding.AddDependencyOutputs | app/routers/crews.py:290-294 | the dependency loop computes the dependency bindings |
| Binding.DependenciesBindNothing | app/routers/crews.py:290-294 | the loop iterates over characters of the stored text, and `task_outputs` has integer keys, so it binds nothing |
| Binding.SubstituteAll | app/routers/crews.py:338-346 | the substitution loop replaces every `{name}` in order |
| Binding.SubstitutionStep | app/routers/crews.py:342 | one substitution cuts the text at every `{k}` and glues the pieces, none holding `{k}`, with `str(v)` |
| Binding.AbsentPlaceholderUnchanged | app/routers/crews.py:342 | a placeholder that does not occur leaves the description unchanged |
| Binding.BindTask | app/routers/crews.py:269-354 | one task's first pass in the endpoint's order: crew inputs, dependency outputs, the check of supplied values, the fill, the substitution |
| Binding.DefaultsLeaveOnlyUnknown | app/routers/crews.py:296-336 | when every declaration has a `default`, binding fails only on an undeclared name |
| Binding.UnknownInputRejected | app/routers/crews.py:298-304 | an undeclared supplied input parameter is rejected first, the first one being named with the task id |
| Binding.UnknownContextRejected | app/routers/crews.py:309-315 | with every input declared, the first undeclared supplied context variable is rejected |
| Binding.MissingInputRejected | app/routers/crews.py:320-326 | with everything supplied declared, the first required input without value or `default` is reported |
| Binding.BoundInputs | app/routers/crews.py:296-327 | on success every supplied input has the value sent and every other declared input its default |
| Binding.AcceptedKeys | app/routers/crews.py:306 | the names bound from a dictionary are its keys |
| Binding.CrewInputInContext | app/routers/crews.py:285-287 | every crew input `v` is in the context as `crew_v` with the value sent, unless the task was sent a context variable of that name |
| Execution.Members | app/routers/crews.py:230 | the crew's agents, one per member |
| Execution.BuildAgents | app/routers/crews.py:229-262 | the agent loop, with `llm` assigned only in the three provider branches, fails exactly as `Equipped` does and otherwise builds the role dictionary of the equipped agents |
| Execution.Roles | app/routers/crews.py:230 | the roles of the crew's agents, in order |
| Execution.EquippedFails | app/routers/crews.py:230-254 | building the agents fails exactly when the first agent's provider is not `anthropic`, `openai` or `openai_compatible`, and names that agent |
| Execution.EquippedAt | app/routers/crews.py:230-262 | an agent with a known provider gets its own client; any other agent gets the client of the agent before it |
| Execution.EquippedClient | app/routers/crews.py:230-262 | each agent runs with the configuration of the last agent at or before it whose provider is known, and keeps the rest of its own row |
| Execution.EquippedRoles | app/routers/crews.py:262 | the built agents have the crew's roles, in order |
| Execution.AgentsByRoleGet | app/routers/crews.py:262 | looking up a role finds an agent with that role exactly when the crew has one |
| Execution.TaskRoles | app/routers/crews.py:351 | the role of each task's agent, one per task |
| Execution.TaskBindings | app/routers/crews.py:269-355 | one binding outcome per stored task |
| Execution.BindOneTask | app/routers/crews.py:269-355 | the first pass's work on one task: bind, substitute, look up the agent |
| Execution.BindAt | app/routers/crews.py:269-355 | the first pass's work on the task at a position |
| Execution.BindTasks | app/routers/crews.py:265-355 | the first loop binds the tasks in stored order and stops at the first error |
| Execution.FirstPassErrSticks | app/routers/crews.py:269-355 | an error ends the first pass |
| Execution.FirstPassOk | app/routers/crews.py:269-355 | the first pass succeeds exactly when every task binds, and then holds one bound task per task, in order |
| Execution.FirstPassErrorFrom | app/routers/crews.py:269-355 | an error of the first pass is one task's error |
| Execution.FirstPassFirstError | app/routers/crews.py:269-355 | the first task that fails to bind decides the error |
| Execution.AfterMarkerIsClean | app/routers/crews.py:371 | the line after the marker holds neither the marker nor a line break |
| Execution.StripKeepsFree | app/routers/crews.py:371 | stripping keeps the line free of the marker and of line breaks |
| Execution.ExtractedValueIsClean | app/routers/crews.py:370-371 | a value is extracted exactly when `name:` occurs, and it has no line break, no marker and no surrounding whitespace |
| Execution.Extracted | app/routers/crews.py:367-371 | one extraction per output variable, in the order the variables are declared |
| Execution.HarvestOutputs | app/routers/crews.py:363-373 | the output loop stores every extracted value for the task and for the response |
| Execution.HarvestGet | app/routers/crews.py:370-373 | a variable whose marker occurs is in the task's outputs and in the response as `task_<id>_<name>` |
| Execution.HarvestNotFound | app/routers/crews.py:370 | a variable whose marker does not occur adds nothing to the response |
| Execution.OutputNameInjective | app/routers/crews.py:373 | distinct variables of a task get distinct response keys |
| Execution.HarvestSkipsUnfound | app/routers/crews.py:367-373 | a name no found variable carries leaves the response entry alone |
| Execution.RunTasks | app/routers/crews.py:358-373 | the second loop runs the bound tasks in order and stops at the first that raises |
| Execution.RunOne | app/routers/crews.py:359-373 | one iteration runs the task and records either the raise that ends the loop or the result and its harvested outputs, moving the second pass on by exactly one task |
| Execution.SecondPassStops | app/routers/crews.py:359-360 | after a task raised, nothing else runs |
| Execution.SecondPassInOrder | app/routers/crews.py:359-373 | without a raise every task runs once in stored order, the last result is the last task's, and per-task outputs are keyed by ids |
| Execution.ExecutionRecord.constructor | app/routers/crews.py:218-223 | a new record is `in_progress` with no result and no error |
| Execution.ExecutionRecord.Complete | app/routers/crews.py:376-381 | completing sets the status and the result and keeps the error |
| Execution.ExecutionRecord.Fail | app/routers/crews.py:391-393 | failing sets the status and the error and keeps the result |
| Execution.ExecuteCrew | app/routers/crews.py:198-396 | an unknown crew gets no record; otherwise the record ends `completed` with the last result and the outputs, and no error, or `failed` with the error and no result, as the endpoint answers, including the failure of an unknown first provider before any binding |
| Execution.UnknownFirstProviderFails | app/routers/crews.py:232-254 | a crew whose first agent has an unknown provider fails with that agent's role before any task is bound or run, and with any other first agent the agents are built |
| Execution.BindingFailureRunsNothing | app/routers/crews.py:269-360 | a task that fails to bind, after the earlier ones bound, fails the execution with its error before any task runs |
| Execution.AllTasksRun | app/routers/crews.py:357-388 | with every task bound and none raising, each runs once and the response carries the last result; a crew without tasks fails |
| Execution.MemberRoleFound | app/routers/crews.py:351 | once the agents are built, a task whose role is a member's role finds its agent |
| Execution.CreatedTasksFindTheirAgent | app/routers/crews.py:351 | once the agents are built, every task of a crew created through the API finds an agent |
| Execution.CreatedTaskFailsOnlyOnUnknownNames | app/routers/crews.py:296-336 | once the agents are built, a task of a crew created through the API binds, or fails on an undeclared name |
| Execution.OnlyUnknownNamesFail | app/routers/crews.py:269-396 | if every task binds or fails on an undeclared name, the endpoint never fails for a missing variable or agent |
| Execution.CreatedCrewNeverMissesAVariable | app/routers/crews.py:198-396 | running a crew created through the API never fails for a missing variable or a missing agent, whatever the request sends |
| ExecutionForm.FromView | frontend/src/pages/CrewList.js:51-53 | a fetched crew has no crew-level input variables, and one task per task of the response |
| ExecutionForm.BlankFor | frontend/src/pages/CrewDetail.js:63-65 | the `forEach` assigns one empty value per declared name, and a name `__proto__` gets none |
| ExecutionForm.BuildSkeleton | frontend/src/pages/CrewDetail.js:56-84 | the skeleton builder computes the blank form, task by task, with no field for a declared name `__proto__` (the same builder is at CrewList.js lines 56-84) |
| ExecutionForm.SkeletonCrewInputs | frontend/src/pages/CrewDetail.js:62-66 | the crew part holds exactly one empty value per declared crew input other than `__proto__` |
| ExecutionForm.SkeletonIds | frontend/src/pages/CrewDetail.js:69-73 | the form has an entry for exactly the ids of the crew's tasks |
| ExecutionForm.SkeletonEntry | frontend/src/pages/CrewDetail.js:69-84 | a task's entry holds one empty value per declared input parameter and context variable other than `__proto__`, unless a later task has the same id |
| ExecutionForm.FetchedCrewSkeleton | frontend/src/pages/CrewList.js:56-84 | a fetched crew offers no crew-level inputs, and each task exactly its declared names other than `__proto__` |
| ExecutionForm.ChangeSetsOneValue | frontend/src/pages/CrewDetail.js:92-118 | a change sets exactly the value it names and keeps every other value and the task ids; it fails only for a task id without an entry (the same handler is at CrewList.js lines 92-118) |
| ExecutionForm.OverlaidHas | frontend/src/pages/CrewDetail.js:125-128 | a name is in the overlay exactly when some task has it as an input parameter |
| ExecutionForm.OverlaidWinner | frontend/src/pages/CrewDetail.js:125-128 | the overlay holds, for a name, the value of the task with the largest id that has it |
| ExecutionForm.DetailInputsValue | frontend/src/pages/CrewDetail.js:122-129 | the detail page sends every crew-level and task input name; a task's value wins over a crew-level one |
| ExecutionForm.ContextVariablesNotSent | frontend/src/pages/CrewDetail.js:122-129 | changing a context variable leaves the request as it was |
| ExecutionForm.OverlaidIgnoresContext | frontend/src/pages/CrewDetail.js:125-128 | the overlay reads only input parameters |
| ExecutionForm.FirstNamedIsFirst | frontend/src/pages/CrewList.js:128 | `find` answers the first listed crew with the name, or nothing when none has it |
| ExecutionForm.ListRequestTarget | frontend/src/pages/CrewList.js:120-139 | without a selected crew nothing is sent; otherwise the request goes to the non-zero id of the first listed crew with the name |
| ExecutionForm.UniqueNamesReachTheSelectedCrew | frontend/src/pages/CrewList.js:128-139 | with unique names, a listed selected crew is executed under its own id |
| ExecutionForm.ListInputsShape | frontend/src/pages/CrewList.js:134-139 | the list page sends every crew-level value under its name, except `task_params`, which holds the whole task map |
| ExecutionsView.StatusColors | frontend/src/pages/Executions.js:87-98 | each of `completed`, `failed` and `in_progress` gets its own colour, and everything else `default` (the same switch is at CrewExecutions.js lines 56-67) |
| ExecutionsView.RecordStatusColor | frontend/src/pages/CrewExecutions.js:56-67 | a record the endpoint finished is green when completed and red when failed; a running one is amber |
| ExecutionsView.ValidationLines | frontend/src/pages/Executions.js:61-63 | the `map` succeeds exactly when every item's line does, with one line per item |
| ExecutionsView.ObjectValueTexts | frontend/src/pages/Executions.js:71-72 | one text per value of the object |
| ExecutionsView.NotFoundShowsEmptyList | frontend/src/pages/Executions.js:48-52 | a 404 empties the list, stops loading and sets no error |
| ExecutionsView.NoBodyShowsFixedMessage | frontend/src/pages/Executions.js:54-77 | without a response or a truthy body, the message is `Failed to fetch executions` |
| ExecutionsView.StringBodyShownVerbatim | frontend/src/pages/Executions.js:57-58 | a string body is the message verbatim; the empty string gives the fixed message |
| ExecutionsView.ValidationListOneLinePerItem | frontend/src/pages/Executions.js:59-64 | a list body shows one line per item, in order, joined by line breaks |
| ExecutionsView.LocatedLine | frontend/src/pages/Executions.js:62-63 | an item with a `loc` list and a `msg` reads `<loc joined by '.'>: <msg>` |
| ExecutionsView.UnlocatedLine | frontend/src/pages/Executions.js:62-63 | an item without `loc` reads `: <msg>` |
| ExecutionsView.NullItemLeavesPageLoading | frontend/src/pages/Executions.js:61-63 | a `null` item makes the handler throw before it sets anything |
| ExecutionsView.CrewPageIgnoresTheResponse | frontend/src/pages/CrewExecutions.js:45-48 | the per-crew page always shows the fixed message and stops loading, even for a 404 |
| JsObject.Assigned | frontend/src/pages/CrewEdit.js:381-382 | after `obj[k] = v` the key `k` holds `v`, unless `k` is `__proto__` and was not an own key, when nothing is stored; every other key is unchanged |
| Tools.FilteredGet | app/tools/__init__.py:69 | the filtered dictionary holds a name exactly when it was asked for and is known, with the table's tool |
| Tools.AvailableGet | app/tools/__init__.py:56-69 | without a list every tool is answered; with one, exactly the listed known names, each with its tool; unknown names are dropped |
| Tools.AvailableKeys | app/tools/__init__.py:56-69 | the names answered are exactly those both requested and in `TOOLS` |
| Tools.FilteredUnique | app/tools/__init__.py:69 | the answer holds no name twice |

## Left out

- HTTP, React rendering, navigation, `useEffect` fetching and axios calls are I/O. The handlers are modelled as functions of the crew or form value they update.
- React batches the three `setCrew` calls of a rename. The model composes the three updates in sequence on one crew value.
- The `JSON.parse` branches of `handleTaskChange` are not modelled. No page passes a registry field to it. The dependency widgets pass it `JSON.stringify` of a list, which it parses back.
- `JSON.stringify` is a function parameter `stringify`. JSON numbers are integers only, because floating point is out of scope.
- `json.dumps` and `json.loads` of the stored columns are not modelled as text, except the dependency list, whose text the first pass iterates over. A stored column is modelled as the value it encodes.
- Database sessions are left out: queries, `flush`, `commit`, `rollback`, and the association-table insert as SQL. Row ids are inputs. `list_crews`, `delete_crew` and the two list-executions endpoints are plain database reads and deletes.
- Constructing the model clients (`ChatAnthropic`, `ChatOpenAI`), the `os.environ` writes and CrewAI `Agent`/`Task` construction are foreign calls; a client constructor that raises is not modelled. The provider dispatch itself is modelled (`Execution.Equipped`): an agent carries the configuration of the client it is given. A bound task carries the description, that agent, the expected output and the context lines the `Task` would receive.
- `task.execute()` is the function parameter `run`. Its result is a string, or the message of what it raised.
- Exception texts are not reproduced. `str(e)` of an `HTTPException` and the 500 detail of the catch-all handlers are kept only as the structured error.
- `print` and `pprint` are logging and are left out.
- The edit page sends `PUT /crews/{id}`, but the router defines no such route. The model computes the payload; what the server answers is not modelled.
- The editor's dependency list widgets are not modelled: adding, editing and removing dependency entries. They only reshape a list of strings.
- The tool objects wrap external services (Jira, Confluence, news, weather, web search). A tool is identified by the name it is imported under. `TOOL_DESCRIPTIONS` is documentation.
- Timestamps (`created_at`, `completed_at`) and UUIDs are clocks and randomness. They are left out.
- `Execution.ExecutionRecord.Complete`: does not record `completed_at`, and the record does not keep the `json.dumps` of the request parameters written at creation, because the model has no clock and no JSON text.
- `Execution.ExecuteCrew`: requires the stored crew to reference only stored agents. The database's foreign keys guarantee this.
- `ExecutionForm.OverlaidWinner`: JavaScript visits integer-like keys in ascending order, and the model relies on that order. Task ids are natural numbers, so every key is integer-like.
- `ExecutionsView.CrewPageIgnoresTheResponse`: the success path of the per-crew page only stores the list it receives, so it is not modelled separately.
- `Text.ReplaceFirstUndo` and `Text.ReplaceFirstThenBack`: stated for the literal replacement. The rename's `replace` expands `$$`, `$&`, `` $` `` and `$'` in the new name, so they describe the rename only for names without `$` (`Text.JsReplaceLiteral`); `Text.DollarAmpersandRepeatsMatch` shows a name for which they do not.
- `CrewForm.RenameRoundTrip`: requires both names to be free of `$`. With a `$` pattern in a name, `replace` inserts other text than the name and the round trip can fail.
- `CrewForm.Registry` is an unordered `map`. JavaScript objects keep insertion order, which is the order the page lists the entries and the order the create and edit requests send them. So `FormSubmit.CreateSubmission`, `FormSubmit.EditSubmission`, `FormLoad.LoadedRegistries` and the `CrewForm` handlers state which names and values a registry holds, not their order. The backend side keeps the order, through `ODict`.
- `FormSubmit.CreateSubmission`: states the sent registries as maps; the order of their entries is not captured (see `CrewForm.Registry`).
- `FormSubmit.EditSubmission`: states the sent registries as maps; the order of their entries is not captured (see `CrewForm.Registry`).
- `ExecutionsView.ObjectValueTexts`: takes the values in the order the response body lists its fields. `Object.values` lists integer-like keys first, in ascending order; the model does not reorder them.
- `ExecutionsView.BodyMessage`: reads an object body's fields as listed. `JSON.parse` keeps the last value of a repeated key, and `Object.values` puts integer-like keys first; the model takes the first `detail` and keeps the listed order. FastAPI's error bodies have neither.
- `Values.Value` has no list or object case. A request value that is a JSON list or object reaches the description as its Python `str`, which the model does not produce. `ParamDef.required` is `None` only when the key is absent: every stored definition has a boolean there, because `create_crew` validates `required: bool` before storing it, so a JSON `null` is not modelled.
- `Tools.AvailableGet`: states which names are answered and their tools. The order of the answer is stated only as unique keys, through `Tools.FilteredUnique`.
