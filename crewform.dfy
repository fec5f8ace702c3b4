/** The crew editor's state and its change handlers, shared by the create and
    the edit page. The page keeps one crew value; every handler computes the
    next crew value from the current one. */
module CrewForm {
  import opened Wrappers
  import opened Text
  import opened Values
  import opened Template
  import opened JsObject

  /** A registry entry as the form holds it: text typed in the form, or a
      stored definition object loaded from the backend (always truthy). */
  datatype Entry = Plain(text: string) | Definition(def: ParamDef)

  /** JavaScript truthiness of an entry: only the empty string is falsy. */
  predicate Truthy(e: Entry) {
    match e
    case Plain(t) => t != ""
    case Definition(_) => true
  }

  /** JavaScript truthiness of `r[t]`: an own entry's truthiness, and for a
      name that is not an own key, whether it is inherited. */
  predicate LooksSet(r: Registry, t: string) {
    if t in r then Truthy(r[t]) else t in Inherited
  }

  /** A task's name-to-entry object (`input_parameters` and its siblings). */
  type Registry = map<string, Entry>

  datatype RegistryKind = InputParameters | ContextVariables | OutputVariables

  datatype FormTask = FormTask(
    description: string,
    agentRole: string,
    expectedOutput: string,
    inputParameters: Registry,
    contextVariables: Registry,
    outputVariables: Registry,
    dependencies: seq<Value>)

  datatype FormAgent = FormAgent(
    role: string,
    goal: string,
    backstory: string,
    verbose: bool,
    provider: string,
    model: string,
    baseUrl: Option<string>,
    apiKey: Option<string>,
    apiVersion: Option<string>,
    allowedTools: Option<seq<string>>)

  datatype Crew = Crew(
    name: string,
    description: string,
    inputVariables: map<string, string>,
    outputVariables: map<string, string>,
    agents: seq<FormAgent>,
    tasks: seq<FormTask>)

  const DefaultProvider: string := "anthropic"
  const DefaultModel: string := "claude-3-5-haiku-20241022"

  /** The value a newly seen placeholder gets. */
  function Placeholder(t: string): (e: Entry)
    ensures Truthy(e)
  {
    Plain("Parameter for " + t)
  }

  // ---------------------------------------------------------------------
  // Description synchronisation

  /** Parameters after a description ending in `}` is applied: the tokens
      that are own keys or not inherited names, each keeping a truthy
      existing value and otherwise getting the placeholder text. */
  function SyncedParameters(existing: Registry, params: seq<string>): Registry {
    map t | t in params && (t in existing || t !in Inherited) ::
      if t in existing && Truthy(existing[t]) then existing[t] else Placeholder(t)
  }

  /** The add pass of the description handler: every token whose lookup is
      falsy gets the placeholder text; inherited names that are not own keys
      look set and are skipped; nothing is removed. */
  method AddPlaceholders(existing: Registry, params: seq<string>) returns (added: Registry)
    ensures forall t :: t in added <==> t in existing || (t in params && t !in Inherited)
    ensures forall t :: t in added ==>
      added[t] == if t in params && !LooksSet(existing, t) then Placeholder(t) else existing[t]
  {
    added := existing;
    var i := 0;
    while i < |params|
      invariant 0 <= i <= |params|
      invariant forall t :: t in added <==> t in existing || (t in params[..i] && t !in Inherited)
      invariant forall t :: t in added ==>
        added[t] == if t in params[..i] && !LooksSet(existing, t) then Placeholder(t) else existing[t]
    {
      var p := params[i];
      if !LooksSet(added, p) {
        added := added[p := Placeholder(p)];
      }
      assert params[..i + 1] == params[..i] + [p];
      i := i + 1;
    }
    assert params[..i] == params;
  }

  /** The delete pass of the description handler: every key that is not a
      token is removed; the rest keep their values. */
  method DropUnlisted(added: Registry, params: seq<string>) returns (kept: Registry)
    ensures forall t :: t in kept <==> t in added && t in params
    ensures forall t :: t in kept ==> kept[t] == added[t]
  {
    kept := added;
    var keys := added.Keys;
    while keys != {}
      invariant forall t :: t in kept <==> t in added && (t in params || t in keys)
      invariant forall t :: t in kept ==> kept[t] == added[t]
      decreases |keys|
    {
      var k :| k in keys;
      if k !in params {
        kept := kept - {k};
      }
      keys := keys - {k};
    }
  }

  /** The add-then-delete passes of the description handler over a copy of
      the task's parameters. */
  method SyncInputParameters(existing: Registry, params: seq<string>) returns (synced: Registry)
    ensures synced == SyncedParameters(existing, params)
  {
    var added := AddPlaceholders(existing, params);
    synced := DropUnlisted(added, params);
    assert synced.Keys == SyncedParameters(existing, params).Keys;
  }

  /** A field of a task that the task change handler sets from text. */
  datatype TaskField = Description | AgentRole | ExpectedOutput

  /** One task after a field is set; a description ending in `}` also
      re-synchronises the input parameters with its tokens. */
  function EditedTask(task: FormTask, field: TaskField, value: string): FormTask {
    match field
    case Description =>
      if EndsWith(value, '}') then
        task.(inputParameters := SyncedParameters(task.inputParameters, Tokens(value)), description := value)
      else task.(description := value)
    case AgentRole => task.(agentRole := value)
    case ExpectedOutput => task.(expectedOutput := value)
  }

  function TaskChanged(crew: Crew, index: nat, field: TaskField, value: string): Crew
    requires index < |crew.tasks|
  {
    crew.(tasks := crew.tasks[index := EditedTask(crew.tasks[index], field, value)])
  }

  /** The task change handler for its text fields. */
  method HandleTaskChange(crew: Crew, index: nat, field: TaskField, value: string) returns (next: Crew)
    requires index < |crew.tasks|
    ensures next == TaskChanged(crew, index, field, value)
  {
    var task := crew.tasks[index];
    if field == Description {
      if EndsWith(value, '}') {
        var params := Tokens(value);
        var synced := SyncInputParameters(task.inputParameters, params);
        task := task.(inputParameters := synced);
      }
      task := task.(description := value);
    } else if field == AgentRole {
      task := task.(agentRole := value);
    } else {
      task := task.(expectedOutput := value);
    }
    next := crew.(tasks := crew.tasks[index := task]);
  }

  /** What the description field stores when the user types `typed`. */
  function DescriptionTyped(crew: Crew, index: nat, typed: string): Crew
    requires index < |crew.tasks|
  {
    TaskChanged(crew, index, Description, AutoBrace(typed))
  }

  /** Setting a field changes that task only, and nothing outside the tasks. */
  lemma TaskChangeIsLocal(crew: Crew, index: nat, field: TaskField, value: string)
    requires index < |crew.tasks|
    ensures var next := TaskChanged(crew, index, field, value);
      |next.tasks| == |crew.tasks| &&
      (forall j :: 0 <= j < |crew.tasks| && j != index ==> next.tasks[j] == crew.tasks[j]) &&
      next.(tasks := crew.tasks) == crew
  {
  }

  /** A description not ending in `}` replaces the description and leaves
      every registry of the task as it was. */
  lemma UnclosedDescriptionKeepsParameters(crew: Crew, index: nat, value: string)
    requires index < |crew.tasks| && !EndsWith(value, '}')
    ensures TaskChanged(crew, index, Description, value).tasks[index] == crew.tasks[index].(description := value)
  {
  }

  /** After a description ending in `}`, the parameter names are the names
      the placeholder pattern finds in it, less the inherited names that were
      not parameters already. */
  lemma ClosedDescriptionKeysAreTokens(crew: Crew, index: nat, value: string)
    requires index < |crew.tasks| && EndsWith(value, '}')
    ensures var old_ := crew.tasks[index].inputParameters;
      forall t :: t in TaskChanged(crew, index, Description, value).tasks[index].inputParameters <==>
        t in Tokens(value) && (t in old_ || t !in Inherited)
  {
  }

  /** `{constructor}` and the other inherited names never become new
      parameters: the handler's lookup finds the inherited member. */
  lemma InheritedTokenNotAdded(crew: Crew, index: nat, value: string, t: string)
    requires index < |crew.tasks| && EndsWith(value, '}')
    requires t in Inherited && t !in crew.tasks[index].inputParameters
    ensures t !in TaskChanged(crew, index, Description, value).tasks[index].inputParameters
  {
  }

  /** A named parameter is kept exactly when it was one or is not an
      inherited name; it keeps a truthy value, and a new one, or one whose
      value was empty, gets the placeholder text. */
  lemma ClosedDescriptionValues(crew: Crew, index: nat, value: string, t: string)
    requires index < |crew.tasks| && EndsWith(value, '}') && t in Tokens(value)
    ensures var old_ := crew.tasks[index].inputParameters;
      var now := TaskChanged(crew, index, Description, value).tasks[index].inputParameters;
      (t in now <==> t in old_ || t !in Inherited) &&
      (t in now ==> now[t] == if t in old_ && Truthy(old_[t]) then old_[t] else Plain("Parameter for " + t))
  {
  }

  /** Synchronising twice with the same names is synchronising once. */
  lemma {:induction false} SyncIdempotent(existing: Registry, params: seq<string>)
    ensures SyncedParameters(SyncedParameters(existing, params), params) == SyncedParameters(existing, params)
  {
    var once := SyncedParameters(existing, params);
    var twice := SyncedParameters(once, params);
    forall t | t in once ensures t in twice && twice[t] == once[t] {
      assert Truthy(once[t]);
    }
  }

  /** Applying the same description twice gives the crew it gives once. */
  lemma DescriptionChangeIdempotent(crew: Crew, index: nat, value: string)
    requires index < |crew.tasks|
    ensures var once := TaskChanged(crew, index, Description, value);
      TaskChanged(once, index, Description, value) == once
  {
    if EndsWith(value, '}') {
      SyncIdempotent(crew.tasks[index].inputParameters, Tokens(value));
    }
  }

  /** Typing `{` after a text with no unfinished placeholder stores the text
      with `{}` appended, and the parameter names stay the placeholders of the
      text before it. */
  lemma TypedBraceAddsNoParameter(crew: Crew, index: nat, before: string)
    requires index < |crew.tasks| && Closed(before)
    ensures var next := DescriptionTyped(crew, index, before + "{");
      next.tasks[index].description == before + "{}" &&
      forall t :: t in next.tasks[index].inputParameters <==>
        t in Tokens(before) && (t in crew.tasks[index].inputParameters || t !in Inherited)
  {
    assert EndsWith(before + "{", '{');
    assert AutoBrace(before + "{") == before + "{}";
    EmptyBracesAddNoToken(before);
    ClosedDescriptionKeysAreTokens(crew, index, before + "{}");
  }

  // ---------------------------------------------------------------------
  // Registry primitives

  function RegistryOf(task: FormTask, kind: RegistryKind): Registry {
    match kind
    case InputParameters => task.inputParameters
    case ContextVariables => task.contextVariables
    case OutputVariables => task.outputVariables
  }

  function WithRegistry(task: FormTask, kind: RegistryKind, reg: Registry): (next: FormTask)
    ensures RegistryOf(next, kind) == reg
    ensures forall other :: other != kind ==> RegistryOf(next, other) == RegistryOf(task, other)
    ensures next.description == task.description
  {
    match kind
    case InputParameters => task.(inputParameters := reg)
    case ContextVariables => task.(contextVariables := reg)
    case OutputVariables => task.(outputVariables := reg)
  }

  /** `{...m}` with `k` deleted and then `k'` set to the value `k` had. */
  function Renamed<V>(m: map<string, V>, k: string, k': string): (r: map<string, V>)
    requires k in m
    ensures k' in r && r[k'] == m[k]
    ensures k != k' ==> k !in r
    ensures forall j :: j != k && j != k' ==> (j in r <==> j in m) && (j in m ==> r[j] == m[j])
  {
    (m - {k})[k' := m[k]]
  }

  /** Renaming back restores the object, when the new name was unused. */
  lemma RenameBack<V>(m: map<string, V>, k: string, k': string)
    requires k in m && (k' !in m || k' == k)
    ensures Renamed(Renamed(m, k, k'), k', k) == m
  {
    var r := Renamed(Renamed(m, k, k'), k', k);
    assert r.Keys == m.Keys;
  }

  /** Sets one entry of one registry of one task. */
  function ParameterChanged(crew: Crew, index: nat, kind: RegistryKind, key: string, value: Entry): Crew
    requires index < |crew.tasks|
  {
    var task := crew.tasks[index];
    crew.(tasks := crew.tasks[index := WithRegistry(task, kind, RegistryOf(task, kind)[key := value])])
  }

  /** Deletes one entry of one registry of one task. */
  function ParameterRemoved(crew: Crew, index: nat, kind: RegistryKind, key: string): Crew
    requires index < |crew.tasks|
  {
    var task := crew.tasks[index];
    crew.(tasks := crew.tasks[index := WithRegistry(task, kind, RegistryOf(task, kind) - {key})])
  }

  /** The add button: an entry with empty name and empty value. */
  function ParameterAdded(crew: Crew, index: nat, kind: RegistryKind): Crew
    requires index < |crew.tasks|
  {
    ParameterChanged(crew, index, kind, "", Plain(""))
  }

  /** Setting, removing or adding an entry touches that registry only. */
  lemma RegistryEditIsLocal(crew: Crew, index: nat, kind: RegistryKind, key: string, value: Entry)
    requires index < |crew.tasks|
    ensures var set_ := ParameterChanged(crew, index, kind, key, value).tasks;
      var removed := ParameterRemoved(crew, index, kind, key).tasks;
      var added := ParameterAdded(crew, index, kind).tasks;
      var reg := RegistryOf(crew.tasks[index], kind);
      |set_| == |removed| == |added| == |crew.tasks| &&
      RegistryOf(set_[index], kind) == reg[key := value] &&
      RegistryOf(removed[index], kind) == reg - {key} &&
      RegistryOf(added[index], kind) == reg["" := Plain("")] &&
      (forall other :: other != kind ==>
        RegistryOf(set_[index], other) == RegistryOf(removed[index], other) ==
        RegistryOf(added[index], other) == RegistryOf(crew.tasks[index], other)) &&
      set_[index].description == removed[index].description == added[index].description == crew.tasks[index].description &&
      (forall j :: 0 <= j < |crew.tasks| && j != index ==> set_[j] == removed[j] == added[j] == crew.tasks[j])
  {
  }

  /** The rename handler of a name field: remove the old entry, set the new
      name to the old value, and (except for output variables) rewrite the
      first `{old}` of the description to `{new}` through the task change
      handler. */
  function ParameterRenamed(crew: Crew, index: nat, kind: RegistryKind, k: string, k': string): Crew
    requires index < |crew.tasks| && k in RegistryOf(crew.tasks[index], kind)
  {
    var task := crew.tasks[index];
    var moved := ParameterChanged(ParameterRemoved(crew, index, kind, k), index, kind, k', RegistryOf(task, kind)[k]);
    if kind == OutputVariables then moved
    else TaskChanged(moved, index, Description, JsReplace(task.description, "{" + k + "}", "{" + k' + "}"))
  }

  /** The delete button: remove the entry and (except for output variables)
      strip the first `{k}` from the description through the task change
      handler. */
  function ParameterDeleted(crew: Crew, index: nat, kind: RegistryKind, k: string): Crew
    requires index < |crew.tasks|
  {
    var task := crew.tasks[index];
    var removed := ParameterRemoved(crew, index, kind, k);
    if kind == OutputVariables then removed
    // The empty replacement holds no `$` pattern: `replace` is literal here.
    else TaskChanged(removed, index, Description, ReplaceFirst(task.description, "{" + k + "}", ""))
  }

  /** A rename moves the value to the new name and drops the old one; the
      description has its first `{k}` rewritten. The renamed registry is
      re-synchronised afterwards only when it is the input parameters and the
      new description ends in `}`. */
  lemma RenameMovesValue(crew: Crew, index: nat, kind: RegistryKind, k: string, k': string)
    requires index < |crew.tasks| && k in RegistryOf(crew.tasks[index], kind)
    ensures var task := crew.tasks[index];
      var next := ParameterRenamed(crew, index, kind, k, k');
      var desc := JsReplace(task.description, "{" + k + "}", "{" + k' + "}");
      var moved := Renamed(RegistryOf(task, kind), k, k');
      |next.tasks| == |crew.tasks| &&
      (forall j :: 0 <= j < |crew.tasks| && j != index ==> next.tasks[j] == crew.tasks[j]) &&
      (kind == OutputVariables ==> next.tasks[index] == WithRegistry(task, kind, moved)) &&
      (kind == ContextVariables ==>
        next.tasks[index] == EditedTask(WithRegistry(task, kind, moved), Description, desc)) &&
      (kind == InputParameters && !EndsWith(desc, '}') ==>
        next.tasks[index] == task.(inputParameters := moved, description := desc)) &&
      (kind == InputParameters && EndsWith(desc, '}') ==>
        next.tasks[index] == task.(inputParameters := SyncedParameters(moved, Tokens(desc)), description := desc))
  {
  }

  /** Deleting removes the entry and the first `{k}` of the description; for
      input parameters a description still ending in `}` is re-synchronised,
      so a second `{k}` brings `k` back. */
  lemma DeleteRemovesEntry(crew: Crew, index: nat, kind: RegistryKind, k: string)
    requires index < |crew.tasks|
    ensures var task := crew.tasks[index];
      var next := ParameterDeleted(crew, index, kind, k);
      var desc := ReplaceFirst(task.description, "{" + k + "}", "");
      var pruned := RegistryOf(task, kind) - {k};
      |next.tasks| == |crew.tasks| &&
      (forall j :: 0 <= j < |crew.tasks| && j != index ==> next.tasks[j] == crew.tasks[j]) &&
      (kind == OutputVariables ==> next.tasks[index] == WithRegistry(task, kind, pruned)) &&
      (kind == ContextVariables ==> next.tasks[index] == EditedTask(WithRegistry(task, kind, pruned), Description, desc)) &&
      (kind == InputParameters && !EndsWith(desc, '}') ==>
        next.tasks[index] == task.(inputParameters := pruned, description := desc)) &&
      (kind == InputParameters && EndsWith(desc, '}') ==>
        next.tasks[index] == task.(inputParameters := SyncedParameters(pruned, Tokens(desc)), description := desc))
  {
  }

  /** A text not ending in `}` still does not after its first `{k}` is
      rewritten: the occurrence cannot be at the very end. */
  lemma ReplaceKeepsUnclosedEnd(s: string, k: string, r: string)
    requires !EndsWith(s, '}')
    ensures !EndsWith(ReplaceFirst(s, "{" + k + "}", r), '}')
  {
    var p := "{" + k + "}";
    match IndexOf(s, p)
    case None =>
    case Some(i) =>
      var e := i + |p|;
      assert s[e - 1] == '}' by {
        assert s[i..e] == p;
        assert s[i..e][|p| - 1] == s[e - 1];
      }
      assert e < |s|;
      var t := s[..i] + (r + s[e..]);
      assert |t| > 0 && t[|t| - 1] == s[|s| - 1] by {
        assert t[|t| - 1] == s[e..][|s| - e - 1];
      }
  }

  /** A rename changes only the renamed task: its registry gets the new name
      with the old value, and (except for output variables) the first `{k}`
      of its description becomes `{k'}`, which leaves the parameters as they
      are when the new description does not end in `}`. */
  lemma RenamedTask(crew: Crew, index: nat, kind: RegistryKind, k: string, k': string)
    requires index < |crew.tasks| && k in RegistryOf(crew.tasks[index], kind)
    requires kind != OutputVariables ==>
      !EndsWith(JsReplace(crew.tasks[index].description, "{" + k + "}", "{" + k' + "}"), '}')
    ensures var there := ParameterRenamed(crew, index, kind, k, k');
      var task := crew.tasks[index];
      var renamed := WithRegistry(task, kind, Renamed(RegistryOf(task, kind), k, k'));
      there == crew.(tasks := crew.tasks[index :=
        if kind == OutputVariables then renamed
        else renamed.(description := JsReplace(task.description, "{" + k + "}", "{" + k' + "}"))])
  {
  }

  /** Renaming an input parameter or context variable and renaming it back
      restores the crew, when the new name was unused, holds no `{`, does not
      already appear braced in the description, neither name holds a `$`
      (from which `replace` may build a pattern), and the description does not end in
      `}`. Output variables always round-trip. */
  lemma RenameRoundTrip(crew: Crew, index: nat, kind: RegistryKind, k: string, k': string)
    requires index < |crew.tasks| && k in RegistryOf(crew.tasks[index], kind)
    requires k' !in RegistryOf(crew.tasks[index], kind)
    requires kind != OutputVariables ==>
      var desc := crew.tasks[index].description;
      !EndsWith(desc, '}') && '{' !in k' && !Contains(desc, "{" + k' + "}") && '$' !in k && '$' !in k'
    ensures var there := ParameterRenamed(crew, index, kind, k, k');
      k' in RegistryOf(there.tasks[index], kind) &&
      ParameterRenamed(there, index, kind, k', k) == crew
  {
    var task := crew.tasks[index];
    var reg := RegistryOf(task, kind);
    var desc := ReplaceFirst(task.description, "{" + k + "}", "{" + k' + "}");
    if kind != OutputVariables {
      assert '$' !in "{" + k' + "}" && '$' !in "{" + k + "}";
      JsReplaceLiteral(task.description, "{" + k + "}", "{" + k' + "}");
      JsReplaceLiteral(desc, "{" + k' + "}", "{" + k + "}");
      ReplaceKeepsUnclosedEnd(task.description, k, "{" + k' + "}");
      ReplaceFirstUndo(task.description, k, k');
    }
    RenamedTask(crew, index, kind, k, k');
    var there := ParameterRenamed(crew, index, kind, k, k');
    var mid := there.tasks[index];
    assert RegistryOf(mid, kind) == Renamed(reg, k, k');
    assert kind != OutputVariables ==> mid.description == desc;
    RenamedTask(there, index, kind, k', k);
    RenameBack(reg, k, k');
    var back := ParameterRenamed(there, index, kind, k', k);
    assert back.tasks[index] == task;
    assert back.tasks == crew.tasks;
  }

  /** Stripping the first of two placeholders `{k} {k}` leaves ` {k}`, whose
      one token is `k`. */
  lemma StripFirstOfTwoPlaceholders(k: string)
    requires |k| >= 1 && '}' !in k
    ensures var p := "{" + k + "}";
      ReplaceFirst(p + " " + p, p, "") == " " + p &&
      EndsWith(" " + p, '}') && Tokens(" " + p) == [k]
  {
    var p := "{" + k + "}";
    var s := p + " " + p;
    assert s[0..|p|] == p;
    assert OccursAt(s, p, 0);
    assert IndexOf(s, p) == Some(0);
    assert s[|p|..] == " " + p;
    assert " " + p == " " + (p + "");
    BracedHead(k, "");
    PlainPrefix(" ", p + "");
  }

  /** A delete whose stripped description still ends in `}` and names `k`
      alone leaves exactly `k`, with the placeholder text. */
  lemma DeleteLeavingOneToken(crew: Crew, index: nat, k: string, desc: string)
    requires index < |crew.tasks|
    requires ReplaceFirst(crew.tasks[index].description, "{" + k + "}", "") == desc
    requires EndsWith(desc, '}') && Tokens(desc) == [k]
    ensures var next := ParameterDeleted(crew, index, InputParameters, k);
      next.tasks[index].description == desc &&
      next.tasks[index].inputParameters == if k in Inherited then map[] else map[k := Placeholder(k)]
  {
    var task := crew.tasks[index];
    var pruned := task.inputParameters - {k};
    var removed := ParameterRemoved(crew, index, InputParameters, k);
    assert removed.tasks[index] == task.(inputParameters := pruned);
    var next := TaskChanged(removed, index, Description, desc);
    assert next == ParameterDeleted(crew, index, InputParameters, k);
    assert next.tasks[index] == task.(inputParameters := SyncedParameters(pruned, [k]), description := desc);
    SyncedSingle(pruned, k);
  }

  /** Synchronising with one token that is not a parameter adds it with the
      placeholder text, unless it is an inherited name. */
  lemma SyncedSingle(existing: Registry, k: string)
    requires k !in existing
    ensures SyncedParameters(existing, [k]) == if k in Inherited then map[] else map[k := Placeholder(k)]
  {
    if k in Inherited {
      assert SyncedParameters(existing, [k]).Keys == {};
    } else {
      assert SyncedParameters(existing, [k]).Keys == {k};
    }
  }

  /** Deleting a parameter whose placeholder appears twice strips only the
      first one; the description still ends in `}`, so the parameter comes
      back with the placeholder text instead of its old value. */
  lemma DeleteWithRepeatedPlaceholderReAdds(crew: Crew, index: nat, k: string)
    requires index < |crew.tasks| && |k| >= 1 && '}' !in k
    requires crew.tasks[index].description == "{" + k + "} {" + k + "}"
    ensures var next := ParameterDeleted(crew, index, InputParameters, k);
      next.tasks[index].description == " {" + k + "}" &&
      next.tasks[index].inputParameters == if k in Inherited then map[] else map[k := Placeholder(k)]
  {
    var p := "{" + k + "}";
    assert crew.tasks[index].description == p + " " + p;
    assert " {" + k + "}" == " " + p;
    StripFirstOfTwoPlaceholders(k);
    DeleteLeavingOneToken(crew, index, k, " " + p);
  }

  // ---------------------------------------------------------------------
  // Crew-level variables

  datatype CrewVarKind = CrewInputs | CrewOutputs

  function CrewVarsOf(crew: Crew, kind: CrewVarKind): map<string, string> {
    match kind
    case CrewInputs => crew.inputVariables
    case CrewOutputs => crew.outputVariables
  }

  function WithCrewVars(crew: Crew, kind: CrewVarKind, vars: map<string, string>): (next: Crew)
    ensures CrewVarsOf(next, kind) == vars
    ensures forall other :: other != kind ==> CrewVarsOf(next, other) == CrewVarsOf(crew, other)
    ensures next.tasks == crew.tasks && next.agents == crew.agents
    ensures next.name == crew.name && next.description == crew.description
  {
    match kind
    case CrewInputs => crew.(inputVariables := vars)
    case CrewOutputs => crew.(outputVariables := vars)
  }

  /** The add button: the empty name with the empty description. */
  function CrewVarAdded(crew: Crew, kind: CrewVarKind): (next: Crew)
    ensures "" in CrewVarsOf(next, kind) && CrewVarsOf(next, kind)[""] == ""
    ensures forall j :: j != "" ==> (j in CrewVarsOf(next, kind) <==> j in CrewVarsOf(crew, kind))
    ensures forall j :: j != "" && j in CrewVarsOf(crew, kind) ==> CrewVarsOf(next, kind)[j] == CrewVarsOf(crew, kind)[j]
  {
    WithCrewVars(crew, kind, CrewVarsOf(crew, kind)["" := ""])
  }

  /** The name field: the entry `k` is deleted from a copy and its
      description assigned under `k'`. Assigning the new name `__proto__`
      goes through the inherited setter, so the variable is lost; any other
      new name takes the description over. */
  function CrewVarRenamed(crew: Crew, kind: CrewVarKind, k: string, k': string): (next: Crew)
    requires k in CrewVarsOf(crew, kind)
    ensures var vars := CrewVarsOf(crew, kind);
      CrewVarsOf(next, kind) == if k' == ProtoKey && k' !in vars - {k} then vars - {k} else Renamed(vars, k, k')
    ensures forall other :: other != kind ==> CrewVarsOf(next, other) == CrewVarsOf(crew, other)
    ensures next.(inputVariables := crew.inputVariables, outputVariables := crew.outputVariables) == crew
  {
    var vars := CrewVarsOf(crew, kind);
    WithCrewVars(crew, kind, Assigned(vars - {k}, k', vars[k]))
  }

  /** The description field of the entry named `k`: an assignment, which
      for a name that is not an own key stores nothing only when that name
      is `__proto__`. */
  function CrewVarSet(crew: Crew, kind: CrewVarKind, k: string, v: string): (next: Crew)
    ensures k in CrewVarsOf(next, kind) <==> k in CrewVarsOf(crew, kind) || k != ProtoKey
    ensures k in CrewVarsOf(next, kind) ==> CrewVarsOf(next, kind)[k] == v
    ensures forall j :: j != k ==> (j in CrewVarsOf(next, kind) <==> j in CrewVarsOf(crew, kind))
    ensures forall j :: j != k && j in CrewVarsOf(crew, kind) ==> CrewVarsOf(next, kind)[j] == CrewVarsOf(crew, kind)[j]
  {
    WithCrewVars(crew, kind, Assigned(CrewVarsOf(crew, kind), k, v))
  }

  /** The delete button of the entry named `k`. */
  function CrewVarDeleted(crew: Crew, kind: CrewVarKind, k: string): (next: Crew)
    ensures k !in CrewVarsOf(next, kind)
    ensures forall j :: j != k ==> (j in CrewVarsOf(next, kind) <==> j in CrewVarsOf(crew, kind))
    ensures forall j :: j != k && j in CrewVarsOf(crew, kind) ==> CrewVarsOf(next, kind)[j] == CrewVarsOf(crew, kind)[j]
  {
    WithCrewVars(crew, kind, CrewVarsOf(crew, kind) - {k})
  }

  /** Renaming a crew variable to an unused name and back restores the
      crew, unless one of the two names is `__proto__`: renaming to it loses
      the variable at once, and renaming back to it loses it then. */
  lemma CrewVarRenameRoundTrip(crew: Crew, kind: CrewVarKind, k: string, k': string)
    requires k in CrewVarsOf(crew, kind) && k' !in CrewVarsOf(crew, kind)
    ensures k' == ProtoKey ==> CrewVarsOf(CrewVarRenamed(crew, kind, k, k'), kind) == CrewVarsOf(crew, kind) - {k}
    ensures k' != ProtoKey ==>
      CrewVarRenamed(CrewVarRenamed(crew, kind, k, k'), kind, k', k) ==
        if k == ProtoKey then WithCrewVars(crew, kind, CrewVarsOf(crew, kind) - {k}) else crew
  {
    var vars := CrewVarsOf(crew, kind);
    if k' != ProtoKey {
      assert k != k';
      var mid := CrewVarRenamed(crew, kind, k, k');
      assert CrewVarsOf(mid, kind) == Renamed(vars, k, k');
      if k != ProtoKey {
        RenameBack(vars, k, k');
      } else {
        assert k !in Renamed(vars, k, k') - {k'};
        assert CrewVarsOf(CrewVarRenamed(mid, kind, k', k), kind) == vars - {k};
      }
    }
  }

  // ---------------------------------------------------------------------
  // Tasks and agents

  /** A task as the add button creates it. */
  const BlankTask: FormTask := FormTask("", "", "", map[], map[], map[], [])

  /** An agent as the add button creates it; the create page's agent has no
      tool list, the edit page's an empty one. */
  function BlankAgent(withTools: bool): FormAgent {
    FormAgent("", "", "", true, DefaultProvider, DefaultModel, None, None, None,
      if withTools then Some([]) else None)
  }

  function TaskAdded(crew: Crew): (next: Crew)
    ensures |next.tasks| == |crew.tasks| + 1
    ensures next.tasks[..|crew.tasks|] == crew.tasks && next.tasks[|crew.tasks|] == BlankTask
    ensures next.(tasks := crew.tasks) == crew
  {
    crew.(tasks := crew.tasks + [BlankTask])
  }

  function AgentAdded(crew: Crew, withTools: bool): (next: Crew)
    ensures |next.agents| == |crew.agents| + 1
    ensures next.agents[..|crew.agents|] == crew.agents && next.agents[|crew.agents|] == BlankAgent(withTools)
    ensures next.(agents := crew.agents) == crew
  {
    crew.(agents := crew.agents + [BlankAgent(withTools)])
  }

  /** `s.filter((_, i) => i !== index)`. */
  function WithoutIndex<T>(s: seq<T>, index: int): (r: seq<T>)
    ensures |r| == if 0 <= index < |s| then |s| - 1 else |s|
    decreases |s|
  {
    if s == [] then []
    else (if index == 0 then [] else [s[0]]) + WithoutIndex(s[1..], index - 1)
  }

  /** Each element the filter keeps is the one at the same position before
      `index` and the next one from `index` on. */
  lemma {:induction false} WithoutIndexAt<T>(s: seq<T>, index: int, j: nat)
    requires j < |WithoutIndex(s, index)|
    ensures WithoutIndex(s, index)[j] == if 0 <= index <= j then s[j + 1] else s[j]
    decreases |s|
  {
    var rest := WithoutIndex(s[1..], index - 1);
    if index == 0 {
      assert WithoutIndex(s, index) == rest;
      WithoutIndexAt(s[1..], index - 1, j);
    } else if j > 0 {
      assert WithoutIndex(s, index) == [s[0]] + rest;
      WithoutIndexAt(s[1..], index - 1, j - 1);
    }
  }

  /** The filter keeps every other element, in order: the element at `index`
      is cut out, and an index outside the list removes nothing. */
  lemma WithoutIndexIsSplice<T>(s: seq<T>, index: int)
    ensures 0 <= index < |s| ==> WithoutIndex(s, index) == s[..index] + s[index + 1..]
    ensures !(0 <= index < |s|) ==> WithoutIndex(s, index) == s
  {
    var w := WithoutIndex(s, index);
    if 0 <= index < |s| {
      var t := s[..index] + s[index + 1..];
      forall j | 0 <= j < |w| ensures w[j] == t[j] {
        WithoutIndexAt(s, index, j);
      }
      assert w == t;
    } else {
      forall j | 0 <= j < |w| ensures w[j] == s[j] {
        WithoutIndexAt(s, index, j);
      }
      assert w == s;
    }
  }

  function TaskRemoved(crew: Crew, index: int): (next: Crew)
    ensures next.(tasks := crew.tasks) == crew
  {
    crew.(tasks := WithoutIndex(crew.tasks, index))
  }

  function AgentRemoved(crew: Crew, index: int): (next: Crew)
    ensures next.(agents := crew.agents) == crew
  {
    crew.(agents := WithoutIndex(crew.agents, index))
  }
}
