/** The edit page's load step: the crew read back from the backend turned
    into the editor's crew value, with JavaScript `||` fallbacks for every
    field. */
module FormLoad {
  import opened Wrappers
  import opened ODict
  import opened Values
  import opened Template
  import opened CrewForm
  import opened FormSubmit
  import CrewStore

  /** JavaScript `s || fallback` for a string: the empty string is falsy. */
  function OrText(s: string, fallback: string): string {
    if s == "" then fallback else s
  }

  /** JavaScript `s || null` for an optional string. */
  function OrNull(s: Option<string>): Option<string> {
    if s.Some? && s.value != "" then s else None
  }

  /** A stored definition dictionary as the object the page holds: each name
      mapped to its definition object. */
  function DefinitionEntries(d: Dict<ParamDef>): Registry {
    GetKeys(d);
    map k | k in Keys(d) :: Definition(Get(d, k).value)
  }

  /** One agent of the response. The response carries no tool list, and
      `verbose || true` is `true` whatever was stored. */
  function LoadedAgent(a: CrewStore.AgentView): FormAgent {
    FormAgent(
      OrText(a.role, ""), OrText(a.goal, ""), OrText(a.backstory, ""),
      a.verbose || true,
      OrText(a.llm.provider, DefaultProvider), OrText(a.llm.model, DefaultModel),
      OrNull(a.llm.baseUrl), OrNull(a.llm.apiKey), OrNull(a.llm.apiVersion),
      Some([]))
  }

  /** One task of the response. The response carries no output variables. */
  function LoadedTask(t: CrewStore.TaskView): FormTask {
    FormTask(
      OrText(t.description, ""), OrText(t.agentRole, ""), OrText(t.expectedOutput.GetOr(""), ""),
      DefinitionEntries(t.inputParameters), DefinitionEntries(t.contextVariables), map[],
      seq(|t.dependencies|, i requires 0 <= i < |t.dependencies| => Int(t.dependencies[i])))
  }

  /** The crew value the edit page starts from. The response carries no
      crew-level variables, so both objects start empty. */
  function Loaded(v: CrewStore.CrewView): (c: Crew)
    ensures |c.agents| == |v.agents| && |c.tasks| == |v.tasks|
  {
    Crew(OrText(v.name, ""), OrText(v.description, ""), map[], map[],
      seq(|v.agents|, i requires 0 <= i < |v.agents| => LoadedAgent(v.agents[i])),
      seq(|v.tasks|, i requires 0 <= i < |v.tasks| => LoadedTask(v.tasks[i])))
  }

  /** Every loaded agent is verbose, including one stored as not verbose. */
  lemma LoadedAgentsAreVerbose(v: CrewStore.CrewView, i: nat)
    requires i < |v.agents|
    ensures Loaded(v).agents[i].verbose
    ensures !v.agents[i].verbose ==> Loaded(v).agents[i].verbose != v.agents[i].verbose
  {
  }

  /** Loading an agent and submitting it again sends back what was stored,
      with an empty tool list, as long as it was verbose, had a provider and
      a model, and no empty optional LLM field. */
  lemma AgentLoadSubmitRoundTrip(a: CrewStore.AgentView)
    requires a.verbose && a.llm.provider != "" && a.llm.model != ""
    requires a.llm.baseUrl != Some("") && a.llm.apiKey != Some("") && a.llm.apiVersion != Some("")
    ensures AgentSubmitted(LoadedAgent(a)) ==
      AgentPayload(a.role, a.goal, a.backstory, a.verbose,
        LlmPayload(a.llm.provider, a.llm.model, a.llm.baseUrl, a.llm.apiKey, a.llm.apiVersion), [])
  {
  }

  /** An agent with no provider or model is loaded with the defaults. */
  lemma MissingModelLoadsDefaults(a: CrewStore.AgentView)
    requires a.llm.provider == "" && a.llm.model == ""
    ensures LoadedAgent(a).provider == "anthropic" && LoadedAgent(a).model == "claude-3-5-haiku-20241022"
  {
  }

  /** A loaded task's input parameters and context variables hold exactly
      the stored names, each with its stored definition. */
  lemma LoadedRegistries(t: CrewStore.TaskView, k: string)
    ensures k in LoadedTask(t).inputParameters <==> k in Keys(t.inputParameters)
    ensures k in LoadedTask(t).contextVariables <==> k in Keys(t.contextVariables)
    ensures k in LoadedTask(t).inputParameters ==>
      Get(t.inputParameters, k) == Some(LoadedTask(t).inputParameters[k].def)
    ensures LoadedTask(t).outputVariables == map[]
  {
    GetSpec(t.inputParameters, k);
  }

  /** Editing a loaded description keeps the stored definition of every
      parameter that is still named: definitions are truthy, so the
      synchronisation leaves them in place. */
  lemma LoadedDefinitionsSurviveEdit(v: CrewStore.CrewView, index: nat, value: string, t: string)
    requires index < |v.tasks| && EndsWith(value, '}') && t in Tokens(value)
    requires Get(v.tasks[index].inputParameters, t).Some?
    ensures var now := TaskChanged(Loaded(v), index, Description, value).tasks[index].inputParameters;
      t in now && now[t] == Definition(Get(v.tasks[index].inputParameters, t).value)
  {
    GetSpec(v.tasks[index].inputParameters, t);
    var crew := Loaded(v);
    assert crew.tasks[index] == LoadedTask(v.tasks[index]);
    assert t in crew.tasks[index].inputParameters;
    ClosedDescriptionValues(crew, index, value, t);
  }
}
