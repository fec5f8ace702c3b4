/** The payloads the create and the edit page send on submit. Each name-to-value
    object is turned into a name-to-definition object whose definitions carry
    the name again, type `string` and `required` true. */
module FormSubmit {
  import opened Wrappers
  import opened Values
  import opened CrewForm

  /** `{name, description, type, required}` as the pages build it. */
  datatype VariableDef<V> = VariableDef(name: string, description: V, kind: string, required: bool)

  /** The `Object.entries(..).reduce(..)` wrapping of one object. */
  function Wrapped<V>(m: map<string, V>): map<string, VariableDef<V>> {
    map k | k in m :: VariableDef(k, m[k], "string", true)
  }

  /** The `description` field of each definition of a wrapped object. */
  function Unwrapped<V>(w: map<string, VariableDef<V>>): map<string, V> {
    map k | k in w :: w[k].description
  }

  /** Every definition of a wrapped object names its own key, is of type
      `string` and required, and their descriptions are the object's values. */
  lemma WrapRoundTrip<V>(m: map<string, V>)
    ensures Wrapped(m).Keys == m.Keys
    ensures forall k :: k in Wrapped(m) ==>
      Wrapped(m)[k].name == k && Wrapped(m)[k].kind == "string" && Wrapped(m)[k].required
    ensures Unwrapped(Wrapped(m)) == m
  {
    var w := Wrapped(m);
    assert Unwrapped(w).Keys == m.Keys;
  }

  /** A task registry in a payload: sent as it is (edit page) or wrapped
      (create page). */
  datatype Sent = Raw(entry: Entry) | Described(def: VariableDef<Entry>)

  datatype LlmPayload = LlmPayload(
    provider: string,
    model: string,
    baseUrl: Option<string>,
    apiKey: Option<string>,
    apiVersion: Option<string>)

  datatype AgentPayload = AgentPayload(
    role: string,
    goal: string,
    backstory: string,
    verbose: bool,
    llmConfig: LlmPayload,
    allowedTools: seq<string>)

  datatype TaskPayload = TaskPayload(
    description: string,
    agentRole: string,
    expectedOutput: string,
    inputParameters: map<string, Sent>,
    contextVariables: map<string, Sent>,
    outputVariables: map<string, Sent>,
    dependencies: seq<Value>)

  datatype CrewPayload = CrewPayload(
    name: string,
    description: string,
    inputVariables: map<string, VariableDef<string>>,
    outputVariables: map<string, VariableDef<string>>,
    agents: seq<AgentPayload>,
    tasks: seq<TaskPayload>)

  /** An agent's flat LLM fields gathered into `llm_config`; a missing tool
      list is sent as empty. */
  function AgentSubmitted(a: FormAgent): AgentPayload {
    AgentPayload(a.role, a.goal, a.backstory, a.verbose,
      LlmPayload(a.provider, a.model, a.baseUrl, a.apiKey, a.apiVersion),
      a.allowedTools.GetOr([]))
  }

  /** The inverse of the gathering, for an agent that has a tool list. */
  function AgentEdited(p: AgentPayload): FormAgent {
    FormAgent(p.role, p.goal, p.backstory, p.verbose, p.llmConfig.provider, p.llmConfig.model,
      p.llmConfig.baseUrl, p.llmConfig.apiKey, p.llmConfig.apiVersion, Some(p.allowedTools))
  }

  lemma AgentSubmitRoundTrip(a: FormAgent)
    requires a.allowedTools.Some?
    ensures AgentEdited(AgentSubmitted(a)) == a
  {
  }

  function RawRegistry(reg: Registry): map<string, Sent> {
    map k | k in reg :: Raw(reg[k])
  }

  function DescribedRegistry(reg: Registry): map<string, Sent> {
    map k | k in reg :: Described(VariableDef(k, reg[k], "string", true))
  }

  /** The create page wraps every registry of every task. */
  function CreateTask(t: FormTask): TaskPayload {
    TaskPayload(t.description, t.agentRole, t.expectedOutput,
      DescribedRegistry(t.inputParameters), DescribedRegistry(t.contextVariables),
      DescribedRegistry(t.outputVariables), t.dependencies)
  }

  /** The edit page sends the registries of a task as they are. */
  function EditTask(t: FormTask): TaskPayload {
    TaskPayload(t.description, t.agentRole, t.expectedOutput,
      RawRegistry(t.inputParameters), RawRegistry(t.contextVariables),
      RawRegistry(t.outputVariables), t.dependencies)
  }

  /** The create page's payload: all five kinds of registry wrapped. */
  function CreateSubmission(crew: Crew): (p: CrewPayload)
    ensures |p.agents| == |crew.agents| && |p.tasks| == |crew.tasks|
  {
    CrewPayload(crew.name, crew.description,
      Wrapped(crew.inputVariables), Wrapped(crew.outputVariables),
      seq(|crew.agents|, i requires 0 <= i < |crew.agents| => AgentSubmitted(crew.agents[i])),
      seq(|crew.tasks|, i requires 0 <= i < |crew.tasks| => CreateTask(crew.tasks[i])))
  }

  /** The edit page's payload: only the crew-level objects are wrapped. */
  function EditSubmission(crew: Crew): (p: CrewPayload)
    ensures |p.agents| == |crew.agents| && |p.tasks| == |crew.tasks|
  {
    CrewPayload(crew.name, crew.description,
      Wrapped(crew.inputVariables), Wrapped(crew.outputVariables),
      seq(|crew.agents|, i requires 0 <= i < |crew.agents| => AgentSubmitted(crew.agents[i])),
      seq(|crew.tasks|, i requires 0 <= i < |crew.tasks| => EditTask(crew.tasks[i])))
  }

  /** The form value a sent registry entry carries: the entry itself, or the
      `description` field of the definition wrapping it. */
  function Carried(s: Sent): Entry {
    match s
    case Raw(e) => e
    case Described(d) => d.description
  }

  function CarriedRegistry(m: map<string, Sent>): Registry {
    map k | k in m :: Carried(m[k])
  }

  /** On creation every task registry entry `k -> v` is sent as a required
      string definition named `k` describing `v`, with the same names, so the
      payload carries every value of the form's registries. */
  lemma CreateSubmissionWrapsEveryRegistry(crew: Crew, i: nat, kind: RegistryKind)
    requires i < |crew.tasks|
    ensures var sent := SentRegistry(CreateSubmission(crew).tasks[i], kind);
      var reg := RegistryOf(crew.tasks[i], kind);
      sent.Keys == reg.Keys &&
      (forall k :: k in sent ==> sent[k] == Described(VariableDef(k, reg[k], "string", true))) &&
      CarriedRegistry(sent) == reg
  {
    var sent := SentRegistry(CreateSubmission(crew).tasks[i], kind);
    assert CarriedRegistry(sent).Keys == RegistryOf(crew.tasks[i], kind).Keys;
  }

  /** On edit the task registries are sent unwrapped, each value as it is. */
  lemma EditSubmissionSendsRegistriesRaw(crew: Crew, i: nat, kind: RegistryKind)
    requires i < |crew.tasks|
    ensures var sent := SentRegistry(EditSubmission(crew).tasks[i], kind);
      var reg := RegistryOf(crew.tasks[i], kind);
      (forall k :: k in sent <==> k in reg) &&
      (forall k :: k in sent ==> sent[k] == Raw(reg[k])) &&
      CarriedRegistry(sent) == reg
  {
    var sent := SentRegistry(EditSubmission(crew).tasks[i], kind);
    assert CarriedRegistry(sent).Keys == RegistryOf(crew.tasks[i], kind).Keys;
  }

  /** Both pages wrap the crew-level objects the same way. */
  lemma CrewVariablesWrappedOnBothPages(crew: Crew)
    ensures CreateSubmission(crew).inputVariables == EditSubmission(crew).inputVariables == Wrapped(crew.inputVariables)
    ensures CreateSubmission(crew).outputVariables == EditSubmission(crew).outputVariables == Wrapped(crew.outputVariables)
    ensures Unwrapped(CreateSubmission(crew).inputVariables) == crew.inputVariables
    ensures Unwrapped(CreateSubmission(crew).outputVariables) == crew.outputVariables
  {
    WrapRoundTrip(crew.inputVariables);
    WrapRoundTrip(crew.outputVariables);
  }

  function SentRegistry(t: TaskPayload, kind: RegistryKind): map<string, Sent> {
    match kind
    case InputParameters => t.inputParameters
    case ContextVariables => t.contextVariables
    case OutputVariables => t.outputVariables
  }
}
