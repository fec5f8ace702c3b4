/** Creating a crew from a request and reading it back: the validation rules of
    the create endpoint, the rows it writes, and the view the read endpoint
    builds from them. Dictionaries keep insertion order (`ODict`); the JSON
    columns hold the structured value they encode. */
module CrewStore {
  import opened Wrappers
  import opened Text
  import opened ODict
  import opened Values

  /** A parameter definition as the request model parses it: every field has
      a value, `type` defaulting to `string`, `required` to true and
      `default` to None. */
  datatype ParameterDefinition = ParameterDefinition(
    name: string, description: string, kind: string, required: bool, default: Value)

  /** `.dict()` writes every field, so a stored definition always has the
      `required` and `default` keys. */
  function StoredDef(d: ParameterDefinition): (p: ParamDef)
    ensures p.name == d.name && p.description == d.description && p.kind == d.kind
    ensures p.required == Some(d.required) && p.default == Some(d.default)
  {
    ParamDef(d.name, d.description, d.kind, Some(d.required), Some(d.default))
  }

  /** `{k: v.dict() for k, v in defs.items()}`. */
  function StoredDefs(defs: Dict<ParameterDefinition>): (r: Dict<ParamDef>)
    ensures |r| == |defs|
  {
    if defs == [] then [] else [(defs[0].0, StoredDef(defs[0].1))] + StoredDefs(defs[1..])
  }

  /** Each stored entry is the request's entry under the same name, written
      by `.dict()`. */
  lemma {:induction false} StoredDefsAt(defs: Dict<ParameterDefinition>, i: nat)
    requires i < |defs|
    ensures StoredDefs(defs)[i] == (defs[i].0, StoredDef(defs[i].1))
  {
    if i > 0 {
      StoredDefsAt(defs[1..], i - 1);
    }
  }

  datatype LlmConfig = LlmConfig(
    provider: string,
    model: string,
    baseUrl: Option<string>,
    apiKey: Option<string>,
    apiVersion: Option<string>)

  /** `LLMConfig()`: the configuration of an agent sent without one. */
  const DefaultLlmConfig: LlmConfig := LlmConfig("anthropic", "claude-3-5-haiku-20241022", None, None, None)

  datatype AgentConfig = AgentConfig(
    role: string, goal: string, backstory: string, verbose: bool, llmConfig: Option<LlmConfig>)

  datatype TaskConfig = TaskConfig(
    description: string,
    agentRole: string,
    expectedOutput: Option<string>,
    inputParameters: Option<Dict<ParameterDefinition>>,
    contextVariables: Option<Dict<ParameterDefinition>>,
    dependencies: Option<seq<int>>,
    outputVariables: Option<Dict<ParameterDefinition>>)

  datatype CrewConfig = CrewConfig(
    name: string,
    description: string,
    agents: seq<AgentConfig>,
    tasks: seq<TaskConfig>,
    inputVariables: Option<Dict<ParameterDefinition>>,
    outputVariables: Option<Dict<ParameterDefinition>>)

  datatype AgentRow = AgentRow(
    id: nat, role: string, goal: string, backstory: string, verbose: bool, llm: LlmConfig)

  /** A task row; `agent` is the position of its agent among the crew's agent
      rows. */
  datatype TaskRow = TaskRow(
    id: nat,
    description: string,
    expectedOutput: Option<string>,
    inputParameters: Option<Dict<ParamDef>>,
    contextVariables: Option<Dict<ParamDef>>,
    dependencies: Option<seq<int>>,
    outputVariables: Option<Dict<ParamDef>>,
    agent: nat)

  /** What one create writes: the crew row, one agent row per agent in the
      request, the agents associated with the crew (positions among the agent
      rows, in association order) and one task row per task. */
  datatype StoredCrew = StoredCrew(
    id: nat, name: string, description: string,
    agents: seq<AgentRow>, members: seq<nat>, tasks: seq<TaskRow>)

  /** The ids the database hands out: the crew's, then consecutive ones for
      the agent rows and for the task rows. */
  datatype Ids = Ids(crew: nat, firstAgent: nat, firstTask: nat)

  /** The rejections of the create endpoint. Both are raised as 400s inside
      its `try`, whose catch-all turns each into a 500 with the text `400: `
      before the message. */
  datatype CreateError = NameTaken | AgentRoleNotFound(role: string)

  // ---------------------------------------------------------------------
  // Specification of the create endpoint

  function AgentRowOf(a: AgentConfig, id: nat): AgentRow {
    AgentRow(id, a.role, a.goal, a.backstory, a.verbose, a.llmConfig.GetOr(DefaultLlmConfig))
  }

  function AgentRows(agents: seq<AgentConfig>, firstId: nat): (rows: seq<AgentRow>)
    ensures |rows| == |agents|
  {
    seq(|agents|, i requires 0 <= i < |agents| => AgentRowOf(agents[i], firstId + i))
  }

  /** The `agents` dictionary: each role mapped to the position of the agent
      last assigned to it, the role keeping the place of its first insertion. */
  function RoleMap(agents: seq<AgentConfig>): Dict<nat>
    decreases |agents|
  {
    if agents == [] then []
    else
      var n: nat := |agents| - 1;
      Put(RoleMap(agents[..n]), agents[n].role, n)
  }

  /** One step of the agent loop. */
  lemma RoleMapStep(agents: seq<AgentConfig>, n: nat)
    requires |agents| == n + 1
    ensures RoleMap(agents) == Put(RoleMap(agents[..n]), agents[n].role, n)
  {
  }

  /** A JSON column holds a registry only when the request had a non-empty one. */
  function RegistryColumn(defs: Option<Dict<ParameterDefinition>>): Option<Dict<ParamDef>> {
    match defs
    case Some(d) => if d != [] then Some(StoredDefs(d)) else None
    case None => None
  }

  function DependencyColumn(deps: Option<seq<int>>): Option<seq<int>> {
    match deps
    case Some(d) => if d != [] then Some(d) else None
    case None => None
  }

  /** A task row as written; the task's output variables are not written. */
  function TaskRowOf(t: TaskConfig, id: nat, agent: nat): TaskRow {
    TaskRow(id, t.description, t.expectedOutput, RegistryColumn(t.inputParameters),
      RegistryColumn(t.contextVariables), DependencyColumn(t.dependencies), None, agent)
  }

  /** The role lookups of the task loop over the first `n` tasks: the
      position of each task's agent, until the first task whose role has no
      agent stops the loop. */
  function TaskAgents(tasks: seq<TaskConfig>, roles: Dict<nat>, n: nat): (r: Result<seq<nat>, CreateError>)
    requires n <= |tasks|
    ensures r.Ok? ==> |r.value| == n
  {
    if n == 0 then Ok([])
    else
      match TaskAgents(tasks, roles, n - 1)
      case Err(e) => Err(e)
      case Ok(found) =>
        match Get(roles, tasks[n - 1].agentRole)
        case None => Err(AgentRoleNotFound(tasks[n - 1].agentRole))
        case Some(a) => Ok(found + [a])
  }

  /** The rows of the first `|found|` tasks, bound to the agents found. */
  function RowsFor(tasks: seq<TaskConfig>, firstId: nat, found: seq<nat>): (rows: seq<TaskRow>)
    requires |found| <= |tasks|
    ensures |rows| == |found|
  {
    seq(|found|, j requires 0 <= j < |found| => TaskRowOf(tasks[j], firstId + j, found[j]))
  }

  /** The whole task loop. */
  function TaskRows(tasks: seq<TaskConfig>, roles: Dict<nat>, firstId: nat): Result<seq<TaskRow>, CreateError> {
    match TaskAgents(tasks, roles, |tasks|)
    case Err(e) => Err(e)
    case Ok(found) => Ok(RowsFor(tasks, firstId, found))
  }

  /** The create endpoint: the name must be new and every task's role must be
      the role of an agent in the request. */
  function Created(existing: set<string>, config: CrewConfig, ids: Ids): Result<StoredCrew, CreateError> {
    if config.name in existing then Err(NameTaken)
    else
      var roles := RoleMap(config.agents);
      match TaskRows(config.tasks, roles, ids.firstTask)
      case Err(e) => Err(e)
      case Ok(rows) =>
        Ok(StoredCrew(ids.crew, config.name, config.description,
          AgentRows(config.agents, ids.firstAgent), ValuesOf(roles), rows))
  }

  /** One step of the agent loop's rows. */
  lemma AgentRowsStep(agents: seq<AgentConfig>, n: nat, firstId: nat)
    requires n < |agents|
    ensures AgentRows(agents[..n + 1], firstId) == AgentRows(agents[..n], firstId) + [AgentRowOf(agents[n], firstId + n)]
  {
  }

  /** An error met after `n` tasks is the error of the whole loop. */
  lemma {:induction false} TaskAgentsErrSticks(tasks: seq<TaskConfig>, roles: Dict<nat>, n: nat, m: nat)
    requires n <= m <= |tasks| && TaskAgents(tasks, roles, n).Err?
    ensures TaskAgents(tasks, roles, m) == TaskAgents(tasks, roles, n)
    decreases m
  {
    if n < m {
      TaskAgentsErrSticks(tasks, roles, n, m - 1);
    }
  }

  /** One more task adds one more row. */
  lemma RowsForStep(tasks: seq<TaskConfig>, firstId: nat, found: seq<nat>, a: nat)
    requires |found| < |tasks|
    ensures RowsFor(tasks, firstId, found + [a]) == RowsFor(tasks, firstId, found) + [TaskRowOf(tasks[|found|], firstId + |found|, a)]
  {
  }

  /** The create endpoint's agent loop: one agent row and one dictionary
      assignment per agent, in request order. */
  method CreateAgents(agents: seq<AgentConfig>, firstId: nat) returns (roles: Dict<nat>, rows: seq<AgentRow>)
    ensures roles == RoleMap(agents)
    ensures rows == AgentRows(agents, firstId)
  {
    roles, rows := [], [];
    var i: nat := 0;
    while i < |agents|
      invariant i <= |agents|
      invariant roles == RoleMap(agents[..i])
      invariant rows == AgentRows(agents[..i], firstId)
    {
      var a := agents[i];
      RoleMapStep(agents[..i + 1], i);
      AgentRowsStep(agents, i, firstId);
      assert agents[..i + 1][..i] == agents[..i];
      rows := rows + [AgentRowOf(a, firstId + i)];
      roles := Put(roles, a.role, i);
      i := i + 1;
    }
    assert agents[..i] == agents;
  }

  /** The create endpoint's task loop: one task row per task, stopping at the
      first task whose role has no agent. */
  method CreateTasks(tasks: seq<TaskConfig>, roles: Dict<nat>, firstId: nat) returns (r: Result<seq<TaskRow>, CreateError>)
    ensures r == TaskRows(tasks, roles, firstId)
  {
    var rows: seq<TaskRow> := [];
    ghost var found: seq<nat> := [];
    var j: nat := 0;
    while j < |tasks|
      invariant j <= |tasks|
      invariant TaskAgents(tasks, roles, j) == Ok(found)
      invariant rows == RowsFor(tasks, firstId, found)
    {
      var t := tasks[j];
      var agent := Get(roles, t.agentRole);
      if agent.None? {
        TaskAgentsErrSticks(tasks, roles, j + 1, |tasks|);
        return Err(AgentRoleNotFound(t.agentRole));
      }
      RowsForStep(tasks, firstId, found, agent.value);
      rows := rows + [TaskRowOf(t, firstId + j, agent.value)];
      found := found + [agent.value];
      j := j + 1;
    }
    return Ok(rows);
  }

  /** The create endpoint: the name check, then the two loops. */
  method CreateCrew(existing: set<string>, config: CrewConfig, ids: Ids) returns (r: Result<StoredCrew, CreateError>)
    ensures r == Created(existing, config, ids)
  {
    if config.name in existing {
      return Err(NameTaken);
    }
    var roles, agentRows := CreateAgents(config.agents, ids.firstAgent);
    var taskRows := CreateTasks(config.tasks, roles, ids.firstTask);
    if taskRows.Err? {
      return Err(taskRows.error);
    }
    r := Ok(StoredCrew(ids.crew, config.name, config.description, agentRows, ValuesOf(roles), taskRows.value));
  }

  // ---------------------------------------------------------------------
  // Properties of the create endpoint

  /** Some agent in the request has this role. */
  predicate HasRole(agents: seq<AgentConfig>, role: string) {
    exists i :: 0 <= i < |agents| && agents[i].role == role
  }

  /** Position `i` holds the last agent with this role. */
  predicate LastWithRole(agents: seq<AgentConfig>, role: string, i: nat) {
    i < |agents| && agents[i].role == role && forall j :: i < j < |agents| ==> agents[j].role != role
  }

  /** A role maps to the last agent that has it, and every role of the request
      is in the dictionary. */
  lemma {:induction false} RoleMapIsLastAgent(agents: seq<AgentConfig>, role: string)
    ensures Get(RoleMap(agents), role).Some? <==> HasRole(agents, role)
    ensures Get(RoleMap(agents), role).Some? ==> LastWithRole(agents, role, Get(RoleMap(agents), role).value)
    decreases |agents|
  {
    if agents != [] {
      var n: nat := |agents| - 1;
      var pre := agents[..n];
      RoleMapStep(agents, n);
      RoleMapIsLastAgent(pre, role);
      PutGet(RoleMap(pre), agents[n].role, n, role);
      if agents[n].role == role {
        assert LastWithRole(agents, role, n);
      } else {
        OtherRoleAppended(agents, role);
        if HasRole(pre, role) {
          OtherRoleKeepsLast(agents, role, Get(RoleMap(pre), role).value);
        }
      }
    }
  }

  /** Appending an agent with another role changes nothing about `role`. */
  lemma OtherRoleAppended(agents: seq<AgentConfig>, role: string)
    requires |agents| > 0 && agents[|agents| - 1].role != role
    ensures HasRole(agents, role) <==> HasRole(agents[..|agents| - 1], role)
  {
    var pre := agents[..|agents| - 1];
    if HasRole(pre, role) {
      var i :| 0 <= i < |pre| && pre[i].role == role;
      assert agents[i].role == role;
    }
    if HasRole(agents, role) {
      var i :| 0 <= i < |agents| && agents[i].role == role;
      assert pre[i].role == role;
    }
  }

  lemma OtherRoleKeepsLast(agents: seq<AgentConfig>, role: string, last: nat)
    requires |agents| > 0 && agents[|agents| - 1].role != role
    requires LastWithRole(agents[..|agents| - 1], role, last)
    ensures LastWithRole(agents, role, last)
  {
    var pre := agents[..|agents| - 1];
    assert pre[last] == agents[last];
    forall j | last < j < |agents| ensures agents[j].role != role {
      if j < |agents| - 1 {
        assert pre[j] == agents[j];
      }
    }
  }

  /** Every value of the dictionary is below `bound`. */
  predicate ValuesBelow(d: Dict<nat>, bound: nat) {
    forall i :: 0 <= i < |d| ==> d[i].1 < bound
  }

  /** Every position in the dictionary is an agent's, and no role is in it
      twice. */
  lemma {:induction false} RoleMapInRange(agents: seq<AgentConfig>)
    ensures UniqueKeys(RoleMap(agents))
    ensures ValuesBelow(RoleMap(agents), |agents|)
    decreases |agents|
  {
    if agents != [] {
      var n: nat := |agents| - 1;
      var pre := agents[..n];
      RoleMapStep(agents, n);
      RoleMapInRange(pre);
      PutUnique(RoleMap(pre), agents[n].role, n);
      assert ValuesBelow(RoleMap(pre), n + 1);
      PutBelow(RoleMap(pre), agents[n].role, n, n + 1);
    }
  }

  /** `Put` adds no value other than the one assigned. */
  lemma {:induction false} PutBelow(d: Dict<nat>, k: string, v: nat, bound: nat)
    requires ValuesBelow(d, bound) && v < bound
    ensures ValuesBelow(Put(d, k, v), bound)
  {
    if d != [] && d[0].0 != k {
      PutBelow(d[1..], k, v, bound);
      assert Put(d, k, v) == [d[0]] + Put(d[1..], k, v);
    }
  }

  /** The lookups succeed exactly when every role of the first `n` tasks is
      known. */
  lemma {:induction false} TaskAgentsOk(tasks: seq<TaskConfig>, roles: Dict<nat>, n: nat)
    requires n <= |tasks|
    ensures TaskAgents(tasks, roles, n).Ok? <==> forall j :: 0 <= j < n ==> Get(roles, tasks[j].agentRole).Some?
    decreases n
  {
    if n > 0 {
      TaskAgentsOk(tasks, roles, n - 1);
      var known := forall j :: 0 <= j < n ==> Get(roles, tasks[j].agentRole).Some?;
      var known' := forall j :: 0 <= j < n - 1 ==> Get(roles, tasks[j].agentRole).Some?;
      assert known <==> known' && Get(roles, tasks[n - 1].agentRole).Some?;
      assert TaskAgents(tasks, roles, n).Ok? <==> TaskAgents(tasks, roles, n - 1).Ok? && Get(roles, tasks[n - 1].agentRole).Some?;
    }
  }

  /** Successful lookups find, in order, the agent each role maps to. */
  lemma {:induction false} TaskAgentsFound(tasks: seq<TaskConfig>, roles: Dict<nat>, n: nat, j: nat)
    requires n <= |tasks| && TaskAgents(tasks, roles, n).Ok? && j < n
    ensures Get(roles, tasks[j].agentRole).Some?
    ensures TaskAgents(tasks, roles, n).value[j] == Get(roles, tasks[j].agentRole).value
    decreases n
  {
    if j < n - 1 {
      TaskAgentsFound(tasks, roles, n - 1, j);
    }
  }

  /** The task loop succeeds exactly when every task's role is known, and
      then writes the task rows in order. */
  lemma TaskRowsOk(tasks: seq<TaskConfig>, roles: Dict<nat>, firstId: nat)
    ensures TaskRows(tasks, roles, firstId).Ok? <==> forall j :: 0 <= j < |tasks| ==> Get(roles, tasks[j].agentRole).Some?
    ensures TaskRows(tasks, roles, firstId).Ok? ==>
      var rows := TaskRows(tasks, roles, firstId).value;
      |rows| == |tasks| &&
      forall j :: 0 <= j < |tasks| ==> rows[j] == TaskRowOf(tasks[j], firstId + j, Get(roles, tasks[j].agentRole).value)
  {
    TaskAgentsOk(tasks, roles, |tasks|);
    if TaskAgents(tasks, roles, |tasks|).Ok? {
      var found := TaskAgents(tasks, roles, |tasks|).value;
      var rows := RowsFor(tasks, firstId, found);
      assert TaskRows(tasks, roles, firstId) == Ok(rows);
      forall j | 0 <= j < |tasks|
        ensures rows[j] == TaskRowOf(tasks[j], firstId + j, Get(roles, tasks[j].agentRole).value)
      {
        TaskAgentsFound(tasks, roles, |tasks|, j);
      }
    }
  }

  /** The rejection names the role of the first task with an unknown role. */
  lemma TaskRowsFirstUnknownRole(tasks: seq<TaskConfig>, roles: Dict<nat>, firstId: nat, k: nat)
    requires k < |tasks| && Get(roles, tasks[k].agentRole).None?
    requires forall j :: 0 <= j < k ==> Get(roles, tasks[j].agentRole).Some?
    ensures TaskRows(tasks, roles, firstId) == Err(AgentRoleNotFound(tasks[k].agentRole))
  {
    TaskAgentsOk(tasks, roles, k);
    assert TaskAgents(tasks, roles, k + 1) == Err(AgentRoleNotFound(tasks[k].agentRole));
    TaskAgentsErrSticks(tasks, roles, k + 1, |tasks|);
  }

  /** A create succeeds exactly when the name is new and every task's role is
      the role of an agent in the request. */
  lemma CreateSucceedsIff(existing: set<string>, config: CrewConfig, ids: Ids)
    ensures Created(existing, config, ids).Ok? <==>
      config.name !in existing && forall j :: 0 <= j < |config.tasks| ==> HasRole(config.agents, config.tasks[j].agentRole)
  {
    var roles := RoleMap(config.agents);
    TaskRowsOk(config.tasks, roles, ids.firstTask);
    forall j | 0 <= j < |config.tasks|
      ensures Get(roles, config.tasks[j].agentRole).Some? <==> HasRole(config.agents, config.tasks[j].agentRole)
    {
      RoleMapIsLastAgent(config.agents, config.tasks[j].agentRole);
    }
  }

  /** A taken name is reported before any role is checked; otherwise the
      first task whose role has no agent is reported. */
  lemma CreateRejections(existing: set<string>, config: CrewConfig, ids: Ids, k: nat)
    requires k < |config.tasks| && !HasRole(config.agents, config.tasks[k].agentRole)
    requires forall j :: 0 <= j < k ==> HasRole(config.agents, config.tasks[j].agentRole)
    ensures Created(existing, config, ids) ==
      if config.name in existing then Err(NameTaken) else Err(AgentRoleNotFound(config.tasks[k].agentRole))
  {
    var roles := RoleMap(config.agents);
    RoleMapIsLastAgent(config.agents, config.tasks[k].agentRole);
    forall j | 0 <= j < k ensures Get(roles, config.tasks[j].agentRole).Some? {
      RoleMapIsLastAgent(config.agents, config.tasks[j].agentRole);
    }
    TaskRowsFirstUnknownRole(config.tasks, roles, ids.firstTask, k);
  }

  /** On success every task row is bound to the last agent with the task's
      role, keeps the task's text and definitions, and has no output
      variables. */
  lemma CreatedTaskRows(existing: set<string>, config: CrewConfig, ids: Ids, j: nat)
    requires Created(existing, config, ids).Ok? && j < |config.tasks|
    ensures var s := Created(existing, config, ids).value;
      var t := config.tasks[j];
      |s.tasks| == |config.tasks| && |s.agents| == |config.agents| &&
      var row := s.tasks[j];
      row.id == ids.firstTask + j &&
      row.agent < |config.agents| && config.agents[row.agent].role == t.agentRole &&
      (forall a :: row.agent < a < |config.agents| ==> config.agents[a].role != t.agentRole) &&
      row.description == t.description && row.expectedOutput == t.expectedOutput &&
      row.inputParameters == RegistryColumn(t.inputParameters) &&
      row.contextVariables == RegistryColumn(t.contextVariables) &&
      row.dependencies == DependencyColumn(t.dependencies) &&
      row.outputVariables.None?
  {
    var roles := RoleMap(config.agents);
    TaskRowsOk(config.tasks, roles, ids.firstTask);
    RoleMapIsLastAgent(config.agents, config.tasks[j].agentRole);
  }

  /** Each entry of the dictionary is a role and the last agent with it. */
  lemma RoleMapEntries(agents: seq<AgentConfig>)
    ensures forall k :: 0 <= k < |RoleMap(agents)| ==> LastWithRole(agents, RoleMap(agents)[k].0, RoleMap(agents)[k].1)
  {
    var roles := RoleMap(agents);
    RoleMapInRange(agents);
    forall k | 0 <= k < |roles| ensures LastWithRole(agents, roles[k].0, roles[k].1) {
      GetAt(roles, k);
      RoleMapIsLastAgent(agents, roles[k].0);
    }
  }

  /** Every role of the request is a key of the dictionary. */
  lemma RoleMapCoversAgents(agents: seq<AgentConfig>, a: nat)
    requires a < |agents|
    ensures exists k :: 0 <= k < |RoleMap(agents)| && RoleMap(agents)[k].0 == agents[a].role
  {
    RoleMapIsLastAgent(agents, agents[a].role);
    GetSpec(RoleMap(agents), agents[a].role);
    var k :| 0 <= k < |RoleMap(agents)| && Keys(RoleMap(agents))[k] == agents[a].role;
  }

  /** `members` holds one agent per role of the request, each the last agent
      with that role. */
  predicate OnePerRole(agents: seq<AgentConfig>, members: seq<nat>) {
    (forall k :: 0 <= k < |members| ==>
      members[k] < |agents| && LastWithRole(agents, agents[members[k]].role, members[k])) &&
    (forall a :: 0 <= a < |agents| ==>
      exists k :: 0 <= k < |members| && agents[members[k]].role == agents[a].role) &&
    (forall k, l :: 0 <= k < l < |members| ==> agents[members[k]].role != agents[members[l]].role)
  }

  /** The values of the role dictionary are one agent per role. */
  lemma RoleMapMembers(agents: seq<AgentConfig>)
    ensures OnePerRole(agents, ValuesOf(RoleMap(agents)))
  {
    var roles := RoleMap(agents);
    var members := ValuesOf(roles);
    RoleMapInRange(agents);
    RoleMapEntries(agents);
    forall k | 0 <= k < |members|
      ensures members[k] < |agents| && agents[members[k]].role == roles[k].0
      ensures LastWithRole(agents, agents[members[k]].role, members[k])
    {
      assert members[k] == roles[k].1;
    }
    forall a | 0 <= a < |agents|
      ensures exists k :: 0 <= k < |members| && agents[members[k]].role == agents[a].role
    {
      RoleMapCoversAgents(agents, a);
      var k :| 0 <= k < |roles| && roles[k].0 == agents[a].role;
      assert agents[members[k]].role == agents[a].role;
    }
  }

  /** The crew's agents are one per role of the request, each the last agent
      with that role. */
  lemma CreatedMembers(existing: set<string>, config: CrewConfig, ids: Ids)
    requires Created(existing, config, ids).Ok?
    ensures OnePerRole(config.agents, Created(existing, config, ids).value.members)
  {
    assert Created(existing, config, ids).value.members == ValuesOf(RoleMap(config.agents));
    RoleMapMembers(config.agents);
  }

  /** Every stored definition has the `default` key, whatever the request
      sent. */
  lemma StoredColumnsHaveDefaults(defs: Option<Dict<ParameterDefinition>>)
    ensures var col := RegistryColumn(defs);
      col.Some? ==> forall i :: 0 <= i < |col.value| ==> col.value[i].1.default.Some?
  {
    if defs.Some? && defs.value != [] {
      forall i | 0 <= i < |defs.value| ensures StoredDefs(defs.value)[i].1.default.Some? {
        StoredDefsAt(defs.value, i);
      }
    }
  }

  // ---------------------------------------------------------------------
  // The read endpoint

  datatype AgentView = AgentView(
    id: nat, role: string, goal: string, backstory: string, verbose: bool, llm: LlmConfig)

  datatype TaskView = TaskView(
    id: nat,
    description: string,
    expectedOutput: Option<string>,
    agentRole: string,
    inputParameters: Dict<ParamDef>,
    contextVariables: Dict<ParamDef>,
    dependencies: seq<int>)

  /** The crew as the read endpoint returns it: no crew-level variables and no
      task output variables. */
  datatype CrewView = CrewView(
    id: nat, name: string, description: string, agents: seq<AgentView>, tasks: seq<TaskView>)

  /** Every reference in the stored crew points at one of its agent rows. */
  predicate WellFormed(s: StoredCrew) {
    (forall k :: 0 <= k < |s.members| ==> s.members[k] < |s.agents|) &&
    (forall j :: 0 <= j < |s.tasks| ==> s.tasks[j].agent < |s.agents|)
  }

  function AgentViewOf(a: AgentRow): AgentView {
    AgentView(a.id, a.role, a.goal, a.backstory, a.verbose, a.llm)
  }

  /** A JSON column read back: its value, or the empty one when it is null. */
  function TaskViewOf(t: TaskRow, agentRole: string): TaskView {
    TaskView(t.id, t.description, t.expectedOutput, agentRole,
      t.inputParameters.GetOr([]), t.contextVariables.GetOr([]), t.dependencies.GetOr([]))
  }

  /** The body answered for a crew the query found. */
  function ViewOf(s: StoredCrew): CrewView
    requires WellFormed(s)
  {
    CrewView(s.id, s.name, s.description,
      seq(|s.members|, k requires 0 <= k < |s.members| => AgentViewOf(s.agents[s.members[k]])),
      seq(|s.tasks|, j requires 0 <= j < |s.tasks| => TaskViewOf(s.tasks[j], s.agents[s.tasks[j].agent].role)))
  }

  /** `GET /crews/{id}`: `crew` is what the query by id found, and `None`
      is the 404 `Crew not found`. A found crew is answered with one agent
      per member and one task per task row, in their stored order. */
  function GetCrew(crew: Option<StoredCrew>): (r: Option<CrewView>)
    requires crew.Some? ==> WellFormed(crew.value)
    ensures r.None? <==> crew.None?
    ensures r.Some? ==> |r.value.agents| == |crew.value.members| && |r.value.tasks| == |crew.value.tasks|
    ensures r.Some? ==> forall k :: 0 <= k < |crew.value.members| ==>
      r.value.agents[k] == AgentViewOf(crew.value.agents[crew.value.members[k]])
  {
    if crew.None? then None else Some(ViewOf(crew.value))
  }

  lemma CreatedWellFormed(existing: set<string>, config: CrewConfig, ids: Ids)
    requires Created(existing, config, ids).Ok?
    ensures WellFormed(Created(existing, config, ids).value)
  {
    var s := Created(existing, config, ids).value;
    RoleMapInRange(config.agents);
    TaskRowsOk(config.tasks, RoleMap(config.agents), ids.firstTask);
    forall j | 0 <= j < |s.tasks| ensures s.tasks[j].agent < |s.agents| {
      CreatedTaskRows(existing, config, ids, j);
    }
  }

  /** The role of every task's agent is the role of one of the crew's
      members, the agents the crew runs with. */
  lemma CreatedTaskRoleHasMember(existing: set<string>, config: CrewConfig, ids: Ids, j: nat)
    requires Created(existing, config, ids).Ok? && j < |config.tasks|
    ensures var s := Created(existing, config, ids).value;
      && WellFormed(s) && j < |s.tasks|
      && exists k :: 0 <= k < |s.members| && s.agents[s.members[k]].role == s.agents[s.tasks[j].agent].role
  {
    var s := Created(existing, config, ids).value;
    CreatedWellFormed(existing, config, ids);
    CreatedTaskRows(existing, config, ids, j);
    var a := s.tasks[j].agent;
    assert (forall k :: 0 <= k < |s.members| ==> s.members[k] < |config.agents|) &&
      exists k :: 0 <= k < |s.members| && config.agents[s.members[k]].role == config.agents[a].role
    by {
      CreatedMembers(existing, config, ids);
    }
    assert s.agents == AgentRows(config.agents, ids.firstAgent);
    RowsShareMemberRole(s.agents, s.members, config.agents, ids.firstAgent, a);
  }

  /** An agent row whose role some member's configuration carries has that
      role among the member rows too. */
  lemma RowsShareMemberRole(rows: seq<AgentRow>, members: seq<nat>, agents: seq<AgentConfig>, firstId: nat, a: nat)
    requires rows == AgentRows(agents, firstId) && a < |agents|
    requires forall k :: 0 <= k < |members| ==> members[k] < |agents|
    requires exists k :: 0 <= k < |members| && agents[members[k]].role == agents[a].role
    ensures exists k :: 0 <= k < |members| && rows[members[k]].role == rows[a].role
  {
    var k :| 0 <= k < |members| && agents[members[k]].role == agents[a].role;
    var m := members[k];
    assert rows[m] == AgentRowOf(agents[m], firstId + m);
    assert rows[a] == AgentRowOf(agents[a], firstId + a);
  }

  /** Reading back a created crew gives each task its text, its role, its
      definitions as `.dict()` wrote them (empty when none was sent) and its
      dependencies. */
  lemma ReadBackCreated(existing: set<string>, config: CrewConfig, ids: Ids, j: nat)
    requires Created(existing, config, ids).Ok? && j < |config.tasks|
    ensures WellFormed(Created(existing, config, ids).value)
    ensures var v := GetCrew(Some(Created(existing, config, ids).value)).value;
      var t := config.tasks[j];
      |v.tasks| == |config.tasks| &&
      v.tasks[j].id == ids.firstTask + j &&
      v.tasks[j].description == t.description &&
      v.tasks[j].expectedOutput == t.expectedOutput &&
      v.tasks[j].agentRole == t.agentRole &&
      v.tasks[j].inputParameters == StoredDefs(t.inputParameters.GetOr([])) &&
      v.tasks[j].contextVariables == StoredDefs(t.contextVariables.GetOr([])) &&
      v.tasks[j].dependencies == t.dependencies.GetOr([])
  {
    CreatedWellFormed(existing, config, ids);
    CreatedTaskRows(existing, config, ids, j);
    var s := Created(existing, config, ids).value;
    var t := config.tasks[j];
    ColumnReadBack(t.inputParameters);
    ColumnReadBack(t.contextVariables);
    assert DependencyColumn(t.dependencies).GetOr([]) == t.dependencies.GetOr([]);
    assert s.agents[s.tasks[j].agent].role == config.agents[s.tasks[j].agent].role;
    assert ViewOf(s).tasks[j] == TaskViewOf(s.tasks[j], s.agents[s.tasks[j].agent].role);
  }

  /** A registry column read back is what `.dict()` made of the request's
      registry, or empty. */
  lemma ColumnReadBack(defs: Option<Dict<ParameterDefinition>>)
    ensures RegistryColumn(defs).GetOr([]) == StoredDefs(defs.GetOr([]))
  {
  }
}
