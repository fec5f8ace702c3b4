/** The execute endpoint for a stored crew: the agents dictionary, the first
    pass binding every task (all errors of the request are raised here), the
    second pass running the tasks in stored order and harvesting
    `name: value` lines from each result, and the execution record the
    endpoint updates. Running a task is a parameter `run(position, task)`. */
module Execution {
  import opened Wrappers
  import opened Text
  import opened ODict
  import opened Values
  import opened CrewStore
  import opened Binding

  /** The request body: crew inputs, and per task id (as a string) what the
      task is sent. */
  datatype ExecParams = ExecParams(inputVariables: Option<Dict<Value>>, taskParams: Option<Dict<TaskParams>>)

  /** Python truthiness of an optional dictionary. */
  predicate Truthy<V>(d: Option<Dict<V>>) {
    d.Some? && d.value != []
  }

  function CrewInputs(params: Option<ExecParams>): Dict<Value> {
    if params.Some? && Truthy(params.value.inputVariables) then params.value.inputVariables.value else []
  }

  /** `execution_params.task_params.get(str(db_task.id))`. */
  function TaskParamsFor(params: Option<ExecParams>, id: nat): Option<TaskParams> {
    if params.Some? && Truthy(params.value.taskParams) then Get(params.value.taskParams.value, IntText(id)) else None
  }

  /** The text the dependencies column holds: `json.dumps` of the list. */
  function DependencyText(deps: Option<seq<int>>): Option<string> {
    match deps
    case None => None
    case Some(ds) => Some("[" + Join(seq(|ds|, i requires 0 <= i < |ds| => IntText(ds[i])), ", ") + "]")
  }

  /** A task as the first pass builds it. */
  datatype BoundTask = BoundTask(
    id: nat,
    description: string,
    agent: AgentRow,
    expectedOutput: Option<string>,
    context: Option<seq<string>>,
    outputDefs: Dict<ParamDef>)

  /** Why an execution failed. Every case ends in the same handler, which
      marks the record failed and answers with status 500:
      the first agent's provider naming no model client, so that reading
      `llm` raises because nothing was ever assigned to it; a binding error
      raised in the first pass; a task whose agent role has no agent; a task
      run that raised; and, for a crew without tasks, the name `result` still
      holding the database query object, which the JSON encoder of the
      completed record refuses. */
  datatype ExecError =
    | NoLlm(role: string)
    | Rejected(error: BindError)
    | NoAgent(role: string)
    | TaskRaised(message: string)
    | ResultNotSerializable

  // ---------------------------------------------------------------------
  // Agents

  /** The crew's agents as the endpoint loads them. */
  function Members(s: StoredCrew): (m: seq<AgentRow>)
    requires WellFormed(s)
    ensures |m| == |s.members|
  {
    seq(|s.members|, k requires 0 <= k < |s.members| => s.agents[s.members[k]])
  }

  /** `agents[db_agent.role] = agent` for every agent of the crew. */
  function AgentsByRole(members: seq<AgentRow>): Dict<AgentRow>
    decreases |members|
  {
    if members == [] then []
    else
      var n := |members| - 1;
      Put(AgentsByRole(members[..n]), members[n].role, members[n])
  }

  /** The providers the endpoint builds a model client for. */
  const Providers: set<string> := {"anthropic", "openai", "openai_compatible"}

  /** The crew's agents as the loop builds them, each carrying the
      configuration of the model client it is given. A known provider builds
      the client from the agent's own configuration. The dispatch has no
      other branch, so for any other provider `llm` keeps the client of the
      previous agent, and the first agent finds it unbound. */
  function Equipped(members: seq<AgentRow>): (r: Result<seq<AgentRow>, ExecError>)
    ensures r.Ok? ==> |r.value| == |members|
    decreases |members|
  {
    if members == [] then Ok([])
    else
      var n := |members| - 1;
      var m := members[n];
      match Equipped(members[..n])
      case Err(e) => Err(e)
      case Ok(done) =>
        if m.llm.provider in Providers then Ok(done + [m])
        else if n == 0 then Err(NoLlm(m.role))
        else Ok(done + [m.(llm := done[n - 1].llm)])
  }

  /** The agent loop: `llm` is assigned only in the provider branches, and
      each agent is stored under its role with the client `llm` holds. */
  method BuildAgents(members: seq<AgentRow>) returns (r: Result<Dict<AgentRow>, ExecError>)
    ensures Equipped(members).Err? ==> r == Err(Equipped(members).error)
    ensures Equipped(members).Ok? ==> r == Ok(AgentsByRole(Equipped(members).value))
  {
    var agents: Dict<AgentRow> := [];
    var llm: Option<LlmConfig> := None;
    ghost var done: seq<AgentRow> := [];
    var i: nat := 0;
    while i < |members|
      invariant i <= |members| && |done| == i
      invariant Equipped(members[..i]) == Ok(done)
      invariant agents == AgentsByRole(done)
      invariant llm.None? <==> i == 0
      invariant i > 0 ==> llm.value == done[i - 1].llm
    {
      var m := members[i];
      if m.llm.provider in Providers {
        llm := Some(m.llm);
      }
      if llm.None? {
        EquippedFails(members);
        return Err(NoLlm(m.role));
      }
      var agent := m.(llm := llm.value);
      EquippedExtend(members, i);
      assert AgentsByRole(done + [agent]) == Put(agents, m.role, agent) by {
        AgentsByRoleStep(done + [agent], i);
        assert (done + [agent])[..i] == done;
      }
      agents := Put(agents, m.role, agent);
      done := done + [agent];
      i := i + 1;
    }
    assert members[..i] == members;
    return Ok(agents);
  }

  /** One more iteration of the agent loop, seen from its start. */
  lemma EquippedExtend(members: seq<AgentRow>, i: nat)
    requires i < |members| && Equipped(members[..i]).Ok?
    requires i > 0 || members[i].llm.provider in Providers
    ensures Equipped(members[..i + 1]) == Ok(Equipped(members[..i]).value + [members[i].(llm :=
      if members[i].llm.provider in Providers then members[i].llm else Equipped(members[..i]).value[i - 1].llm)])
  {
    assert members[..i + 1][..i] == members[..i];
  }

  /** Building the agents fails exactly when the first agent's provider is
      none of the three, and then names that agent's role. */
  lemma {:induction false} EquippedFails(members: seq<AgentRow>)
    ensures Equipped(members).Err? <==> members != [] && members[0].llm.provider !in Providers
    ensures Equipped(members).Err? ==> Equipped(members).error == NoLlm(members[0].role)
    decreases |members|
  {
    if members != [] {
      var n := |members| - 1;
      EquippedFails(members[..n]);
      if n > 0 {
        assert members[..n][0] == members[0];
      }
    }
  }

  /** One iteration of the agent loop, seen from its end. */
  lemma EquippedStep(members: seq<AgentRow>, n: nat)
    requires |members| == n + 1 && Equipped(members).Ok?
    ensures Equipped(members[..n]).Ok?
    ensures Equipped(members).value[..n] == Equipped(members[..n]).value
    ensures members[n].llm.provider in Providers ==> Equipped(members).value[n] == members[n]
    ensures members[n].llm.provider !in Providers ==>
      n > 0 && Equipped(members).value[n] == members[n].(llm := Equipped(members[..n]).value[n - 1].llm)
  {
  }

  /** The agent at position `k` has its own client when its provider is
      known, and otherwise the client of the agent before it. */
  lemma {:induction false} EquippedAt(members: seq<AgentRow>, k: nat)
    requires Equipped(members).Ok? && k < |members|
    ensures k == 0 ==> members[0].llm.provider in Providers && Equipped(members).value[0] == members[0]
    ensures k > 0 ==>
      Equipped(members).value[k] ==
        if members[k].llm.provider in Providers then members[k]
        else members[k].(llm := Equipped(members).value[k - 1].llm)
    decreases |members|
  {
    var n := |members| - 1;
    EquippedStep(members, n);
    var es := Equipped(members).value;
    var done := Equipped(members[..n]).value;
    if k < n {
      EquippedAt(members[..n], k);
      assert members[..n][k] == members[k];
      assert es[k] == es[..n][k];
      if k > 0 {
        assert es[k - 1] == es[..n][k - 1];
      }
    } else if k > 0 {
      assert es[k - 1] == es[..n][k - 1];
    }
  }

  /** The position of the last agent at or before `k` whose provider is
      known: the agent whose configuration `llm` was built from when the
      loop reaches agent `k`. */
  function ClientSource(members: seq<AgentRow>, k: nat): (j: Option<nat>)
    requires k < |members|
    ensures j.Some? ==> j.value <= k && members[j.value].llm.provider in Providers
    ensures j.Some? ==> forall l :: j.value < l <= k ==> members[l].llm.provider !in Providers
    ensures j.None? ==> forall l :: 0 <= l <= k ==> members[l].llm.provider !in Providers
    decreases k
  {
    if members[k].llm.provider in Providers then Some(k)
    else if k == 0 then None
    else ClientSource(members, k - 1)
  }

  /** Each agent gets the client of the last agent at or before it whose
      provider is known, and keeps everything else of its own row. */
  lemma {:induction false} EquippedClient(members: seq<AgentRow>, k: nat)
    requires Equipped(members).Ok? && k < |members|
    ensures ClientSource(members, k).Some?
    ensures Equipped(members).value[k] == members[k].(llm := members[ClientSource(members, k).value].llm)
  {
    EquippedAt(members, k);
    if k > 0 && members[k].llm.provider !in Providers {
      EquippedClient(members, k - 1);
    }
  }

  /** The roles of the crew's agents, in order. */
  function Roles(members: seq<AgentRow>): (roles: seq<string>)
    ensures |roles| == |members|
    ensures forall k :: 0 <= k < |members| ==> roles[k] == members[k].role
  {
    seq(|members|, k requires 0 <= k < |members| => members[k].role)
  }

  lemma AgentsByRoleStep(members: seq<AgentRow>, n: nat)
    requires |members| == n + 1
    ensures AgentsByRole(members) == Put(AgentsByRole(members[..n]), members[n].role, members[n])
  {}

  lemma RolesStep(members: seq<AgentRow>, n: nat)
    requires |members| == n + 1
    ensures Roles(members) == Roles(members[..n]) + [members[n].role]
  {
    assert Roles(members) == Roles(members[..n]) + [members[n].role];
  }

  /** Looking up a role finds an agent with that role exactly when the crew
      has one. */
  lemma {:induction false} AgentsByRoleGet(members: seq<AgentRow>, role: string)
    ensures Get(AgentsByRole(members), role).Some? <==> role in Roles(members)
    ensures Get(AgentsByRole(members), role).Some? ==> Get(AgentsByRole(members), role).value.role == role
    decreases |members|
  {
    if members != [] {
      var n: nat := |members| - 1;
      AgentsByRoleStep(members, n);
      RolesStep(members, n);
      AgentsByRoleGet(members[..n], role);
      PutGet(AgentsByRole(members[..n]), members[n].role, members[n], role);
    }
  }

  // ---------------------------------------------------------------------
  // First pass

  /** One task of the first pass: its bindings, then the description with
      input parameters substituted first and context variables second, then
      the agent looked up by the role of the task's agent. `task_outputs` is
      still empty while this pass runs. */
  function BindOne(t: TaskRow, role: string, agents: Dict<AgentRow>, params: Option<ExecParams>): Result<BoundTask, ExecError> {
    match Bind(t.id, t.inputParameters.GetOr([]), t.contextVariables.GetOr([]), DependencyText(t.dependencies),
               CrewInputs(params), TaskParamsFor(params, t.id), map[])
    case Err(e) => Err(Rejected(e))
    case Ok(b) =>
      match Get(agents, role)
      case None => Err(NoAgent(role))
      case Some(a) =>
        Ok(BoundTask(t.id, BoundDescription(t.description, b), a, t.expectedOutput,
          ContextLines(b.context), t.outputVariables.GetOr([])))
  }

  /** The role of each stored task's agent, in stored order. */
  function TaskRoles(s: StoredCrew): (roles: seq<string>)
    requires WellFormed(s)
    ensures |roles| == |s.tasks|
  {
    seq(|s.tasks|, j requires 0 <= j < |s.tasks| => s.agents[s.tasks[j].agent].role)
  }

  /** What binding each task gives, in stored order. */
  function TaskBindings(tasks: seq<TaskRow>, roles: seq<string>, agents: Dict<AgentRow>, params: Option<ExecParams>): (rs: seq<Result<BoundTask, ExecError>>)
    requires |roles| == |tasks|
    ensures |rs| == |tasks|
  {
    seq(|tasks|, i requires 0 <= i < |tasks| => BindOne(tasks[i], roles[i], agents, params))
  }

  /** The first pass over the first `n` bindings: the first error stops it. */
  function FirstPass(rs: seq<Result<BoundTask, ExecError>>, n: nat): Result<seq<BoundTask>, ExecError>
    requires n <= |rs|
  {
    if n == 0 then Ok([])
    else
      match FirstPass(rs, n - 1)
      case Err(e) => Err(e)
      case Ok(bound) =>
        match rs[n - 1]
        case Err(e) => Err(e)
        case Ok(b) => Ok(bound + [b])
  }

  method BindOneTask(t: TaskRow, role: string, agents: Dict<AgentRow>, params: Option<ExecParams>)
    returns (r: Result<BoundTask, ExecError>)
    ensures r == BindOne(t, role, agents, params)
  {
    var supplied: Option<TaskParams> := None;
    if params.Some? && params.value.taskParams.Some? && params.value.taskParams.value != [] {
      supplied := Get(params.value.taskParams.value, IntText(t.id));
    }
    var bindings := BindTask(t.id, t.inputParameters.GetOr([]), t.contextVariables.GetOr([]),
      DependencyText(t.dependencies), CrewInputs(params), supplied, map[]);
    if bindings.Err? {
      return Err(Rejected(bindings.error));
    }
    var description := SubstituteAll(t.description, bindings.value.inputs);
    description := SubstituteAll(description, bindings.value.context);
    var agent := Get(agents, role);
    if agent.None? {
      return Err(NoAgent(role));
    }
    return Ok(BoundTask(t.id, description, agent.value, t.expectedOutput,
      ContextLines(bindings.value.context), t.outputVariables.GetOr([])));
  }

  /** The first pass's work on the task at position `i`. */
  method BindAt(tasks: seq<TaskRow>, roles: seq<string>, agents: Dict<AgentRow>, params: Option<ExecParams>, i: nat)
    returns (r: Result<BoundTask, ExecError>)
    requires |roles| == |tasks| && i < |tasks|
    ensures r == TaskBindings(tasks, roles, agents, params)[i]
  {
    r := BindOneTask(tasks[i], roles[i], agents, params);
  }

  method BindTasks(tasks: seq<TaskRow>, roles: seq<string>, agents: Dict<AgentRow>, params: Option<ExecParams>)
    returns (r: Result<seq<BoundTask>, ExecError>)
    requires |roles| == |tasks|
    ensures r == FirstPass(TaskBindings(tasks, roles, agents, params), |tasks|)
  {
    ghost var rs := TaskBindings(tasks, roles, agents, params);
    assert |rs| == |tasks|;
    r := Ok([]);
    var i: nat := 0;
    while i < |tasks| && r.Ok?
      invariant i <= |tasks|
      invariant r == FirstPass(rs, i)
    {
      var b := BindAt(tasks, roles, agents, params, i);
      FirstPassStep(rs, i, r.value, b);
      if b.Ok? {
        r := Ok(r.value + [b.value]);
      } else {
        r := Err(b.error);
      }
      i := i + 1;
    }
    if r.Err? {
      FirstPassErrSticks(rs, i, |tasks|);
    }
  }

  lemma FirstPassStep(rs: seq<Result<BoundTask, ExecError>>, n: nat, bound: seq<BoundTask>, b: Result<BoundTask, ExecError>)
    requires n < |rs| && FirstPass(rs, n) == Ok(bound) && rs[n] == b
    ensures FirstPass(rs, n + 1) == if b.Ok? then Ok(bound + [b.value]) else Err(b.error)
  {}

  /** An error of the first pass ends it. */
  lemma {:induction false} FirstPassErrSticks(rs: seq<Result<BoundTask, ExecError>>, n: nat, m: nat)
    requires n <= m <= |rs| && FirstPass(rs, n).Err?
    ensures FirstPass(rs, m) == FirstPass(rs, n)
    decreases m
  {
    if n < m {
      FirstPassErrSticks(rs, n, m - 1);
    }
  }

  /** The first pass succeeds exactly when every task binds, and then holds
      one bound task per task, in order. */
  lemma {:induction false} FirstPassOk(rs: seq<Result<BoundTask, ExecError>>, n: nat)
    requires n <= |rs|
    ensures FirstPass(rs, n).Ok? <==> forall j :: 0 <= j < n ==> rs[j].Ok?
    ensures FirstPass(rs, n).Ok? ==>
      |FirstPass(rs, n).value| == n && forall j :: 0 <= j < n ==> FirstPass(rs, n).value[j] == rs[j].value
    decreases n
  {
    if n > 0 {
      FirstPassOk(rs, n - 1);
    }
  }

  /** An error of the first pass is the error of one of the tasks. */
  lemma {:induction false} FirstPassErrorFrom(rs: seq<Result<BoundTask, ExecError>>, n: nat)
    requires n <= |rs|
    ensures FirstPass(rs, n).Err? ==> exists j :: 0 <= j < n && rs[j] == Err(FirstPass(rs, n).error)
    decreases n
  {
    if n > 0 {
      FirstPassErrorFrom(rs, n - 1);
    }
  }

  /** The first task that fails to bind decides the error. */
  lemma FirstPassFirstError(rs: seq<Result<BoundTask, ExecError>>, k: nat)
    requires k < |rs|
    requires forall j :: 0 <= j < k ==> rs[j].Ok?
    requires rs[k].Err?
    ensures FirstPass(rs, |rs|) == Err(rs[k].error)
  {
    FirstPassOk(rs, k);
    FirstPassErrSticks(rs, k + 1, |rs|);
  }

  // ---------------------------------------------------------------------
  // Output extraction

  /** The value of `name` in a task's result: after the first `name:`, up to
      the next `name:` or line end, stripped. */
  function Extract(result: string, name: string): Option<string> {
    var marker := name + ":";
    if Contains(result, marker) then
      SplitHasSecondPiece(result, marker);
      Some(Strip(Split(Split(result, marker)[1], "\n")[0]))
    else None
  }

  /** The line after the marker holds neither the marker nor a line break. */
  lemma AfterMarkerIsClean(result: string, marker: string)
    requires |marker| > 0 && Contains(result, marker)
    ensures |Split(result, marker)| >= 2
    ensures var line := Split(Split(result, marker)[1], "\n")[0];
      !Contains(line, marker) && !Contains(line, "\n")
  {
    SplitHasSecondPiece(result, marker);
    var piece := Split(result, marker)[1];
    SplitPiecesFree(result, marker);
    var line := Split(piece, "\n")[0];
    SplitPiecesFree(piece, "\n");
    SplitFirstIsPrefix(piece, "\n");
    var k :| 0 <= k <= |piece| && line == piece[..k];
    assert piece[..k] == piece[0..k];
    SliceFree(piece, marker, 0, k);
  }

  /** Every character of a text occurs in it. */
  lemma CharOccurs(v: string, i: nat)
    requires i < |v|
    ensures OccursAt(v, [v[i]], i)
  {
    assert v[i..i + 1] == [v[i]];
  }

  /** Stripping keeps a text free of what it was free of. */
  lemma StripKeepsFree(line: string, marker: string)
    requires !Contains(line, marker) && !Contains(line, "\n")
    ensures !Contains(Strip(line), marker)
    ensures forall i :: 0 <= i < |Strip(line)| ==> Strip(line)[i] != '\n'
  {
    var v := Strip(line);
    StripIsTrimmedSlice(line);
    var a, b :| TrimmedSlice(line, v, a, b);
    SliceFree(line, marker, a, b);
    SliceFree(line, "\n", a, b);
    forall i | 0 <= i < |v| ensures v[i] != '\n' {
      CharOccurs(v, i);
    }
  }

  /** An extracted value holds no line break and no marker, and has no
      whitespace at either end; a value is extracted exactly when the marker
      occurs. */
  lemma ExtractedValueIsClean(result: string, name: string)
    ensures Extract(result, name).Some? <==> Contains(result, name + ":")
    ensures Extract(result, name).Some? ==>
      var v := Extract(result, name).value;
      && (forall i :: 0 <= i < |v| ==> v[i] != '\n')
      && !Contains(v, name + ":")
      && (|v| > 0 ==> !IsSpace(v[0]) && !IsSpace(v[|v| - 1]))
  {
    var marker := name + ":";
    if Contains(result, marker) {
      AfterMarkerIsClean(result, marker);
      var line := Split(Split(result, marker)[1], "\n")[0];
      assert Extract(result, name) == Some(Strip(line));
      StripKeepsFree(line, marker);
      StripIsTrimmedSlice(line);
    }
  }

  /** What each output variable's marker yields in a result. */
  function Extracted(defs: Dict<ParamDef>, result: string): (found: seq<Option<string>>)
    ensures |found| == |defs|
  {
    seq(|defs|, j requires 0 <= j < |defs| => Extract(result, defs[j].0))
  }

  /** The loop over a task's output variables: every extracted value is
      stored under its name for the task and under `task_<id>_<name>` for the
      response. */
  function Harvest(defs: Dict<ParamDef>, found: seq<Option<string>>, id: nat, final: Dict<Value>): (Dict<Value>, Dict<Value>)
    requires |found| == |defs|
    decreases |defs|
  {
    if defs == [] then ([], final)
    else
      var n := |defs| - 1;
      var (own, outs) := Harvest(defs[..n], found[..n], id, final);
      match found[n]
      case None => (own, outs)
      case Some(v) => (Put(own, defs[n].0, Str(v)), Put(outs, OutputName(id, defs[n].0), Str(v)))
  }

  /** The response key of a task's output variable. */
  function OutputName(id: nat, name: string): string {
    "task_" + IntText(id) + "_" + name
  }

  method HarvestOutputs(defs: Dict<ParamDef>, result: string, id: nat, final: Dict<Value>)
    returns (own: Dict<Value>, outs: Dict<Value>)
    ensures (own, outs) == Harvest(defs, Extracted(defs, result), id, final)
  {
    ghost var found := Extracted(defs, result);
    own, outs := [], final;
    var i: nat := 0;
    while i < |defs|
      invariant i <= |defs|
      invariant (own, outs) == Harvest(defs[..i], found[..i], id, final)
    {
      var name := defs[i].0;
      HarvestStep(defs[..i + 1], found[..i + 1], id, final, i);
      assert defs[..i + 1][..i] == defs[..i];
      assert found[..i + 1][..i] == found[..i];
      assert defs[..i + 1][i] == defs[i];
      assert found[..i + 1][i] == found[i] == Extract(result, name);
      if Contains(result, name + ":") {
        SplitHasSecondPiece(result, name + ":");
        var value := Strip(Split(Split(result, name + ":")[1], "\n")[0]);
        assert found[i] == Some(value);
        own := Put(own, name, Str(value));
        outs := Put(outs, OutputName(id, name), Str(value));
      }
      i := i + 1;
    }
    assert defs[..i] == defs;
    assert found[..i] == found;
  }

  /** One step of the loop over output variables. */
  lemma HarvestStep(defs: Dict<ParamDef>, found: seq<Option<string>>, id: nat, final: Dict<Value>, n: nat)
    requires |found| == |defs| == n + 1
    ensures var (own, outs) := Harvest(defs[..n], found[..n], id, final);
      Harvest(defs, found, id, final) ==
        if found[n].Some? then (Put(own, defs[n].0, Str(found[n].value)), Put(outs, OutputName(id, defs[n].0), Str(found[n].value)))
        else (own, outs)
  {}

  /** A declared output whose marker occurs in the result is in the task's
      outputs and in the response under `task_<id>_<name>`. */
  lemma {:induction false} HarvestGet(defs: Dict<ParamDef>, found: seq<Option<string>>, id: nat, final: Dict<Value>, i: nat)
    requires |found| == |defs| && UniqueKeys(defs) && i < |defs| && found[i].Some?
    ensures Get(Harvest(defs, found, id, final).0, defs[i].0) == Some(Str(found[i].value))
    ensures Get(Harvest(defs, found, id, final).1, OutputName(id, defs[i].0)) == Some(Str(found[i].value))
    decreases |defs|
  {
    var n: nat := |defs| - 1;
    HarvestStep(defs, found, id, final, n);
    var (own, outs) := Harvest(defs[..n], found[..n], id, final);
    var key := OutputName(id, defs[i].0);
    if i < n {
      UniqueKeysPrefix(defs, n);
      assert defs[..n][i] == defs[i];
      assert found[..n][i] == found[i];
      HarvestGet(defs[..n], found[..n], id, final, i);
      assert defs[n].0 != defs[i].0;
      if found[n].Some? {
        OutputNameInjective(id, defs[n].0, defs[i].0);
        PutGet(own, defs[n].0, Str(found[n].value), defs[i].0);
        PutGet(outs, OutputName(id, defs[n].0), Str(found[n].value), key);
      }
    } else {
      PutGet(own, defs[n].0, Str(found[n].value), defs[i].0);
      PutGet(outs, key, Str(found[n].value), key);
    }
  }

  /** A declared output whose marker does not occur leaves the response
      entry as it was. */
  lemma HarvestNotFound(defs: Dict<ParamDef>, found: seq<Option<string>>, id: nat, final: Dict<Value>, i: nat)
    requires |found| == |defs| && UniqueKeys(defs) && i < |defs| && found[i].None?
    ensures Get(Harvest(defs, found, id, final).1, OutputName(id, defs[i].0)) == Get(final, OutputName(id, defs[i].0))
  {
    HarvestSkipsUnfound(defs, found, id, final, defs[i].0);
  }

  /** Output names of one task differ when the variable names do. */
  lemma OutputNameInjective(id: nat, a: string, b: string)
    requires a != b
    ensures OutputName(id, a) != OutputName(id, b)
  {
    var p := "task_" + IntText(id) + "_";
    assert OutputName(id, a) == p + a && OutputName(id, b) == p + b;
    PrefixCut(p, a);
    PrefixCut(p, b);
  }

  /** A name that no variable yielding a value carries leaves the response
      entry alone. */
  lemma {:induction false} HarvestSkipsUnfound(defs: Dict<ParamDef>, found: seq<Option<string>>, id: nat, final: Dict<Value>, name: string)
    requires |found| == |defs|
    requires forall j :: 0 <= j < |defs| && defs[j].0 == name ==> found[j].None?
    ensures Get(Harvest(defs, found, id, final).1, OutputName(id, name)) == Get(final, OutputName(id, name))
    decreases |defs|
  {
    if defs != [] {
      var n: nat := |defs| - 1;
      HarvestStep(defs, found, id, final, n);
      assert forall j :: 0 <= j < n ==> defs[..n][j] == defs[j] && found[..n][j] == found[j];
      HarvestSkipsUnfound(defs[..n], found[..n], id, final, name);
      var outs := Harvest(defs[..n], found[..n], id, final).1;
      if found[n].Some? {
        OutputNameInjective(id, defs[n].0, name);
        PutGet(outs, OutputName(id, defs[n].0), Str(found[n].value), OutputName(id, name));
      }
    }
  }

  // ---------------------------------------------------------------------
  // Second pass

  /** The state of the second pass: how many tasks ran, the last result, the
      per-task outputs, the response outputs, and the message of a task that
      raised. */
  datatype RunState = RunState(
    ran: nat,
    last: Option<string>,
    taskOutputs: map<OutputKey, Dict<Value>>,
    finalOutputs: Dict<Value>,
    failure: Option<string>)

  /** One task run: a task with output variables gets its outputs harvested. */
  function AfterRun(st: RunState, b: BoundTask, result: string): RunState {
    if b.outputDefs == [] then st.(ran := st.ran + 1, last := Some(result))
    else
      var (own, outs) := Harvest(b.outputDefs, Extracted(b.outputDefs, result), b.id, st.finalOutputs);
      RunState(st.ran + 1, Some(result), st.taskOutputs[TaskId(b.id) := own], outs, None)
  }

  /** The second pass over the first `n` bound tasks; a task that raises ends
      it. */
  function SecondPass(bound: seq<BoundTask>, run: (nat, BoundTask) -> Result<string, string>, n: nat): RunState
    requires n <= |bound|
  {
    if n == 0 then RunState(0, None, map[], [], None)
    else PassStep(SecondPass(bound, run, n - 1), n - 1, bound[n - 1], run)
  }

  /** Task `i` of the second pass: once a task has raised nothing more runs. */
  function PassStep(st: RunState, i: nat, b: BoundTask, run: (nat, BoundTask) -> Result<string, string>): RunState {
    if st.failure.Some? then st
    else
      match run(i, b)
      case Err(message) => st.(ran := st.ran + 1, failure := Some(message))
      case Ok(result) => AfterRun(st, b, result)
  }

  /** One iteration of the second-pass loop: the task runs, and a raise
      is recorded as the failure that ends the loop. */
  method RunOne(bound: seq<BoundTask>, run: (nat, BoundTask) -> Result<string, string>, i: nat, st: RunState)
    returns (next: RunState)
    requires i < |bound| && st == SecondPass(bound, run, i) && st.failure.None?
    ensures next == SecondPass(bound, run, i + 1)
  {
    var outcome := run(i, bound[i]);
    if outcome.Err? {
      next := st.(ran := st.ran + 1, failure := Some(outcome.error));
    } else {
      next := Record(st, bound[i], outcome.value);
    }
    SecondPassStep(bound, run, i);
  }

  /** The second-pass loop; a task that raises leaves it. */
  method RunTasks(bound: seq<BoundTask>, run: (nat, BoundTask) -> Result<string, string>) returns (st: RunState)
    ensures st == SecondPass(bound, run, |bound|)
  {
    st := RunState(0, None, map[], [], None);
    var i: nat := 0;
    while i < |bound| && st.failure.None?
      invariant i <= |bound|
      invariant st == SecondPass(bound, run, i)
    {
      st := RunOne(bound, run, i, st);
      i := i + 1;
    }
    if st.failure.Some? {
      SecondPassStops(bound, run, i, |bound|);
    }
  }

  /** What the loop records for a task run that returned `result`. */
  method Record(st: RunState, b: BoundTask, result: string) returns (next: RunState)
    ensures next == AfterRun(st, b, result)
  {
    if b.outputDefs == [] {
      next := st.(ran := st.ran + 1, last := Some(result));
    } else {
      var own, outs := HarvestOutputs(b.outputDefs, result, b.id, st.finalOutputs);
      next := RunState(st.ran + 1, Some(result), st.taskOutputs[TaskId(b.id) := own], outs, None);
    }
  }

  /** One more task of the second pass, when none raised before it. */
  lemma SecondPassStep(bound: seq<BoundTask>, run: (nat, BoundTask) -> Result<string, string>, i: nat)
    requires i < |bound| && SecondPass(bound, run, i).failure.None?
    ensures var st := SecondPass(bound, run, i);
      SecondPass(bound, run, i + 1) ==
        match run(i, bound[i])
        case Err(message) => st.(ran := st.ran + 1, failure := Some(message))
        case Ok(result) => AfterRun(st, bound[i], result)
  {
  }

  /** After a task raised, nothing else runs. */
  lemma {:induction false} SecondPassStops(bound: seq<BoundTask>, run: (nat, BoundTask) -> Result<string, string>, n: nat, m: nat)
    requires n <= m <= |bound| && SecondPass(bound, run, n).failure.Some?
    ensures SecondPass(bound, run, m) == SecondPass(bound, run, n)
    decreases m
  {
    if n < m {
      assert SecondPass(bound, run, m - 1) == SecondPass(bound, run, n) by {
        SecondPassStops(bound, run, n, m - 1);
      }
      assert SecondPass(bound, run, m) == SecondPass(bound, run, m - 1) by {
        SecondPassStuck(bound, run, m);
      }
    }
  }

  /** A pass that failed before task `m - 1` is unchanged by it. */
  lemma SecondPassStuck(bound: seq<BoundTask>, run: (nat, BoundTask) -> Result<string, string>, m: nat)
    requires 0 < m <= |bound| && SecondPass(bound, run, m - 1).failure.Some?
    ensures SecondPass(bound, run, m) == SecondPass(bound, run, m - 1)
  {
  }

  /** When no task raises, the tasks run one by one in stored order: `n` of
      them ran, the last result is that of task `n - 1`, and the per-task
      outputs are keyed by task ids only. */
  lemma {:induction false} SecondPassInOrder(bound: seq<BoundTask>, run: (nat, BoundTask) -> Result<string, string>, n: nat)
    requires n <= |bound|
    requires forall j :: 0 <= j < n ==> run(j, bound[j]).Ok?
    ensures SecondPass(bound, run, n).failure.None? && SecondPass(bound, run, n).ran == n
    ensures n == 0 ==> SecondPass(bound, run, n).last.None?
    ensures n > 0 ==> SecondPass(bound, run, n).last == Some(run(n - 1, bound[n - 1]).value)
    ensures forall key :: key in SecondPass(bound, run, n).taskOutputs ==> key.TaskId?
    decreases n
  {
    if n > 0 {
      SecondPassInOrder(bound, run, n - 1);
    }
  }

  // ---------------------------------------------------------------------
  // The endpoint

  datatype Response =
    | CrewNotFound
    | Completed(result: string, outputs: Dict<Value>)
    | Failed(error: ExecError)

  /** What the endpoint answers once the first pass is over, and how many
      tasks it ran. */
  function Outcome(pass: Result<seq<BoundTask>, ExecError>, run: (nat, BoundTask) -> Result<string, string>): (Response, nat) {
    match pass
    case Err(e) => (Failed(e), 0)
    case Ok(bound) =>
      var st := SecondPass(bound, run, |bound|);
      if st.failure.Some? then (Failed(TaskRaised(st.failure.value)), st.ran)
      else
        match st.last
        case None => (Failed(ResultNotSerializable), st.ran)
        case Some(r) => (Completed(r, st.finalOutputs), st.ran)
  }

  /** What the endpoint answers for a stored crew, and how many tasks it ran. */
  function Execute(s: StoredCrew, params: Option<ExecParams>, run: (nat, BoundTask) -> Result<string, string>): (Response, nat)
    requires WellFormed(s)
  {
    match Equipped(Members(s))
    case Err(e) => (Failed(e), 0)
    case Ok(agents) => Outcome(FirstPass(TaskBindings(s.tasks, TaskRoles(s), AgentsByRole(agents), params), |s.tasks|), run)
  }

  /** The execution row: created `in_progress`, then completed or failed. */
  class ExecutionRecord {
    var status: string
    var result: Option<(string, Dict<Value>)>
    var error: Option<ExecError>

    constructor()
      ensures status == "in_progress" && result.None? && error.None?
    {
      status := "in_progress";
      result := None;
      error := None;
    }

    method Complete(r: string, outputs: Dict<Value>)
      modifies this
      ensures status == "completed" && result == Some((r, outputs)) && error == old(error)
    {
      status := "completed";
      result := Some((r, outputs));
    }

    method Fail(e: ExecError)
      modifies this
      ensures status == "failed" && error == Some(e) && result == old(result)
    {
      status := "failed";
      error := Some(e);
    }
  }

  /** The status a response leaves in the record. */
  function StatusOf(r: Response): string {
    match r
    case CrewNotFound => ""
    case Completed(_, _) => "completed"
    case Failed(_) => "failed"
  }

  /** The endpoint: an unknown crew gets no record; otherwise the record is
      created `in_progress` and ends `completed` with the last result and the
      outputs, or `failed` with the error. */
  method ExecuteCrew(crew: Option<StoredCrew>, params: Option<ExecParams>, run: (nat, BoundTask) -> Result<string, string>)
    returns (response: Response, ran: nat, record: ExecutionRecord?)
    requires crew.Some? ==> WellFormed(crew.value)
    ensures crew.None? ==> response == CrewNotFound && ran == 0 && record == null
    ensures crew.Some? ==> (response, ran) == Execute(crew.value, params, run)
    ensures crew.Some? ==> record != null && fresh(record) && record.status == StatusOf(response)
    ensures crew.Some? && response.Completed? ==> record.result == Some((response.result, response.outputs)) && record.error.None?
    ensures crew.Some? && response.Failed? ==> record.error == Some(response.error) && record.result.None?
  {
    if crew.None? {
      return CrewNotFound, 0, null;
    }
    var s := crew.value;
    record := new ExecutionRecord();
    var agents := BuildAgents(Members(s));
    if agents.Err? {
      record.Fail(agents.error);
      return Failed(agents.error), 0, record;
    }
    var bound := BindTasks(s.tasks, TaskRoles(s), agents.value, params);
    if bound.Err? {
      record.Fail(bound.error);
      return Failed(bound.error), 0, record;
    }
    var st := RunTasks(bound.value, run);
    ran := st.ran;
    if st.failure.Some? {
      response := Failed(TaskRaised(st.failure.value));
      record.Fail(response.error);
    } else if st.last.None? {
      response := Failed(ResultNotSerializable);
      record.Fail(response.error);
    } else {
      response := Completed(st.last.value, st.finalOutputs);
      record.Complete(response.result, response.outputs);
    }
  }

  // ---------------------------------------------------------------------
  // Properties of the endpoint

  /** The built agents have the crew's roles, in order. */
  lemma EquippedRoles(members: seq<AgentRow>)
    requires Equipped(members).Ok?
    ensures Roles(Equipped(members).value) == Roles(members)
  {
    forall k | 0 <= k < |members|
      ensures Equipped(members).value[k].role == members[k].role
    {
      EquippedClient(members, k);
    }
  }

  /** A crew whose first agent has a provider other than the three fails
      before any task is bound or run, naming that agent's role; with any
      other first agent the agents are built. */
  lemma UnknownFirstProviderFails(s: StoredCrew, params: Option<ExecParams>, run: (nat, BoundTask) -> Result<string, string>)
    requires WellFormed(s)
    ensures Equipped(Members(s)).Err? <==> |s.members| > 0 && Members(s)[0].llm.provider !in Providers
    ensures |s.members| > 0 && Members(s)[0].llm.provider !in Providers ==>
      Execute(s, params, run) == (Failed(NoLlm(Members(s)[0].role)), 0)
  {
    EquippedFails(Members(s));
  }

  /** A task that fails to bind, after every earlier one bound, fails the
      execution with its error before any task runs. */
  lemma BindingFailureRunsNothing(s: StoredCrew, params: Option<ExecParams>, run: (nat, BoundTask) -> Result<string, string>, k: nat)
    requires WellFormed(s) && k < |s.tasks| && Equipped(Members(s)).Ok?
    requires var agents := AgentsByRole(Equipped(Members(s)).value);
      (forall j :: 0 <= j < k ==> BindOne(s.tasks[j], s.agents[s.tasks[j].agent].role, agents, params).Ok?) &&
      BindOne(s.tasks[k], s.agents[s.tasks[k].agent].role, agents, params).Err?
    ensures Execute(s, params, run) ==
      (Failed(BindOne(s.tasks[k], s.agents[s.tasks[k].agent].role, AgentsByRole(Equipped(Members(s)).value), params).error), 0)
  {
    var roles := TaskRoles(s);
    var agents := AgentsByRole(Equipped(Members(s)).value);
    var rs := TaskBindings(s.tasks, roles, agents, params);
    assert forall j :: 0 <= j < k ==> rs[j].Ok?;
    FirstPassFirstError(rs, k);
  }

  /** With every task bound and none raising, each task runs once in stored
      order and the response carries the last task's result; a crew without
      tasks fails, having no result to record. */
  lemma AllTasksRun(rs: seq<Result<BoundTask, ExecError>>, run: (nat, BoundTask) -> Result<string, string>)
    requires forall j :: 0 <= j < |rs| ==> rs[j].Ok? && run(j, rs[j].value).Ok?
    ensures Outcome(FirstPass(rs, |rs|), run).1 == |rs|
    ensures |rs| == 0 ==> Outcome(FirstPass(rs, |rs|), run).0 == Failed(ResultNotSerializable)
    ensures |rs| > 0 ==>
      && Outcome(FirstPass(rs, |rs|), run).0.Completed?
      && Outcome(FirstPass(rs, |rs|), run).0.result == run(|rs| - 1, rs[|rs| - 1].value).value
  {
    FirstPassOk(rs, |rs|);
    var bound := FirstPass(rs, |rs|).value;
    SecondPassInOrder(bound, run, |bound|);
  }

  // ---------------------------------------------------------------------
  // Crews created through the API

  /** A task whose role is a member's role finds its agent. */
  lemma MemberRoleFound(s: StoredCrew, j: nat, k: nat)
    requires WellFormed(s) && j < |s.tasks| && k < |s.members| && Equipped(Members(s)).Ok?
    requires s.agents[s.members[k]].role == s.agents[s.tasks[j].agent].role
    ensures Get(AgentsByRole(Equipped(Members(s)).value), TaskRoles(s)[j]).Some?
  {
    EquippedRoles(Members(s));
    assert Roles(Members(s))[k] == TaskRoles(s)[j];
    AgentsByRoleGet(Equipped(Members(s)).value, TaskRoles(s)[j]);
  }

  /** Every task of a crew created through the API finds an agent for its
      role when the crew runs. */
  lemma CreatedTasksFindTheirAgent(existing: set<string>, config: CrewConfig, ids: Ids, j: nat)
    requires Created(existing, config, ids).Ok? && j < |config.tasks|
    ensures var s := Created(existing, config, ids).value;
      && WellFormed(s) && j < |s.tasks|
      && (Equipped(Members(s)).Ok? ==> Get(AgentsByRole(Equipped(Members(s)).value), TaskRoles(s)[j]).Some?)
  {
    var s := Created(existing, config, ids).value;
    CreatedTaskRoleHasMember(existing, config, ids, j);
    var k :| 0 <= k < |s.members| && s.agents[s.members[k]].role == s.agents[s.tasks[j].agent].role;
    if Equipped(Members(s)).Ok? {
      MemberRoleFound(s, j, k);
    }
  }

  /** A task of a crew created through the API binds, or fails on a name it
      does not declare: its stored definitions all carry a default and its
      role has an agent. */
  lemma CreatedTaskFailsOnlyOnUnknownNames(existing: set<string>, config: CrewConfig, ids: Ids, params: Option<ExecParams>, j: nat)
    requires Created(existing, config, ids).Ok? && j < |config.tasks|
    ensures var s := Created(existing, config, ids).value;
      && WellFormed(s) && j < |s.tasks|
      && (Equipped(Members(s)).Ok? ==>
            var b := TaskBindings(s.tasks, TaskRoles(s), AgentsByRole(Equipped(Members(s)).value), params)[j];
            b.Err? ==> b.error.Rejected? && b.error.error.Unknown?)
  {
    var s := Created(existing, config, ids).value;
    CreatedTasksFindTheirAgent(existing, config, ids, j);
    if Equipped(Members(s)).Err? {
      return;
    }
    CreatedTaskRows(existing, config, ids, j);
    var agents := AgentsByRole(Equipped(Members(s)).value);
    assert TaskBindings(s.tasks, TaskRoles(s), agents, params)[j] == BindOne(s.tasks[j], TaskRoles(s)[j], agents, params);
    var t := s.tasks[j];
    StoredColumnsHaveDefaults(config.tasks[j].inputParameters);
    StoredColumnsHaveDefaults(config.tasks[j].contextVariables);
    DefaultsLeaveOnlyUnknown(t.id, t.inputParameters.GetOr([]), t.contextVariables.GetOr([]), DependencyText(t.dependencies),
      CrewInputs(params), TaskParamsFor(params, t.id), map[]);
  }

  /** A binding that is either a bound task or the rejection of an
      undeclared name. */
  predicate FailsOnlyOnUnknown(r: Result<BoundTask, ExecError>) {
    r.Err? ==> r.error.Rejected? && r.error.error.Unknown?
  }

  /** When every task binds or fails on an undeclared name, the endpoint
      never fails for a missing variable or a missing agent. */
  lemma OnlyUnknownNamesFail(rs: seq<Result<BoundTask, ExecError>>, run: (nat, BoundTask) -> Result<string, string>)
    requires forall j :: 0 <= j < |rs| ==> FailsOnlyOnUnknown(rs[j])
    ensures var response := Outcome(FirstPass(rs, |rs|), run).0;
      response.Failed? ==> !response.error.NoAgent? && !(response.error.Rejected? && response.error.error.Missing?)
  {
    FirstPassErrorFrom(rs, |rs|);
  }

  /** Running a crew created through the API never fails for a missing
      variable or a missing agent, whatever the request sends. */
  lemma CreatedCrewNeverMissesAVariable(existing: set<string>, config: CrewConfig, ids: Ids, params: Option<ExecParams>,
                                        run: (nat, BoundTask) -> Result<string, string>)
    requires Created(existing, config, ids).Ok?
    ensures var s := Created(existing, config, ids).value;
      && WellFormed(s)
      && var response := Execute(s, params, run).0;
         response.Failed? ==> !response.error.NoAgent? && !(response.error.Rejected? && response.error.error.Missing?)
  {
    var s := Created(existing, config, ids).value;
    CreatedWellFormed(existing, config, ids);
    TaskRowsOk(config.tasks, RoleMap(config.agents), ids.firstTask);
    if Equipped(Members(s)).Err? {
      EquippedFails(Members(s));
      return;
    }
    var rs := TaskBindings(s.tasks, TaskRoles(s), AgentsByRole(Equipped(Members(s)).value), params);
    forall j | 0 <= j < |rs| ensures FailsOnlyOnUnknown(rs[j]) {
      CreatedTaskFailsOnlyOnUnknownNames(existing, config, ids, params, j);
    }
    OnlyUnknownNamesFail(rs, run);
  }
}
