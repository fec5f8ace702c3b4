/** The execution-parameter dialog of the crew detail page and the crew list
    page: the blank form built from the fetched crew, the change handler that
    fills it in, and the request each page sends. Both pages build and
    update the form with the same code; they differ in the request. */
module ExecutionForm {
  import opened Wrappers
  import opened ODict
  import opened JsObject
  import CrewStore

  // ---------------------------------------------------------------------
  // The fetched crew and the form

  /** A task as the page reads it: its id and the names its two parameter
      objects declare, when the object is present. */
  datatype LoadedTask = LoadedTask(id: nat, inputKeys: Option<seq<string>>, contextKeys: Option<seq<string>>)

  /** The crew as the page reads it; `inputVariables` holds the names of the
      crew-level input variables when the crew carries that object. */
  datatype LoadedCrew = LoadedCrew(id: nat, name: string, inputVariables: Option<seq<string>>, tasks: seq<LoadedTask>)

  /** What `GET /crews/{id}` gives the page: every task's declared names,
      and no crew-level input variables, which that response does not carry. */
  function FromView(v: CrewStore.CrewView): (c: LoadedCrew)
    ensures c.inputVariables.None? && |c.tasks| == |v.tasks|
  {
    LoadedCrew(v.id, v.name, None,
      seq(|v.tasks|, j requires 0 <= j < |v.tasks| =>
        LoadedTask(v.tasks[j].id, Some(Keys(v.tasks[j].inputParameters)), Some(Keys(v.tasks[j].contextVariables)))))
  }

  datatype TaskInputs = TaskInputs(inputParameters: map<string, string>, contextVariables: map<string, string>)

  /** The form: crew-level values, and per task id the two parameter maps. */
  datatype ExecutionParams = ExecutionParams(inputVariables: map<string, string>, taskParams: map<nat, TaskInputs>)

  /** One empty value per declared name; nothing when the object is absent.
      The values are assigned into a fresh `{}`, so a declared name
      `__proto__` reaches the inherited setter and gets no entry. */
  function Blank(keys: Option<seq<string>>): map<string, string> {
    if keys.None? then map[] else map k | k in keys.value && k != ProtoKey :: ""
  }

  function TaskBlank(t: LoadedTask): TaskInputs {
    TaskInputs(Blank(t.inputKeys), Blank(t.contextKeys))
  }

  /** The task part of the blank form, task by task; a later task with the
      same id replaces an earlier one. */
  function TaskSkeleton(tasks: seq<LoadedTask>): map<nat, TaskInputs> {
    if tasks == [] then map[]
    else TaskSkeleton(tasks[..|tasks| - 1])[tasks[|tasks| - 1].id := TaskBlank(tasks[|tasks| - 1])]
  }

  /** The blank form the dialog opens with. */
  function Skeleton(c: LoadedCrew): ExecutionParams {
    ExecutionParams(Blank(c.inputVariables), TaskSkeleton(c.tasks))
  }

  /** `Object.keys(obj).forEach(key => { m[key] = ''; })`. */
  method BlankFor(keys: Option<seq<string>>) returns (m: map<string, string>)
    ensures m == Blank(keys)
  {
    m := map[];
    if keys.Some? {
      var ks := keys.value;
      var i: nat := 0;
      while i < |ks|
        invariant i <= |ks|
        invariant m == map k | k in ks[..i] && k != ProtoKey :: ""
      {
        assert ks[..i + 1] == ks[..i] + [ks[i]];
        m := Assigned(m, ks[i], "");
        i := i + 1;
      }
      assert ks[..|ks|] == ks;
    }
  }

  /** `handleExecute` / `handleExecuteCrew`: the crew-level blanks, then for
      each task in order a fresh entry under its id, filled with blanks. */
  method BuildSkeleton(c: LoadedCrew) returns (p: ExecutionParams)
    ensures p == Skeleton(c)
  {
    var inputs := BlankFor(c.inputVariables);
    var tasks: map<nat, TaskInputs> := map[];
    var i: nat := 0;
    while i < |c.tasks|
      invariant i <= |c.tasks|
      invariant tasks == TaskSkeleton(c.tasks[..i])
    {
      var t := c.tasks[i];
      ghost var before := tasks;
      tasks := tasks[t.id := TaskInputs(map[], map[])];
      var ins := BlankFor(t.inputKeys);
      tasks := tasks[t.id := tasks[t.id].(inputParameters := ins)];
      var ctx := BlankFor(t.contextKeys);
      tasks := tasks[t.id := tasks[t.id].(contextVariables := ctx)];
      assert tasks == before[t.id := TaskBlank(t)];
      assert TaskSkeleton(c.tasks[..i + 1]) == before[t.id := TaskBlank(t)] by {
        assert c.tasks[..i + 1][..i] == c.tasks[..i];
      }
      i := i + 1;
    }
    assert c.tasks[..|c.tasks|] == c.tasks;
    p := ExecutionParams(inputs, tasks);
  }

  // ---------------------------------------------------------------------
  // Properties of the blank form

  /** The crew-level part holds one empty value per declared crew input
      other than `__proto__`. */
  lemma SkeletonCrewInputs(c: LoadedCrew, k: string)
    ensures k in Skeleton(c).inputVariables <==> c.inputVariables.Some? && k in c.inputVariables.value && k != ProtoKey
    ensures k in Skeleton(c).inputVariables ==> Skeleton(c).inputVariables[k] == ""
  {
  }

  /** The form has an entry for exactly the ids of the crew's tasks. */
  lemma {:induction false} SkeletonIds(tasks: seq<LoadedTask>, id: nat)
    ensures id in TaskSkeleton(tasks) <==> exists j :: 0 <= j < |tasks| && tasks[j].id == id
    decreases |tasks|
  {
    if tasks != [] {
      var n := |tasks| - 1;
      SkeletonIds(tasks[..n], id);
      assert forall j :: 0 <= j < n ==> tasks[..n][j] == tasks[j];
    }
  }

  /** A task's entry, unless a later task has the same id, holds one empty
      value per name that task declares other than `__proto__`, in each of
      its two maps. */
  lemma {:induction false} SkeletonEntry(tasks: seq<LoadedTask>, i: nat)
    requires i < |tasks|
    requires forall j :: i < j < |tasks| ==> tasks[j].id != tasks[i].id
    ensures tasks[i].id in TaskSkeleton(tasks) && TaskSkeleton(tasks)[tasks[i].id] == TaskBlank(tasks[i])
    decreases |tasks|
  {
    var n := |tasks| - 1;
    if i < n {
      var init := tasks[..n];
      assert forall j :: 0 <= j < n ==> init[j] == tasks[j];
      SkeletonEntry(init, i);
    }
  }

  /** A crew fetched from the backend has no crew-level input variables, so
      the dialog offers none; its tasks offer exactly their declared names
      other than `__proto__`. */
  lemma FetchedCrewSkeleton(v: CrewStore.CrewView, j: nat, k: string)
    requires j < |v.tasks|
    requires forall l :: j < l < |v.tasks| ==> v.tasks[l].id != v.tasks[j].id
    ensures Skeleton(FromView(v)).inputVariables == map[]
    ensures v.tasks[j].id in Skeleton(FromView(v)).taskParams
    ensures var entry := Skeleton(FromView(v)).taskParams[v.tasks[j].id];
      (k in entry.inputParameters <==> k in Keys(v.tasks[j].inputParameters) && k != ProtoKey) &&
      (k in entry.contextVariables <==> k in Keys(v.tasks[j].contextVariables) && k != ProtoKey)
  {
    var c := FromView(v);
    SkeletonEntry(c.tasks, j);
  }

  // ---------------------------------------------------------------------
  // Filling in the form

  datatype ParamKind = InputParameters | ContextVariables

  /** Which value a change is for: a crew-level input, or one of a task's
      parameters (`type` other than `'crew'`). */
  datatype Target = CrewInput | TaskParam(taskId: nat, kind: ParamKind)

  function WithParam(t: TaskInputs, kind: ParamKind, key: string, value: string): TaskInputs {
    match kind
    case InputParameters => t.(inputParameters := t.inputParameters[key := value])
    case ContextVariables => t.(contextVariables := t.contextVariables[key := value])
  }

  /** `handleParamsChange` / `handleParameterChange`. A task id with no entry
      makes reading `prev.task_params[taskId][paramType]` throw; that is
      `None`, and the form stays as it was. */
  function Changed(p: ExecutionParams, target: Target, key: string, value: string): Option<ExecutionParams> {
    match target
    case CrewInput => Some(p.(inputVariables := p.inputVariables[key := value]))
    case TaskParam(id, kind) =>
      if id !in p.taskParams then None
      else Some(p.(taskParams := p.taskParams[id := WithParam(p.taskParams[id], kind, key, value)]))
  }

  /** Reading one value of the form back. */
  function Leaf(p: ExecutionParams, target: Target, key: string): Option<string> {
    match target
    case CrewInput => if key in p.inputVariables then Some(p.inputVariables[key]) else None
    case TaskParam(id, kind) =>
      if id !in p.taskParams then None
      else
        var m := if kind == InputParameters then p.taskParams[id].inputParameters else p.taskParams[id].contextVariables;
        if key in m then Some(m[key]) else None
  }

  /** A change sets exactly the value it names and leaves every other value
      of the form, and the set of task entries, as they were; it fails only
      for a task id the form has no entry for. */
  lemma ChangeSetsOneValue(p: ExecutionParams, target: Target, key: string, value: string, other: Target, otherKey: string)
    ensures Changed(p, target, key, value).None? <==> target.TaskParam? && target.taskId !in p.taskParams
    ensures Changed(p, target, key, value).Some? ==>
      var q := Changed(p, target, key, value).value;
      && Leaf(q, target, key) == Some(value)
      && ((other, otherKey) != (target, key) ==> Leaf(q, other, otherKey) == Leaf(p, other, otherKey))
      && q.taskParams.Keys == p.taskParams.Keys
  {
  }

  // ---------------------------------------------------------------------
  // The detail page's request

  /** Every finite set of task ids has a largest element. */
  lemma {:induction false} HasLargest(s: set<nat>)
    requires s != {}
    ensures exists m :: m in s && forall x :: x in s ==> x <= m
    decreases |s|
  {
    var y :| y in s;
    var r := s - {y};
    if r == {} {
      forall x | x in s ensures x <= y {
        assert x !in r;
      }
    } else {
      assert |r| < |s|;
      HasLargest(r);
      var m :| m in r && forall x :: x in r ==> x <= m;
      var top := if y > m then y else m;
      forall x | x in s
        ensures x <= top
      {
        if x != y {
          assert x in r;
        }
      }
      assert top in s;
    }
  }

  function Largest(s: set<nat>): (m: nat)
    requires s != {}
    ensures m in s && forall x :: x in s ==> x <= m
  {
    HasLargest(s);
    var m :| m in s && forall x :: x in s ==> x <= m;
    m
  }

  /** The `reduce` over `Object.entries(task_params)`: each task's input
      parameters spread over the accumulator. Integer-like keys are visited
      in increasing order, so the entry with the largest id is spread last. */
  function Overlaid(tp: map<nat, TaskInputs>): map<string, string>
    decreases |tp.Keys|
  {
    if tp.Keys == {} then map[]
    else
      var top := Largest(tp.Keys);
      assert (tp - {top}).Keys == tp.Keys - {top};
      Overlaid(tp - {top}) + tp[top].inputParameters
  }

  /** The detail page sends `{inputs: ...}`: the crew-level values with every
      task's input parameters spread over them. */
  function DetailInputs(p: ExecutionParams): map<string, string> {
    p.inputVariables + Overlaid(p.taskParams)
  }

  /** A name is in the overlay exactly when some task entry has it as an
      input parameter. */
  lemma {:induction false} OverlaidHas(tp: map<nat, TaskInputs>, k: string)
    ensures k in Overlaid(tp) <==> exists j :: j in tp && k in tp[j].inputParameters
    decreases |tp.Keys|
  {
    if tp.Keys != {} {
      var top := Largest(tp.Keys);
      var rest := tp - {top};
      assert rest.Keys == tp.Keys - {top};
      assert Overlaid(tp) == Overlaid(rest) + tp[top].inputParameters;
      OverlaidHas(rest, k);
      if k in Overlaid(tp) && k !in tp[top].inputParameters {
        var j :| j in rest && k in rest[j].inputParameters;
        assert tp[j] == rest[j];
      }
      if exists j :: j in tp && k in tp[j].inputParameters {
        var j :| j in tp && k in tp[j].inputParameters;
        if j != top {
          assert j in rest && rest[j] == tp[j];
        }
      }
    }
  }

  /** The value of a name in the overlay is that of the entry with the
      largest id among those that have it. */
  lemma {:induction false} OverlaidWinner(tp: map<nat, TaskInputs>, k: string, id: nat)
    requires id in tp && k in tp[id].inputParameters
    requires forall j :: j in tp && j > id ==> k !in tp[j].inputParameters
    ensures k in Overlaid(tp) && Overlaid(tp)[k] == tp[id].inputParameters[k]
    decreases |tp.Keys|
  {
    var top := Largest(tp.Keys);
    var rest := tp - {top};
    assert rest.Keys == tp.Keys - {top};
    assert Overlaid(tp) == Overlaid(rest) + tp[top].inputParameters;
    if id != top {
      assert id < top;
      assert k !in tp[top].inputParameters;
      assert id in rest && rest[id] == tp[id];
      forall j | j in rest && j > id
        ensures k !in rest[j].inputParameters
      {
        assert rest[j] == tp[j];
      }
      OverlaidWinner(rest, k, id);
    }
  }

  /** What the detail page sends for a name: a task's input parameter wins
      over a crew-level value of the same name, and a crew-level value no
      task overrides is sent as it is. */
  lemma DetailInputsValue(p: ExecutionParams, k: string)
    ensures k in DetailInputs(p) <==>
      k in p.inputVariables || exists j :: j in p.taskParams && k in p.taskParams[j].inputParameters
    ensures k in p.inputVariables && (forall j :: j in p.taskParams ==> k !in p.taskParams[j].inputParameters) ==>
      DetailInputs(p)[k] == p.inputVariables[k]
  {
    OverlaidHas(p.taskParams, k);
  }

  /** Context variables are not sent: changing one leaves the request as it
      was. */
  lemma ContextVariablesNotSent(p: ExecutionParams, id: nat, key: string, value: string)
    requires id in p.taskParams
    ensures DetailInputs(Changed(p, TaskParam(id, ContextVariables), key, value).value) == DetailInputs(p)
  {
    var q := Changed(p, TaskParam(id, ContextVariables), key, value).value;
    OverlaidIgnoresContext(p.taskParams, q.taskParams);
  }

  /** The overlay reads only the input parameters of the entries. */
  lemma {:induction false} OverlaidIgnoresContext(tp: map<nat, TaskInputs>, tq: map<nat, TaskInputs>)
    requires tp.Keys == tq.Keys
    requires forall j :: j in tp ==> tp[j].inputParameters == tq[j].inputParameters
    ensures Overlaid(tp) == Overlaid(tq)
    decreases |tp.Keys|
  {
    if tp.Keys != {} {
      var top := Largest(tp.Keys);
      assert Largest(tq.Keys) == top;
      var rp, rq := tp - {top}, tq - {top};
      assert rp.Keys == tp.Keys - {top} && rq.Keys == tq.Keys - {top};
      OverlaidIgnoresContext(rp, rq);
    }
  }

  // ---------------------------------------------------------------------
  // The list page's request

  /** An entry of the crew list: `{id, name}`. */
  datatype ListedCrew = ListedCrew(id: int, name: string)

  /** A value in the list page's `inputs`: a crew-level value, or the whole
      task map under `task_params`. */
  datatype SentInput = Plain(text: string) | TaskMap(tasks: map<nat, TaskInputs>)

  datatype Request = Request(crewId: int, inputs: map<string, SentInput>)

  /** `crews.find(c => c.name === name)`. */
  function FirstNamed(crews: seq<ListedCrew>, name: string): Option<ListedCrew> {
    if crews == [] then None
    else if crews[0].name == name then Some(crews[0])
    else FirstNamed(crews[1..], name)
  }

  /** The list page sends the crew-level values and, under `task_params`,
      the whole task map; a crew-level value named `task_params` is
      overwritten by it. */
  function ListInputs(p: ExecutionParams): map<string, SentInput> {
    (map k | k in p.inputVariables :: Plain(p.inputVariables[k]))["task_params" := TaskMap(p.taskParams)]
  }

  /** `handleExecuteWithParams` on the list page: the error it sets, or the
      request it sends. The crew id is looked up by name in the list, and a
      missing or zero id is refused. */
  function ListRequest(selected: Option<LoadedCrew>, crews: seq<ListedCrew>, p: ExecutionParams): Result<Request, string> {
    if selected.None? then Err("No crew selected")
    else
      match FirstNamed(crews, selected.value.name)
      case None => Err("Could not find crew ID")
      case Some(c) => if c.id == 0 then Err("Could not find crew ID") else Ok(Request(c.id, ListInputs(p)))
  }

  /** `find` answers the first entry with the name, if there is one. */
  lemma {:induction false} FirstNamedIsFirst(crews: seq<ListedCrew>, name: string)
    ensures FirstNamed(crews, name).None? <==> forall i :: 0 <= i < |crews| ==> crews[i].name != name
    ensures FirstNamed(crews, name).Some? ==>
      exists i :: 0 <= i < |crews| && crews[i] == FirstNamed(crews, name).value && crews[i].name == name &&
        forall j :: 0 <= j < i ==> crews[j].name != name
  {
    if crews != [] && crews[0].name != name {
      FirstNamedIsFirst(crews[1..], name);
      if FirstNamed(crews, name).Some? {
        var i :| 0 <= i < |crews| - 1 && crews[1..][i] == FirstNamed(crews, name).value && crews[1..][i].name == name &&
          forall j :: 0 <= j < i ==> crews[1..][j].name != name;
        assert crews[i + 1] == crews[1..][i];
        assert forall j :: 0 < j < i + 1 ==> crews[j] == crews[1..][j - 1];
      }
      assert forall i :: 0 < i < |crews| ==> crews[i] == crews[1..][i - 1];
    }
  }

  /** Without a selected crew nothing is sent; with one, the request goes to
      the id of the first listed crew with its name, which is never zero. */
  lemma ListRequestTarget(selected: Option<LoadedCrew>, crews: seq<ListedCrew>, p: ExecutionParams)
    ensures ListRequest(selected, crews, p) == Err("No crew selected") <==> selected.None?
    ensures ListRequest(selected, crews, p).Ok? ==>
      var id := ListRequest(selected, crews, p).value.crewId;
      id != 0 &&
      (exists i :: 0 <= i < |crews| && crews[i] == ListedCrew(id, selected.value.name) &&
         forall j :: 0 <= j < i ==> crews[j].name != selected.value.name)
  {
    if selected.Some? {
      FirstNamedIsFirst(crews, selected.value.name);
    }
  }

  /** Crew names are unique (creation refuses a taken name), so a selected
      crew that is listed under its own id is executed under that id. */
  lemma UniqueNamesReachTheSelectedCrew(selected: LoadedCrew, crews: seq<ListedCrew>, p: ExecutionParams, i: nat)
    requires forall a, b :: 0 <= a < b < |crews| ==> crews[a].name != crews[b].name
    requires i < |crews| && crews[i] == ListedCrew(selected.id, selected.name) && selected.id != 0
    ensures ListRequest(Some(selected), crews, p) == Ok(Request(selected.id, ListInputs(p)))
  {
    FirstNamedIsFirst(crews, selected.name);
  }

  /** The list page's `inputs` hold every crew-level value under its name,
      except `task_params`, which holds the whole task map. */
  lemma ListInputsShape(p: ExecutionParams, k: string)
    ensures ListInputs(p)["task_params"] == TaskMap(p.taskParams)
    ensures k != "task_params" ==>
      (k in ListInputs(p) <==> k in p.inputVariables) &&
      (k in p.inputVariables ==> ListInputs(p)[k] == Plain(p.inputVariables[k]))
  {
  }
}
