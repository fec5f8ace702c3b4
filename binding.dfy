/** The first pass of the execute endpoint for one task: the context seeded
    with the crew inputs (`crew_<name>`) and with the outputs of dependencies,
    the supplied values checked against the task's declarations, the missing
    ones filled from their definitions, and the description rewritten with
    every binding. Each loop of the endpoint is a method proved equal to a
    fold over the entries it visits. */
module Binding {
  import opened Wrappers
  import opened Text
  import opened ODict
  import opened Values

  datatype VarKind = InputParameter | ContextVariable

  /** The rejections of the first pass, naming the variable and the task id.
      They are raised as 400s inside the endpoint's `try`, whose catch-all
      turns each into a 500 with the text `400: ` before the message. */
  datatype BindError =
    | Unknown(kind: VarKind, name: string, task: nat)
    | Missing(kind: VarKind, name: string, task: nat)

  /** What one task was sent: its entry of `task_params`. */
  datatype TaskParams = TaskParams(inputParameters: Option<Dict<Value>>, contextVariables: Option<Dict<Value>>)

  /** The key of `task_outputs`: Python compares an `int` id and a `str` as
      different keys. */
  datatype OutputKey = TaskId(id: int) | TextKey(s: string)

  // ---------------------------------------------------------------------
  // Assignment of a sequence of entries

  /** `acc[prefix + k] = v` for every entry, in order. */
  function Assigned(acc: Dict<Value>, entries: Dict<Value>, prefix: string): Dict<Value>
    decreases |entries|
  {
    if entries == [] then acc
    else
      var n := |entries| - 1;
      Put(Assigned(acc, entries[..n], prefix), prefix + entries[n].0, entries[n].1)
  }

  lemma AssignedStep(acc: Dict<Value>, entries: Dict<Value>, prefix: string, n: nat)
    requires |entries| == n + 1
    ensures Assigned(acc, entries, prefix) == Put(Assigned(acc, entries[..n], prefix), prefix + entries[n].0, entries[n].1)
  {
  }

  method AssignAll(acc: Dict<Value>, entries: Dict<Value>, prefix: string) returns (d: Dict<Value>)
    ensures d == Assigned(acc, entries, prefix)
  {
    d := acc;
    var i: nat := 0;
    while i < |entries|
      invariant i <= |entries|
      invariant d == Assigned(acc, entries[..i], prefix)
    {
      AssignedStep(acc, entries[..i + 1], prefix, i);
      assert entries[..i + 1][..i] == entries[..i];
      d := Put(d, prefix + entries[i].0, entries[i].1);
      i := i + 1;
    }
    assert entries[..i] == entries;
  }

  lemma PrefixCut(prefix: string, a: string)
    ensures (prefix + a)[|prefix|..] == a
  {
  }

  /** An entry of a dictionary, assigned under a prefix, can be read back
      under the prefixed name. */
  lemma {:induction false} AssignedGetEntry(acc: Dict<Value>, entries: Dict<Value>, prefix: string, i: nat)
    requires UniqueKeys(entries) && i < |entries|
    ensures Get(Assigned(acc, entries, prefix), prefix + entries[i].0) == Some(entries[i].1)
    decreases |entries|
  {
    var n: nat := |entries| - 1;
    AssignedStep(acc, entries, prefix, n);
    PutGet(Assigned(acc, entries[..n], prefix), prefix + entries[n].0, entries[n].1, prefix + entries[i].0);
    if i < n {
      assert entries[n].0 != entries[i].0;
      PrefixCut(prefix, entries[n].0);
      PrefixCut(prefix, entries[i].0);
      UniqueKeysPrefix(entries, n);
      assert entries[..n][i] == entries[i];
      AssignedGetEntry(acc, entries[..n], prefix, i);
    }
  }

  /** No entry is assigned to `k`. */
  predicate NotAssigned(entries: Dict<Value>, prefix: string, k: string) {
    forall i :: 0 <= i < |entries| ==> prefix + entries[i].0 != k
  }

  /** A name that no entry is assigned to keeps its value. */
  lemma {:induction false} AssignedGetOther(acc: Dict<Value>, entries: Dict<Value>, prefix: string, k: string)
    requires NotAssigned(entries, prefix, k)
    ensures Get(Assigned(acc, entries, prefix), k) == Get(acc, k)
    decreases |entries|
  {
    if entries != [] {
      var n: nat := |entries| - 1;
      AssignedStep(acc, entries, prefix, n);
      PutGet(Assigned(acc, entries[..n], prefix), prefix + entries[n].0, entries[n].1, k);
      assert NotAssigned(entries[..n], prefix, k) by {
        assert forall i :: 0 <= i < n ==> entries[..n][i] == entries[i];
      }
      AssignedGetOther(acc, entries[..n], prefix, k);
    }
  }

  // ---------------------------------------------------------------------
  // Supplied values

  /** Every supplied name is declared. */
  predicate AllDeclared(given: Dict<Value>, defs: Dict<ParamDef>) {
    forall i :: 0 <= i < |given| ==> given[i].0 in Keys(defs)
  }

  /** The check of the supplied values of one kind: the first undeclared name
      is rejected, every declared one is bound to the value supplied. */
  function Accepted(acc: Dict<Value>, given: Dict<Value>, defs: Dict<ParamDef>, kind: VarKind, task: nat): Result<Dict<Value>, BindError>
    decreases |given|
  {
    if given == [] then Ok(acc)
    else
      var n := |given| - 1;
      match Accepted(acc, given[..n], defs, kind, task)
      case Err(e) => Err(e)
      case Ok(a) =>
        if given[n].0 in Keys(defs) then Ok(Put(a, given[n].0, given[n].1))
        else Err(Unknown(kind, given[n].0, task))
  }

  lemma AcceptedStep(acc: Dict<Value>, given: Dict<Value>, defs: Dict<ParamDef>, kind: VarKind, task: nat, n: nat, d: Dict<Value>)
    requires n < |given| && Accepted(acc, given[..n], defs, kind, task) == Ok(d)
    ensures Accepted(acc, given[..n + 1], defs, kind, task) ==
      if given[n].0 in Keys(defs) then Ok(Put(d, given[n].0, given[n].1)) else Err(Unknown(kind, given[n].0, task))
  {
    assert given[..n + 1][..n] == given[..n];
  }

  /** The check succeeds exactly when every supplied name is declared, and then
      binds each supplied name to its value. */
  lemma {:induction false} AcceptedOk(acc: Dict<Value>, given: Dict<Value>, defs: Dict<ParamDef>, kind: VarKind, task: nat)
    ensures Accepted(acc, given, defs, kind, task).Ok? <==> AllDeclared(given, defs)
    ensures Accepted(acc, given, defs, kind, task).Ok? ==> Accepted(acc, given, defs, kind, task).value == Assigned(acc, given, "")
    decreases |given|
  {
    if given != [] {
      var n: nat := |given| - 1;
      AcceptedOk(acc, given[..n], defs, kind, task);
      AllDeclaredSplit(given, defs, n);
      AssignedStep(acc, given, "", n);
      assert "" + given[n].0 == given[n].0;
    }
  }

  lemma AllDeclaredSplit(given: Dict<Value>, defs: Dict<ParamDef>, n: nat)
    requires |given| == n + 1
    ensures AllDeclared(given, defs) <==> AllDeclared(given[..n], defs) && given[n].0 in Keys(defs)
  {
    assert forall i :: 0 <= i < n ==> given[..n][i] == given[i];
  }

  /** The first undeclared name is the one rejected. */
  lemma {:induction false} AcceptedFirstUnknown(acc: Dict<Value>, given: Dict<Value>, defs: Dict<ParamDef>, kind: VarKind, task: nat, k: nat)
    requires k < |given| && given[k].0 !in Keys(defs)
    requires AllDeclared(given[..k], defs)
    ensures Accepted(acc, given, defs, kind, task) == Err(Unknown(kind, given[k].0, task))
    decreases |given|
  {
    var n := |given| - 1;
    if k < n {
      assert given[..n][..k] == given[..k];
      assert given[..n][k] == given[k];
      AcceptedFirstUnknown(acc, given[..n], defs, kind, task, k);
    } else {
      assert given[..k] == given[..n];
      AcceptedOk(acc, given[..n], defs, kind, task);
    }
  }

  /** The check of supplied values fails only on an undeclared name. */
  lemma {:induction false} AcceptedFailsOnUnknown(acc: Dict<Value>, given: Dict<Value>, defs: Dict<ParamDef>, kind: VarKind, task: nat)
    ensures Accepted(acc, given, defs, kind, task).Err? ==> Accepted(acc, given, defs, kind, task).error.Unknown?
    decreases |given|
  {
    if given != [] {
      AcceptedFailsOnUnknown(acc, given[..|given| - 1], defs, kind, task);
    }
  }

  method AcceptSupplied(acc: Dict<Value>, given: Dict<Value>, defs: Dict<ParamDef>, kind: VarKind, task: nat)
    returns (r: Result<Dict<Value>, BindError>)
    ensures r == Accepted(acc, given, defs, kind, task)
  {
    var d := acc;
    var i: nat := 0;
    assert given[..0] == [];
    while i < |given|
      invariant i <= |given|
      invariant Accepted(acc, given[..i], defs, kind, task) == Ok(d)
    {
      AcceptedStep(acc, given, defs, kind, task, i, d);
      if given[i].0 !in Keys(defs) {
        AcceptedOk(acc, given[..i], defs, kind, task);
        AcceptedFirstUnknown(acc, given, defs, kind, task, i);
        return Err(Unknown(kind, given[i].0, task));
      }
      d := Put(d, given[i].0, given[i].1);
      i := i + 1;
    }
    assert given[..i] == given;
    return Ok(d);
  }

  // ---------------------------------------------------------------------
  // Declared values not supplied

  /** `required` (true when absent) and no `default` key. */
  predicate Demanded(d: ParamDef) {
    d.required.GetOr(true) && d.default.None?
  }

  /** `param_def.get("default")`. */
  function FillValue(d: ParamDef): Value {
    d.default.GetOr(NoneValue)
  }

  /** The fill loop: each declared name not bound yet is rejected when demanded
      and otherwise bound to its default. */
  function Filled(acc: Dict<Value>, defs: Dict<ParamDef>, kind: VarKind, task: nat): Result<Dict<Value>, BindError>
    decreases |defs|
  {
    if defs == [] then Ok(acc)
    else
      var n := |defs| - 1;
      match Filled(acc, defs[..n], kind, task)
      case Err(e) => Err(e)
      case Ok(a) =>
        if defs[n].0 in Keys(a) then Ok(a)
        else if Demanded(defs[n].1) then Err(Missing(kind, defs[n].0, task))
        else Ok(Put(a, defs[n].0, FillValue(defs[n].1)))
  }

  lemma FilledStep(acc: Dict<Value>, defs: Dict<ParamDef>, kind: VarKind, task: nat, n: nat, d: Dict<Value>)
    requires n < |defs| && Filled(acc, defs[..n], kind, task) == Ok(d)
    ensures Filled(acc, defs[..n + 1], kind, task) ==
      if defs[n].0 in Keys(d) then Ok(d)
      else if Demanded(defs[n].1) then Err(Missing(kind, defs[n].0, task))
      else Ok(Put(d, defs[n].0, FillValue(defs[n].1)))
  {
    assert defs[..n + 1][..n] == defs[..n];
  }

  lemma {:induction false} FilledErrSticks(acc: Dict<Value>, defs: Dict<ParamDef>, kind: VarKind, task: nat, n: nat)
    requires n <= |defs| && Filled(acc, defs[..n], kind, task).Err?
    ensures Filled(acc, defs, kind, task) == Filled(acc, defs[..n], kind, task)
    decreases |defs| - n
  {
    if n < |defs| {
      var m := |defs| - 1;
      assert defs[..m][..n] == defs[..n];
      FilledErrSticks(acc, defs[..m], kind, task, n);
    } else {
      assert defs[..n] == defs;
    }
  }

  method FillMissing(acc: Dict<Value>, defs: Dict<ParamDef>, kind: VarKind, task: nat)
    returns (r: Result<Dict<Value>, BindError>)
    ensures r == Filled(acc, defs, kind, task)
  {
    var d := acc;
    var i: nat := 0;
    assert defs[..0] == [];
    while i < |defs|
      invariant i <= |defs|
      invariant Filled(acc, defs[..i], kind, task) == Ok(d)
    {
      var (name, def) := defs[i];
      if name !in Keys(d) {
        if Demanded(def) {
          assert Filled(acc, defs[..i + 1], kind, task) == Err(Missing(kind, name, task)) by {
            FilledStep(acc, defs, kind, task, i, d);
          }
          FilledErrSticks(acc, defs, kind, task, i + 1);
          return Err(Missing(kind, name, task));
        }
        assert Filled(acc, defs[..i + 1], kind, task) == Ok(Put(d, name, FillValue(def))) by {
          FilledStep(acc, defs, kind, task, i, d);
        }
        d := Put(d, name, FillValue(def));
      } else {
        assert Filled(acc, defs[..i + 1], kind, task) == Ok(d) by {
          FilledStep(acc, defs, kind, task, i, d);
        }
      }
      i := i + 1;
    }
    assert defs[..i] == defs;
    return Ok(d);
  }

  /** After the fill the bound names are the ones bound before and the
      declared ones. */
  lemma {:induction false} FilledKeys(acc: Dict<Value>, defs: Dict<ParamDef>, kind: VarKind, task: nat, k: string)
    requires Filled(acc, defs, kind, task).Ok?
    ensures k in Keys(Filled(acc, defs, kind, task).value) <==> k in Keys(acc) || k in Keys(defs)
    decreases |defs|
  {
    if defs != [] {
      var n: nat := |defs| - 1;
      FilledKeys(acc, defs[..n], kind, task, k);
      var a := Filled(acc, defs[..n], kind, task).value;
      FilledStep(acc, defs, kind, task, n, a);
      assert defs[..n + 1] == defs;
      PutHasKey(a, defs[n].0, FillValue(defs[n].1), k);
      KeysLast(defs, n, k);
    }
  }

  /** A name bound before the fill keeps its value. */
  lemma {:induction false} FilledKeeps(acc: Dict<Value>, defs: Dict<ParamDef>, kind: VarKind, task: nat, k: string)
    requires Filled(acc, defs, kind, task).Ok? && k in Keys(acc)
    ensures Get(Filled(acc, defs, kind, task).value, k) == Get(acc, k)
    decreases |defs|
  {
    if defs != [] {
      var n: nat := |defs| - 1;
      FilledKeeps(acc, defs[..n], kind, task, k);
      var a := Filled(acc, defs[..n], kind, task).value;
      FilledStep(acc, defs, kind, task, n, a);
      assert defs[..n + 1] == defs;
      FilledKeys(acc, defs[..n], kind, task, k);
      PutGet(a, defs[n].0, FillValue(defs[n].1), k);
    }
  }

  /** A declared name that was not bound is bound to its default. */
  lemma {:induction false} FilledDefault(acc: Dict<Value>, defs: Dict<ParamDef>, kind: VarKind, task: nat, i: nat)
    requires UniqueKeys(defs) && i < |defs| && defs[i].0 !in Keys(acc)
    requires Filled(acc, defs, kind, task).Ok?
    ensures Get(Filled(acc, defs, kind, task).value, defs[i].0) == Some(FillValue(defs[i].1))
    decreases |defs|
  {
    var n: nat := |defs| - 1;
    var a := Filled(acc, defs[..n], kind, task).value;
    FilledStep(acc, defs, kind, task, n, a);
    assert defs[..n + 1] == defs;
    UniqueKeysPrefix(defs, n);
    if i < n {
      assert defs[..n][i] == defs[i];
      FilledDefault(acc, defs[..n], kind, task, i);
      PutGet(a, defs[n].0, FillValue(defs[n].1), defs[i].0);
    } else {
      FilledKeys(acc, defs[..n], kind, task, defs[n].0);
      KeysPrefix(defs, n, defs[n].0);
      PutGet(a, defs[n].0, FillValue(defs[n].1), defs[n].0);
    }
  }

  /** No declared name that is still unbound is demanded. */
  predicate NoneMissing(acc: Dict<Value>, defs: Dict<ParamDef>) {
    forall i :: 0 <= i < |defs| && defs[i].0 !in Keys(acc) ==> !Demanded(defs[i].1)
  }

  /** Without a demanded unbound name the fill succeeds. */
  lemma {:induction false} FilledOkWhen(acc: Dict<Value>, defs: Dict<ParamDef>, kind: VarKind, task: nat)
    requires NoneMissing(acc, defs)
    ensures Filled(acc, defs, kind, task).Ok?
    decreases |defs|
  {
    if defs != [] {
      var n: nat := |defs| - 1;
      assert NoneMissing(acc, defs[..n]) by {
        assert forall i :: 0 <= i < n ==> defs[..n][i] == defs[i];
      }
      FilledOkWhen(acc, defs[..n], kind, task);
      var a := Filled(acc, defs[..n], kind, task).value;
      FilledStep(acc, defs, kind, task, n, a);
      assert defs[..n + 1] == defs;
      FilledKeys(acc, defs[..n], kind, task, defs[n].0);
    }
  }

  /** The first demanded unbound name is the one reported. */
  lemma {:induction false} FilledFirstMissing(acc: Dict<Value>, defs: Dict<ParamDef>, kind: VarKind, task: nat, k: nat)
    requires UniqueKeys(defs) && k < |defs| && defs[k].0 !in Keys(acc) && Demanded(defs[k].1)
    requires NoneMissing(acc, defs[..k])
    ensures Filled(acc, defs, kind, task) == Err(Missing(kind, defs[k].0, task))
    decreases |defs|
  {
    var n: nat := |defs| - 1;
    UniqueKeysPrefix(defs, n);
    if k < n {
      assert defs[..n][..k] == defs[..k];
      assert defs[..n][k] == defs[k];
      FilledFirstMissing(acc, defs[..n], kind, task, k);
    } else {
      assert defs[..k] == defs[..n];
      FilledOkWhen(acc, defs[..n], kind, task);
      var a := Filled(acc, defs[..n], kind, task).value;
      FilledStep(acc, defs, kind, task, n, a);
      assert defs[..n + 1] == defs;
      FilledKeys(acc, defs[..n], kind, task, defs[n].0);
      KeysPrefix(defs, n, defs[n].0);
    }
  }

  // ---------------------------------------------------------------------
  // Outputs of dependencies

  /** The dependency loop over the stored dependency text: each element of a
      Python `str` is a one-character string, looked up in `task_outputs`. */
  function DependencyContext(acc: Dict<Value>, deps: string, outputs: map<OutputKey, Dict<Value>>): Dict<Value>
    decreases |deps|
  {
    if deps == [] then acc
    else
      var n := |deps| - 1;
      var a := DependencyContext(acc, deps[..n], outputs);
      var key := TextKey([deps[n]]);
      if key in outputs then Assigned(a, outputs[key], "task_" + [deps[n]] + "_") else a
  }

  method AddDependencyOutputs(acc: Dict<Value>, deps: string, outputs: map<OutputKey, Dict<Value>>) returns (d: Dict<Value>)
    ensures d == DependencyContext(acc, deps, outputs)
  {
    d := acc;
    var i: nat := 0;
    while i < |deps|
      invariant i <= |deps|
      invariant d == DependencyContext(acc, deps[..i], outputs)
    {
      assert deps[..i + 1][..i] == deps[..i];
      var key := TextKey([deps[i]]);
      if key in outputs {
        d := AssignAll(d, outputs[key], "task_" + [deps[i]] + "_");
      }
      i := i + 1;
    }
    assert deps[..i] == deps;
  }

  /** `task_outputs` is keyed by integer task ids, so no character of the
      dependency text finds an entry and the loop binds nothing. */
  lemma {:induction false} DependenciesBindNothing(acc: Dict<Value>, deps: string, outputs: map<OutputKey, Dict<Value>>)
    requires forall key :: key in outputs ==> key.TaskId?
    ensures DependencyContext(acc, deps, outputs) == acc
    decreases |deps|
  {
    if deps != [] {
      var n := |deps| - 1;
      DependenciesBindNothing(acc, deps[..n], outputs);
      assert TextKey([deps[n]]) !in outputs;
    }
  }

  // ---------------------------------------------------------------------
  // Substitution into the description

  /** `description.replace("{" + k + "}", str(v))` for every binding, in order. */
  function Substituted(description: string, bindings: Dict<Value>): string
    decreases |bindings|
  {
    if bindings == [] then description
    else
      var n := |bindings| - 1;
      ReplaceAll(Substituted(description, bindings[..n]), "{" + bindings[n].0 + "}", ToStr(bindings[n].1))
  }

  method SubstituteAll(description: string, bindings: Dict<Value>) returns (s: string)
    ensures s == Substituted(description, bindings)
  {
    s := description;
    var i: nat := 0;
    while i < |bindings|
      invariant i <= |bindings|
      invariant s == Substituted(description, bindings[..i])
    {
      assert bindings[..i + 1][..i] == bindings[..i];
      s := ReplaceAll(s, "{" + bindings[i].0 + "}", ToStr(bindings[i].1));
      i := i + 1;
    }
    assert bindings[..i] == bindings;
  }

  /** One substitution step cuts the text at every `{k}` and glues the pieces,
      none of which holds `{k}`, with `str(v)`. */
  lemma SubstitutionStep(description: string, bindings: Dict<Value>, k: string, v: Value)
    ensures var before := Substituted(description, bindings);
      var pieces := Split(before, "{" + k + "}");
      Substituted(description, bindings + [(k, v)]) == Join(pieces, ToStr(v)) &&
      forall i :: 0 <= i < |pieces| ==> !Contains(pieces[i], "{" + k + "}")
  {
    var b := bindings + [(k, v)];
    assert b[..|bindings|] == bindings;
    var before := Substituted(description, bindings);
    ReplaceAllIsJoinOfSplit(before, "{" + k + "}", ToStr(v));
    SplitPiecesFree(before, "{" + k + "}");
  }

  /** A placeholder that does not occur leaves the description unchanged. */
  lemma {:induction false} AbsentPlaceholderUnchanged(s: string, k: string, r: string)
    requires !Contains(s, "{" + k + "}")
    ensures ReplaceAll(s, "{" + k + "}", r) == s
  {
  }

  // ---------------------------------------------------------------------
  // One task

  /** The bindings of one task: its input parameters and its context. */
  datatype Bindings = Bindings(inputs: Dict<Value>, context: Dict<Value>)

  /** The first pass for one task, in the endpoint's order: crew inputs, then
      dependency outputs, then the supplied inputs and context checked, then the
      declared inputs and context filled. */
  function Bind(task: nat, inputDefs: Dict<ParamDef>, contextDefs: Dict<ParamDef>, deps: Option<string>,
                crewInputs: Dict<Value>, supplied: Option<TaskParams>, outputs: map<OutputKey, Dict<Value>>): Result<Bindings, BindError>
  {
    var seeded := Assigned([], crewInputs, "crew_");
    var ctx := if deps.Some? && deps.value != [] then DependencyContext(seeded, deps.value, outputs) else seeded;
    var given := supplied.GetOr(TaskParams(None, None));
    match Accepted([], given.inputParameters.GetOr([]), inputDefs, InputParameter, task)
    case Err(e) => Err(e)
    case Ok(inputs) =>
      match Accepted(ctx, given.contextVariables.GetOr([]), contextDefs, ContextVariable, task)
      case Err(e) => Err(e)
      case Ok(context) =>
        match Filled(inputs, inputDefs, InputParameter, task)
        case Err(e) => Err(e)
        case Ok(inputs') =>
          match Filled(context, contextDefs, ContextVariable, task)
          case Err(e) => Err(e)
          case Ok(context') => Ok(Bindings(inputs', context'))
  }

  /** The description the task is built with. */
  function BoundDescription(description: string, b: Bindings): string {
    Substituted(Substituted(description, b.inputs), b.context)
  }

  /** `[f"{k}: {v}" for k, v in context.items()] if context else None`. */
  function ContextLines(context: Dict<Value>): Option<seq<string>> {
    if context == [] then None
    else Some(seq(|context|, i requires 0 <= i < |context| => context[i].0 + ": " + ToStr(context[i].1)))
  }

  method BindTask(task: nat, inputDefs: Dict<ParamDef>, contextDefs: Dict<ParamDef>, deps: Option<string>,
                  crewInputs: Dict<Value>, supplied: Option<TaskParams>, outputs: map<OutputKey, Dict<Value>>)
    returns (r: Result<Bindings, BindError>)
    ensures r == Bind(task, inputDefs, contextDefs, deps, crewInputs, supplied, outputs)
  {
    var context := AssignAll([], crewInputs, "crew_");
    if deps.Some? && deps.value != [] {
      context := AddDependencyOutputs(context, deps.value, outputs);
    }
    var inputs: Dict<Value> := [];
    if supplied.Some? {
      if supplied.value.inputParameters.Some? && supplied.value.inputParameters.value != [] {
        var checked := AcceptSupplied(inputs, supplied.value.inputParameters.value, inputDefs, InputParameter, task);
        if checked.Err? {
          return Err(checked.error);
        }
        inputs := checked.value;
      }
      if supplied.value.contextVariables.Some? && supplied.value.contextVariables.value != [] {
        var checked := AcceptSupplied(context, supplied.value.contextVariables.value, contextDefs, ContextVariable, task);
        if checked.Err? {
          return Err(checked.error);
        }
        context := checked.value;
      }
    }
    var filled := FillMissing(inputs, inputDefs, InputParameter, task);
    if filled.Err? {
      return Err(filled.error);
    }
    inputs := filled.value;
    filled := FillMissing(context, contextDefs, ContextVariable, task);
    if filled.Err? {
      return Err(filled.error);
    }
    context := filled.value;
    return Ok(Bindings(inputs, context));
  }

  // ---------------------------------------------------------------------
  // Properties of one task's binding

  /** Declared names that all carry a default are never missing: binding
      then fails only on a name the task does not declare. */
  lemma DefaultsLeaveOnlyUnknown(task: nat, inputDefs: Dict<ParamDef>, contextDefs: Dict<ParamDef>, deps: Option<string>,
                                 crewInputs: Dict<Value>, supplied: Option<TaskParams>, outputs: map<OutputKey, Dict<Value>>)
    requires forall i :: 0 <= i < |inputDefs| ==> inputDefs[i].1.default.Some?
    requires forall i :: 0 <= i < |contextDefs| ==> contextDefs[i].1.default.Some?
    ensures Bind(task, inputDefs, contextDefs, deps, crewInputs, supplied, outputs).Err? ==>
      Bind(task, inputDefs, contextDefs, deps, crewInputs, supplied, outputs).error.Unknown?
  {
    var seeded := Assigned([], crewInputs, "crew_");
    var ctx := if deps.Some? && deps.value != [] then DependencyContext(seeded, deps.value, outputs) else seeded;
    var given := supplied.GetOr(TaskParams(None, None));
    var inputs := Accepted([], given.inputParameters.GetOr([]), inputDefs, InputParameter, task);
    var context := Accepted(ctx, given.contextVariables.GetOr([]), contextDefs, ContextVariable, task);
    AcceptedFailsOnUnknown([], given.inputParameters.GetOr([]), inputDefs, InputParameter, task);
    AcceptedFailsOnUnknown(ctx, given.contextVariables.GetOr([]), contextDefs, ContextVariable, task);
    if inputs.Ok? && context.Ok? {
      FilledOkWhen(inputs.value, inputDefs, InputParameter, task);
      FilledOkWhen(context.value, contextDefs, ContextVariable, task);
    }
  }

  /** What the task was sent, as dictionaries (an absent or empty one sends
      nothing). */
  function SuppliedInputs(supplied: Option<TaskParams>): Dict<Value> {
    supplied.GetOr(TaskParams(None, None)).inputParameters.GetOr([])
  }

  function SuppliedContext(supplied: Option<TaskParams>): Dict<Value> {
    supplied.GetOr(TaskParams(None, None)).contextVariables.GetOr([])
  }

  /** A supplied input that the task does not declare is rejected first: the
      first such name is reported, whatever else was sent. */
  lemma UnknownInputRejected(task: nat, inputDefs: Dict<ParamDef>, contextDefs: Dict<ParamDef>, deps: Option<string>,
                             crewInputs: Dict<Value>, supplied: Option<TaskParams>, outputs: map<OutputKey, Dict<Value>>, k: nat)
    requires k < |SuppliedInputs(supplied)| && SuppliedInputs(supplied)[k].0 !in Keys(inputDefs)
    requires AllDeclared(SuppliedInputs(supplied)[..k], inputDefs)
    ensures Bind(task, inputDefs, contextDefs, deps, crewInputs, supplied, outputs) ==
      Err(Unknown(InputParameter, SuppliedInputs(supplied)[k].0, task))
  {
    AcceptedFirstUnknown([], SuppliedInputs(supplied), inputDefs, InputParameter, task, k);
  }

  /** With every supplied input declared, an undeclared supplied context
      variable is rejected, the first one being reported. */
  lemma UnknownContextRejected(task: nat, inputDefs: Dict<ParamDef>, contextDefs: Dict<ParamDef>, deps: Option<string>,
                               crewInputs: Dict<Value>, supplied: Option<TaskParams>, outputs: map<OutputKey, Dict<Value>>, k: nat)
    requires AllDeclared(SuppliedInputs(supplied), inputDefs)
    requires k < |SuppliedContext(supplied)| && SuppliedContext(supplied)[k].0 !in Keys(contextDefs)
    requires AllDeclared(SuppliedContext(supplied)[..k], contextDefs)
    ensures Bind(task, inputDefs, contextDefs, deps, crewInputs, supplied, outputs) ==
      Err(Unknown(ContextVariable, SuppliedContext(supplied)[k].0, task))
  {
    var seeded := Assigned([], crewInputs, "crew_");
    var ctx := if deps.Some? && deps.value != [] then DependencyContext(seeded, deps.value, outputs) else seeded;
    AcceptedOk([], SuppliedInputs(supplied), inputDefs, InputParameter, task);
    AcceptedFirstUnknown(ctx, SuppliedContext(supplied), contextDefs, ContextVariable, task, k);
  }

  /** With everything supplied declared, a declared input that was not
      supplied, is required and has no default is reported; the first such
      declaration is the one named. */
  lemma MissingInputRejected(task: nat, inputDefs: Dict<ParamDef>, contextDefs: Dict<ParamDef>, deps: Option<string>,
                             crewInputs: Dict<Value>, supplied: Option<TaskParams>, outputs: map<OutputKey, Dict<Value>>, k: nat)
    requires UniqueKeys(inputDefs)
    requires AllDeclared(SuppliedInputs(supplied), inputDefs) && AllDeclared(SuppliedContext(supplied), contextDefs)
    requires k < |inputDefs| && Demanded(inputDefs[k].1)
    requires inputDefs[k].0 !in Keys(Assigned([], SuppliedInputs(supplied), ""))
    requires NoneMissing(Assigned([], SuppliedInputs(supplied), ""), inputDefs[..k])
    ensures Bind(task, inputDefs, contextDefs, deps, crewInputs, supplied, outputs) ==
      Err(Missing(InputParameter, inputDefs[k].0, task))
  {
    var seeded := Assigned([], crewInputs, "crew_");
    var ctx := if deps.Some? && deps.value != [] then DependencyContext(seeded, deps.value, outputs) else seeded;
    AcceptedOk([], SuppliedInputs(supplied), inputDefs, InputParameter, task);
    AcceptedOk(ctx, SuppliedContext(supplied), contextDefs, ContextVariable, task);
    FilledFirstMissing(Assigned([], SuppliedInputs(supplied), ""), inputDefs, InputParameter, task, k);
  }

  /** On success every supplied input is bound to the value sent, and every
      declared input that was not sent to its default. */
  lemma BoundInputs(task: nat, inputDefs: Dict<ParamDef>, contextDefs: Dict<ParamDef>, deps: Option<string>,
                    crewInputs: Dict<Value>, supplied: Option<TaskParams>, outputs: map<OutputKey, Dict<Value>>)
    requires UniqueKeys(inputDefs) && UniqueKeys(SuppliedInputs(supplied))
    requires Bind(task, inputDefs, contextDefs, deps, crewInputs, supplied, outputs).Ok?
    ensures var inputs := Bind(task, inputDefs, contextDefs, deps, crewInputs, supplied, outputs).value.inputs;
      var given := SuppliedInputs(supplied);
      (forall i :: 0 <= i < |given| ==> Get(inputs, given[i].0) == Some(given[i].1)) &&
      (forall i :: 0 <= i < |inputDefs| && inputDefs[i].0 !in Keys(given) ==> Get(inputs, inputDefs[i].0) == Some(FillValue(inputDefs[i].1)))
  {
    var given := SuppliedInputs(supplied);
    AcceptedOk([], given, inputDefs, InputParameter, task);
    var accepted := Assigned([], given, "");
    var inputs := Bind(task, inputDefs, contextDefs, deps, crewInputs, supplied, outputs).value.inputs;
    assert Filled(accepted, inputDefs, InputParameter, task) == Ok(inputs);
    forall i | 0 <= i < |given| ensures Get(inputs, given[i].0) == Some(given[i].1) {
      AssignedGetEntry([], given, "", i);
      assert "" + given[i].0 == given[i].0;
      GetSpec(accepted, given[i].0);
      FilledKeeps(accepted, inputDefs, InputParameter, task, given[i].0);
    }
    forall i | 0 <= i < |inputDefs| && inputDefs[i].0 !in Keys(given)
      ensures Get(inputs, inputDefs[i].0) == Some(FillValue(inputDefs[i].1))
    {
      AcceptedKeys(given, inputDefs[i].0);
      FilledDefault(accepted, inputDefs, InputParameter, task, i);
    }
  }

  /** The names bound by assigning a dictionary are its keys. */
  lemma {:induction false} AcceptedKeys(given: Dict<Value>, k: string)
    ensures k in Keys(Assigned([], given, "")) <==> k in Keys(given)
    decreases |given|
  {
    if given != [] {
      var n: nat := |given| - 1;
      AssignedStep([], given, "", n);
      AcceptedKeys(given[..n], k);
      assert "" + given[n].0 == given[n].0;
      PutHasKey(Assigned([], given[..n], ""), given[n].0, given[n].1, k);
      KeysLast(given, n, k);
    }
  }

  /** On success every crew input `v` is in the context as `crew_v` with the
      value supplied, unless the task was sent a context variable of that very
      name (and dependency outputs bind nothing, `task_outputs` being keyed by
      ids). */
  lemma CrewInputInContext(task: nat, inputDefs: Dict<ParamDef>, contextDefs: Dict<ParamDef>, deps: Option<string>,
                           crewInputs: Dict<Value>, supplied: Option<TaskParams>, outputs: map<OutputKey, Dict<Value>>, i: nat)
    requires UniqueKeys(crewInputs) && i < |crewInputs|
    requires forall key :: key in outputs ==> key.TaskId?
    requires NotAssigned(SuppliedContext(supplied), "", "crew_" + crewInputs[i].0)
    requires Bind(task, inputDefs, contextDefs, deps, crewInputs, supplied, outputs).Ok?
    ensures Get(Bind(task, inputDefs, contextDefs, deps, crewInputs, supplied, outputs).value.context, "crew_" + crewInputs[i].0)
      == Some(crewInputs[i].1)
  {
    var name := "crew_" + crewInputs[i].0;
    var seeded := Assigned([], crewInputs, "crew_");
    if deps.Some? && deps.value != [] {
      DependenciesBindNothing(seeded, deps.value, outputs);
    }
    AssignedGetEntry([], crewInputs, "crew_", i);
    AcceptedOk(seeded, SuppliedContext(supplied), contextDefs, ContextVariable, task);
    var context := Assigned(seeded, SuppliedContext(supplied), "");
    AssignedGetOther(seeded, SuppliedContext(supplied), "", name);
    AcceptedOk([], SuppliedInputs(supplied), inputDefs, InputParameter, task);
    GetSpec(context, name);
    FilledKeeps(context, contextDefs, ContextVariable, task, name);
  }
}
