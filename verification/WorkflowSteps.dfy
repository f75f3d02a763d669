/** Workflow steps as the configuration declares them, and the ids they are given. */
module WorkflowSteps {
  import opened Decimal
  import opened StepMachine
  import opened Text
  import opened Wrappers

  /** An entry of the list of steps that is no map is skipped, but counted. */
  datatype Entry = Other | Declared(id: string, kind: string, function_: string)

  function DefaultId(i: nat): string {
    "step" + Print(i + 1)
  }

  function IdOf(entries: seq<Entry>, i: nat): string
    requires i < |entries| && entries[i].Declared?
  {
    if TrimSpace(entries[i].id) == "" then DefaultId(i) else entries[i].id
  }

  function StepOf(entries: seq<Entry>, i: nat): Step
    requires i < |entries| && entries[i].Declared?
  {
    Step(IdOf(entries, i), Lower(TrimSpace(entries[i].kind)), TrimSpace(entries[i].function_))
  }

  /** Where the steps come from. */
  ghost predicate Origins(steps: seq<Step>, origin: seq<nat>, entries: seq<Entry>) {
    && |origin| == |steps|
    && (forall k | 0 <= k < |steps| :: origin[k] < |entries| && entries[origin[k]].Declared? && steps[k] == StepOf(entries, origin[k]))
    && (forall j, k | 0 <= j < k < |origin| :: origin[j] < origin[k])
    && forall i | 0 <= i < |entries| && entries[i].Declared? :: i in origin
  }

  method WorkflowStepsOf(entries: seq<Entry>) returns (steps: seq<Step>, ghost origin: seq<nat>)
    ensures Origins(steps, origin, entries)
  {
    hide StepOf;
    steps, origin := [], [];
    for i := 0 to |entries|
      invariant |origin| == |steps|
      invariant forall k | 0 <= k < |steps| :: origin[k] < i && entries[origin[k]].Declared? && steps[k] == StepOf(entries, origin[k])
      invariant forall j, k | 0 <= j < k < |origin| :: origin[j] < origin[k]
      invariant forall j | 0 <= j < i && entries[j].Declared? :: j in origin
    {
      match entries[i]
      case Other =>
      case Declared(_, _, _) =>
        steps := steps + [StepOf(entries, i)];
        origin := origin + [i];
    }
  }

  /** No given id is given twice, is the default of an entry without one, or is the fail
      state's. */
  ghost predicate GivenIdsProper(entries: seq<Entry>) {
    && (forall i, j | 0 <= i < j < |entries| && entries[i].Declared? && entries[j].Declared?
                      && TrimSpace(entries[i].id) != "" && TrimSpace(entries[j].id) != "" :: entries[i].id != entries[j].id)
    && (forall i, j | 0 <= i < |entries| && 0 <= j < |entries| && entries[i].Declared? && entries[j].Declared?
                      && TrimSpace(entries[i].id) != "" && TrimSpace(entries[j].id) == "" :: entries[i].id != DefaultId(j))
    && (forall i | 0 <= i < |entries| && entries[i].Declared? && TrimSpace(entries[i].id) != "" :: entries[i].id != FAIL_STATE)
  }

  lemma DefaultIdsApart(i: nat, j: nat)
    ensures DefaultId(i) == DefaultId(j) <==> i == j
    ensures DefaultId(i) != FAIL_STATE
  {
    var a, b := Print(i + 1), Print(j + 1);
    if DefaultId(i) == DefaultId(j) {
      assert a == DefaultId(i)[4..] == DefaultId(j)[4..] == b;
      PrintInjective(i + 1, j + 1);
    }
    assert DefaultId(i)[0] == 's' && FAIL_STATE[0] == 'r';
  }

  /** All ids, given and default, differ, and none is the fail state. */
  ghost predicate IdsProper(entries: seq<Entry>) {
    && (forall i, j | 0 <= i < |entries| && 0 <= j < |entries| && i != j && entries[i].Declared? && entries[j].Declared? ::
          IdOf(entries, i) != IdOf(entries, j))
    && (forall i | 0 <= i < |entries| && entries[i].Declared? :: IdOf(entries, i) != FAIL_STATE)
  }

  lemma GivenIdsDecide(entries: seq<Entry>)
    ensures IdsProper(entries) <==> GivenIdsProper(entries)
  {
    forall i: nat, j: nat ensures (DefaultId(i) == DefaultId(j) <==> i == j) && DefaultId(i) != FAIL_STATE {
      DefaultIdsApart(i, j);
    }
    hide DefaultId, TrimSpace;
    if IdsProper(entries) {
      assert forall i | 0 <= i < |entries| && entries[i].Declared? && TrimSpace(entries[i].id) != "" :: IdOf(entries, i) == entries[i].id;
    }
  }

  lemma IdsOfSteps(entries: seq<Entry>, steps: seq<Step>, origin: seq<nat>)
    requires Origins(steps, origin, entries)
    ensures ProperIds(steps) <==> IdsProper(entries)
  {
    assert forall k | 0 <= k < |steps| :: steps[k].id == IdOf(entries, origin[k]);
    hide IdOf, StepOf;
    if IdsProper(entries) {
      forall j, k | 0 <= j < k < |steps| ensures steps[j].id != steps[k].id {
        assert origin[j] < origin[k];
      }
    }
    if ProperIds(steps) {
      forall i, j | 0 <= i < |entries| && 0 <= j < |entries| && i != j && entries[i].Declared? && entries[j].Declared?
        ensures IdOf(entries, i) != IdOf(entries, j)
      {
        var k :| 0 <= k < |origin| && origin[k] == i;
        var l :| 0 <= l < |origin| && origin[l] == j;
        assert steps[k].id != steps[l].id;
      }
      forall i | 0 <= i < |entries| && entries[i].Declared? ensures IdOf(entries, i) != FAIL_STATE {
        var k :| 0 <= k < |origin| && origin[k] == i;
        assert steps[k].id != FAIL_STATE;
      }
    }
  }

  /** The compiler's condition on step ids, told of the configuration: default ids clash neither
      with one another nor with the fail state, so only given ids can go wrong. */
  lemma ProperIdsIff(entries: seq<Entry>, steps: seq<Step>, origin: seq<nat>)
    requires Origins(steps, origin, entries)
    ensures ProperIds(steps) <==> GivenIdsProper(entries)
  {
    hide *;
    IdsOfSteps(entries, steps, origin);
    GivenIdsDecide(entries);
  }

  /** The workflow can be compiled exactly if it has steps and each is of kind "code", in whatever
      case, and names a deployed function, spaces around both aside. */
  lemma ExpressibleIff(entries: seq<Entry>, steps: seq<Step>, origin: seq<nat>, arns: Arns)
    requires Origins(steps, origin, entries)
    ensures Expressible(steps, arns) <==>
              && (exists i :: 0 <= i < |entries| && entries[i].Declared?)
              && forall i | 0 <= i < |entries| && entries[i].Declared? ::
                   var f := TrimSpace(entries[i].function_);
                   Lower(TrimSpace(entries[i].kind)) == "code" && f != "" && f in arns && arns[f] != ""
  {
    hide TrimSpace, Lower, IdOf;
    forall i | 0 <= i < |entries| && entries[i].Declared?
      ensures exists k :: 0 <= k < |steps| && steps[k] == StepOf(entries, i)
    {
      var k :| 0 <= k < |origin| && origin[k] == i;
      assert steps[k] == StepOf(entries, origin[k]);
    }
    if steps != [] {
      assert entries[origin[0]].Declared?;
    }
    assert forall k | 0 <= k < |steps| :: entries[origin[k]].Declared? && steps[k] == StepOf(entries, origin[k]);
  }

  /** From configuration to machine: faithful exactly when the given ids are proper. */
  lemma CompiledWorkflowIff(name: string, entries: seq<Entry>, steps: seq<Step>, origin: seq<nat>, arns: Arns)
    requires Origins(steps, origin, entries) && Expressible(steps, arns)
    ensures Faithful(name, steps, arns) <==> GivenIdsProper(entries)
  {
    ProperIdsIff(entries, steps, origin);
    MachineRunsWorkflowIff(name, steps, arns);
  }
}
