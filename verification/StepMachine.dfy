/** Compiling a linear workflow to an Amazon States Language machine, and an interpreter for
    the part of that language the compiler emits (sections "Paths", "Retrying After Error" and
    "Fallback States"). JSON rendering is not part of this model. */
module StepMachine {
  import opened Wrappers

  const FAIL_STATE := "runfabric-failed"

  datatype Step = Step(id: string, kind: string, function_: string)

  datatype Retrier = Retrier(errorEquals: seq<string>, intervalSeconds: nat, maxAttempts: nat, backoffRate: real)

  datatype Catcher = Catcher(errorEquals: seq<string>, next: string)

  /** A task without a next state is an end state. The payload is given by a path. */
  datatype StateDef =
    | Task(resource: string, functionName: string, payloadPath: string, outputPath: string, retry: seq<Retrier>, catchers: seq<Catcher>, next: Option<string>)
    | Fail(error: string, cause: string)

  datatype Machine = Machine(comment: string, startAt: string, states: map<string, StateDef>)

  datatype Problem =
    | NoSteps
    | NotCode(id: string, kind: string)
    | NoFunction(id: string)
    | NotDeployed(id: string, function_: string)

  datatype Built = Built(machine: Machine) | Rejected(problem: Problem)

  type Arns = map<string, string>

  // ---- The compiler ----

  const LAMBDA_INVOKE := "arn:aws:states:::lambda:invoke"

  const TRANSIENT := ["Lambda.ServiceException", "Lambda.TooManyRequestsException", "Lambda.SdkClientException", "States.TaskFailed"]

  predicate Deployed(st: Step, arns: Arns) {
    st.function_ in arns && arns[st.function_] != ""
  }

  /** A code step bound to a deployed function. */
  predicate Bound(st: Step, arns: Arns) {
    st.kind == "code" && st.function_ != "" && Deployed(st, arns)
  }

  predicate Expressible(steps: seq<Step>, arns: Arns) {
    steps != [] && forall k | 0 <= k < |steps| :: Bound(steps[k], arns)
  }

  /** The problem is the step's: what it lacks, and its own names. */
  predicate Explains(problem: Problem, st: Step, arns: Arns) {
    match problem
    case NoSteps => false
    case NotCode(id, kind) => id == st.id && kind == st.kind && kind != "code"
    case NoFunction(id) => id == st.id && st.kind == "code" && st.function_ == ""
    case NotDeployed(id, f) => id == st.id && st.kind == "code" && f == st.function_ && f != "" && !Deployed(st, arns)
  }

  function TaskFor(steps: seq<Step>, arns: Arns, k: nat): StateDef
    requires k < |steps| && Bound(steps[k], arns)
  {
    Task(LAMBDA_INVOKE, arns[steps[k].function_], "$", "$.Payload", [Retrier(TRANSIENT, 2, 3, 2.0)], [Catcher(["States.ALL"], FAIL_STATE)],
         if k == |steps| - 1 then None else Some(steps[k + 1].id))
  }

  /** The states of the first n steps; a later step of the same id replaces an earlier one. */
  function StatesOf(steps: seq<Step>, arns: Arns, n: nat): map<string, StateDef>
    requires n <= |steps| && forall k | 0 <= k < n :: Bound(steps[k], arns)
  {
    if n == 0 then map[] else StatesOf(steps, arns, n - 1)[steps[n - 1].id := TaskFor(steps, arns, n - 1)]
  }

  function Compiled(name: string, steps: seq<Step>, arns: Arns): Machine
    requires Expressible(steps, arns)
  {
    Machine("runfabric workflow " + name, steps[0].id,
            StatesOf(steps, arns, |steps|)[FAIL_STATE := Fail("WorkflowStepFailed", "a workflow step failed after retries")])
  }

  /** Succeeds exactly for non-empty workflows of bound, deployed code steps; otherwise the
      reason is the first offending step's. */
  method BuildASL(name: string, steps: seq<Step>, arns: Arns) returns (result: Built)
    ensures result.Built? <==> Expressible(steps, arns)
    ensures result.Built? ==> result.machine == Compiled(name, steps, arns) && result.machine.comment == "runfabric workflow " + name
    ensures result.Rejected? ==>
      if steps == [] then result.problem == NoSteps
      else exists k :: 0 <= k < |steps| && Explains(result.problem, steps[k], arns)
                       && forall j | 0 <= j < k :: Bound(steps[j], arns)
  {
    if |steps| == 0 {
      return Rejected(NoSteps);
    }
    var states: map<string, StateDef> := map[];
    for i := 0 to |steps|
      invariant forall k | 0 <= k < i :: Bound(steps[k], arns)
      invariant states == StatesOf(steps, arns, i)
    {
      var st := steps[i];
      if st.kind != "code" {
        return Rejected(NotCode(st.id, st.kind));
      }
      if st.function_ == "" {
        return Rejected(NoFunction(st.id));
      }
      var arn := if st.function_ in arns then arns[st.function_] else "";
      if arn == "" {
        return Rejected(NotDeployed(st.id, st.function_));
      }
      var next := if i == |steps| - 1 then None else Some(steps[i + 1].id);
      states := states[st.id := Task(LAMBDA_INVOKE, arn, "$", "$.Payload", [Retrier(TRANSIENT, 2, 3, 2.0)], [Catcher(["States.ALL"], FAIL_STATE)], next)];
    }
    states := states[FAIL_STATE := Fail("WorkflowStepFailed", "a workflow step failed after retries")];
    result := Built(Machine("runfabric workflow " + name, steps[0].id, states));
  }

  // ---- The interpreter ----

  /** Inputs and outputs, as far as paths look into them. */
  datatype Value = Text(text: string) | Object(fields: map<string, Value>)

  /** A path selects all of a value, or one field. */
  function Follow(path: string, v: Value): Option<Value> {
    if path == "$" then Some(v)
    else if "$." <= path && v.Object? && path[2..] in v.fields then Some(v.fields[path[2..]])
    else None
  }

  /** Which function was sent what, after a pause of how many seconds. */
  datatype Invocation = Invocation(arn: string, payload: Value, pause: real)

  /** The rest is what the service says beside the function's own reply. */
  datatype Reply = Returned(payload: Value, rest: map<string, Value>) | Raised(error: string)

  /** What the invoke integration makes of a reply. */
  function Envelope(payload: Value, rest: map<string, Value>): Value {
    Object(rest["Payload" := payload])
  }

  /** A function's reply may depend on everything, and on how often anything was invoked. */
  type Lambda = (string, Value, nat) -> Reply

  datatype Final = Success(payload: Value) | Failure(error: string, cause: string) | Unfinished

  datatype Execution = Execution(final: Final, log: seq<Invocation>)

  /** These end an execution whatever is retried or caught. */
  predicate Terminal(error: string) {
    error == "States.Runtime" || error == "States.DataLimitExceeded"
  }

  /** Two error names are wildcards: States.ALL, and States.TaskFailed for all but a timeout. */
  predicate Names(errorEquals: seq<string>, error: string) {
    || error in errorEquals
    || ("States.ALL" in errorEquals && !Terminal(error))
    || ("States.TaskFailed" in errorEquals && !Terminal(error) && error != "States.Timeout")
  }

  function FirstCatcher(catchers: seq<Catcher>, error: string): Option<string> {
    if catchers == [] then None
    else if Names(catchers[0].errorEquals, error) then Some(catchers[0].next)
    else FirstCatcher(catchers[1..], error)
  }

  /** How a task ends: with an output, in another state, or failing the execution. */
  datatype TaskEnd = Finished(output: Value, log: seq<Invocation>)
                   | Caught(next: string, error: string, log: seq<Invocation>)
                   | Uncaught(error: string, log: seq<Invocation>)

  function AfterError(task: StateDef, error: string, log: seq<Invocation>): TaskEnd
    requires task.Task?
  {
    match FirstCatcher(task.catchers, error)
    case Some(next) => Caught(next, error, log)
    case None => Uncaught(error, log)
  }

  /** The first retry waits for the interval, each further one longer by the backoff rate. */
  function NextPause(retrier: Retrier, retries: nat, pause: real): real {
    if retries == 0 then retrier.intervalSeconds as real else pause * retrier.backoffRate
  }

  /** Only the invoke integration and the first retrier are interpreted; the compiler emits no
      other. The payload is selected from the state's input, the output from the envelope of
      the reply; a path that selects nothing is an error. */
  function RunTask(task: StateDef, input: Value, log: seq<Invocation>, lambda: Lambda, retries: nat, pause: real): TaskEnd
    requires task.Task?
    decreases (if task.retry == [] then 0 else task.retry[0].maxAttempts) - retries
  {
    if task.resource != LAMBDA_INVOKE then Uncaught("States.Runtime", log)
    else
      match Follow(task.payloadPath, input)
      case None => AfterError(task, "States.ParameterPathFailure", log)
      case Some(payload) =>
        var logged := log + [Invocation(task.functionName, payload, pause)];
        match lambda(task.functionName, payload, |log|)
        case Returned(p, rest) =>
          (match Follow(task.outputPath, Envelope(p, rest))
           case Some(output) => Finished(output, logged)
           case None => Uncaught("States.Runtime", logged))
        case Raised(error) =>
          if task.retry != [] && Names(task.retry[0].errorEquals, error) && retries < task.retry[0].maxAttempts then
            RunTask(task, input, logged, lambda, retries + 1, NextPause(task.retry[0], retries, pause))
          else AfterError(task, error, logged)
  }

  /** What a state that catches an error is given. */
  function ErrorOutput(error: string): Value {
    Object(map["Error" := Text(error)])
  }

  /** Runs a machine from a state, through at most `fuel` states. */
  function Run(m: Machine, state: string, input: Value, log: seq<Invocation>, lambda: Lambda, fuel: nat): Execution
    decreases fuel
  {
    if fuel == 0 then Execution(Unfinished, log)
    else if state !in m.states then Execution(Failure("States.Runtime", ""), log)
    else
      match m.states[state]
      case Fail(error, cause) => Execution(Failure(error, cause), log)
      case Task(_, _, _, _, _, _, next) =>
        match RunTask(m.states[state], input, log, lambda, 0, 0.0)
        case Finished(output, logged) =>
          if next == None then Execution(Success(output), logged) else Run(m, next.value, output, logged, lambda, fuel - 1)
        case Caught(target, error, logged) => Run(m, target, ErrorOutput(error), logged, lambda, fuel - 1)
        case Uncaught(error, logged) => Execution(Failure(error, ""), logged)
  }

  // ---- What the workflow means ----

  const RETRIES: nat := 3

  /** What is worth another attempt. */
  predicate Retried(error: string) {
    error != "States.Timeout" && !Terminal(error)
  }

  /** Seconds before the n-th attempt after the first. */
  function Pause(n: nat): real {
    if n == 0 then 0.0 else if n == 1 then 2.0 else if n == 2 then 4.0 else 8.0
  }

  /** A step invokes its function until it replies, a fault is not worth another attempt, or the
      fourth attempt fails. */
  function Perform(arn: string, payload: Value, log: seq<Invocation>, lambda: Lambda, left: nat): (Reply, seq<Invocation>)
    requires left <= RETRIES
    decreases left
  {
    var reply := lambda(arn, payload, |log|);
    var logged := log + [Invocation(arn, payload, Pause(RETRIES - left))];
    if reply.Raised? && Retried(reply.error) && left > 0 then Perform(arn, payload, logged, lambda, left - 1) else (reply, logged)
  }

  /** How a failed step fails the workflow. */
  function FailureOf(error: string): Final {
    if Terminal(error) then Failure(error, "") else Failure("WorkflowStepFailed", "a workflow step failed after retries")
  }

  /** The steps from k on, each fed what the one before returned; the first to fail ends it. */
  function Workflow(steps: seq<Step>, arns: Arns, k: nat, payload: Value, log: seq<Invocation>, lambda: Lambda): Execution
    requires k <= |steps| && Expressible(steps, arns)
    decreases |steps| - k
  {
    if k == |steps| then Execution(Success(payload), log)
    else
      match Perform(arns[steps[k].function_], payload, log, lambda, RETRIES)
      case (Returned(p, _), logged) => Workflow(steps, arns, k + 1, p, logged, lambda)
      case (Raised(error), logged) => Execution(FailureOf(error), logged)
  }

  ghost predicate DistinctIds(steps: seq<Step>) {
    forall i, j | 0 <= i < j < |steps| :: steps[i].id != steps[j].id
  }

  ghost predicate ProperIds(steps: seq<Step>) {
    DistinctIds(steps) && forall k | 0 <= k < |steps| :: steps[k].id != FAIL_STATE
  }

  // ---- The machine runs the workflow ----

  /** The last step before n with a given id. */
  function LastWith(steps: seq<Step>, id: string, n: nat): (k: nat)
    requires n <= |steps| && exists i :: 0 <= i < n && steps[i].id == id
    ensures k < n && steps[k].id == id && forall i | k < i < n :: steps[i].id != id
  {
    if steps[n - 1].id == id then n - 1 else LastWith(steps, id, n - 1)
  }

  lemma {:induction false} StateFound(steps: seq<Step>, arns: Arns, n: nat, k: nat)
    requires k < n <= |steps| && forall i | 0 <= i < n :: Bound(steps[i], arns)
    requires forall i | k < i < n :: steps[i].id != steps[k].id
    ensures steps[k].id in StatesOf(steps, arns, n) && StatesOf(steps, arns, n)[steps[k].id] == TaskFor(steps, arns, k)
  {
    if k < n - 1 {
      StateFound(steps, arns, n - 1, k);
    }
  }

  /** The retrier emitted names just what is worth another attempt. */
  lemma TransientIsRetried(error: string)
    ensures Names(TRANSIENT, error) <==> Retried(error)
  {
    assert TRANSIENT[3] == "States.TaskFailed" && TRANSIENT[3] in TRANSIENT;
    assert TRANSIENT == ["Lambda.ServiceException"] + ["Lambda.TooManyRequestsException"] + ["Lambda.SdkClientException"] + ["States.TaskFailed"];
    assert "Lambda.ServiceException"[0] == "Lambda.TooManyRequestsException"[0] == "Lambda.SdkClientException"[0] == 'L';
    assert "States.Timeout"[0] == "States.Runtime"[0] == "States.DataLimitExceeded"[0] == 'S';
    assert "States.TaskFailed"[8] == 'a' && "States.Timeout"[8] == 'i' && "States.Runtime"[7] == 'R' && "States.DataLimitExceeded"[7] == 'D';
    assert "States.ALL"[7] == 'A' && "States.TaskFailed"[7] == 'T';
  }

  lemma CatcherTakes(error: string)
    ensures FirstCatcher([Catcher(["States.ALL"], FAIL_STATE)], error) == if Terminal(error) then None else Some(FAIL_STATE)
  {
    assert [Catcher(["States.ALL"], FAIL_STATE)][1..] == [];
    assert "States.ALL"[7] == 'A' && "States.Runtime"[7] == 'R' && "States.DataLimitExceeded"[7] == 'D';
    assert "States.TaskFailed"[7] == 'T';
  }

  /** A task ends as its step does; a failure is caught unless it is terminal. */
  predicate EndsAs(end: TaskEnd, reply: Reply, logged: seq<Invocation>) {
    end == match reply
      case Returned(p, _) => Finished(p, logged)
      case Raised(error) => if Terminal(error) then Uncaught(error, logged) else Caught(FAIL_STATE, error, logged)
  }

  lemma {:induction false} TaskPerforms(steps: seq<Step>, arns: Arns, k: nat, payload: Value, log: seq<Invocation>, lambda: Lambda, retries: nat)
    requires k < |steps| && Bound(steps[k], arns) && retries <= RETRIES
    ensures var (reply, logged) := Perform(arns[steps[k].function_], payload, log, lambda, RETRIES - retries);
            EndsAs(RunTask(TaskFor(steps, arns, k), payload, log, lambda, retries, Pause(retries)), reply, logged)
    decreases RETRIES - retries
  {
    var task := TaskFor(steps, arns, k);
    var reply := lambda(task.functionName, payload, |log|);
    assert "$.Payload"[2..] == "Payload";
    if reply.Raised? {
      TransientIsRetried(reply.error);
      CatcherTakes(reply.error);
      hide Names, Retried, Terminal, TRANSIENT;
      if Retried(reply.error) && retries < RETRIES {
        TaskPerforms(steps, arns, k, payload, log + [Invocation(task.functionName, payload, Pause(retries))], lambda, retries + 1);
      }
    }
  }

  lemma StatesCompiled(name: string, steps: seq<Step>, arns: Arns, k: nat)
    requires Expressible(steps, arns) && ProperIds(steps) && k < |steps|
    requires steps[k].id in StatesOf(steps, arns, |steps|) && StatesOf(steps, arns, |steps|)[steps[k].id] == TaskFor(steps, arns, k)
    ensures var m := Compiled(name, steps, arns);
            && steps[k].id in m.states && m.states[steps[k].id] == TaskFor(steps, arns, k)
            && FAIL_STATE in m.states && m.states[FAIL_STATE] == Fail("WorkflowStepFailed", "a workflow step failed after retries")
  {
    hide StatesOf, TaskFor;
  }

  lemma RunOneTask(m: Machine, state: string, payload: Value, log: seq<Invocation>, lambda: Lambda, fuel: nat)
    requires fuel > 0 && state in m.states && m.states[state].Task?
    ensures Run(m, state, payload, log, lambda, fuel) ==
            match RunTask(m.states[state], payload, log, lambda, 0, 0.0)
            case Finished(p, logged) =>
              if m.states[state].next == None then Execution(Success(p), logged)
              else Run(m, m.states[state].next.value, p, logged, lambda, fuel - 1)
            case Caught(target, error, logged) => Run(m, target, ErrorOutput(error), logged, lambda, fuel - 1)
            case Uncaught(error, logged) => Execution(Failure(error, ""), logged)
  {
    hide RunTask;
  }

  lemma RunFails(m: Machine, payload: Value, log: seq<Invocation>, lambda: Lambda, fuel: nat)
    requires fuel > 0 && FAIL_STATE in m.states && m.states[FAIL_STATE].Fail?
    ensures Run(m, FAIL_STATE, payload, log, lambda, fuel) == Execution(Failure(m.states[FAIL_STATE].error, m.states[FAIL_STATE].cause), log)
  {
  }

  lemma WorkflowStep(steps: seq<Step>, arns: Arns, k: nat, payload: Value, log: seq<Invocation>, lambda: Lambda)
    requires k < |steps| && Expressible(steps, arns)
    ensures Workflow(steps, arns, k, payload, log, lambda) ==
            match Perform(arns[steps[k].function_], payload, log, lambda, RETRIES)
            case (Returned(p, _), logged) => Workflow(steps, arns, k + 1, p, logged, lambda)
            case (Raised(error), logged) => Execution(FailureOf(error), logged)
  {
    hide Perform;
  }

  lemma WorkflowEnds(steps: seq<Step>, arns: Arns, payload: Value, log: seq<Invocation>, lambda: Lambda)
    requires Expressible(steps, arns)
    ensures Workflow(steps, arns, |steps|, payload, log, lambda) == Execution(Success(payload), log)
  {
  }

  /** One step of the machine is one step of the workflow, and the way on is the next step's
      state, or the end, or the Fail state. */
  lemma MachineStep(name: string, steps: seq<Step>, arns: Arns, k: nat, payload: Value, log: seq<Invocation>, lambda: Lambda, fuel: nat)
    requires Expressible(steps, arns) && ProperIds(steps) && k < |steps| && fuel > 1
    ensures var m := Compiled(name, steps, arns);
            Run(m, steps[k].id, payload, log, lambda, fuel) ==
            match Perform(arns[steps[k].function_], payload, log, lambda, RETRIES)
            case (Returned(p, _), logged) =>
              if k == |steps| - 1 then Execution(Success(p), logged) else Run(m, steps[k + 1].id, p, logged, lambda, fuel - 1)
            case (Raised(error), logged) => Execution(FailureOf(error), logged)
  {
    var m := Compiled(name, steps, arns);
    var task := TaskFor(steps, arns, k);
    StateFound(steps, arns, |steps|, k);
    StatesCompiled(name, steps, arns, k);
    TaskPerforms(steps, arns, k, payload, log, lambda, 0);
    RunOneTask(m, steps[k].id, payload, log, lambda, fuel);
    assert task.next == if k == |steps| - 1 then None else Some(steps[k + 1].id);
    hide Perform, RunTask, StatesOf, ProperIds, Run, Compiled, Bound, TaskFor, Terminal;
    match Perform(arns[steps[k].function_], payload, log, lambda, RETRIES)
    case (Raised(error), logged) => RunFails(m, ErrorOutput(error), logged, lambda, fuel - 1);
    case (Returned(p, _), logged) =>
  }

  /** From any step on, the machine's execution is the workflow's: same invocations in the
      same order with the same payloads, same end, Fail included. */
  lemma {:induction false} MachineRunsFrom(name: string, steps: seq<Step>, arns: Arns, k: nat, payload: Value, log: seq<Invocation>,
                                          lambda: Lambda, fuel: nat)
    requires Expressible(steps, arns) && ProperIds(steps) && k < |steps| && fuel > |steps| - k
    ensures Run(Compiled(name, steps, arns), steps[k].id, payload, log, lambda, fuel) == Workflow(steps, arns, k, payload, log, lambda)
    decreases |steps| - k
  {
    hide Perform, ProperIds, Run, Workflow, Compiled, FailureOf;
    MachineStep(name, steps, arns, k, payload, log, lambda, fuel);
    WorkflowStep(steps, arns, k, payload, log, lambda);
    match Perform(arns[steps[k].function_], payload, log, lambda, RETRIES)
    case (Raised(error), logged) =>
    case (Returned(p, _), logged) =>
      if k + 1 < |steps| {
        MachineRunsFrom(name, steps, arns, k + 1, p, logged, lambda, fuel - 1);
      } else {
        WorkflowEnds(steps, arns, p, logged, lambda);
      }
  }

  /** The machine runs the workflow for every input and every behaviour of the functions. */
  ghost predicate Faithful(name: string, steps: seq<Step>, arns: Arns)
    requires Expressible(steps, arns)
  {
    var m := Compiled(name, steps, arns);
    forall input: Value, lambda: Lambda, fuel: nat | fuel > |steps| ::
      Run(m, m.startAt, input, [], lambda, fuel) == Workflow(steps, arns, 0, input, [], lambda)
  }

  // ---- When it does not ----

  /** Functions that hand their input back. */
  function Echo(): Lambda {
    (arn, payload, n) => Returned(payload, map[])
  }

  /** From step k on, some step has the fail state's name or shares its name with a later one. */
  ghost predicate ImproperFrom(steps: seq<Step>, k: nat) {
    exists i :: k <= i < |steps| && (steps[i].id == FAIL_STATE || exists j :: i < j < |steps| && steps[i].id == steps[j].id)
  }

  lemma {:induction false} EchoWorkflow(steps: seq<Step>, arns: Arns, k: nat, payload: Value, log: seq<Invocation>)
    requires Expressible(steps, arns) && k <= |steps|
    ensures var e := Workflow(steps, arns, k, payload, log, Echo()); e.final == Success(payload) && |e.log| == |log| + |steps| - k
    decreases |steps| - k
  {
    if k < |steps| {
      EchoWorkflow(steps, arns, k + 1, payload, log + [Invocation(arns[steps[k].function_], payload, 0.0)]);
    }
  }

  lemma EchoTask(steps: seq<Step>, arns: Arns, k: nat, payload: Value, log: seq<Invocation>)
    requires k < |steps| && Bound(steps[k], arns)
    ensures RunTask(TaskFor(steps, arns, k), payload, log, Echo(), 0, 0.0)
         == Finished(payload, log + [Invocation(arns[steps[k].function_], payload, 0.0)])
  {
    assert "$.Payload"[2..] == "Payload";
  }

  /** With functions that never fail, a machine of improper step names either ends in the
      Fail state or skips a step. */
  lemma {:induction false} ImproperGoesWrong(name: string, steps: seq<Step>, arns: Arns, k: nat, payload: Value, log: seq<Invocation>, fuel: nat)
    requires Expressible(steps, arns) && k < |steps|
    ensures var e := Run(Compiled(name, steps, arns), steps[k].id, payload, log, Echo(), fuel);
            && (e.final.Success? ==> |e.log| <= |log| + |steps| - k)
            && (e.final.Success? && ImproperFrom(steps, k) ==> |e.log| < |log| + |steps| - k)
    decreases fuel
  {
    hide Run, Compiled, Echo, ImproperFrom;
    if fuel == 0 || steps[k].id == FAIL_STATE {
      NoSuccess(name, steps, arns, steps[k].id, payload, log, fuel);
    } else {
      var last := EchoStep(name, steps, arns, k, payload, log, fuel);
      var logged := log + [Invocation(arns[steps[last].function_], payload, 0.0)];
      if last + 1 < |steps| {
        ImproperGoesWrong(name, steps, arns, last + 1, payload, logged, fuel - 1);
      }
      if last == k && ImproperFrom(steps, k) {
        LaterImproper(steps, k);
      }
    }
  }

  lemma NoSuccess(name: string, steps: seq<Step>, arns: Arns, state: string, payload: Value, log: seq<Invocation>, fuel: nat)
    requires Expressible(steps, arns) && (fuel == 0 || state == FAIL_STATE)
    ensures !Run(Compiled(name, steps, arns), state, payload, log, Echo(), fuel).final.Success?
  {
    hide StatesOf, Bound;
  }

  /** A state runs the last step of its name, and the machine goes on after that one. */
  lemma EchoStep(name: string, steps: seq<Step>, arns: Arns, k: nat, payload: Value, log: seq<Invocation>, fuel: nat) returns (last: nat)
    requires Expressible(steps, arns) && k < |steps| && fuel > 0 && steps[k].id != FAIL_STATE
    ensures k <= last < |steps| && steps[last].id == steps[k].id && forall i | last < i < |steps| :: steps[i].id != steps[k].id
    ensures var m := Compiled(name, steps, arns);
            var logged := log + [Invocation(arns[steps[last].function_], payload, 0.0)];
            Run(m, steps[k].id, payload, log, Echo(), fuel)
            == if last == |steps| - 1 then Execution(Success(payload), logged) else Run(m, steps[last + 1].id, payload, logged, Echo(), fuel - 1)
  {
    var m := Compiled(name, steps, arns);
    last := LastWith(steps, steps[k].id, |steps|);
    StateFound(steps, arns, |steps|, last);
    assert m.states[steps[k].id] == TaskFor(steps, arns, last);
    hide Run, RunTask, StatesOf, Bound, Echo, Compiled;
    EchoTask(steps, arns, last, payload, log);
    RunOneTask(m, steps[k].id, payload, log, Echo(), fuel);
  }

  lemma LaterImproper(steps: seq<Step>, k: nat)
    requires ImproperFrom(steps, k) && k < |steps| && steps[k].id != FAIL_STATE && forall i | k < i < |steps| :: steps[i].id != steps[k].id
    ensures k + 1 < |steps| && ImproperFrom(steps, k + 1)
  {
    var i :| k <= i < |steps| && (steps[i].id == FAIL_STATE || exists j :: i < j < |steps| && steps[i].id == steps[j].id);
    assert i != k;
  }

  /** The compiled machine is faithful exactly when the step ids are distinct and none of
      them is the fail state's. */
  lemma MachineRunsWorkflowIff(name: string, steps: seq<Step>, arns: Arns)
    requires Expressible(steps, arns)
    ensures Faithful(name, steps, arns) <==> ProperIds(steps)
  {
    if ProperIds(steps) {
      forall input: Value, lambda: Lambda, fuel: nat | fuel > |steps|
        ensures Run(Compiled(name, steps, arns), steps[0].id, input, [], lambda, fuel) == Workflow(steps, arns, 0, input, [], lambda)
      {
        MachineRunsFrom(name, steps, arns, 0, input, [], lambda, fuel);
      }
    } else {
      ImproperGoesWrong(name, steps, arns, 0, Object(map[]), [], |steps| + 1);
      EchoWorkflow(steps, arns, 0, Object(map[]), []);
      hide Run, Workflow, Bound;
      var m := Compiled(name, steps, arns);
      assert Run(m, m.startAt, Object(map[]), [], Echo(), |steps| + 1) != Workflow(steps, arns, 0, Object(map[]), [], Echo());
    }
  }

  // ---- What the meaning amounts to ----

  /** The attempt before position `end` of the log was answered with p. */
  predicate Answered(arn: string, payload: Value, end: nat, p: Value, lambda: Lambda) {
    end > 0 && var reply := lambda(arn, payload, end - 1); reply.Returned? && reply.payload == p
  }

  /** The log from `start` to `end` is one to four attempts at a step, all with the same payload,
      after pauses of 0, 2, 4 and 8 seconds, of which every one but the last failed and was worth
      another. */
  ghost predicate Attempts(arn: string, payload: Value, log: seq<Invocation>, start: nat, end: nat, lambda: Lambda) {
    && start < end <= start + RETRIES + 1 && end <= |log|
    && (forall i | start <= i < end :: log[i] == Invocation(arn, payload, Pause(i - start)))
    && forall i | start <= i < end - 1 :: lambda(arn, payload, i).Raised? && Retried(lambda(arn, payload, i).error)
  }

  /** The log from `start` to `end` is the steps from k to before `upto`, in order: the first
      attempted with `input`, each next one with what the last attempt before it returned, and
      `output` what the last one returned. */
  ghost predicate InStepOrder(steps: seq<Step>, arns: Arns, k: nat, upto: nat, input: Value, output: Value,
                              log: seq<Invocation>, start: nat, end: nat, lambda: Lambda)
    requires upto <= |steps| && Expressible(steps, arns)
    decreases upto - k
  {
    if k >= upto then start == end && output == input
    else exists mid: nat, passed: Value ::
           && Attempts(arns[steps[k].function_], input, log, start, mid, lambda)
           && Answered(arns[steps[k].function_], input, mid, passed, lambda)
           && InStepOrder(steps, arns, k + 1, upto, passed, output, log, mid, end, lambda)
  }

  /** The steps before `failed`, in order, and then attempts of that one to the end of the log,
      the last of which failed for good. */
  ghost predicate EndsWithStep(steps: seq<Step>, arns: Arns, k: nat, failed: nat, input: Value, error: string,
                               log: seq<Invocation>, start: nat, lambda: Lambda)
    requires Expressible(steps, arns)
  {
    k <= failed < |steps|
    && exists mid: nat, passed: Value ::
         && mid < |log|
         && InStepOrder(steps, arns, k, failed, input, passed, log, start, mid, lambda)
         && Attempts(arns[steps[failed].function_], passed, log, mid, |log|, lambda)
         && lambda(arns[steps[failed].function_], passed, |log| - 1) == Raised(error)
         && (Retried(error) ==> |log| == mid + RETRIES + 1)
  }

  lemma {:induction false} PerformAttempts(arn: string, payload: Value, log: seq<Invocation>, lambda: Lambda, left: nat)
    requires left <= RETRIES
    ensures var (reply, logged) := Perform(arn, payload, log, lambda, left);
            && |log| < |logged| <= |log| + left + 1 && logged[..|log|] == log
            && (forall i | |log| <= i < |logged| :: logged[i] == Invocation(arn, payload, Pause(RETRIES - left + i - |log|)))
            && (forall i | |log| <= i < |logged| - 1 :: lambda(arn, payload, i).Raised? && Retried(lambda(arn, payload, i).error))
            && lambda(arn, payload, |logged| - 1) == reply
            && (reply.Raised? && Retried(reply.error) ==> |logged| == |log| + left + 1)
    decreases left
  {
    hide Retried, Pause;
    var reply := lambda(arn, payload, |log|);
    var logged := log + [Invocation(arn, payload, Pause(RETRIES - left))];
    if reply.Raised? && Retried(reply.error) && left > 0 {
      PerformAttempts(arn, payload, logged, lambda, left - 1);
    }
  }

  lemma {:induction false} LogExtends(steps: seq<Step>, arns: Arns, k: nat, payload: Value, log: seq<Invocation>, lambda: Lambda)
    requires Expressible(steps, arns) && k <= |steps|
    ensures log <= Workflow(steps, arns, k, payload, log, lambda).log
    decreases |steps| - k
  {
    hide Perform, Workflow, FailureOf;
    if k == |steps| {
      WorkflowEnds(steps, arns, payload, log, lambda);
    } else {
      WorkflowStep(steps, arns, k, payload, log, lambda);
      var (reply, logged) := Perform(arns[steps[k].function_], payload, log, lambda, RETRIES);
      PerformAttempts(arns[steps[k].function_], payload, log, lambda, RETRIES);
      if reply.Returned? {
        LogExtends(steps, arns, k + 1, reply.payload, logged, lambda);
      }
    }
  }

  /** What the first step left in the log of the whole. */
  lemma StepAttempts(arn: string, payload: Value, log: seq<Invocation>, lambda: Lambda, whole: seq<Invocation>)
    requires Perform(arn, payload, log, lambda, RETRIES).1 <= whole
    ensures var (reply, logged) := Perform(arn, payload, log, lambda, RETRIES);
            && |log| < |logged| && Attempts(arn, payload, whole, |log|, |logged|, lambda) && lambda(arn, payload, |logged| - 1) == reply
            && (reply.Raised? && Retried(reply.error) ==> |logged| == |log| + RETRIES + 1)
  {
    PerformAttempts(arn, payload, log, lambda, RETRIES);
    var logged := Perform(arn, payload, log, lambda, RETRIES).1;
    hide Perform, Retried;
    assert forall i | 0 <= i < |logged| :: whole[i] == logged[i];
  }

  lemma StepThenRest(steps: seq<Step>, arns: Arns, k: nat, upto: nat, input: Value, passed: Value, output: Value,
                     log: seq<Invocation>, start: nat, mid: nat, end: nat, lambda: Lambda)
    requires Expressible(steps, arns) && k < upto <= |steps| && Attempts(arns[steps[k].function_], input, log, start, mid, lambda)
    requires Answered(arns[steps[k].function_], input, mid, passed, lambda)
    requires InStepOrder(steps, arns, k + 1, upto, passed, output, log, mid, end, lambda)
    ensures InStepOrder(steps, arns, k, upto, input, output, log, start, end, lambda)
  {
    hide Attempts;
  }

  lemma StepThenFailure(steps: seq<Step>, arns: Arns, k: nat, failed: nat, input: Value, passed: Value, error: string,
                        log: seq<Invocation>, start: nat, mid: nat, lambda: Lambda)
    requires Expressible(steps, arns) && k < |steps| && Attempts(arns[steps[k].function_], input, log, start, mid, lambda)
    requires Answered(arns[steps[k].function_], input, mid, passed, lambda)
    requires EndsWithStep(steps, arns, k + 1, failed, passed, error, log, mid, lambda)
    ensures EndsWithStep(steps, arns, k, failed, input, error, log, start, lambda)
  {
    hide Attempts, InStepOrder;
    var at: nat, last: Value :|
      && at < |log|
      && InStepOrder(steps, arns, k + 1, failed, passed, last, log, mid, at, lambda)
      && Attempts(arns[steps[failed].function_], last, log, at, |log|, lambda)
      && lambda(arns[steps[failed].function_], last, |log| - 1) == Raised(error)
      && (Retried(error) ==> |log| == at + RETRIES + 1);
    StepThenRest(steps, arns, k, failed, input, passed, last, log, start, mid, at, lambda);
  }

  lemma FailsAtOnce(steps: seq<Step>, arns: Arns, k: nat, input: Value, error: string, log: seq<Invocation>, start: nat, lambda: Lambda)
    requires Expressible(steps, arns) && k < |steps| && Attempts(arns[steps[k].function_], input, log, start, |log|, lambda)
    requires lambda(arns[steps[k].function_], input, |log| - 1) == Raised(error) && (Retried(error) ==> |log| == start + RETRIES + 1)
    ensures EndsWithStep(steps, arns, k, k, input, error, log, start, lambda)
  {
    assert start < |log|;
    hide Attempts;
    assert InStepOrder(steps, arns, k, k, input, input, log, start, start, lambda);
  }

  /** How an execution went, told from its log: every step in order, each fed its predecessor's
      reply, or only up to a step that failed for good, and nothing after it. */
  ghost predicate WentInOrder(steps: seq<Step>, arns: Arns, k: nat, payload: Value, start: nat, e: Execution, lambda: Lambda)
    requires Expressible(steps, arns)
  {
    match e.final
    case Success(output) => InStepOrder(steps, arns, k, |steps|, payload, output, e.log, start, |e.log|, lambda)
    case Failure(_, _) =>
      exists failed: nat, error :: EndsWithStep(steps, arns, k, failed, payload, error, e.log, start, lambda) && e.final == FailureOf(error)
    case Unfinished => false
  }

  /** A workflow's log and end always have that form, for every behaviour of the functions. */
  lemma {:induction false} InvocationsInOrder(steps: seq<Step>, arns: Arns, k: nat, payload: Value, log: seq<Invocation>, lambda: Lambda)
    requires Expressible(steps, arns) && k <= |steps|
    ensures var e := Workflow(steps, arns, k, payload, log, lambda);
            log <= e.log && WentInOrder(steps, arns, k, payload, |log|, e, lambda)
    decreases |steps| - k
  {
    hide Workflow, Perform, Attempts, EndsWithStep, FailureOf, Retried;
    LogExtends(steps, arns, k, payload, log, lambda);
    var e := Workflow(steps, arns, k, payload, log, lambda);
    if k == |steps| {
      WorkflowEnds(steps, arns, payload, log, lambda);
    } else {
      hide InStepOrder, WentInOrder;
      WorkflowStep(steps, arns, k, payload, log, lambda);
      var arn := arns[steps[k].function_];
      var (reply, logged) := Perform(arn, payload, log, lambda, RETRIES);
      match reply
      case Raised(error) =>
        StepAttempts(arn, payload, log, lambda, e.log);
        FailedAtOnce(steps, arns, k, payload, error, e, |log|, lambda);
      case Returned(p, _) =>
        LogExtends(steps, arns, k + 1, p, logged, lambda);
        InvocationsInOrder(steps, arns, k + 1, p, logged, lambda);
        StepAttempts(arn, payload, log, lambda, e.log);
        StepWentFirst(steps, arns, k, payload, p, |log|, |logged|, e, lambda);
    }
  }

  lemma FailedAtOnce(steps: seq<Step>, arns: Arns, k: nat, input: Value, error: string, e: Execution, start: nat, lambda: Lambda)
    requires Expressible(steps, arns) && k < |steps| && Attempts(arns[steps[k].function_], input, e.log, start, |e.log|, lambda)
    requires lambda(arns[steps[k].function_], input, |e.log| - 1) == Raised(error) && (Retried(error) ==> |e.log| == start + RETRIES + 1)
    requires e.final == FailureOf(error)
    ensures WentInOrder(steps, arns, k, input, start, e, lambda)
  {
    hide Attempts, EndsWithStep, InStepOrder, Retried;
    FailsAtOnce(steps, arns, k, input, error, e.log, start, lambda);
  }

  lemma StepWentFirst(steps: seq<Step>, arns: Arns, k: nat, input: Value, passed: Value, start: nat, mid: nat, e: Execution, lambda: Lambda)
    requires Expressible(steps, arns) && k < |steps| && Attempts(arns[steps[k].function_], input, e.log, start, mid, lambda)
    requires Answered(arns[steps[k].function_], input, mid, passed, lambda)
    requires WentInOrder(steps, arns, k + 1, passed, mid, e, lambda)
    ensures WentInOrder(steps, arns, k, input, start, e, lambda)
  {
    hide Attempts, InStepOrder, EndsWithStep, FailureOf, Bound;
    match e.final
    case Success(output) => StepThenRest(steps, arns, k, |steps|, input, passed, output, e.log, start, mid, |e.log|, lambda);
    case Failure(_, _) =>
      var failed: nat, error :| EndsWithStep(steps, arns, k + 1, failed, passed, error, e.log, mid, lambda) && e.final == FailureOf(error);
      StepThenFailure(steps, arns, k, failed, input, passed, error, e.log, start, mid, lambda);
  }
}
