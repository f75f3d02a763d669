/** A held lease with its heartbeat goroutine and its once-only release, as a step relation.
    The heartbeat renews a local lock file: it reads the file in one step and writes it in
    another. Any number of goroutines may call Release, and other processes may change the
    lock file at any moment. */
module Heartbeat {
  import opened Wrappers

  datatype LockFile = Missing | Held(token: string, expiresAt: int)

  /** Where the heartbeat goroutine is. */
  datatype Beat =
    | Selecting
    | RenewStarted
    | RenewRead(record: LockFile)
    | Reporting(error: string)
    | Closing
    | Exited

  datatype Outcome = Success | Failure(error: string)

  /** Where a goroutine calling Release is. `Winner` phases run inside the once. */
  datatype Caller =
    | Waiting
    | Cancelling
    | Draining
    | InCallback(removed: bool)
    | Returned(outcome: Outcome)

  /** The winner is who first entered the once. */
  datatype Once = NotRun | Running(winner: nat) | Done

  datatype Event =
    | RenewBegins | RenewReads | RenewWrites | RenewEnds
    | CallbackBegins | CallbackEnds(outcome: Outcome)

  /** Fixed when the lease is taken: both callbacks may be nil. */
  datatype Config = Config(hasRenew: bool, hasRelease: bool, token: string)

  datatype State = State(file: LockFile, cancelled: bool, beat: Beat, buffered: nat, closed: bool,
                         once: Once, outcome: Outcome, callers: map<nat, Caller>, log: seq<Event>)

  datatype Step =
    | ParentCancels
    | Others(file: LockFile)
    | Watch
    | BeatStops
    | BeatTicks
    | ReadFile
    | WriteFile(expiresAt: int)
    | RenewReturns(failure: Option<string>)
    | Report
    | CloseChannel
    | Call(c: nat)
    | Wake(c: nat)
    | Cancel(c: nat)
    | Receive(c: nat)
    | DrainEnds(c: nat)
    | RemoveFile(c: nat)
    | CallbackReturns(c: nat, outcome: Outcome)

  predicate Initial(s: State) {
    && s.beat == Selecting && !s.cancelled && s.buffered == 0 && !s.closed
    && s.once == NotRun && s.outcome == Success && s.callers == map[] && s.log == []
  }

  const CHANNEL_CAPACITY: nat := 1

  predicate InPhase(s: State, c: nat, caller: Caller) {
    c in s.callers && s.callers[c] == caller
  }

  predicate Enabled(cfg: Config, s: State, step: Step) {
    match step
    case ParentCancels => true
    case Others(_) => true
    case Watch => s.buffered > 0
    case BeatStops => s.beat == Selecting && (s.cancelled || !cfg.hasRenew)
    case BeatTicks => s.beat == Selecting && cfg.hasRenew  // the select may pick the ticker even once cancelled
    case ReadFile => s.beat == RenewStarted && s.file.Held? && s.file.token == cfg.token
    case WriteFile(_) => s.beat.RenewRead?
    case RenewReturns(_) => s.beat.RenewStarted? || s.beat.RenewRead?  // an error, or a transient fault the callback swallows
    case Report => s.beat.Reporting? && s.buffered < CHANNEL_CAPACITY
    case CloseChannel => s.beat == Closing
    case Call(c) => c !in s.callers
    case Wake(c) => InPhase(s, c, Waiting) && s.once == Done
    case Cancel(c) => InPhase(s, c, Cancelling)
    case Receive(c) => InPhase(s, c, Draining) && s.buffered > 0
    case DrainEnds(c) => InPhase(s, c, Draining) && s.buffered == 0 && s.closed
    case RemoveFile(c) => InPhase(s, c, InCallback(false))
    case CallbackReturns(c, _) => c in s.callers && s.callers[c].InCallback?
  }

  function Apply(cfg: Config, s: State, step: Step): State
    requires Enabled(cfg, s, step)
  {
    match step
    case ParentCancels => s.(cancelled := true)
    case Others(file) => s.(file := file)
    case Watch => s.(buffered := s.buffered - 1)
    case BeatStops => s.(beat := Closing)
    case BeatTicks => s.(beat := RenewStarted, log := s.log + [RenewBegins])
    case ReadFile => s.(beat := RenewRead(s.file), log := s.log + [RenewReads])
    case WriteFile(expiresAt) =>
      s.(beat := Selecting, file := Held(cfg.token, expiresAt), log := s.log + [RenewWrites, RenewEnds])
    case RenewReturns(failure) =>
      s.(beat := if failure.Some? then Reporting(failure.value) else Selecting, log := s.log + [RenewEnds])
    case Report => s.(beat := Closing, buffered := s.buffered + 1)
    case CloseChannel => s.(beat := Exited, closed := true)
    case Call(c) =>
      s.(once := if s.once == NotRun then Running(c) else s.once,
         callers := s.callers[c := if s.once == NotRun then Cancelling else if s.once.Running? then Waiting else Returned(s.outcome)])
    case Wake(c) => s.(callers := s.callers[c := Returned(s.outcome)])
    case Cancel(c) => s.(cancelled := true, callers := s.callers[c := Draining])
    case Receive(c) => s.(buffered := s.buffered - 1)
    case DrainEnds(c) =>
      if cfg.hasRelease then s.(callers := s.callers[c := InCallback(false)], log := s.log + [CallbackBegins])
      else s.(once := Done, callers := s.callers[c := Returned(s.outcome)])
    case RemoveFile(c) => s.(file := Missing, callers := s.callers[c := InCallback(true)])
    case CallbackReturns(c, outcome) =>
      s.(once := Done, outcome := outcome, callers := s.callers[c := Returned(outcome)], log := s.log + [CallbackEnds(outcome)])
  }

  ghost predicate IsRun(cfg: Config, states: seq<State>, steps: seq<Step>) {
    && |states| == |steps| + 1
    && Initial(states[0])
    && forall i | 0 <= i < |steps| :: Enabled(cfg, states[i], steps[i]) && states[i + 1] == Apply(cfg, states[i], steps[i])
  }

  // ---- What every reachable state promises ----

  predicate OfRenewal(e: Event) {
    e.RenewBegins? || e.RenewReads? || e.RenewWrites? || e.RenewEnds?
  }

  /** No renewal step starts or finishes once the release callback has started, and the
      callback starts at most once. */
  ghost predicate CallbackIsLast(log: seq<Event>) {
    forall i, j | 0 <= i < j < |log| && log[i] == CallbackBegins :: !OfRenewal(log[j]) && log[j] != CallbackBegins
  }

  /** Every caller that returned got the callback's result, which ran exactly once. */
  ghost predicate EveryoneGetsTheResult(cfg: Config, s: State) {
    forall c | c in s.callers && s.callers[c].Returned? ::
      && s.callers[c].outcome == s.outcome
      && if cfg.hasRelease
         then |s.log| >= 2 && s.log[|s.log| - 2..] == [CallbackBegins, CallbackEnds(s.outcome)]
         else s.outcome == Success
  }

  /** The heartbeat's one report always finds room in the channel. */
  predicate ReportNeverBlocks(s: State) {
    s.beat.Reporting? ==> s.buffered < CHANNEL_CAPACITY
  }

  ghost predicate Safe(cfg: Config, s: State) {
    CallbackIsLast(s.log) && EveryoneGetsTheResult(cfg, s) && ReportNeverBlocks(s)
  }

  // ---- The inductive invariant ----

  predicate InsideOnce(caller: Caller) {
    caller.Cancelling? || caller.Draining? || caller.InCallback?
  }

  /** The winner, and nobody else, is inside the once while it runs. */
  ghost predicate OneWinner(s: State) {
    && (forall c | c in s.callers && InsideOnce(s.callers[c]) :: s.once == Running(c))
    && (s.once.Running? ==> s.once.winner in s.callers && InsideOnce(s.callers[s.once.winner]))
    && (forall c | c in s.callers && s.callers[c].Returned? :: s.once == Done && s.callers[c].outcome == s.outcome)
    && (s.once == NotRun ==> s.callers == map[])
    && (s.once != Done ==> s.outcome == Success)
  }

  predicate CallbackRunning(s: State) {
    s.once.Running? && s.once.winner in s.callers && s.callers[s.once.winner].InCallback?
  }

  /** The channel carries at most one report and closes with the heartbeat; nobody gets
      past the drain, or into the callback, before that. */
  ghost predicate ChannelInStep(s: State) {
    && (s.closed <==> s.beat == Exited)
    && s.buffered <= CHANNEL_CAPACITY
    && (s.beat != Closing && s.beat != Exited ==> s.buffered == 0)
    && (CallbackRunning(s) || s.once == Done ==> s.beat == Exited)
    && (s.once.Running? && s.once.winner in s.callers && s.callers[s.once.winner].Draining? ==> s.cancelled)
  }

  ghost predicate LogInStep(cfg: Config, s: State) {
    && (CallbackBegins in s.log <==> CallbackRunning(s) || (s.once == Done && cfg.hasRelease))
    && (CallbackRunning(s) ==> cfg.hasRelease && |s.log| > 0 && s.log[|s.log| - 1] == CallbackBegins)
    && (s.once == Done && cfg.hasRelease ==> |s.log| >= 2 && s.log[|s.log| - 2..] == [CallbackBegins, CallbackEnds(s.outcome)])
    && (s.once == Done && !cfg.hasRelease ==> s.outcome == Success)
    && CallbackIsLast(s.log)
  }

  ghost predicate Inv(cfg: Config, s: State) {
    OneWinner(s) && ChannelInStep(s) && LogInStep(cfg, s)
  }

  lemma ArrivalKept(s: State, c: nat)
    requires OneWinner(s) && c !in s.callers
    ensures var arrived := if s.once == NotRun then Cancelling else if s.once.Running? then Waiting else Returned(s.outcome);
            OneWinner(s.(once := if s.once == NotRun then Running(c) else s.once, callers := s.callers[c := arrived]))
  {
  }

  /** The winner goes on inside the once. */
  lemma PhaseKept(s: State, c: nat, phase: Caller)
    requires OneWinner(s) && c in s.callers && InsideOnce(s.callers[c]) && InsideOnce(phase)
    ensures OneWinner(s.(callers := s.callers[c := phase]))
  {
  }

  /** The winner leaves the once, and the result is out. */
  lemma ResultKept(s: State, c: nat, outcome: Outcome)
    requires OneWinner(s) && c in s.callers && InsideOnce(s.callers[c])
    ensures OneWinner(s.(once := Done, outcome := outcome, callers := s.callers[c := Returned(outcome)]))
  {
  }

  lemma WakingKept(s: State, c: nat)
    requires OneWinner(s) && c in s.callers && s.once == Done
    ensures OneWinner(s.(callers := s.callers[c := Returned(s.outcome)]))
  {
  }

  /** Only callers, the once and its outcome matter. */
  lemma WinnerElsewhere(s: State, t: State)
    requires OneWinner(s) && t.callers == s.callers && t.once == s.once && t.outcome == s.outcome
    ensures OneWinner(t)
  {
  }

  lemma WinnerKept(cfg: Config, s: State, step: Step)
    requires Inv(cfg, s) && Enabled(cfg, s, step)
    ensures OneWinner(Apply(cfg, s, step))
  {
    hide OneWinner, ChannelInStep, LogInStep;
    var t := Apply(cfg, s, step);
    match step
    case Call(c) => ArrivalKept(s, c);
    case Wake(c) => WakingKept(s, c);
    case Cancel(c) =>
      PhaseKept(s, c, Draining);
      WinnerElsewhere(s.(callers := s.callers[c := Draining]), t);
    case RemoveFile(c) =>
      PhaseKept(s, c, InCallback(true));
      WinnerElsewhere(s.(callers := s.callers[c := InCallback(true)]), t);
    case DrainEnds(c) =>
      PhaseKept(s, c, InCallback(false));
      ResultKept(s, c, s.outcome);
      WinnerElsewhere(if cfg.hasRelease then s.(callers := s.callers[c := InCallback(false)])
                      else s.(once := Done, callers := s.callers[c := Returned(s.outcome)]), t);
    case CallbackReturns(c, outcome) =>
      ResultKept(s, c, outcome);
      WinnerElsewhere(s.(once := Done, outcome := outcome, callers := s.callers[c := Returned(outcome)]), t);
    case _ => WinnerElsewhere(s, t);
  }

  lemma ChannelKept(cfg: Config, s: State, step: Step)
    requires Inv(cfg, s) && Enabled(cfg, s, step)
    ensures ChannelInStep(Apply(cfg, s, step))
  {
    hide LogInStep;
  }

  lemma CallbackLastGrows(log: seq<Event>, e: Event)
    requires CallbackIsLast(log)
    requires CallbackBegins in log ==> !OfRenewal(e) && e != CallbackBegins
    ensures CallbackIsLast(log + [e])
    ensures CallbackBegins in log + [e] <==> CallbackBegins in log || e == CallbackBegins
  {
  }

  /** A live heartbeat may log, since the callback cannot have begun. */
  lemma BeatLogKept(cfg: Config, s: State, step: Step)
    requires Inv(cfg, s) && Enabled(cfg, s, step)
    requires step.BeatTicks? || step.ReadFile? || step.WriteFile? || step.RenewReturns?
    ensures LogInStep(cfg, Apply(cfg, s, step))
  {
    match step
    case BeatTicks => CallbackLastGrows(s.log, RenewBegins);
    case ReadFile => CallbackLastGrows(s.log, RenewReads);
    case WriteFile(_) =>
      CallbackLastGrows(s.log, RenewWrites);
      CallbackLastGrows(s.log + [RenewWrites], RenewEnds);
      assert s.log + [RenewWrites] + [RenewEnds] == s.log + [RenewWrites, RenewEnds];
    case RenewReturns(_) => CallbackLastGrows(s.log, RenewEnds);
  }

  lemma DrainLogKept(cfg: Config, s: State, c: nat)
    requires Inv(cfg, s) && Enabled(cfg, s, DrainEnds(c))
    ensures LogInStep(cfg, Apply(cfg, s, DrainEnds(c)))
  {
    CallbackLastGrows(s.log, CallbackBegins);
  }

  lemma CallbackLogKept(cfg: Config, s: State, c: nat, outcome: Outcome)
    requires Inv(cfg, s) && Enabled(cfg, s, CallbackReturns(c, outcome))
    ensures LogInStep(cfg, Apply(cfg, s, CallbackReturns(c, outcome)))
  {
    assert CallbackRunning(s);
    CallbackLastGrows(s.log, CallbackEnds(outcome));
    assert (s.log + [CallbackEnds(outcome)])[|s.log| - 1..] == [CallbackBegins, CallbackEnds(outcome)];
  }

  lemma LogKept(cfg: Config, s: State, step: Step)
    requires Inv(cfg, s) && Enabled(cfg, s, step)
    ensures LogInStep(cfg, Apply(cfg, s, step))
  {
    match step
    case BeatTicks | ReadFile | WriteFile(_) | RenewReturns(_) => BeatLogKept(cfg, s, step);
    case DrainEnds(c) => DrainLogKept(cfg, s, c);
    case CallbackReturns(c, outcome) => CallbackLogKept(cfg, s, c, outcome);
    case _ =>
      hide CallbackIsLast, ChannelInStep;
      var t := Apply(cfg, s, step);
      assert t.log == s.log && t.outcome == s.outcome && CallbackRunning(t) == CallbackRunning(s) && (t.once == Done <==> s.once == Done);
  }

  /** For every configuration and every interleaving. */
  lemma {:induction false} EveryRunIsSafe(cfg: Config, states: seq<State>, steps: seq<Step>, i: nat)
    requires IsRun(cfg, states, steps) && i < |states|
    ensures Inv(cfg, states[i]) && Safe(cfg, states[i])
  {
    if i > 0 {
      EveryRunIsSafe(cfg, states, steps, i - 1);
      WinnerKept(cfg, states[i - 1], steps[i - 1]);
      ChannelKept(cfg, states[i - 1], steps[i - 1]);
      LogKept(cfg, states[i - 1], steps[i - 1]);
    }
  }

  // ---- Consequences ----

  lemma FileAfterCallback(cfg: Config, s: State, step: Step)
    requires Inv(cfg, s) && Enabled(cfg, s, step) && CallbackBegins in s.log
    ensures var t := Apply(cfg, s, step);
            t.file != s.file ==> step.Others? || (step.RemoveFile? && t.file == Missing)
  {
    hide OneWinner, CallbackIsLast;
  }

  predicate IsRenewal(step: Step) {
    step.BeatTicks? || step.ReadFile? || step.WriteFile? || step.RenewReturns?
  }

  /** While the heartbeat is between its read and its write, the read found its own token in the
      file, and whatever changed the file since was another process or the release. */
  ghost predicate ReadBefore(cfg: Config, states: seq<State>, steps: seq<Step>, i: nat, j: nat) {
    && j < i < |states| && i <= |steps| && steps[j] == ReadFile && states[j].file.Held? && states[j].file.token == cfg.token
    && (forall k | j < k < i :: !IsRenewal(steps[k]))
    && (states[i].file == states[j].file || exists k :: j < k < i && (steps[k].Others? || steps[k].RemoveFile?))
  }

  lemma {:induction false} LastRead(cfg: Config, states: seq<State>, steps: seq<Step>, i: nat) returns (j: nat)
    requires IsRun(cfg, states, steps) && i < |states| && states[i].beat.RenewRead?
    ensures ReadBefore(cfg, states, steps, i, j)
  {
    assert i > 0;
    var s, step := states[i - 1], steps[i - 1];
    assert Enabled(cfg, s, step) && states[i] == Apply(cfg, s, step);
    BeatReads(cfg, s, step);
    if step == ReadFile {
      j := i - 1;
    } else {
      hide Apply, Enabled;
      j := LastRead(cfg, states, steps, i - 1);
      if states[i].file != s.file {
        assert steps[i - 1].Others? || steps[i - 1].RemoveFile?;
      }
    }
  }

  /** How the heartbeat comes to have read the file. */
  lemma BeatReads(cfg: Config, s: State, step: Step)
    requires Enabled(cfg, s, step) && Apply(cfg, s, step).beat.RenewRead?
    ensures var t := Apply(cfg, s, step);
            if step == ReadFile then s.file.Held? && s.file.token == cfg.token && t.file == s.file
            else s.beat.RenewRead? && !IsRenewal(step) && (t.file != s.file ==> step.Others? || step.RemoveFile?)
  {
  }

  /** A renewal writes its own token over a file in which it read its own token before; if it
      overwrites anything else, another process changed the file between the read and the write. */
  lemma RenewalOverwritesOwn(cfg: Config, states: seq<State>, steps: seq<Step>, i: nat) returns (j: nat)
    requires IsRun(cfg, states, steps) && i < |steps| && steps[i].WriteFile?
    ensures states[i + 1].file == Held(cfg.token, steps[i].expiresAt)
    ensures ReadBefore(cfg, states, steps, i, j)
    ensures states[i].file == states[j].file || exists k :: j < k < i && steps[k].Others?
  {
    assert Enabled(cfg, states[i], steps[i]) && states[i + 1] == Apply(cfg, states[i], steps[i]);
    j := LastRead(cfg, states, steps, i);
    hide Apply;
    if states[i].file != states[j].file {
      var k :| j < k < i && (steps[k].Others? || steps[k].RemoveFile?);
      if steps[k].RemoveFile? {
        RemovalIsLast(cfg, states, steps, k, i);
      }
    }
  }

  /** The release removes the file only once the heartbeat has exited. */
  lemma RemovalIsLast(cfg: Config, states: seq<State>, steps: seq<Step>, k: nat, i: nat)
    requires IsRun(cfg, states, steps) && k < i < |states| && steps[k].RemoveFile?
    ensures !states[i].beat.RenewRead?
  {
    EveryRunIsSafe(cfg, states, steps, k);
    ExitedAtRemoval(cfg, states[k], steps[k]);
    StaysExited(cfg, states, steps, k, i);
  }

  lemma ExitedAtRemoval(cfg: Config, s: State, step: Step)
    requires Inv(cfg, s) && Enabled(cfg, s, step) && step.RemoveFile?
    ensures s.beat == Exited
  {
    hide LogInStep;
  }

  lemma {:induction false} StaysExited(cfg: Config, states: seq<State>, steps: seq<Step>, from: nat, i: nat)
    requires IsRun(cfg, states, steps) && from <= i < |states| && states[from].beat == Exited
    ensures states[i].beat == Exited
  {
    if from < i {
      hide Apply, Enabled;
      StaysExited(cfg, states, steps, from, i - 1);
      ExitIsFinal(cfg, states[i - 1], steps[i - 1]);
    }
  }

  lemma ExitIsFinal(cfg: Config, s: State, step: Step)
    requires Enabled(cfg, s, step) && s.beat == Exited
    ensures Apply(cfg, s, step).beat == Exited
  {
  }

  /** The heartbeat itself never writes the lock file after its holder's release removed it:
      from the callback on, only other processes change the file. */
  lemma ReleasedFileIsNotResurrected(cfg: Config, states: seq<State>, steps: seq<Step>, from: nat, i: nat)
    requires IsRun(cfg, states, steps) && from <= i < |steps|
    requires CallbackBegins in states[from].log
    ensures states[i + 1].file != states[i].file ==> steps[i].Others? || (steps[i].RemoveFile? && states[i + 1].file == Missing)
  {
    hide Apply, Enabled, Inv, Safe;
    CallbackStaysLogged(cfg, states, steps, from, i);
    EveryRunIsSafe(cfg, states, steps, i);
    FileAfterCallback(cfg, states[i], steps[i]);
  }

  lemma LogOnlyGrows(cfg: Config, s: State, step: Step)
    requires Enabled(cfg, s, step)
    ensures s.log <= Apply(cfg, s, step).log
  {
  }

  lemma {:induction false} CallbackStaysLogged(cfg: Config, states: seq<State>, steps: seq<Step>, from: nat, i: nat)
    requires IsRun(cfg, states, steps) && from <= i < |states|
    requires CallbackBegins in states[from].log
    ensures CallbackBegins in states[i].log
  {
    hide Apply, Enabled, Initial;
    if from < i {
      CallbackStaysLogged(cfg, states, steps, from, i - 1);
      LogOnlyGrows(cfg, states[i - 1], steps[i - 1]);
      assert states[i] == Apply(cfg, states[i - 1], steps[i - 1]);
      assert states[i].log[..|states[i - 1].log|] == states[i - 1].log;
    }
  }

  /** Steps of the lease's own goroutines, as opposed to its environment. */
  predicate OwnStep(step: Step) {
    !step.ParentCancels? && !step.Others? && !step.Watch? && !step.Call?
  }

  /** While some caller has not returned, the lease can always take a step of its own:
      neither the drain, nor the report, nor the once can deadlock. */
  lemma ReleaseNeverDeadlocks(cfg: Config, states: seq<State>, steps: seq<Step>, i: nat, c: nat)
    requires IsRun(cfg, states, steps) && i < |states|
    requires c in states[i].callers && !states[i].callers[c].Returned?
    ensures exists step :: OwnStep(step) && Enabled(cfg, states[i], step)
  {
    hide IsRun, LogInStep, Safe, Apply;
    EveryRunIsSafe(cfg, states, steps, i);
    var s := states[i];
    if s.once == Done {
      assert Enabled(cfg, s, Wake(c));
    } else {
      var winner := s.once.winner;
      match s.callers[winner]
      case Cancelling => assert Enabled(cfg, s, Cancel(winner));
      case InCallback(_) => assert Enabled(cfg, s, CallbackReturns(winner, Success));
      case Draining =>
        match s.beat
        case Selecting => assert Enabled(cfg, s, BeatStops);
        case RenewStarted => assert Enabled(cfg, s, RenewReturns(None));
        case RenewRead(_) => assert Enabled(cfg, s, RenewReturns(None));
        case Reporting(_) => assert Enabled(cfg, s, Report);
        case Closing => assert Enabled(cfg, s, CloseChannel);
        case Exited =>
          if s.buffered > 0 { assert Enabled(cfg, s, Receive(winner)); } else { assert Enabled(cfg, s, DrainEnds(winner)); }
    }
  }
}
