/** The race left in a steal: which steals take a lease that has not lapsed, and from which
    states one still can. */
module StealRace {
  import opened LeaseTiming
  import opened LockProtocol
  import opened LockStore
  import opened Wrappers

  // ---- Which steals take a live lease ----

  /** The delete reaches the table and finds the token the stealer has seen. */
  predicate Takes(s: State, op: nat, d: Delivery) {
    op in s.ops && s.ops[op].StealDeleting? && !d.Dropped? && OwnedBy(s.table, s.ops[op].key, s.ops[op].seen.ownerToken)
  }

  predicate TakesLive(s: State, op: nat, d: Delivery) {
    Takes(s, op, d) && !Lapsed(s.table[s.ops[op].key], s.clock)
  }

  /** The owner renewed since the stealer's read, for a lease still ahead of the clock. */
  ghost predicate RenewedAhead(s: State, token: string, readAt: nat) {
    token in RenewedTokens(s.log, readAt)
    && match LastGrant(s.log, token)
       case Some(g) => Ahead(g.stamp, g.lease, s.clock)
       case None => false
  }

  lemma TakesLiveIff(s: State, op: nat, d: Delivery)
    requires Inv(s) && RowsGranted(s) && Takes(s, op, d)
    ensures TakesLive(s, op, d) <==> RenewedAhead(s, s.ops[op].seen.ownerToken, s.ops[op].readAt)
  {
    assert Informed(s, op, s.ops[op]);
    assert Granted(s.log, s.table[s.ops[op].key]);
    hide RenewedTokens, LastGrant, TokensFresh, HandlesDistinct, RowsLive;
  }

  /** In every run, a delete that takes a row takes a live one exactly if the owner renewed
      since the stealer's read and its latest grant is ahead of the clock. */
  lemma StealTakesLiveIff(states: seq<State>, steps: seq<Step>, i: nat, op: nat, d: Delivery)
    requires IsRun(states, steps) && i < |steps| && steps[i] == SendStealDelete(op, d) && Takes(states[i], op, d)
    ensures TakesLive(states[i], op, d) <==> RenewedAhead(states[i], states[i].ops[op].seen.ownerToken, states[i].ops[op].readAt)
  {
    EveryRunIsSafe(states, steps, i);
    EveryRunGrants(states, steps, i);
    TakesLiveIff(states[i], op, d);
  }

  // ---- Handles, renewals and rows of one token ----

  ghost predicate HasHandle(s: State, token: string) {
    exists i :: 0 <= i < |s.handles| && s.handles[i].token == token
  }

  /** Operations on a handle carry its key and token. */
  ghost predicate FromHandle(s: State, o: Op) {
    match o
    case Renewing(key, token, _, _) => exists i :: 0 <= i < |s.handles| && s.handles[i].token == token && s.handles[i].key == key
    case Releasing(key, token, h) => h < |s.handles| && s.handles[h].token == token && s.handles[h].key == key
    case _ => true
  }

  /** Only tokens with a handle are renewed, and a handle is held while its row is stored. */
  ghost predicate Traced(s: State) {
    && (forall op | op in s.ops :: FromHandle(s, s.ops[op]))
    && (forall token | token in RenewedTokens(s.log, 0) :: HasHandle(s, token))
    && (forall key, i | key in s.table && 0 <= i < |s.handles| && s.handles[i].token == s.table[key].ownerToken :: s.handles[i].held)
  }

  /** Handles are only ever added, or put down. */
  ghost predicate HandlesKept(s: State, t: State) {
    && |s.handles| <= |t.handles|
    && forall i | 0 <= i < |s.handles| :: t.handles[i].token == s.handles[i].token && t.handles[i].key == s.handles[i].key
  }

  lemma FromHandleKept(s: State, t: State, o: Op)
    requires HandlesKept(s, t) && FromHandle(s, o)
    ensures FromHandle(t, o)
  {
    if o.Renewing? {
      var i :| 0 <= i < |s.handles| && s.handles[i].token == o.token && s.handles[i].key == o.key;
      assert t.handles[i].token == o.token && t.handles[i].key == o.key;
    }
  }

  /** The operations after a step: old ones, and at most one new one, on some handle if it
      renews or releases. */
  lemma OpsTraced(s: State, step: Step, op: nat)
    requires Traced(s) && Enabled(s, step) && HandlesKept(s, Apply(s, step)) && op in Apply(s, step).ops
    ensures FromHandle(Apply(s, step), Apply(s, step).ops[op])
  {
    var t := Apply(s, step);
    if op in s.ops && t.ops[op] == s.ops[op] {
      FromHandleKept(s, t, s.ops[op]);
    } else if step.StartRenew? {
      assert s.handles[step.handle].token == t.ops[op].token;
    }
  }

  lemma StepKeepsHandles(s: State, step: Step)
    requires Enabled(s, step)
    ensures HandlesKept(s, Apply(s, step))
  {
  }

  lemma RenewedFromHandle(s: State, step: Step, token: string)
    requires Traced(s) && Enabled(s, step) && HandlesKept(s, Apply(s, step))
    requires token in RenewedTokens(Apply(s, step).log, 0)
    ensures HasHandle(Apply(s, step), token)
  {
    var t := Apply(s, step);
    StepRecords(s, step);
    hide Enabled;
    if t.log != s.log {
      RenewalsGrow(s.log, t.log[|s.log|], 0);
    }
    if token in RenewedTokens(s.log, 0) {
      var i :| 0 <= i < |s.handles| && s.handles[i].token == token;
      assert t.handles[i].token == token;
    } else {
      var o := s.ops[step.op];
      assert FromHandle(s, o);
      var i :| 0 <= i < |s.handles| && s.handles[i].token == o.token && s.handles[i].key == o.key;
      assert t.handles[i].token == token;
    }
  }

  /** A step records at most one event; a renewal only if it is the sending of one. */
  lemma StepRecords(s: State, step: Step)
    requires Enabled(s, step)
    ensures var t := Apply(s, step);
            t.log == s.log
            || (|t.log| == |s.log| + 1 && t.log == s.log + [t.log[|s.log|]]
                && (t.log[|s.log|].Renewed? ==> step.SendRenew? && t.log[|s.log|].row.ownerToken == s.ops[step.op].token)
                && (t.log[|s.log|].Put? ==> step.SendPut? && t.log[|s.log|].row.ownerToken == s.ops[step.op].row.ownerToken))
  {
  }

  /** A stored row is an old one of the same owner under the same key, or one just put. */
  lemma RowOrigin(s: State, step: Step, key: string)
    requires Enabled(s, step) && key in Apply(s, step).table
    ensures var t := Apply(s, step);
            OwnedBy(s.table, key, t.table[key].ownerToken)
            || (step.SendPut? && key == s.ops[step.op].key && t.table[key].ownerToken == s.ops[step.op].row.ownerToken)
  {
  }

  /** Which handles a step adds or puts down. */
  lemma HandleOrigin(s: State, step: Step, i: nat)
    requires Enabled(s, step) && i < |Apply(s, step).handles|
    ensures var t := Apply(s, step);
            if i >= |s.handles| then step.SendPut? && t.handles[i] == Handle(s.ops[step.op].key, s.ops[step.op].row.ownerToken, true)
            else t.handles[i] == s.handles[i]
                 || (step.SendRelease? && i == s.ops[step.op].handle && OwnedBy(s.table, s.ops[step.op].key, s.ops[step.op].token)
                     && t.table == s.table - {s.ops[step.op].key})
  {
  }

  lemma HeldWhileStored(s: State, step: Step, key: string, i: nat)
    requires Inv(s) && Traced(s) && Enabled(s, step)
    requires var t := Apply(s, step); key in t.table && i < |t.handles| && t.handles[i].token == t.table[key].ownerToken
    ensures Apply(s, step).handles[i].held
  {
    hide Apply, Inv, FromHandle, RenewedTokens;
    RowOrigin(s, step, key);
    HandleOrigin(s, step, i);
    StepKeepsHandles(s, step);
    var t := Apply(s, step);
    if step.SendPut? {
      PutOfNewToken(s, step.op);
    }
    if i < |s.handles| && t.handles[i] != s.handles[i] {
      OnlyRowGone(s, step.op, key);
    }
  }

  /** A release that takes effect takes the one row its handle stands for. */
  lemma OnlyRowGone(s: State, op: nat, key: string)
    requires Inv(s) && Traced(s) && op in s.ops && s.ops[op].Releasing? && OwnedBy(s.table, s.ops[op].key, s.ops[op].token)
    ensures s.ops[op].handle < |s.handles| && s.handles[s.ops[op].handle].token == s.ops[op].token
    ensures key in s.table && s.table[key].ownerToken == s.ops[op].token ==> key == s.ops[op].key
  {
    hide TokensFresh, HandlesDistinct, StealersInformed, PutTokens, RemovedTokens, RenewedTokens;
    assert FromHandle(s, s.ops[op]);
  }

  /** The token about to be put is neither stored nor in a handle. */
  lemma PutOfNewToken(s: State, op: nat)
    requires Inv(s) && op in s.ops && s.ops[op].Acquiring?
    ensures var token := s.ops[op].row.ownerToken;
            (forall key | key in s.table :: s.table[key].ownerToken != token) && forall i | 0 <= i < |s.handles| :: s.handles[i].token != token
  {
    hide StealersInformed, PutTokens, RemovedTokens;
  }

  lemma TraceKept(s: State, step: Step)
    requires Inv(s) && Traced(s) && Enabled(s, step)
    ensures Traced(Apply(s, step))
  {
    var t := Apply(s, step);
    StepKeepsHandles(s, step);
    forall op | op in t.ops ensures FromHandle(t, t.ops[op]) {
      OpsTraced(s, step, op);
    }
    forall token | token in RenewedTokens(t.log, 0) ensures HasHandle(t, token) {
      RenewedFromHandle(s, step, token);
    }
    forall key, i | key in t.table && 0 <= i < |t.handles| && t.handles[i].token == t.table[key].ownerToken ensures t.handles[i].held {
      HeldWhileStored(s, step, key, i);
    }
    hide Apply, Enabled, Inv, FromHandle, RenewedTokens;
  }

  // ---- Going on from a reachable state ----

  ghost predicate Continues(s: State, states: seq<State>, steps: seq<Step>) {
    && |states| == |steps| + 1
    && states[0] == s
    && forall i | 0 <= i < |steps| :: Enabled(states[i], steps[i]) && states[i + 1] == Apply(states[i], steps[i])
  }

  ghost predicate Sound(s: State) {
    Inv(s) && Safe(s) && RowsGranted(s) && Traced(s)
  }

  lemma StepIsSound(s: State, step: Step)
    requires Sound(s) && Enabled(s, step)
    ensures Sound(Apply(s, step))
  {
    StepKept(s, step);
    GrantsKept(s, step);
    TraceKept(s, step);
    hide Apply, Enabled, Inv, Safe, RowsGranted, Traced;
  }

  lemma {:induction false} ContinuationIsSound(s: State, states: seq<State>, steps: seq<Step>, i: nat)
    requires Sound(s) && Continues(s, states, steps) && i < |states|
    ensures Sound(states[i])
  {
    hide Apply, Enabled, Sound;
    if i > 0 {
      ContinuationIsSound(s, states, steps, i - 1);
      StepIsSound(states[i - 1], steps[i - 1]);
    }
  }

  lemma ReachableIsSound(states: seq<State>, steps: seq<Step>)
    requires IsRun(states, steps)
    ensures Sound(states[|steps|])
  {
    InitialIsSound(states[0]);
    hide Sound, Apply, Enabled;
    ContinuationIsSound(states[0], states, steps, |steps|);
  }

  lemma InitialIsSound(s: State)
    requires Initial(s)
    ensures Sound(s)
  {
  }

  // ---- From which states a live lease can still be stolen ----

  /** Some continuation ends with the stealer's delete taking a live row. */
  ghost predicate CanStealLive(s: State, op: nat)
    requires op in s.ops
  {
    exists states, steps, d :: Continues(s, states, steps) && StealsLiveAtEnd(s, op, states[|steps|], d)
  }

  predicate StealsLiveAtEnd(s: State, op: nat, last: State, d: Delivery)
    requires op in s.ops
  {
    op in last.ops && last.ops[op] == s.ops[op] && TakesLive(last, op, d)
  }

  lemma {:induction false} PutTokensGrow(s: State, step: Step)
    requires Enabled(s, step)
    ensures PutTokens(s.log) <= PutTokens(Apply(s, step).log)
  {
    StepRecords(s, step);
    var t := Apply(s, step);
    hide Apply, Enabled;
    if t.log != s.log {
      LogGrows(s.log, t.log[|s.log|]);
    }
  }

  /** No step gives a handle to a token that was put without one, or puts its row back. */
  lemma GoneStaysGone(s: State, step: Step, key: string, token: string)
    requires Inv(s) && Enabled(s, step) && token in PutTokens(s.log)
    ensures token in PutTokens(Apply(s, step).log)
    ensures HasHandle(Apply(s, step), token) ==> HasHandle(s, token)
    ensures OwnedBy(Apply(s, step).table, key, token) ==> OwnedBy(s.table, key, token)
  {
    var t := Apply(s, step);
    PutTokensGrow(s, step);
    if step.SendPut? {
      assert s.ops[step.op].row.ownerToken !in PutTokens(s.log);
    }
    if HasHandle(t, token) {
      var i :| 0 <= i < |t.handles| && t.handles[i].token == token;
      HandleOrigin(s, step, i);
      StepKeepsHandles(s, step);
      assert i < |s.handles| ==> t.handles[i].token == s.handles[i].token;
    }
    if OwnedBy(t.table, key, token) {
      RowOrigin(s, step, key);
    }
    hide Apply, PutTokens, RemovedTokens, RenewedTokens, RowsLive, HandlesDistinct, StealersInformed;
  }

  lemma {:induction false} GoneForGood(s: State, states: seq<State>, steps: seq<Step>, i: nat, key: string, token: string)
    requires Sound(s) && Continues(s, states, steps) && i < |states| && token in PutTokens(s.log)
    ensures token in PutTokens(states[i].log)
    ensures HasHandle(states[i], token) ==> HasHandle(s, token)
    ensures OwnedBy(states[i].table, key, token) ==> OwnedBy(s.table, key, token)
  {
    hide Apply, Enabled, Inv, Safe, RowsGranted, Traced, PutTokens, HasHandle, OwnedBy;
    if i > 0 {
      GoneForGood(s, states, steps, i - 1, key, token);
      ContinuationIsSound(s, states, steps, i - 1);
      GoneStaysGone(states[i - 1], steps[i - 1], key, token);
    }
  }

  lemma FreshOp(ops: map<nat, Op>) returns (op: nat)
    ensures op !in ops
  {
    op := Above(ops.Keys);
  }

  lemma Above(used: set<nat>) returns (n: nat)
    ensures forall m | m in used :: m < n
  {
    n := 0;
    var rest := used;
    while rest != {}
      invariant rest <= used && forall k | k in used && k !in rest :: k < n
      decreases |rest|
    {
      var m :| m in rest;
      n, rest := if m < n then n else m + 1, rest - {m};
    }
  }

  lemma TwoSteps(s: State, first: Step, second: Step)
    requires Enabled(s, first) && Enabled(Apply(s, first), second)
    ensures Continues(s, [s, Apply(s, first), Apply(Apply(s, first), second)], [first, second])
  {
    hide Apply, Enabled;
  }

  lemma RenewalOf(s: State, h: nat, p: nat, lease: int)
    requires h < |s.handles| && s.handles[h].held && p !in s.ops
    ensures Enabled(s, StartRenew(p, h, lease)) && Enabled(Apply(s, StartRenew(p, h, lease)), SendRenew(p, Answered))
    ensures var t := Apply(Apply(s, StartRenew(p, h, lease)), SendRenew(p, Answered));
            && t.clock == s.clock && t.ops == s.ops
            && t.table == RenewIfOwner(s.table, s.handles[h].key, s.handles[h].token, s.clock, lease)
  {
    var t := Apply(Apply(s, StartRenew(p, h, lease)), SendRenew(p, Answered));
    assert t.ops == s.ops;
  }

  /** A renewal for two seconds makes the row live, and the delete still takes it. */
  lemma RenewThenSteal(s: State, op: nat, h: nat)
    requires Inv(s) && op in s.ops && s.ops[op].StealDeleting? && Takes(s, op, Answered)
    requires h < |s.handles| && s.handles[h].held && s.handles[h].token == s.ops[op].seen.ownerToken
    ensures CanStealLive(s, op)
  {
    var p := FreshOp(s.ops);
    var start, send := StartRenew(p, h, 2 * SECOND), SendRenew(p, Answered);
    RenewalOf(s, h, p, 2 * SECOND);
    var states, steps := [s, Apply(s, start), Apply(Apply(s, start), send)], [start, send];
    hide Apply, Enabled, TokensFresh, RowsLive, StealersInformed;
    assert s.handles[h].key == s.ops[op].key;
    TwoSteps(s, start, send);
    hide Inv, Continues;
    assert Continues(s, states, steps) && StealsLiveAtEnd(s, op, states[|steps|], Answered);
  }

  /** From a reachable state with a stealer past its clock check, a live lease can still be
      stolen exactly if the row seen is still its owner's and that owner holds a handle. */
  lemma CanStealLiveIff(states: seq<State>, steps: seq<Step>, op: nat)
    requires IsRun(states, steps) && op in states[|steps|].ops && states[|steps|].ops[op].StealDeleting?
    ensures var s := states[|steps|];
            var o := s.ops[op];
            CanStealLive(s, op) <==> OwnedBy(s.table, o.key, o.seen.ownerToken)
                                     && exists h :: 0 <= h < |s.handles| && s.handles[h].held && s.handles[h].token == o.seen.ownerToken
  {
    var s := states[|steps|];
    var o := s.ops[op];
    var token := o.seen.ownerToken;
    ReachableIsSound(states, steps);
    assert Informed(s, op, o);
    hide Apply, Enabled, RowsGranted, Safe, TokensFresh, RowsLive, HandlesDistinct, PutTokens, LastGrant;
    if CanStealLive(s, op) {
      var more, moves, d :| Continues(s, more, moves) && StealsLiveAtEnd(s, op, more[|moves|], d);
      LiveStealTraced(s, more, moves, op, d);
      var h :| 0 <= h < |s.handles| && s.handles[h].token == token;
      assert s.table[o.key].ownerToken == token;
    }
    if OwnedBy(s.table, o.key, token) {
      forall h | 0 <= h < |s.handles| && s.handles[h].held && s.handles[h].token == token ensures CanStealLive(s, op) {
        RenewThenSteal(s, op, h);
      }
    }
  }

  lemma LiveStealTraced(s: State, states: seq<State>, steps: seq<Step>, op: nat, d: Delivery)
    requires Sound(s) && op in s.ops && s.ops[op].StealDeleting?
    requires Continues(s, states, steps) && StealsLiveAtEnd(s, op, states[|steps|], d)
    ensures OwnedBy(s.table, s.ops[op].key, s.ops[op].seen.ownerToken) && HasHandle(s, s.ops[op].seen.ownerToken)
  {
    var last := states[|steps|];
    ContinuationIsSound(s, states, steps, |steps|);
    TakesLiveIff(last, op, d);
    assert Informed(s, op, s.ops[op]);
    GoneForGood(s, states, steps, |steps|, s.ops[op].key, s.ops[op].seen.ownerToken);
    RenewedSinceStart(last.log, s.ops[op].readAt);
    hide Apply, Enabled, RowsGranted, Safe, TokensFresh, RowsLive, HandlesDistinct, PutTokens, RenewedTokens, LastGrant, Lapsed;
  }

  lemma RenewedSinceStart(log: seq<Event>, from: nat)
    ensures RenewedTokens(log, from) <= RenewedTokens(log, 0)
  {
  }

  // ---- One such run ----

  lemma RunExtends(states: seq<State>, steps: seq<Step>, step: Step) returns (states': seq<State>, steps': seq<Step>)
    requires IsRun(states, steps) && Enabled(states[|steps|], step)
    ensures IsRun(states', steps') && states'[|steps'|] == Apply(states[|steps|], step)
  {
    states', steps' := states + [Apply(states[|steps|], step)], steps + [step];
    forall i | 0 <= i < |steps'| ensures Enabled(states'[i], steps'[i]) && states'[i + 1] == Apply(states'[i], steps'[i]) {
      assert i < |steps| ==> states'[i] == states[i] && steps'[i] == steps[i] && states'[i + 1] == states[i + 1];
    }
  }

  /** One holder, just when its lease of a second lapses. */
  ghost function RaceLapsed(): State {
    var key, row := LockKey("s", "d"), NewRow("s", "d", "deploy", "t", 0, SECOND);
    State(map[key := row], SECOND, {"t"}, map[], [Handle(key, "t", true)], [Put(key, row, 0, SECOND)])
  }

  /** A stealer has read the row and found it lapsed. */
  ghost function RaceChecked(): State {
    var key, row := LockKey("s", "d"), NewRow("s", "d", "deploy", "t", 0, SECOND);
    RaceLapsed().(ops := map[1 := StealDeleting(key, SECOND, row, 1, SECOND)],
                  log := [Put(key, row, 0, SECOND), ReadBySteal(1, key, row)])
  }

  lemma RaceToLapsed(s: State)
    requires Initial(s) && s.clock == 0
    ensures var acquire := StartAcquire(0, "s", "d", "deploy", SECOND, "t");
            && Enabled(s, acquire) && Enabled(Apply(s, acquire), SendPut(0, Answered))
            && Apply(Apply(Apply(s, acquire), SendPut(0, Answered)), Tick(SECOND)) == RaceLapsed()
  {
    var s3 := Apply(Apply(Apply(s, StartAcquire(0, "s", "d", "deploy", SECOND, "t")), SendPut(0, Answered)), Tick(SECOND));
    assert s3.ops == map[];
  }

  lemma RaceToChecked()
    ensures var s1 := Apply(RaceLapsed(), StartSteal(1, LockKey("s", "d"), SECOND));
            && Enabled(RaceLapsed(), StartSteal(1, LockKey("s", "d"), SECOND)) && Enabled(s1, SendRead(1, Answered))
            && Enabled(Apply(s1, SendRead(1, Answered)), CheckClock(1))
            && Apply(Apply(s1, SendRead(1, Answered)), CheckClock(1)) == RaceChecked()
  {
    var s1 := Apply(RaceLapsed(), StartSteal(1, LockKey("s", "d"), SECOND));
    var s3 := Apply(Apply(s1, SendRead(1, Answered)), CheckClock(1));
    assert s3.ops == RaceChecked().ops;
  }

  lemma RaceToStolen()
    ensures var s1 := Apply(RaceChecked(), StartRenew(2, 0, SECOND));
            && Enabled(RaceChecked(), StartRenew(2, 0, SECOND)) && Enabled(s1, SendRenew(2, Answered))
            && Enabled(Apply(s1, SendRenew(2, Answered)), SendStealDelete(1, Answered))
            && var log := Apply(Apply(s1, SendRenew(2, Answered)), SendStealDelete(1, Answered)).log;
               |log| == 4 && log[3].Removed? && log[3].who.BySteal? && !Lapsed(log[3].row, log[3].at)
  {
  }

  /** An owner renewing between the stealer's clock check and its delete loses a lease that has
      not lapsed. */
  lemma RenewalRaceStealsLiveLease() returns (states: seq<State>, steps: seq<Step>)
    ensures IsRun(states, steps)
    ensures var log := states[|steps|].log;
            |log| == 4 && log[3].Removed? && log[3].who.BySteal? && !Lapsed(log[3].row, log[3].at)
  {
    states, steps := [State(map[], 0, {}, map[], [], [])], [];
    RaceToLapsed(states[0]);
    states, steps := RunExtends(states, steps, StartAcquire(0, "s", "d", "deploy", SECOND, "t"));
    states, steps := RunExtends(states, steps, SendPut(0, Answered));
    states, steps := RunExtends(states, steps, Tick(SECOND));
    RaceToChecked();
    states, steps := RunExtends(states, steps, StartSteal(1, LockKey("s", "d"), SECOND));
    states, steps := RunExtends(states, steps, SendRead(1, Answered));
    states, steps := RunExtends(states, steps, CheckClock(1));
    RaceToStolen();
    states, steps := RunExtends(states, steps, StartRenew(2, 0, SECOND));
    states, steps := RunExtends(states, steps, SendRenew(2, Answered));
    states, steps := RunExtends(states, steps, SendStealDelete(1, Answered));
  }
}
