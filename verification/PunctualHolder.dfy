/** A holder whose heartbeat keeps its cadence, inside a run of the protocol. */
module PunctualHolder {
  import opened LeaseTiming
  import opened LockProtocol
  import opened LockStore
  import opened StealRace
  import opened Wrappers

  /** One lease: the row's key, the owner's token, the lease duration and the clock reading the
      acquisition was stamped with. */
  datatype Lease = Lease(key: string, token: string, ttl: int, born: int)

  predicate IsRenewal(o: Op, token: string) {
    o.Renewing? && o.token == token
  }

  predicate IsAcquisition(o: Op, token: string) {
    o.Acquiring? && o.row.ownerToken == token
  }

  /** The heartbeat renews one at a time, always for the lease it was given. */
  ghost predicate OneAtATime(s: State, l: Lease) {
    && (forall p | p in s.ops && IsAcquisition(s.ops[p], l.token) :: s.ops[p].stamp == l.born && s.ops[p].lease == l.ttl)
    && (forall p | p in s.ops && IsRenewal(s.ops[p], l.token) :: s.ops[p].lease == l.ttl)
    && (forall p, q | p in s.ops && q in s.ops && IsRenewal(s.ops[p], l.token) && IsRenewal(s.ops[q], l.token) :: p == q)
  }

  /** The i-th step delivers the renewal stamped `tick`. */
  predicate Delivers(s: State, step: Step, l: Lease, tick: int) {
    step.SendRenew? && !step.d.Dropped? && step.op in s.ops && s.ops[step.op] == Renewing(l.key, l.token, tick, l.ttl)
  }

  /** In this run, ticks[0] acquired the lease and every other tick renewed it: a hit is
      delivered within the latency, and the run does not outlast the heartbeat. */
  ghost predicate Heartbeats(states: seq<State>, steps: seq<Step>, l: Lease, ticks: seq<int>, hits: seq<bool>, latency: nat) {
    && AtCadence(ticks, hits, l.ttl) && ticks[0] == l.born
    && (forall i | 0 <= i < |states| :: OneAtATime(states[i], l))
    && (forall i | 0 <= i < |states| :: states[i].clock <= ticks[|ticks| - 1] + DefaultInterval(l.ttl) + latency)
    && forall i, k | 0 <= i < |states| && 0 < k < |ticks| && hits[k] && ticks[k] + latency < states[i].clock ::
         exists j :: 0 <= j < i && j < |steps| && Delivers(states[j], steps[j], l, ticks[k])
  }

  /** The latest grant is no older than the acquisition and no newer than a pending renewal. */
  ghost predicate Stamped(s: State, l: Lease) {
    && (forall p | p in s.ops && (IsRenewal(s.ops[p], l.token) || IsAcquisition(s.ops[p], l.token)) :: s.ops[p].stamp <= s.clock)
    && match LastGrant(s.log, l.token)
       case None => true
       case Some(g) =>
         && g.lease == l.ttl && l.born <= g.stamp <= s.clock
         && forall p | p in s.ops && IsRenewal(s.ops[p], l.token) :: g.stamp <= s.ops[p].stamp
  }

  /** The grant a step makes under the token, if any. */
  lemma GrantAfter(s: State, step: Step, token: string)
    requires Enabled(s, step)
    ensures var t := Apply(s, step);
            LastGrant(t.log, token) == LastGrant(s.log, token)
            || ((step.SendPut? || step.SendRenew?) && step.op in s.ops && step.op !in t.ops
                && (IsRenewal(s.ops[step.op], token) || IsAcquisition(s.ops[step.op], token))
                && LastGrant(t.log, token) == Some(Grant(s.ops[step.op].stamp, s.ops[step.op].lease)))
  {
    StepRecords(s, step);
    StepGrants(s, step);
    var t := Apply(s, step);
    hide Apply, Enabled;
    if t.log != s.log {
      assert t.log[..|s.log|] == s.log;
    }
  }

  lemma StepGrants(s: State, step: Step)
    requires Enabled(s, step)
    ensures var t := Apply(s, step);
            |t.log| > |s.log| && (t.log[|s.log|].Put? || t.log[|s.log|].Renewed?) ==>
              && step.op in s.ops && step.op !in t.ops && t.log[|s.log|].stamp == s.ops[step.op].stamp && t.log[|s.log|].lease == s.ops[step.op].lease
  {
  }

  /** Operations after a step: unchanged, or stamped with the clock. */
  lemma OpsAfter(s: State, step: Step, p: nat, token: string)
    requires Enabled(s, step) && p in Apply(s, step).ops
    requires IsRenewal(Apply(s, step).ops[p], token) || IsAcquisition(Apply(s, step).ops[p], token)
    ensures var t := Apply(s, step);
            s.clock <= t.clock && ((p in s.ops && t.ops[p] == s.ops[p]) || t.ops[p].stamp == s.clock)
  {
  }

  lemma ClockRuns(s: State, step: Step)
    requires Enabled(s, step)
    ensures s.clock <= Apply(s, step).clock
  {
  }

  /** Until the put there is no handle to renew, so a first grant finds no renewal pending. */
  lemma NoRenewalBeforePut(s: State, p: nat, q: nat, token: string)
    requires Sound(s) && p in s.ops && q in s.ops && IsRenewal(s.ops[p], token)
    ensures !IsAcquisition(s.ops[q], token)
  {
    assert FromHandle(s, s.ops[p]);
    hide Safe, RowsGranted, StealersInformed, RowsLive, PutTokens;
  }

  lemma StampsKept(s: State, step: Step, l: Lease)
    requires Sound(s) && Enabled(s, step) && OneAtATime(s, l) && Stamped(s, l)
    ensures Stamped(Apply(s, step), l)
    ensures LastGrant(s.log, l.token).Some? ==>
              LastGrant(Apply(s, step).log, l.token).Some? && LastGrant(s.log, l.token).value.stamp <= LastGrant(Apply(s, step).log, l.token).value.stamp
  {
    var t := Apply(s, step);
    hide Sound, Apply, Enabled, LastGrant, Stamped, OneAtATime;
    GrantAfter(s, step, l.token);
    OpsFollowOn(s, step, l.token);
    if LastGrant(t.log, l.token) == LastGrant(s.log, l.token) {
      SameGrant(s, t, l);
    } else if IsRenewal(s.ops[step.op], l.token) {
      RenewalGrant(s, t, step.op, l);
    } else {
      NoGrantBeforePut(s, step, l);
      forall p | p in s.ops && IsRenewal(s.ops[p], l.token) ensures false {
        NoRenewalBeforePut(s, p, step.op, l.token);
      }
      FirstGrant(s, t, step.op, l);
    }
  }

  /** Operations on the token are unchanged, or stamped with the clock. */
  ghost predicate OpsFollow(s: State, t: State, token: string) {
    && s.clock <= t.clock
    && forall p | p in t.ops && (IsRenewal(t.ops[p], token) || IsAcquisition(t.ops[p], token)) ::
         (p in s.ops && t.ops[p] == s.ops[p]) || t.ops[p].stamp == s.clock
  }

  lemma OpsFollowOn(s: State, step: Step, token: string)
    requires Enabled(s, step)
    ensures OpsFollow(s, Apply(s, step), token)
  {
    hide Apply, Enabled;
    var t := Apply(s, step);
    ClockRuns(s, step);
    forall p | p in t.ops && (IsRenewal(t.ops[p], token) || IsAcquisition(t.ops[p], token))
      ensures (p in s.ops && t.ops[p] == s.ops[p]) || t.ops[p].stamp == s.clock
    {
      OpsAfter(s, step, p, token);
    }
  }

  lemma SameGrant(s: State, t: State, l: Lease)
    requires Stamped(s, l) && OpsFollow(s, t, l.token) && LastGrant(t.log, l.token) == LastGrant(s.log, l.token)
    ensures Stamped(t, l)
  {
    hide LastGrant;
  }

  lemma RenewalGrant(s: State, t: State, op: nat, l: Lease)
    requires OneAtATime(s, l) && Stamped(s, l) && OpsFollow(s, t, l.token)
    requires op in s.ops && op !in t.ops && IsRenewal(s.ops[op], l.token)
    requires LastGrant(t.log, l.token) == Some(Grant(s.ops[op].stamp, s.ops[op].lease))
    requires LastGrant(s.log, l.token).Some?
    ensures Stamped(t, l) && LastGrant(s.log, l.token).value.stamp <= LastGrant(t.log, l.token).value.stamp
  {
    hide LastGrant;
  }

  lemma FirstGrant(s: State, t: State, op: nat, l: Lease)
    requires OneAtATime(s, l) && Stamped(s, l) && OpsFollow(s, t, l.token)
    requires op in s.ops && op !in t.ops && IsAcquisition(s.ops[op], l.token)
    requires forall p | p in s.ops :: !IsRenewal(s.ops[p], l.token)
    requires LastGrant(t.log, l.token) == Some(Grant(s.ops[op].stamp, s.ops[op].lease))
    ensures Stamped(t, l)
  {
    hide LastGrant;
  }

  /** A put finds no grant under its own token. */
  lemma NoGrantBeforePut(s: State, step: Step, l: Lease)
    requires Sound(s) && Enabled(s, step) && step.SendPut? && IsAcquisition(s.ops[step.op], l.token)
    ensures LastGrant(s.log, l.token) == None
  {
    assert l.token !in PutTokens(s.log);
    assert forall token | token in RenewedTokens(s.log, 0) :: token in PutTokens(s.log);
    GrantedTokens(s.log, l.token);
    hide Safe, RowsGranted, StealersInformed, RowsLive, PutTokens, RenewedTokens;
  }

  lemma {:induction false} GrantedTokens(log: seq<Event>, token: string)
    ensures LastGrant(log, token).Some? ==> token in PutTokens(log) || token in RenewedTokens(log, 0)
  {
    if log != [] {
      var front, last := log[..|log| - 1], log[|log| - 1];
      assert log == front + [last];
      LogGrows(front, last);
      RenewalsGrow(front, last, 0);
      GrantedTokens(front, token);
    }
  }

  // ---- Over a whole run ----

  /** The stamp of the latest grant, or, before the first, the acquisition's. */
  ghost function LastStamp(s: State, l: Lease): int {
    match LastGrant(s.log, l.token)
    case Some(g) => g.stamp
    case None => l.born
  }

  lemma InitiallyStamped(s: State, l: Lease)
    requires Initial(s)
    ensures Sound(s) && Stamped(s, l)
  {
    InitialIsSound(s);
    hide Sound;
  }

  lemma {:induction false} StampsInOrder(states: seq<State>, steps: seq<Step>, l: Lease, i: nat)
    requires IsRun(states, steps) && i < |states| && forall j | 0 <= j < |states| :: OneAtATime(states[j], l)
    ensures Sound(states[i]) && Stamped(states[i], l)
    ensures i > 0 ==> LastStamp(states[i - 1], l) <= LastStamp(states[i], l)
  {
    hide Apply, Enabled, Sound, OneAtATime, Initial;
    if i == 0 {
      InitiallyStamped(states[0], l);
    } else {
      StampsInOrder(states, steps, l, i - 1);
      StepIsSound(states[i - 1], steps[i - 1]);
      StampsKept(states[i - 1], steps[i - 1], l);
    }
  }

  lemma {:induction false} StampsNeverFall(states: seq<State>, steps: seq<Step>, l: Lease, j: nat, i: nat)
    requires IsRun(states, steps) && j <= i < |states| && forall k | 0 <= k < |states| :: OneAtATime(states[k], l)
    ensures LastStamp(states[j], l) <= LastStamp(states[i], l)
  {
    hide IsRun, OneAtATime, LastStamp, Sound, Stamped;
    if j < i {
      StampsNeverFall(states, steps, l, j, i - 1);
      StampsInOrder(states, steps, l, i);
    }
  }

  /** A renewal delivered while the row is the holder's is its latest grant. */
  lemma DeliveryGrants(s: State, step: Step, l: Lease, tick: int)
    requires Sound(s) && Enabled(s, step) && Delivers(s, step, l, tick) && OwnedBy(s.table, l.key, l.token)
    ensures LastGrant(Apply(s, step).log, l.token) == Some(Grant(tick, l.ttl))
  {
    var t := Apply(s, step);
    assert t.log[..|s.log|] == s.log;
  }

  lemma SuffixContinues(states: seq<State>, steps: seq<Step>, j: nat)
    requires IsRun(states, steps) && j < |states|
    ensures Continues(states[j], states[j..], steps[j..])
  {
    hide Apply, Enabled;
  }

  lemma RenewerWasPut(s: State, p: nat, token: string)
    requires Sound(s) && p in s.ops && IsRenewal(s.ops[p], token)
    ensures token in PutTokens(s.log)
  {
    assert FromHandle(s, s.ops[p]);
    hide PutTokens;
  }

  /** A delivered hit counts from then on, as long as the row is the holder's. */
  lemma DeliveredCounts(states: seq<State>, steps: seq<Step>, l: Lease, tick: int, j: nat, i: nat)
    requires IsRun(states, steps) && j < i < |states| && forall k | 0 <= k < |states| :: OneAtATime(states[k], l)
    requires Delivers(states[j], steps[j], l, tick) && OwnedBy(states[i].table, l.key, l.token)
    ensures tick <= LastStamp(states[i], l)
  {
    hide Apply, Enabled, Sound, Stamped, PutTokens, HasHandle, OwnedBy, OneAtATime, LastGrant;
    StampsInOrder(states, steps, l, j);
    RenewerWasPut(states[j], steps[j].op, l.token);
    SuffixContinues(states, steps, j);
    GoneForGood(states[j], states[j..], steps[j..], i - j, l.key, l.token);
    assert states[j..][i - j] == states[i];
    assert Enabled(states[j], steps[j]) && states[j + 1] == Apply(states[j], steps[j]);
    DeliveryGrants(states[j], steps[j], l, tick);
    StampsNeverFall(states, steps, l, j + 1, i);
  }

  lemma GrantBehindRow(s: State, l: Lease)
    requires Sound(s) && Stamped(s, l) && OwnedBy(s.table, l.key, l.token)
    ensures var stamp := LastStamp(s, l);
            && l.born <= stamp <= s.clock && (Lapsed(s.table[l.key], s.clock) <==> !Ahead(stamp, l.ttl, s.clock))
  {
    assert Granted(s.log, s.table[l.key]);
    hide LastGrant, Inv, Traced, Safe;
  }

  /** Over a whole run, a holder that renews at the cadence and never misses twice in a row,
      each renewal taking effect within the slack, has a stored expiry ahead of the clock in
      every state in which the row is still its own. */
  lemma PunctualHolderIsNotLapsed(states: seq<State>, steps: seq<Step>, l: Lease, ticks: seq<int>, hits: seq<bool>, latency: nat, i: nat)
    requires IsRun(states, steps) && i < |states| && Heartbeats(states, steps, l, ticks, hits, latency) && latency <= Slack(l.ttl)
    requires OwnedBy(states[i].table, l.key, l.token)
    ensures !Lapsed(states[i].table[l.key], states[i].clock)
  {
    hide IsRun, Sound, Stamped, OneAtATime, AtCadence, Delivers, Ahead, Lapsed;
    var now := states[i].clock;
    StampsInOrder(states, steps, l, i);
    GrantBehindRow(states[i], l);
    var k := RecentHit(ticks, hits, l.ttl, latency, now);
    if k > 0 {
      var j :| 0 <= j < i && j < |steps| && Delivers(states[j], steps[j], l, ticks[k]);
      DeliveredCounts(states, steps, l, ticks[k], j, i);
    }
    LateRenewalIsHarmlessIff(l.ttl, latency);
    hide *;
    assert ticks[k] <= LastStamp(states[i], l) <= now <= LastStamp(states[i], l) + 2 * DefaultInterval(l.ttl) + latency;
    assert Ahead(LastStamp(states[i], l), l.ttl, now);
  }

  /** Such a holder loses its row to a stealer only if it renewed between that stealer's read
      and its delete. */
  lemma PunctualHolderLosesOnlyToRace(states: seq<State>, steps: seq<Step>, l: Lease, ticks: seq<int>, hits: seq<bool>, latency: nat,
                                      i: nat, op: nat, d: Delivery)
    requires IsRun(states, steps) && i < |steps| && Heartbeats(states, steps, l, ticks, hits, latency) && latency <= Slack(l.ttl)
    requires steps[i] == SendStealDelete(op, d) && Takes(states[i], op, d)
    requires states[i].ops[op].key == l.key && states[i].ops[op].seen.ownerToken == l.token
    ensures l.token in RenewedTokens(states[i].log, states[i].ops[op].readAt)
  {
    PunctualHolderIsNotLapsed(states, steps, l, ticks, hits, latency, i);
    StealTakesLiveIff(states, steps, i, op, d);
    hide IsRun, Heartbeats, RenewedTokens, LastGrant;
  }

  /** Nor does the table's own expiry ever take its row. */
  lemma PunctualHolderIsNeverSwept(states: seq<State>, steps: seq<Step>, l: Lease, ticks: seq<int>, hits: seq<bool>, latency: nat, i: nat)
    requires IsRun(states, steps) && i < |steps| && Heartbeats(states, steps, l, ticks, hits, latency) && latency <= Slack(l.ttl)
    requires OwnedBy(states[i].table, l.key, l.token)
    ensures steps[i] != Sweep(l.key)
  {
    PunctualHolderIsNotLapsed(states, steps, l, ticks, hits, latency, i);
    EveryRunGrants(states, steps, i);
    assert Granted(states[i].log, states[i].table[l.key]);
    assert Enabled(states[i], steps[i]);
    hide IsRun, Heartbeats, LastGrant;
  }

  /** So there are three ways such a holder can lose its row: it is released under its token,
      cleared by hand, or stolen by a stealer that read it before a renewal. */
  lemma PunctualHolderLosesRow(states: seq<State>, steps: seq<Step>, l: Lease, ticks: seq<int>, hits: seq<bool>, latency: nat, i: nat)
    requires IsRun(states, steps) && i < |steps| && Heartbeats(states, steps, l, ticks, hits, latency) && latency <= Slack(l.ttl)
    requires OwnedBy(states[i].table, l.key, l.token) && !OwnedBy(states[i + 1].table, l.key, l.token)
    ensures match steps[i]
            case SendRelease(op, _) => states[i].ops[op].token == l.token
            case Clear(key) => key == l.key
            case SendStealDelete(op, _) =>
              states[i].ops[op].seen.ownerToken == l.token && l.token in RenewedTokens(states[i].log, states[i].ops[op].readAt)
            case _ => false
  {
    var s, step := states[i], steps[i];
    RowLostBy(s, step, l.key, l.token);
    PunctualHolderIsNeverSwept(states, steps, l, ticks, hits, latency, i);
    hide Apply, Heartbeats, RenewedTokens, OwnedBy;
    if step.SendStealDelete? {
      PunctualHolderLosesOnlyToRace(states, steps, l, ticks, hits, latency, i, step.op, step.d);
    }
  }

  lemma RowLostBy(s: State, step: Step, key: string, token: string)
    requires Enabled(s, step) && OwnedBy(s.table, key, token) && !OwnedBy(Apply(s, step).table, key, token)
    ensures match step
            case SendRelease(op, _) => s.ops[op].token == token
            case Clear(k) => k == key
            case Sweep(k) => k == key
            case SendStealDelete(op, d) => Takes(s, op, d) && s.ops[op].key == key && s.ops[op].seen.ownerToken == token
            case _ => false
  {
  }
}
