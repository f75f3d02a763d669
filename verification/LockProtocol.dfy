/** Any number of clients interleaving single database calls on the lock table.
    Every call is its own step, and so is every clock reading a client bases a call on.
    A call may also be dropped before it reaches the database, or lose its reply after
    taking effect; the caller sees an error in both cases. */
module LockProtocol {
  import opened LeaseTiming
  import opened LockStore
  import opened Wrappers

  /** An operation in flight, between two of its steps. */
  datatype Op =
    | Acquiring(key: string, row: LockRow, stamp: int, lease: int)
    | StealReading(key: string, lease: int)
    | StealChecking(key: string, lease: int, seen: LockRow, readAt: nat)
    | StealDeleting(key: string, lease: int, seen: LockRow, readAt: nat, checkedAt: int)
    | StealAcquiring(key: string, lease: int)
    | Renewing(key: string, token: string, stamp: int, lease: int)
    | Releasing(key: string, token: string, handle: nat)

  datatype Handle = Handle(key: string, token: string, held: bool)

  datatype Remover =
    | ByOwner(token: string)
    | BySteal(op: nat, seen: LockRow, readAt: nat, checkedAt: int)
    | Unconditional
    | Sweeper

  /** What happened to the table, in order. */
  datatype Event =
    | Put(key: string, row: LockRow, stamp: int, lease: int)
    | ReadBySteal(op: nat, key: string, row: LockRow)
    | Renewed(key: string, row: LockRow, stamp: int, lease: int)
    | Removed(key: string, row: LockRow, who: Remover, at: int)

  datatype State = State(table: Table, clock: int, drawn: set<string>, ops: map<nat, Op>,
                         handles: seq<Handle>, log: seq<Event>)

  datatype Delivery = Answered | ReplyLost | Dropped

  datatype Step =
    | Tick(dt: nat)
    | StartAcquire(op: nat, service: string, stage: string, operation: string, lease: int, token: string)
    | SendPut(op: nat, d: Delivery)
    | StartSteal(op: nat, key: string, lease: int)
    | SendRead(op: nat, d: Delivery)
    | CheckClock(op: nat)
    | SendStealDelete(op: nat, d: Delivery)
    | DrawForSteal(op: nat, service: string, stage: string, operation: string, token: string)
    | StartRenew(op: nat, handle: nat, lease: int)
    | SendRenew(op: nat, d: Delivery)
    | StartRelease(op: nat, handle: nat)
    | SendRelease(op: nat, d: Delivery)
    | Clear(key: string)
    | Sweep(key: string)

  predicate Initial(s: State) {
    s.table == map[] && s.drawn == {} && s.ops == map[] && s.handles == [] && s.log == []
  }

  predicate FreshToken(s: State, token: string) {
    token != "" && token !in s.drawn
  }

  predicate Enabled(s: State, step: Step) {
    match step
    case Tick(_) => true
    case StartAcquire(op, _, _, _, _, token) => op !in s.ops && FreshToken(s, token)
    case SendPut(op, _) => op in s.ops && s.ops[op].Acquiring?
    case StartSteal(op, _, _) => op !in s.ops
    case SendRead(op, _) => op in s.ops && s.ops[op].StealReading?
    case CheckClock(op) => op in s.ops && s.ops[op].StealChecking?
    case SendStealDelete(op, _) => op in s.ops && s.ops[op].StealDeleting?
    case DrawForSteal(op, service, stage, _, token) =>
      op in s.ops && s.ops[op].StealAcquiring? && s.ops[op].key == LockKey(service, stage) && FreshToken(s, token)
    case StartRenew(op, h, _) => op !in s.ops && h < |s.handles| && s.handles[h].held
    case SendRenew(op, _) => op in s.ops && s.ops[op].Renewing?
    case StartRelease(op, h) => op !in s.ops && h < |s.handles| && s.handles[h].held
    case SendRelease(op, _) => op in s.ops && s.ops[op].Releasing? && s.ops[op].handle < |s.handles|
    case Clear(key) => true
    case Sweep(key) => key in s.table && Sweepable(s.table[key], s.clock)
  }

  function Finish(s: State, op: nat): State {
    s.(ops := s.ops - {op})
  }

  function Remove(s: State, key: string, who: Remover): State
    requires key in s.table
  {
    s.(table := s.table - {key}, log := s.log + [Removed(key, s.table[key], who, s.clock)])
  }

  function DrawToken(s: State, op: nat, service: string, stage: string, operation: string, lease: int, token: string): State {
    var row := NewRow(service, stage, operation, token, s.clock, lease);
    s.(drawn := s.drawn + {token}, ops := s.ops[op := Acquiring(LockKey(service, stage), row, s.clock, lease)])
  }

  function AfterPut(s: State, op: nat, d: Delivery): State
    requires Enabled(s, SendPut(op, d))
  {
    var o := s.ops[op];
    if d.Dropped? || o.key in s.table then Finish(s, op)
    else
      var put := Finish(s, op).(table := PutIfAbsent(s.table, o.key, o.row), log := s.log + [Put(o.key, o.row, o.stamp, o.lease)]);
      if d.Answered? then put.(handles := s.handles + [Handle(o.key, o.row.ownerToken, true)]) else put
  }

  /** A read that fails, for any reason, sends the stealer straight on to acquire. */
  function AfterRead(s: State, op: nat, d: Delivery): State
    requires Enabled(s, SendRead(op, d))
  {
    var o := s.ops[op];
    if d.Answered? && o.key in s.table then
      s.(ops := s.ops[op := StealChecking(o.key, o.lease, s.table[o.key], |s.log|)],
         log := s.log + [ReadBySteal(op, o.key, s.table[o.key])])
    else
      s.(ops := s.ops[op := StealAcquiring(o.key, o.lease)])
  }

  function AfterCheck(s: State, op: nat): State
    requires Enabled(s, CheckClock(op))
  {
    var o := s.ops[op];
    if !Lapsed(o.seen, s.clock) then Finish(s, op)
    else s.(ops := s.ops[op := StealDeleting(o.key, o.lease, o.seen, o.readAt, s.clock)])
  }

  function AfterStealDelete(s: State, op: nat, d: Delivery): State
    requires Enabled(s, SendStealDelete(op, d))
  {
    var o := s.ops[op];
    if d.Dropped? || !OwnedBy(s.table, o.key, o.seen.ownerToken) then Finish(s, op)
    else
      var removed := Remove(s, o.key, BySteal(op, o.seen, o.readAt, o.checkedAt));
      if d.Answered? then removed.(ops := s.ops[op := StealAcquiring(o.key, o.lease)]) else Finish(removed, op)
  }

  function AfterRenew(s: State, op: nat, d: Delivery): State
    requires Enabled(s, SendRenew(op, d))
  {
    var o := s.ops[op];
    if d.Dropped? || !OwnedBy(s.table, o.key, o.token) then Finish(s, op)
    else
      var table := RenewIfOwner(s.table, o.key, o.token, o.stamp, o.lease);
      Finish(s, op).(table := table, log := s.log + [Renewed(o.key, table[o.key], o.stamp, o.lease)])
  }

  function AfterRelease(s: State, op: nat, d: Delivery): State
    requires Enabled(s, SendRelease(op, d))
  {
    var o := s.ops[op];
    if d.Dropped? || !OwnedBy(s.table, o.key, o.token) then Finish(s, op)
    else
      var removed := Finish(Remove(s, o.key, ByOwner(o.token)), op);
      if d.Answered? then removed.(handles := s.handles[o.handle := s.handles[o.handle].(held := false)]) else removed
  }

  function Apply(s: State, step: Step): State
    requires Enabled(s, step)
  {
    match step
    case Tick(dt) => s.(clock := s.clock + dt)
    case StartAcquire(op, service, stage, operation, lease, token) => DrawToken(s, op, service, stage, operation, lease, token)
    case SendPut(op, d) => AfterPut(s, op, d)
    case StartSteal(op, key, lease) => s.(ops := s.ops[op := StealReading(key, lease)])
    case SendRead(op, d) => AfterRead(s, op, d)
    case CheckClock(op) => AfterCheck(s, op)
    case SendStealDelete(op, d) => AfterStealDelete(s, op, d)
    case DrawForSteal(op, service, stage, operation, token) =>
      DrawToken(s, op, service, stage, operation, s.ops[op].lease, token)
    case StartRenew(op, h, lease) =>
      s.(ops := s.ops[op := Renewing(s.handles[h].key, s.handles[h].token, s.clock, lease)])
    case SendRenew(op, d) => AfterRenew(s, op, d)
    case StartRelease(op, h) =>
      s.(ops := s.ops[op := Releasing(s.handles[h].key, s.handles[h].token, h)])
    case SendRelease(op, d) => AfterRelease(s, op, d)
    case Clear(key) => if key in s.table then Remove(s, key, Unconditional) else s
    case Sweep(key) => Remove(s, key, Sweeper)
  }

  /** A run of the protocol: a start state and one enabled step after another. */
  ghost predicate IsRun(states: seq<State>, steps: seq<Step>) {
    && |states| == |steps| + 1
    && Initial(states[0])
    && forall i | 0 <= i < |steps| :: Enabled(states[i], steps[i]) && states[i + 1] == Apply(states[i], steps[i])
  }

  // ---- What every reachable state promises ----

  /** At most one handle's token matches any stored row. */
  ghost predicate AtMostOneOwner(s: State) {
    forall key, i, j | key in s.table && 0 <= i < |s.handles| && 0 <= j < |s.handles|
                       && s.handles[i].token == s.table[key].ownerToken && s.handles[j].token == s.table[key].ownerToken
      :: i == j && s.handles[i].key == key
  }

  predicate Writes(e: Event, token: string) {
    (e.Put? || e.Renewed? || e.Removed?) && e.row.ownerToken == token
  }

  /** Nothing is ever written, renewed or deleted under a token whose row is gone. */
  ghost predicate RemovedStaysRemoved(log: seq<Event>) {
    forall i, j | 0 <= i < j < |log| && log[i].Removed? :: !Writes(log[j], log[i].row.ownerToken)
  }

  /** Conditional deletes only ever hit the token they name. */
  ghost predicate OwnedRemovalsMatch(log: seq<Event>) {
    forall j | 0 <= j < |log| && log[j].Removed? ::
      && (log[j].who.ByOwner? ==> log[j].who.token == log[j].row.ownerToken)
      && (log[j].who.BySteal? ==> log[j].who.seen.ownerToken == log[j].row.ownerToken)
  }

  ghost function RenewedTokens(log: seq<Event>, from: nat): set<string> {
    set m | from <= m < |log| && log[m].Renewed? :: log[m].row.ownerToken
  }

  /** The stealer read this very row's token earlier and then saw a clock at or past its
      expiry; if the owner did not renew in between, the deleted row had lapsed. */
  ghost predicate StealJustified(log: seq<Event>, j: nat)
    requires j < |log| && log[j].Removed? && log[j].who.BySteal?
  {
    var who := log[j].who;
    && who.readAt < j
    && log[who.readAt] == ReadBySteal(who.op, log[j].key, who.seen)
    && who.seen.ownerToken == log[j].row.ownerToken
    && Lapsed(who.seen, who.checkedAt) && who.checkedAt <= log[j].at
    && (who.seen.ownerToken !in RenewedTokens(log[..j], who.readAt) ==> log[j].row == who.seen && Lapsed(log[j].row, log[j].at))
  }

  ghost predicate StealsJustified(log: seq<Event>) {
    forall j | 0 <= j < |log| && log[j].Removed? && log[j].who.BySteal? :: StealJustified(log, j)
  }

  ghost predicate Safe(s: State) {
    AtMostOneOwner(s) && RemovedStaysRemoved(s.log) && OwnedRemovalsMatch(s.log) && StealsJustified(s.log)
  }

  // ---- The inductive invariant ----

  ghost function PutTokens(log: seq<Event>): set<string> {
    set e | e in log && e.Put? :: e.row.ownerToken
  }

  ghost function RemovedTokens(log: seq<Event>): set<string> {
    set e | e in log && e.Removed? :: e.row.ownerToken
  }

  /** Every token in the log was drawn; a token waiting to be put is nobody else's. */
  ghost predicate TokensFresh(s: State) {
    && PutTokens(s.log) <= s.drawn
    && (forall op | op in s.ops && s.ops[op].Acquiring? ::
          s.ops[op].row.ownerToken in s.drawn && s.ops[op].row.ownerToken !in PutTokens(s.log))
    && (forall p, q | p in s.ops && q in s.ops && p != q && s.ops[p].Acquiring? && s.ops[q].Acquiring? ::
          s.ops[p].row.ownerToken != s.ops[q].row.ownerToken)
  }

  ghost predicate RowsLive(s: State) {
    && (forall key | key in s.table ::
          s.table[key].ownerToken in PutTokens(s.log) && s.table[key].ownerToken !in RemovedTokens(s.log))
    && (forall k, m | k in s.table && m in s.table && s.table[k].ownerToken == s.table[m].ownerToken :: k == m)
    && RemovedTokens(s.log) <= PutTokens(s.log)
  }

  ghost predicate HandlesDistinct(s: State) {
    && (forall i | 0 <= i < |s.handles| :: s.handles[i].token in PutTokens(s.log))
    && (forall i, j | 0 <= i < |s.handles| && 0 <= j < |s.handles| && s.handles[i].token == s.handles[j].token :: i == j)
    && (forall key, i | key in s.table && 0 <= i < |s.handles| && s.handles[i].token == s.table[key].ownerToken ::
          s.handles[i].key == key)
  }

  /** What stealer `op` may rely on once it has read `seen` at position readAt of the log. */
  ghost predicate Observed(table: Table, log: seq<Event>, op: nat, key: string, seen: LockRow, readAt: nat) {
    && readAt < |log|
    && log[readAt] == ReadBySteal(op, key, seen)
    && seen.ownerToken in PutTokens(log)
    && (OwnedBy(table, key, seen.ownerToken) && seen.ownerToken !in RenewedTokens(log, readAt) ==> table[key] == seen)
  }

  ghost predicate Informed(s: State, op: nat, o: Op) {
    match o
    case StealChecking(key, _, seen, readAt) => Observed(s.table, s.log, op, key, seen, readAt)
    case StealDeleting(key, _, seen, readAt, checkedAt) =>
      && Observed(s.table, s.log, op, key, seen, readAt)
      && Lapsed(seen, checkedAt) && checkedAt <= s.clock
    case _ => true
  }

  ghost predicate StealersInformed(s: State) {
    forall op | op in s.ops :: Informed(s, op, s.ops[op])
  }

  ghost predicate Inv(s: State) {
    TokensFresh(s) && RowsLive(s) && HandlesDistinct(s) && StealersInformed(s)
  }

  lemma LogGrows(log: seq<Event>, e: Event)
    ensures PutTokens(log + [e]) == PutTokens(log) + (if e.Put? then {e.row.ownerToken} else {})
    ensures RemovedTokens(log + [e]) == RemovedTokens(log) + (if e.Removed? then {e.row.ownerToken} else {})
  {
    assert forall x :: x in log + [e] <==> x in log || x == e;
  }

  lemma RenewalsGrow(log: seq<Event>, e: Event, from: nat)
    requires from <= |log|
    ensures RenewedTokens(log + [e], from) == RenewedTokens(log, from) + (if e.Renewed? then {e.row.ownerToken} else {})
  {
    var grown := log + [e];
    assert e.Renewed? ==> grown[|log|] == e;
    forall token | token in RenewedTokens(log, from) ensures token in RenewedTokens(grown, from) {
      var m :| from <= m < |log| && log[m].Renewed? && log[m].row.ownerToken == token;
      assert grown[m] == log[m];
    }
  }

  /** The table after one recorded event: every row is the old one, or the event's own. */
  ghost predicate RowsFrom(before: Table, e: Event, after: Table) {
    forall key | key in after ::
      || (key in before && after[key] == before[key])
      || ((e.Put? || e.Renewed?) && after[key] == e.row)
  }

  lemma ObservationKept(table: Table, log: seq<Event>, e: Event, after: Table, op: nat, key: string, seen: LockRow, readAt: nat)
    requires Observed(table, log, op, key, seen, readAt)
    requires RowsFrom(table, e, after)
    requires e.Put? ==> e.row.ownerToken !in PutTokens(log)
    ensures Observed(after, log + [e], op, key, seen, readAt)
  {
    LogGrows(log, e);
    RenewalsGrow(log, e, readAt);
  }

  /** Stealers stay informed while others act, as long as they did not act themselves. */
  lemma StealersKept(s: State, e: Event, t: State)
    requires StealersInformed(s)
    requires t.log == s.log + [e] && RowsFrom(s.table, e, t.table) && s.clock <= t.clock
    requires e.Put? ==> e.row.ownerToken !in PutTokens(s.log)
    requires forall op | op in t.ops :: (op in s.ops && t.ops[op] == s.ops[op]) || Informed(t, op, t.ops[op])
    ensures StealersInformed(t)
  {
    forall op | op in t.ops ensures Informed(t, op, t.ops[op]) {
      if op in s.ops && t.ops[op] == s.ops[op] {
        assert Informed(s, op, s.ops[op]);
        match s.ops[op]
        case StealChecking(key, _, seen, readAt) => ObservationKept(s.table, s.log, e, t.table, op, key, seen, readAt);
        case StealDeleting(key, _, seen, readAt, _) => ObservationKept(s.table, s.log, e, t.table, op, key, seen, readAt);
        case _ =>
      }
    }
  }

  lemma JustificationsKept(log: seq<Event>, e: Event)
    requires StealsJustified(log)
    requires e.Removed? && e.who.BySteal? ==> StealJustified(log + [e], |log|)
    ensures StealsJustified(log + [e])
  {
    var grown := log + [e];
    forall j | 0 <= j < |grown| && grown[j].Removed? && grown[j].who.BySteal? ensures StealJustified(grown, j) {
      if j < |log| {
        assert StealJustified(log, j);
        assert grown[..j] == log[..j];
      }
    }
  }

  /** The history keeps its promises as long as each new event writes a live token. */
  lemma HistoryKept(log: seq<Event>, e: Event)
    requires RemovedStaysRemoved(log) && OwnedRemovalsMatch(log) && StealsJustified(log)
    requires e.Put? || e.Renewed? || e.Removed? ==> e.row.ownerToken !in RemovedTokens(log)
    requires e.Removed? && e.who.ByOwner? ==> e.who.token == e.row.ownerToken
    requires e.Removed? && e.who.BySteal? ==> StealJustified(log + [e], |log|)
    ensures RemovedStaysRemoved(log + [e]) && OwnedRemovalsMatch(log + [e]) && StealsJustified(log + [e])
  {
    JustificationsKept(log, e);
    var grown := log + [e];
    forall i, j | 0 <= i < j < |grown| && grown[i].Removed? ensures !Writes(grown[j], grown[i].row.ownerToken) {
      assert log[i] in log && log[i].row.ownerToken in RemovedTokens(log);
    }
  }

  /** What a recorded event does to the table. */
  ghost predicate TableAfter(before: Table, e: Event, after: Table) {
    match e
    case Put(key, row, _, _) => key !in before && after == before[key := row]
    case ReadBySteal(_, _, _) => after == before
    case Renewed(key, row, _, _) => key in before && row.ownerToken == before[key].ownerToken && after == before[key := row]
    case Removed(key, row, _, _) => key in before && row == before[key] && after == before - {key}
  }

  /** A recorded event: puts are of drawn tokens nobody else is waiting to put. */
  ghost predicate Records(s: State, e: Event, t: State) {
    && t.log == s.log + [e] && TableAfter(s.table, e, t.table)
    && t.handles == s.handles && t.drawn == s.drawn && s.clock <= t.clock
    && (forall op | op in t.ops && t.ops[op].Acquiring? :: op in s.ops && t.ops[op] == s.ops[op])
    && (e.Put? ==> e.row.ownerToken in s.drawn && e.row.ownerToken !in PutTokens(s.log)
                   && forall op | op in t.ops && t.ops[op].Acquiring? :: t.ops[op].row.ownerToken != e.row.ownerToken)
  }

  lemma TokensAfterEvent(s: State, e: Event, t: State)
    requires TokensFresh(s) && Records(s, e, t)
    ensures TokensFresh(t)
  {
    LogGrows(s.log, e);
    hide PutTokens, RemovedTokens, TableAfter;
  }

  lemma RowsAfterEvent(s: State, e: Event, t: State)
    requires RowsLive(s) && Records(s, e, t)
    ensures RowsLive(t)
  {
    LogGrows(s.log, e);
    hide PutTokens, RemovedTokens;
  }

  lemma HandlesAfterEvent(s: State, e: Event, t: State)
    requires HandlesDistinct(s) && Records(s, e, t)
    ensures HandlesDistinct(t)
  {
    LogGrows(s.log, e);
    hide PutTokens, RemovedTokens;
  }

  lemma OneHandleOneOwner(s: State)
    requires HandlesDistinct(s)
    ensures AtMostOneOwner(s)
  {
    hide PutTokens;
  }

  lemma RowsFromEvent(before: Table, e: Event, after: Table)
    requires TableAfter(before, e, after)
    ensures RowsFrom(before, e, after)
  {
  }

  /** An event keeps everything, if it writes a live token, a steal comes with what its stealer
      observed, and whoever acted is informed. */
  lemma EventKept(s: State, e: Event, t: State)
    requires Inv(s) && Safe(s) && Records(s, e, t)
    requires e.Put? || e.Renewed? || e.Removed? ==> e.row.ownerToken !in RemovedTokens(s.log)
    requires e.Removed? && e.who.ByOwner? ==> e.who.token == e.row.ownerToken
    requires e.Removed? && e.who.BySteal? ==> StealJustified(s.log + [e], |s.log|)
    requires forall op | op in t.ops :: (op in s.ops && t.ops[op] == s.ops[op]) || Informed(t, op, t.ops[op])
    ensures Inv(t) && Safe(t)
  {
    hide TokensFresh, RowsLive, HandlesDistinct, StealersInformed, Informed, PutTokens, RemovedTokens, AtMostOneOwner,
         RemovedStaysRemoved, OwnedRemovalsMatch, StealsJustified, StealJustified, TableAfter;
    TokensAfterEvent(s, e, t);
    RowsAfterEvent(s, e, t);
    HandlesAfterEvent(s, e, t);
    OneHandleOneOwner(t);
    HistoryKept(s.log, e);
    RowsFromEvent(s.table, e, t.table);
    StealersKept(s, e, t);
  }

  /** Removing an observed row is justified. */
  lemma RemovalJustified(s: State, key: string, who: Remover)
    requires key in s.table && who.BySteal?
    requires Observed(s.table, s.log, who.op, key, who.seen, who.readAt) && who.seen.ownerToken == s.table[key].ownerToken
    requires Lapsed(who.seen, who.checkedAt) && who.checkedAt <= s.clock
    ensures var e := Removed(key, s.table[key], who, s.clock); StealJustified(s.log + [e], |s.log|)
  {
    var e := Removed(key, s.table[key], who, s.clock);
    assert (s.log + [e])[..|s.log|] == s.log;
    hide RenewedTokens, PutTokens;
  }

  /** A row may be removed without harm; a steal must come with what its stealer observed. */
  lemma RemovalKept(s: State, key: string, who: Remover)
    requires Inv(s) && Safe(s)
    requires key in s.table
    requires who.ByOwner? ==> who.token == s.table[key].ownerToken
    requires who.BySteal? ==>
      && Observed(s.table, s.log, who.op, key, who.seen, who.readAt) && who.seen.ownerToken == s.table[key].ownerToken
      && Lapsed(who.seen, who.checkedAt) && who.checkedAt <= s.clock
    ensures Inv(Remove(s, key, who)) && Safe(Remove(s, key, who))
  {
    var t := Remove(s, key, who);
    var e := Removed(key, s.table[key], who, s.clock);
    if who.BySteal? {
      RemovalJustified(s, key, who);
    }
    hide TokensFresh, HandlesDistinct, StealersInformed, Safe, PutTokens, RemovedTokens, Observed, Lapsed, StealJustified;
    EventKept(s, e, t);
  }

  /** Operations may finish, or move on to a phase that draws no token. */
  lemma OpsKept(s: State, ops: map<nat, Op>)
    requires Inv(s) && Safe(s)
    requires forall op | op in ops :: (op in s.ops && ops[op] == s.ops[op]) || (!ops[op].Acquiring? && Informed(s, op, ops[op]))
    ensures Inv(s.(ops := ops)) && Safe(s.(ops := ops))
  {
    var t := s.(ops := ops);
    forall p | p in t.ops ensures Informed(t, p, t.ops[p]) {
      if p in s.ops && t.ops[p] == s.ops[p] {
        assert Informed(s, p, s.ops[p]);
      }
    }
  }

  lemma HandleClearedKept(s: State, h: nat)
    requires Inv(s) && Safe(s) && h < |s.handles|
    ensures var t := s.(handles := s.handles[h := s.handles[h].(held := false)]); Inv(t) && Safe(t)
  {
    hide PutTokens, RemovedTokens, RenewedTokens, RemovedStaysRemoved, OwnedRemovalsMatch, StealsJustified;
    var t := s.(handles := s.handles[h := s.handles[h].(held := false)]);
    assert forall i | 0 <= i < |s.handles| :: t.handles[i].token == s.handles[i].token && t.handles[i].key == s.handles[i].key;
    forall p | p in t.ops ensures Informed(t, p, t.ops[p]) {
      assert Informed(s, p, s.ops[p]);
    }
  }

  lemma RowPutKept(s: State, key: string, row: LockRow, stamp: int, lease: int)
    requires Inv(s) && Safe(s) && key !in s.table
    requires row.ownerToken in s.drawn && row.ownerToken !in PutTokens(s.log)
    requires forall op | op in s.ops && s.ops[op].Acquiring? :: s.ops[op].row.ownerToken != row.ownerToken
    ensures var t := s.(table := s.table[key := row], log := s.log + [Put(key, row, stamp, lease)]); Inv(t) && Safe(t)
  {
    var e := Put(key, row, stamp, lease);
    hide TokensFresh, HandlesDistinct, StealersInformed, Safe, PutTokens, RemovedTokens, StealJustified;
    EventKept(s, e, s.(table := s.table[key := row], log := s.log + [e]));
  }

  lemma HandleIssuedKept(s: State, key: string, token: string)
    requires Inv(s) && Safe(s)
    requires token in PutTokens(s.log) && OwnedBy(s.table, key, token)
    requires forall i | 0 <= i < |s.handles| :: s.handles[i].token != token
    ensures var t := s.(handles := s.handles + [Handle(key, token, true)]); Inv(t) && Safe(t)
  {
    hide PutTokens, RemovedTokens, RenewedTokens, RemovedStaysRemoved, OwnedRemovalsMatch, StealsJustified;
    var t := s.(handles := s.handles + [Handle(key, token, true)]);
    forall p | p in t.ops ensures Informed(t, p, t.ops[p]) {
      assert Informed(s, p, s.ops[p]);
    }
  }

  /** A token about to be put was drawn for this, and nobody else has it. */
  lemma TokenToPut(s: State, op: nat)
    requires Inv(s) && op in s.ops && s.ops[op].Acquiring?
    ensures var token := s.ops[op].row.ownerToken;
            && token in s.drawn && token !in PutTokens(s.log)
            && (forall i | 0 <= i < |s.handles| :: s.handles[i].token != token)
            && forall other | other in s.ops && other != op && s.ops[other].Acquiring? :: s.ops[other].row.ownerToken != token
  {
    hide RowsLive, StealersInformed, PutTokens, RemovedTokens;
  }

  lemma PutKept(s: State, op: nat, d: Delivery)
    requires Inv(s) && Safe(s) && Enabled(s, SendPut(op, d))
    ensures Inv(AfterPut(s, op, d)) && Safe(AfterPut(s, op, d))
  {
    hide Inv, Safe, PutTokens, RemovedTokens;
    var o := s.ops[op];
    OpsKept(s, s.ops - {op});
    TokenToPut(s, op);
    LogGrows(s.log, Put(o.key, o.row, o.stamp, o.lease));
    if !d.Dropped? && o.key !in s.table {
      RowPutKept(Finish(s, op), o.key, o.row, o.stamp, o.lease);
      if d.Answered? {
        HandleIssuedKept(AfterPut(s, op, ReplyLost), o.key, o.row.ownerToken);
      }
    }
  }

  /** Right after a read the stealer knows the row. */
  lemma ReaderInformed(s: State, op: nat, key: string, lease: int)
    requires RowsLive(s) && key in s.table
    ensures var row := s.table[key];
            Observed(s.table, s.log + [ReadBySteal(op, key, row)], op, key, row, |s.log|)
  {
    LogGrows(s.log, ReadBySteal(op, key, s.table[key]));
    hide PutTokens, RemovedTokens, RenewedTokens;
  }

  lemma ReadKept(s: State, op: nat, d: Delivery)
    requires Inv(s) && Safe(s) && Enabled(s, SendRead(op, d))
    ensures Inv(AfterRead(s, op, d)) && Safe(AfterRead(s, op, d))
  {
    var o := s.ops[op];
    if d.Answered? && o.key in s.table {
      ReaderInformed(s, op, o.key, o.lease);
      hide TokensFresh, RowsLive, HandlesDistinct, StealersInformed, Safe, PutTokens, RemovedTokens, StealJustified, Observed;
      EventKept(s, ReadBySteal(op, o.key, s.table[o.key]), AfterRead(s, op, d));
    } else {
      hide Inv, Safe;
      AcquirerKept(s, op, o.key, o.lease);
    }
  }

  lemma RowRenewedKept(s: State, key: string, stamp: int, lease: int)
    requires Inv(s) && Safe(s) && key in s.table
    ensures var row := RenewedRow(s.table[key], stamp, lease);
            var t := s.(table := s.table[key := row], log := s.log + [Renewed(key, row, stamp, lease)]);
            Inv(t) && Safe(t)
  {
    var row := RenewedRow(s.table[key], stamp, lease);
    var e := Renewed(key, row, stamp, lease);
    hide TokensFresh, HandlesDistinct, StealersInformed, Safe, PutTokens, RemovedTokens, StealJustified;
    EventKept(s, e, s.(table := s.table[key := row], log := s.log + [e]));
  }

  lemma RenewKept(s: State, op: nat, d: Delivery)
    requires Inv(s) && Safe(s) && Enabled(s, SendRenew(op, d))
    ensures Inv(AfterRenew(s, op, d)) && Safe(AfterRenew(s, op, d))
  {
    var o := s.ops[op];
    OpsKept(s, s.ops - {op});
    if !d.Dropped? && OwnedBy(s.table, o.key, o.token) {
      RowRenewedKept(Finish(s, op), o.key, o.stamp, o.lease);
    }
  }

  /** An operation may finish, or go on to acquire. */
  lemma AcquirerKept(s: State, op: nat, key: string, lease: int)
    requires Inv(s) && Safe(s)
    ensures Inv(s.(ops := s.ops[op := StealAcquiring(key, lease)])) && Safe(s.(ops := s.ops[op := StealAcquiring(key, lease)]))
    ensures Inv(Finish(s, op)) && Safe(Finish(s, op))
  {
    hide TokensFresh, RowsLive, HandlesDistinct, Safe;
    OpsKept(s, s.ops[op := StealAcquiring(key, lease)]);
    OpsKept(s, s.ops - {op});
  }

  lemma StealDeleteKept(s: State, op: nat, d: Delivery)
    requires Inv(s) && Safe(s) && Enabled(s, SendStealDelete(op, d))
    ensures Inv(AfterStealDelete(s, op, d)) && Safe(AfterStealDelete(s, op, d))
  {
    var o := s.ops[op];
    OpsKept(s, s.ops - {op});
    if !d.Dropped? && OwnedBy(s.table, o.key, o.seen.ownerToken) {
      assert Informed(s, op, o);
      var who := BySteal(op, o.seen, o.readAt, o.checkedAt);
      RemovalKept(s, o.key, who);
      hide Inv, Safe, Informed, Lapsed;
      AcquirerKept(Remove(s, o.key, who), op, o.key, o.lease);
    }
  }

  lemma ReleaseKept(s: State, op: nat, d: Delivery)
    requires Inv(s) && Safe(s) && Enabled(s, SendRelease(op, d))
    ensures Inv(AfterRelease(s, op, d)) && Safe(AfterRelease(s, op, d))
  {
    var o := s.ops[op];
    OpsKept(s, s.ops - {op});
    if !d.Dropped? && OwnedBy(s.table, o.key, o.token) {
      var removed := Remove(s, o.key, ByOwner(o.token));
      RemovalKept(s, o.key, ByOwner(o.token));
      OpsKept(removed, s.ops - {op});
      HandleClearedKept(Finish(removed, op), o.handle);
    }
  }

  /** Steps that leave table and log alone. */
  lemma QuietStepKept(s: State, step: Step)
    requires Inv(s) && Safe(s) && Enabled(s, step)
    requires IsQuiet(step)
    ensures Inv(Apply(s, step)) && Safe(Apply(s, step))
  {
    QuietSafe(s, step);
    QuietTokens(s, step);
    forall p | p in Apply(s, step).ops ensures Informed(Apply(s, step), p, Apply(s, step).ops[p]) {
      QuietInformed(s, step, p);
    }
    hide Apply, Enabled, TokensFresh, RowsLive, HandlesDistinct, Informed, Safe;
  }

  predicate IsQuiet(step: Step) {
    step.Tick? || step.StartAcquire? || step.StartSteal? || step.CheckClock? || step.DrawForSteal? || step.StartRenew? || step.StartRelease?
  }

  lemma QuietShape(s: State, step: Step)
    requires Enabled(s, step) && IsQuiet(step)
    ensures var t := Apply(s, step); t.table == s.table && t.log == s.log && t.handles == s.handles && s.clock <= t.clock
  {
  }

  lemma QuietSafe(s: State, step: Step)
    requires Inv(s) && Safe(s) && Enabled(s, step) && IsQuiet(step)
    ensures Safe(Apply(s, step))
  {
    QuietShape(s, step);
    hide Apply, Enabled, Inv, RemovedStaysRemoved, OwnedRemovalsMatch, StealsJustified;
  }

  lemma QuietTokens(s: State, step: Step)
    requires Inv(s) && Enabled(s, step) && IsQuiet(step)
    ensures TokensFresh(Apply(s, step)) && RowsLive(Apply(s, step)) && HandlesDistinct(Apply(s, step))
  {
    QuietShape(s, step);
    hide StealersInformed, PutTokens, RemovedTokens;
    if step.StartAcquire? || step.DrawForSteal? {
      DrawKeepsTokens(s, step.op, Apply(s, step));
    } else {
      OthersKeepTokens(s, step, Apply(s, step));
    }
  }

  lemma DrawKeepsTokens(s: State, op: nat, t: State)
    requires TokensFresh(s) && RowsLive(s) && t.log == s.log
    requires op in t.ops && t.ops[op].Acquiring? && t.ops == s.ops[op := t.ops[op]]
    requires t.ops[op].row.ownerToken !in s.drawn && t.drawn == s.drawn + {t.ops[op].row.ownerToken}
    ensures TokensFresh(t)
  {
    hide PutTokens, RemovedTokens, RowsLive;
  }

  lemma OthersKeepTokens(s: State, step: Step, t: State)
    requires TokensFresh(s) && Enabled(s, step) && t == Apply(s, step) && IsQuiet(step) && !step.StartAcquire? && !step.DrawForSteal?
    ensures TokensFresh(t)
  {
    hide PutTokens;
  }

  lemma QuietInformed(s: State, step: Step, op: nat)
    requires Inv(s) && Enabled(s, step) && IsQuiet(step) && op in Apply(s, step).ops
    ensures Informed(Apply(s, step), op, Apply(s, step).ops[op])
  {
    QuietShape(s, step);
    if op in s.ops {
      assert Informed(s, op, s.ops[op]);
    }
    hide TokensFresh, RowsLive, HandlesDistinct;
  }

  /** Every step of every client keeps the invariant and the safety of the history. */
  lemma StepKept(s: State, step: Step)
    requires Inv(s) && Safe(s) && Enabled(s, step)
    ensures Inv(Apply(s, step)) && Safe(Apply(s, step))
  {
    match step
    case SendPut(op, d) => PutKept(s, op, d);
    case SendRead(op, d) => ReadKept(s, op, d);
    case SendStealDelete(op, d) => StealDeleteKept(s, op, d);
    case SendRenew(op, d) => RenewKept(s, op, d);
    case SendRelease(op, d) => ReleaseKept(s, op, d);
    case Clear(key) => if key in s.table { RemovalKept(s, key, Unconditional); }
    case Sweep(key) => RemovalKept(s, key, Sweeper);
    case _ => QuietStepKept(s, step);
  }

  /** Mutual exclusion, no life after deletion and justified steals, in every state of
      every run of any number of clients. */
  lemma {:induction false} EveryRunIsSafe(states: seq<State>, steps: seq<Step>, i: nat)
    requires IsRun(states, steps) && i < |states|
    ensures Inv(states[i]) && Safe(states[i])
  {
    if i > 0 {
      EveryRunIsSafe(states, steps, i - 1);
      StepKept(states[i - 1], steps[i - 1]);
    }
  }

  // ---- What a renewing holder gets ----

  datatype Grant = Grant(stamp: int, lease: int)

  /** The clock reading and lease behind the latest write under a token. */
  ghost function LastGrant(log: seq<Event>, token: string): Option<Grant> {
    if log == [] then None
    else
      var e := log[|log| - 1];
      if (e.Put? || e.Renewed?) && e.row.ownerToken == token then Some(Grant(e.stamp, e.lease))
      else LastGrant(log[..|log| - 1], token)
  }

  ghost predicate Granted(log: seq<Event>, row: LockRow) {
    match LastGrant(log, row.ownerToken)
    case Some(g) => Bears(row, g.stamp, g.lease)
    case None => false
  }

  /** Every stored row bears the times of the latest grant to its owner. */
  ghost predicate RowsGranted(s: State) {
    && (forall key | key in s.table :: Granted(s.log, s.table[key]))
    && (forall op | op in s.ops && s.ops[op].Acquiring? :: Bears(s.ops[op].row, s.ops[op].stamp, s.ops[op].lease))
  }

  lemma GrantGrows(log: seq<Event>, e: Event, row: LockRow)
    requires if (e.Put? || e.Renewed?) && e.row.ownerToken == row.ownerToken
             then Bears(row, e.stamp, e.lease) else Granted(log, row)
    ensures Granted(log + [e], row)
  {
    assert (log + [e])[..|log|] == log;
  }

  /** A recorded event leaves every row granted if it writes only its own token's row. */
  lemma GrantsRecorded(s: State, e: Event, after: Table)
    requires RowsGranted(s) && RowsFrom(s.table, e, after)
    requires e.Put? || e.Renewed? ==>
      && Bears(e.row, e.stamp, e.lease)
      && forall key | key in after && after[key].ownerToken == e.row.ownerToken :: after[key] == e.row
    ensures forall key | key in after :: Granted(s.log + [e], after[key])
  {
    forall key | key in after ensures Granted(s.log + [e], after[key]) {
      GrantGrows(s.log, e, after[key]);
    }
  }

  lemma GrantsKeptByPut(s: State, op: nat, d: Delivery)
    requires Inv(s) && RowsGranted(s) && Enabled(s, SendPut(op, d))
    ensures RowsGranted(AfterPut(s, op, d))
  {
    var o := s.ops[op];
    if !d.Dropped? && o.key !in s.table {
      GrantsRecorded(s, Put(o.key, o.row, o.stamp, o.lease), s.table[o.key := o.row]);
    }
  }

  lemma GrantsKeptByRenew(s: State, op: nat, d: Delivery)
    requires Inv(s) && RowsGranted(s) && Enabled(s, SendRenew(op, d))
    ensures RowsGranted(AfterRenew(s, op, d))
  {
    var o := s.ops[op];
    if !d.Dropped? && OwnedBy(s.table, o.key, o.token) {
      var row := RenewedRow(s.table[o.key], o.stamp, o.lease);
      GrantsRecorded(s, Renewed(o.key, row, o.stamp, o.lease), s.table[o.key := row]);
    }
  }

  lemma GrantsKept(s: State, step: Step)
    requires Inv(s) && RowsGranted(s) && Enabled(s, step)
    ensures RowsGranted(Apply(s, step))
  {
    if step.SendPut? {
      GrantsKeptByPut(s, step.op, step.d);
    } else if step.SendRenew? {
      GrantsKeptByRenew(s, step.op, step.d);
    } else {
      OpsGranted(s, step);
      OtherStepsRecord(s, step);
      var t := Apply(s, step);
      hide Apply, Enabled, Inv, Granted, RowsFrom;
      if t.log != s.log {
        GrantsRecorded(s, t.log[|s.log|], t.table);
      }
    }
  }

  lemma OpsGranted(s: State, step: Step)
    requires RowsGranted(s) && Enabled(s, step) && !step.SendPut? && !step.SendRenew?
    ensures var t := Apply(s, step);
            forall op | op in t.ops && t.ops[op].Acquiring? :: Bears(t.ops[op].row, t.ops[op].stamp, t.ops[op].lease)
  {
    hide Granted;
  }

  /** Steps other than puts and renewals record at most a read or a removal. */
  lemma OtherStepsRecord(s: State, step: Step)
    requires Enabled(s, step) && !step.SendPut? && !step.SendRenew?
    ensures var t := Apply(s, step);
            if t.log == s.log then t.table == s.table
            else |t.log| == |s.log| + 1 && t.log == s.log + [t.log[|s.log|]]
                 && !t.log[|s.log|].Put? && !t.log[|s.log|].Renewed? && RowsFrom(s.table, t.log[|s.log|], t.table)
  {
  }

  lemma {:induction false} EveryRunGrants(states: seq<State>, steps: seq<Step>, i: nat)
    requires IsRun(states, steps) && i < |states|
    ensures RowsGranted(states[i])
  {
    if i > 0 {
      EveryRunIsSafe(states, steps, i - 1);
      EveryRunGrants(states, steps, i - 1);
      GrantsKept(states[i - 1], steps[i - 1]);
    }
  }
}
