/** What the log of a run tells of its rows: how each came about, and that the table's own expiry
    only takes rows whose lease is over. */
module LockHistory {
  import opened LeaseTiming
  import opened LockProtocol
  import opened LockStore
  import opened Wrappers

  /** The row was put under this key, as created at the stamp of the put, and is still of the
      same lock, operation and owner. */
  ghost predicate PutAt(log: seq<Event>, m: nat, key: string, row: LockRow) {
    && m < |log| && log[m].Put? && log[m].key == key == LockKey(row.service, row.stage)
    && SameLock(row, log[m].row) && row.createdAt == WholeSeconds(log[m].stamp)
  }

  ghost predicate Told(log: seq<Event>, key: string, row: LockRow) {
    exists m: nat :: PutAt(log, m, key, row)
  }

  predicate WaitsToBePut(o: Op) {
    o.Acquiring? ==> o.key == LockKey(o.row.service, o.row.stage) && o.row.createdAt == WholeSeconds(o.stamp)
  }

  ghost predicate RowsTold(s: State) {
    && (forall key | key in s.table :: Told(s.log, key, s.table[key]))
    && forall op | op in s.ops :: WaitsToBePut(s.ops[op])
  }

  /** When the table's expiry takes a row, the latest grant to its owner has run out. */
  ghost predicate SweepJustified(log: seq<Event>, j: nat)
    requires j < |log| && log[j].Removed?
  {
    match LastGrant(log[..j], log[j].row.ownerToken)
    case Some(g) => !Ahead(g.stamp, g.lease, log[j].at)
    case None => false
  }

  ghost predicate SweepsJustified(log: seq<Event>) {
    forall j | 0 <= j < |log| && log[j].Removed? && log[j].who.Sweeper? :: SweepJustified(log, j)
  }

  // ---- Each step keeps that ----

  /** A row after a step: the old one, the old one renewed, or one just put. */
  lemma RowAfter(s: State, step: Step, key: string)
    requires Enabled(s, step) && key in Apply(s, step).table
    ensures var t := Apply(s, step);
            s.log <= t.log
            && ((key in s.table && SameLock(t.table[key], s.table[key]))
                || (step.SendPut? && var o := s.ops[step.op];
                                     key == o.key && t.table[key] == o.row && t.log == s.log + [Put(o.key, o.row, o.stamp, o.lease)]))
  {
  }

  lemma OpAfter(s: State, step: Step, op: nat)
    requires Enabled(s, step) && op in Apply(s, step).ops
    ensures (op in s.ops && Apply(s, step).ops[op] == s.ops[op]) || WaitsToBePut(Apply(s, step).ops[op])
  {
  }

  lemma StillTold(log: seq<Event>, more: seq<Event>, key: string, row: LockRow, after: LockRow)
    requires Told(log, key, row) && log <= more && SameLock(after, row)
    ensures Told(more, key, after)
  {
    var m: nat :| PutAt(log, m, key, row);
    assert PutAt(more, m, key, after);
  }

  lemma RowsStayTold(s: State, step: Step)
    requires RowsTold(s) && Enabled(s, step)
    ensures RowsTold(Apply(s, step))
  {
    var t := Apply(s, step);
    hide Apply, Told, SameLock;
    forall key | key in t.table ensures Told(t.log, key, t.table[key]) {
      RowAfter(s, step, key);
      if key in s.table && SameLock(t.table[key], s.table[key]) {
        StillTold(s.log, t.log, key, s.table[key], t.table[key]);
      } else {
        PutIsTold(s.log, s.ops[step.op]);
      }
    }
    forall op | op in t.ops ensures WaitsToBePut(t.ops[op]) {
      OpAfter(s, step, op);
    }
  }

  lemma PutIsTold(log: seq<Event>, o: Op)
    requires o.Acquiring? && WaitsToBePut(o)
    ensures Told(log + [Put(o.key, o.row, o.stamp, o.lease)], o.key, o.row)
  {
    assert PutAt(log + [Put(o.key, o.row, o.stamp, o.lease)], |log|, o.key, o.row);
  }

  /** What a step records last is a sweep only if it is one. */
  lemma SweepRecorded(s: State, step: Step)
    requires Enabled(s, step)
    ensures var t := Apply(s, step);
            t.log == s.log
            || (|t.log| == |s.log| + 1 && t.log == s.log + [t.log[|s.log|]]
                && (t.log[|s.log|].Removed? && t.log[|s.log|].who.Sweeper? ==>
                      step.Sweep? && t.log[|s.log|] == Removed(step.key, s.table[step.key], Sweeper, s.clock)))
  {
  }

  lemma SweepsStayJustified(s: State, step: Step)
    requires RowsGranted(s) && SweepsJustified(s.log) && Enabled(s, step)
    ensures SweepsJustified(Apply(s, step).log)
  {
    SweepRecorded(s, step);
    hide Apply, LastGrant, Lapsed;
    var log := Apply(s, step).log;
    forall j | 0 <= j < |log| && log[j].Removed? && log[j].who.Sweeper? ensures SweepJustified(log, j) {
      if j < |s.log| {
        assert log[..j] == s.log[..j];
        assert SweepJustified(s.log, j);
      } else {
        assert log[..j] == s.log;
        assert Granted(s.log, s.table[step.key]);
      }
    }
  }

  /** In every state of every run each row tells when and for what it was put, and every row the
      table's expiry took was of a lease that had run out. */
  lemma {:induction false} EveryRunTells(states: seq<State>, steps: seq<Step>, i: nat)
    requires IsRun(states, steps) && i < |states|
    ensures RowsTold(states[i]) && SweepsJustified(states[i].log)
  {
    if i > 0 {
      hide Apply, Enabled, RowsTold, SweepsJustified, RowsGranted;
      EveryRunTells(states, steps, i - 1);
      EveryRunGrants(states, steps, i - 1);
      RowsStayTold(states[i - 1], steps[i - 1]);
      SweepsStayJustified(states[i - 1], steps[i - 1]);
    }
  }
}
