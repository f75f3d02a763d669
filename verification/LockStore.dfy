/** The lock table: one row per service and stage, changed only by conditional writes.
    The pure functions say what one database call does to the table; the class performs
    the calls one after another, and LockProtocol interleaves the same functions. */
module LockStore {
  import opened LeaseTiming
  import opened Text
  import opened Wrappers

  /** Times in a row are whole seconds; `ttl` is the expiry as a Unix time. */
  datatype LockRow = LockRow(service: string, stage: string, operation: string, ownerToken: string,
                             createdAt: int, expiresAt: int, lastHeartbeatAt: int, ttl: int)

  type Table = map<string, LockRow>

  function LockKey(service: string, stage: string): string {
    service + ":" + stage
  }

  function NewRow(service: string, stage: string, operation: string, token: string, now: int, staleAfter: int): LockRow {
    LockRow(service, stage, operation, token,
            WholeSeconds(now), WholeSeconds(now + staleAfter), WholeSeconds(now), WholeSeconds(now + staleAfter))
  }

  predicate OwnedBy(table: Table, key: string, token: string) {
    key in table && table[key].ownerToken == token
  }

  function PutIfAbsent(table: Table, key: string, row: LockRow): Table {
    if key in table then table else table[key := row]
  }

  function RenewedRow(row: LockRow, now: int, leaseFor: int): LockRow {
    row.(expiresAt := WholeSeconds(now + leaseFor), lastHeartbeatAt := WholeSeconds(now), ttl := WholeSeconds(now + leaseFor))
  }

  function RenewIfOwner(table: Table, key: string, token: string, now: int, leaseFor: int): Table {
    if OwnedBy(table, key, token) then table[key := RenewedRow(table[key], now, leaseFor)] else table
  }

  function DeleteIfOwner(table: Table, key: string, token: string): Table {
    if OwnedBy(table, key, token) then table - {key} else table
  }

  /** A lease has lapsed from its expiry on: the stealer only refuses strictly before it. */
  predicate Lapsed(row: LockRow, now: int) {
    now >= SECOND * row.expiresAt
  }

  /** The table's own expiry takes a row some time after the second its `ttl` names. */
  predicate Sweepable(row: LockRow, now: int) {
    SECOND * row.ttl < now
  }

  /** The row's times are those of a lease stamped at `stamp`: it lapses once the whole-second
      end of the lease is reached, is not swept before that, and shows when it was stamped. */
  predicate Bears(row: LockRow, stamp: int, lease: int) {
    row.expiresAt == row.ttl == WholeSeconds(stamp + lease) && row.lastHeartbeatAt == WholeSeconds(stamp)
  }

  /** For every row and lease that is just what these times are for. */
  lemma BearsMeans(row: LockRow, stamp: int, lease: int)
    requires Bears(row, stamp, lease)
    ensures forall now :: Lapsed(row, now) <==> !Ahead(stamp, lease, now)
    ensures forall now | Sweepable(row, now) :: !Ahead(stamp, lease, now)
    ensures SECOND * row.lastHeartbeatAt <= stamp < SECOND * (row.lastHeartbeatAt + 1)
  {
  }

  /** Only the times of the lease may differ: a row keeps its lock, operation, owner and the
      time of its acquisition. */
  predicate SameLock(row: LockRow, before: LockRow) {
    row.(expiresAt := before.expiresAt, lastHeartbeatAt := before.lastHeartbeatAt, ttl := before.ttl) == before
  }

  /** A key names one service and stage exactly when neither contains the separator. */
  lemma LockKeyUniqueIff(service: string, stage: string)
    ensures (forall s, t | LockKey(s, t) == LockKey(service, stage) :: s == service && t == stage)
       <==> ':' !in service && ':' !in stage
  {
    JoinUniqueIff(service, ':', stage);
    forall s, t ensures LockKey(s, t) == s + [':'] + t {
    }
  }

  class LockBackend {
    var rows: Table

    constructor ()
      ensures rows == map[]
    {
      rows := map[];
    }

    /** Clock readings and the random token are parameters. */
    method Acquire(service: string, stage: string, operation: string, staleAfter: int, now: int, token: string)
      returns (handle: Handle?)
      modifies this
      ensures rows == PutIfAbsent(old(rows), LockKey(service, stage), NewRow(service, stage, operation, token, now, staleAfter))
      ensures handle != null <==> LockKey(service, stage) !in old(rows)
      ensures handle != null ==>
        var row := rows[LockKey(service, stage)];
        && Bears(row, now, staleAfter) && row.createdAt == row.lastHeartbeatAt
        && row.service == service && row.stage == stage && row.operation == operation && row.ownerToken == token
      ensures handle != null ==> fresh(handle) && handle.Issued(service, stage, token, this, true)
    {
      var key := LockKey(service, stage);
      handle := null;
      if key !in rows {
        rows := rows[key := NewRow(service, stage, operation, token, now, staleAfter)];
        handle := new Handle(service, stage, token, this, true);
      }
    }

    method Read(service: string, stage: string) returns (row: Option<LockRow>)
      ensures row == if LockKey(service, stage) in rows then Some(rows[LockKey(service, stage)]) else None
    {
      var key := LockKey(service, stage);
      row := if key in rows then Some(rows[key]) else None;
    }

    method Release(service: string, stage: string)
      modifies this
      ensures rows == old(rows) - {LockKey(service, stage)}
    {
      rows := rows - {LockKey(service, stage)};
    }

    method ReleaseOwned(service: string, stage: string, ownerToken: string) returns (ok: bool)
      modifies this
      ensures ok == OwnedBy(old(rows), LockKey(service, stage), ownerToken)
      ensures rows == DeleteIfOwner(old(rows), LockKey(service, stage), ownerToken)
    {
      var key := LockKey(service, stage);
      ok := key in rows && rows[key].ownerToken == ownerToken;
      if ok {
        rows := rows - {key};
      }
    }

    method Renew(service: string, stage: string, ownerToken: string, leaseFor: int, now: int) returns (ok: bool)
      modifies this
      ensures ok == OwnedBy(old(rows), LockKey(service, stage), ownerToken)
      ensures rows == RenewIfOwner(old(rows), LockKey(service, stage), ownerToken, now, leaseFor)
      ensures var key := LockKey(service, stage);
              ok ==> key in rows && Bears(rows[key], now, leaseFor) && SameLock(rows[key], old(rows)[key])
    {
      var key := LockKey(service, stage);
      ok := key in rows && rows[key].ownerToken == ownerToken;
      if ok {
        rows := rows[key := rows[key].(expiresAt := WholeSeconds(now + leaseFor), lastHeartbeatAt := WholeSeconds(now),
                                       ttl := WholeSeconds(now + leaseFor))];
      }
    }

    /** With nothing in between, a steal takes the row over exactly when it is missing or
        lapsed, and otherwise leaves it alone. `checked` is the clock read for the expiry
        check, `now` the one stamped on the new row. */
    method Steal(service: string, stage: string, operation: string, staleAfter: int, checked: int, now: int, token: string)
      returns (handle: Handle?)
      modifies this
      ensures var key := LockKey(service, stage);
              var taken := key !in old(rows) || Lapsed(old(rows)[key], checked);
              && (handle != null <==> taken)
              && rows == (if taken then old(rows)[key := NewRow(service, stage, operation, token, now, staleAfter)] else old(rows))
      ensures handle != null ==> fresh(handle) && handle.Issued(service, stage, token, this, true)
    {
      var existing := Read(service, stage);
      if existing.None? {
        handle := Acquire(service, stage, operation, staleAfter, now, token);
        return;
      }
      if checked < SECOND * existing.value.expiresAt {
        return null;
      }
      var ok := ReleaseOwned(service, stage, existing.value.ownerToken);
      if !ok {
        return null;
      }
      handle := Acquire(service, stage, operation, staleAfter, now, token);
    }
  }

  /** A lock handle. Some backends pass no owned releaser, and then Release is unconditional. */
  class Handle {
    const service: string
    const stage: string
    const ownerToken: string
    const backend: LockBackend
    const ownedReleaser: bool
    var held: bool

    predicate Issued(service: string, stage: string, token: string, backend: LockBackend, ownedReleaser: bool)
      reads this
    {
      && this.service == service && this.stage == stage && this.ownerToken == token
      && this.backend == backend && this.ownedReleaser == ownedReleaser && held
    }

    constructor (service: string, stage: string, ownerToken: string, backend: LockBackend, ownedReleaser: bool)
      ensures Issued(service, stage, ownerToken, backend, ownedReleaser)
    {
      this.service, this.stage, this.ownerToken, this.backend := service, stage, ownerToken, backend;
      this.ownedReleaser := ownedReleaser;
      held := true;
    }

    /** A second release does nothing; a release that lost its row reports it and stays held. */
    method Release() returns (ok: bool)
      modifies this, backend
      ensures !old(held) ==> ok && !held && backend.rows == old(backend.rows)
      ensures old(held) && ownedReleaser && ownerToken != "" ==>
        && ok == OwnedBy(old(backend.rows), LockKey(service, stage), ownerToken)
        && held == !ok
        && backend.rows == DeleteIfOwner(old(backend.rows), LockKey(service, stage), ownerToken)
      ensures old(held) && !(ownedReleaser && ownerToken != "") ==>
        ok && !held && backend.rows == old(backend.rows) - {LockKey(service, stage)}
    {
      if !held {
        return true;
      }
      if ownedReleaser && ownerToken != "" {
        ok := backend.ReleaseOwned(service, stage, ownerToken);
      } else {
        backend.Release(service, stage);
        ok := true;
      }
      if ok {
        held := false;
      }
    }

    /** Renewing a released handle reports success and touches nothing. */
    method Renew(leaseFor: int, now: int) returns (ok: bool)
      modifies backend
      ensures backend.rows == if held then RenewIfOwner(old(backend.rows), LockKey(service, stage), ownerToken, now, leaseFor)
                              else old(backend.rows)
      ensures ok == (held ==> OwnedBy(old(backend.rows), LockKey(service, stage), ownerToken))
    {
      if !held {
        return true;
      }
      ok := backend.Renew(service, stage, ownerToken, leaseFor, now);
    }
  }
}
