/** The lock file of the local backend. Its takeover and its renewal are several file calls
    long, so what is proved here is about calls that run one after another; Heartbeat covers
    the renewal split in two. */
module LocalLock {
  import opened LeaseTiming
  import opened Text
  import opened Wrappers

  /** `expiresAt` is None when the stored text does not parse as a time. */
  datatype LockFile = Garbage | Record(operation: string, ownerToken: string, createdAt: int, expiresAt: Option<int>, lastHeartbeatAt: int)

  type Files = map<string, LockFile>

  function LockPath(service: string, stage: string): string {
    service + "-" + stage + ".lock.json"
  }

  /** A lock file is that of one service and stage exactly when neither contains a dash. */
  lemma LockPathUniqueIff(service: string, stage: string)
    ensures (forall s, t | LockPath(s, t) == LockPath(service, stage) :: s == service && t == stage)
       <==> '-' !in service && '-' !in stage
  {
    JoinUniqueIff(service, '-', stage);
    forall s, t ensures LockPath(s, t) == LockPath(service, stage) <==> s + ['-'] + t == service + ['-'] + stage {
      SameEnding(s + ['-'] + t, service + ['-'] + stage, ".lock.json");
    }
  }

  lemma SameEnding(a: string, b: string, ending: string)
    ensures a + ending == b + ending <==> a == b
  {
    if a + ending == b + ending {
      assert a == (a + ending)[..|a|] && b == (b + ending)[..|b|];
    }
  }

  function NewRecord(operation: string, token: string, now: int, staleAfter: int): LockFile {
    Record(operation, token, WholeSeconds(now), Some(WholeSeconds(now + staleAfter)), WholeSeconds(now))
  }

  /** Unlike the table, a file is only expired strictly after its expiry. */
  predicate Expired(file: LockFile, now: int) {
    file.Record? && file.expiresAt.Some? && now > SECOND * file.expiresAt.value
  }

  predicate Free(files: Files, path: string, now: int) {
    path in files ==> Expired(files[path], now)
  }

  predicate OwnedBy(files: Files, path: string, token: string) {
    path in files && files[path].Record? && files[path].ownerToken == token
  }

  datatype Call =
    | Acquire(operation: string, staleAfter: int, checked: int, now: int, token: string)
    | Renew(token: string, leaseFor: int, now: int)
    | Release

  function After(files: Files, path: string, call: Call): Files {
    match call
    case Acquire(operation, staleAfter, checked, now, token) =>
      if Free(files, path, checked) then files[path := NewRecord(operation, token, now, staleAfter)] else files
    case Renew(token, leaseFor, now) =>
      if OwnedBy(files, path, token)
      then files[path := files[path].(expiresAt := Some(WholeSeconds(now + leaseFor)), lastHeartbeatAt := WholeSeconds(now))]
      else files
    case Release => files - {path}
  }

  class LockBackend {
    var files: Files

    /** Grants the lock exactly when there is no file or a readable, expired one. A file that
        does not parse counts as unreadable, and then creating it fails because it exists. */
    method Acquire(service: string, stage: string, operation: string, staleAfter: int, checked: int, now: int, token: string)
      returns (ok: bool)
      modifies this
      ensures ok <==> Free(old(files), LockPath(service, stage), checked)
      ensures files == After(old(files), LockPath(service, stage), Call.Acquire(operation, staleAfter, checked, now, token))
    {
      var path := LockPath(service, stage);
      if path in files && files[path].Record? {
        var existing := files[path];
        if existing.expiresAt.Some? && checked > SECOND * existing.expiresAt.value {
          files := files - {path};
        } else {
          return false;
        }
      }
      if path in files {
        return false;
      }
      files := files[path := NewRecord(operation, token, now, staleAfter)];
      ok := true;
    }

    /** Removes whatever file is there, whoever owns it. */
    method Release(service: string, stage: string)
      modifies this
      ensures files == After(old(files), LockPath(service, stage), Call.Release)
    {
      files := files - {LockPath(service, stage)};
    }

    method Renew(service: string, stage: string, ownerToken: string, leaseFor: int, now: int) returns (ok: bool)
      modifies this
      ensures ok == OwnedBy(old(files), LockPath(service, stage), ownerToken)
      ensures files == After(old(files), LockPath(service, stage), Call.Renew(ownerToken, leaseFor, now))
    {
      var path := LockPath(service, stage);
      if path !in files || files[path].Garbage? || files[path].ownerToken != ownerToken {
        return false;
      }
      var record := files[path].(expiresAt := Some(WholeSeconds(now + leaseFor)), lastHeartbeatAt := WholeSeconds(now));
      files := files[path := record];
      ok := true;
    }
  }

  // ---- One call after another ----

  function AfterAll(files: Files, path: string, calls: seq<Call>): Files {
    if calls == [] then files else After(AfterAll(files, path, calls[..|calls| - 1]), path, calls[|calls| - 1])
  }

  predicate Grants(files: Files, path: string, calls: seq<Call>, i: nat)
    requires i < |calls|
  {
    calls[i].Acquire? && Free(AfterAll(files, path, calls[..i]), path, calls[i].checked)
  }

  datatype Lease = Lease(stamp: int, duration: int)

  /** What the calls after grant `i` leave its holder with. */
  function LastLease(calls: seq<Call>, i: nat): Lease
    requires i < |calls| && calls[i].Acquire?
    decreases |calls|
  {
    var last := calls[|calls| - 1];
    if i == |calls| - 1 then Lease(last.now, last.staleAfter)
    else if last.Renew? && last.token == calls[i].token then Lease(last.now, last.leaseFor)
    else LastLease(calls[..|calls| - 1], i)
  }

  function LeaseEnd(calls: seq<Call>, i: nat): int
    requires i < |calls| && calls[i].Acquire?
  {
    WholeSeconds(LastLease(calls, i).stamp + LastLease(calls, i).duration)
  }

  /** The file is that of the grant, stamped by the last lease; until its end nobody else is
      granted the lock. */
  ghost predicate Shows(file: LockFile, grant: Call, last: Lease)
    requires grant.Acquire?
  {
    && file.Record? && file.ownerToken == grant.token && file.operation == grant.operation
    && file.createdAt == WholeSeconds(grant.now) && file.lastHeartbeatAt == WholeSeconds(last.stamp)
    && file.expiresAt == Some(WholeSeconds(last.stamp + last.duration))
    && forall now | Ahead(last.stamp, last.duration, now) :: !Expired(file, now)
  }

  /** After a grant, and until a release or another grant, the file is the holder's, renewed
      by its own renewals only. */
  lemma {:induction false} HolderKeepsFile(files: Files, path: string, calls: seq<Call>, i: nat)
    requires i < |calls| && Grants(files, path, calls, i)
    requires forall k | i < k < |calls| :: !calls[k].Release? && !Grants(files, path, calls, k)
    ensures var now := AfterAll(files, path, calls);
            OwnedBy(now, path, calls[i].token) && Shows(now[path], calls[i], LastLease(calls, i))
  {
    var before := calls[..|calls| - 1];
    if i < |before| {
      assert before[..i] == calls[..i];
      forall k | i < k < |before| ensures !before[k].Release? && !Grants(files, path, before, k) {
        assert before[..k] == calls[..k] && !Grants(files, path, calls, k);
      }
      HolderKeepsFile(files, path, before, i);
      assert !Grants(files, path, calls, |before|);
      hide Shows, After;
      StaysShown(AfterAll(files, path, before), path, calls[|before|], calls[i], LastLease(before, i));
    } else {
      assert calls[..i] == before;
    }
  }

  lemma StaysShown(files: Files, path: string, call: Call, grant: Call, last: Lease)
    requires grant.Acquire? && OwnedBy(files, path, grant.token) && Shows(files[path], grant, last)
    requires !call.Release? && !(call.Acquire? && Free(files, path, call.checked))
    ensures var now := After(files, path, call);
            OwnedBy(now, path, grant.token)
            && Shows(now[path], grant, if call.Renew? && call.token == grant.token then Lease(call.now, call.leaseFor) else last)
  {
  }

  /** Between two grants of one path there was a release, or the first lease had lapsed by
      the moment of the second one's check. */
  lemma SecondGrantNeedsReleaseOrLapse(files: Files, path: string, calls: seq<Call>, i: nat, j: nat)
    requires i < j < |calls|
    requires Grants(files, path, calls, i) && Grants(files, path, calls, j)
    requires forall k | i < k < j :: !Grants(files, path, calls, k)
    ensures (exists k :: i < k < j && calls[k].Release?) || calls[j].checked > SECOND * LeaseEnd(calls[..j], i)
  {
    var between := calls[..j];
    if forall k | i < k < j :: !calls[k].Release? {
      assert between[..i] == calls[..i];
      forall k | i < k < j ensures !between[k].Release? && !Grants(files, path, between, k) {
        assert between[..k] == calls[..k] && !Grants(files, path, calls, k);
      }
      HolderKeepsFile(files, path, between, i);
    }
  }
}
