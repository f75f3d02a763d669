/** Redirecting a Worker's routes to a development tunnel, and taking it back: a saga over
    the zone's route table and the account's scripts. Every API call may fail, with or
    without having taken effect. */
module DevStream {
  import opened RemoteStore
  import opened Wrappers

  datatype Route = Route(pattern: string, script: string)

  datatype Zone = Zone(routes: seq<Entry<Route>>, scripts: set<string>)

  datatype Call = Done | FailedWithout | FailedAfter

  predicate Effect(c: Call) { c != FailedWithout }

  /** The worker redirected, its proxy, the pattern for a fallback route ("" if none is
      configured), and the account, token and zone from the environment. */
  datatype Job = Job(worker: string, proxy: string, pattern: string, account: string, token: string, zoneId: string) {

    /** A missing zone is no reason not to start. */
    predicate Configured() {
      account != "" && token != ""
    }

    /** The prerequisites reported as missing: only if the redirect does not start. */
    function MissingPrereqs(): seq<string> {
      if Configured() then []
      else
        (if account == "" then ["CLOUDFLARE_ACCOUNT_ID"] else [])
        + (if token == "" then ["CLOUDFLARE_API_TOKEN"] else [])
        + (if zoneId == "" then ["CLOUDFLARE_ZONE_ID"] else [])
    }
  }

  /** How the forward calls go. A created route gets `createdId`; its reply shows `repliedId`. */
  datatype Calls = Calls(listed: bool, putProxy: Call, create: Call, createdId: string, repliedId: string,
                         update: nat -> Call, undo: nat -> Call)

  datatype Session = Session(applied: bool, restore: seq<Entry<Route>>, created: seq<string>)

  /** Where an operation leaves the zone, and every zone it went through on the way. */
  datatype Outcome = Outcome(zone: Zone, session: Session, trace: seq<Zone>)

  const WITHOUT_ID := "created-without-id"

  predicate IsRestorable(e: Entry<Route>, worker: string) {
    e.body.script == worker && e.id != "" && e.body.pattern != ""
  }

  function Restorable(routes: seq<Entry<Route>>, worker: string): (restore: seq<Entry<Route>>)
    ensures forall e | e in restore :: e in routes && IsRestorable(e, worker)
    ensures forall e | e in routes && IsRestorable(e, worker) :: e in restore
  {
    if routes == [] then []
    else
      var last := routes[|routes| - 1];
      Restorable(routes[..|routes| - 1], worker) + if IsRestorable(last, worker) then [last] else []
  }

  // ---- Forward ----

  /** The routes after the first n updates, the last of which may have failed. */
  function Rewritten(routes: seq<Entry<Route>>, restore: seq<Entry<Route>>, proxy: string, update: nat -> Call, n: nat): seq<Entry<Route>>
    requires n <= |restore|
  {
    if n == 0 then routes
    else
      var before := Rewritten(routes, restore, proxy, update, n - 1);
      var e := restore[n - 1];
      if Effect(update(n - 1)) then Replace(before, e.id, Route(e.body.pattern, proxy)) else before
  }

  /** The zones after each of the first n updates. */
  function RewriteTrace(z: Zone, restore: seq<Entry<Route>>, proxy: string, update: nat -> Call, n: nat): seq<Zone>
    requires n <= |restore|
  {
    if n == 0 then []
    else RewriteTrace(z, restore, proxy, update, n - 1) + [z.(routes := Rewritten(z.routes, restore, proxy, update, n))]
  }

  /** How many updates are sent: the first failure is the last one. */
  function Attempted(update: nat -> Call, n: nat): (sent: nat)
    ensures sent <= n
    ensures forall k | 0 <= k < sent - 1 :: update(k) == Done
    ensures sent < n ==> sent > 0 && update(sent - 1) != Done
  {
    if n == 0 then 0
    else
      var sent := Attempted(update, n - 1);
      if sent == n - 1 && (sent > 0 ==> update(sent - 1) == Done) then n else sent
  }

  predicate AllDone(update: nat -> Call, n: nat) {
    forall k | 0 <= k < n :: update(k) == Done
  }

  // ---- Backward ----

  function OriginalScript(e: Entry<Route>, worker: string): string {
    if e.body.script == "" then worker else e.body.script
  }

  function RestoredRoutes(routes: seq<Entry<Route>>, restore: seq<Entry<Route>>, worker: string, undo: nat -> Call, n: nat): seq<Entry<Route>>
    requires n <= |restore|
  {
    if n == 0 then routes
    else
      var before := RestoredRoutes(routes, restore, worker, undo, n - 1);
      var e := restore[n - 1];
      if e.id != "" && e.body.pattern != "" && Effect(undo(n - 1))
      then Replace(before, e.id, Route(e.body.pattern, OriginalScript(e, worker))) else before
  }

  function RestoreTrace(z: Zone, restore: seq<Entry<Route>>, worker: string, undo: nat -> Call, n: nat): seq<Zone>
    requires n <= |restore|
  {
    if n == 0 then []
    else RestoreTrace(z, restore, worker, undo, n - 1) + [z.(routes := RestoredRoutes(z.routes, restore, worker, undo, n))]
  }

  function WithoutCreated(routes: seq<Entry<Route>>, created: seq<string>, undo: nat -> Call, offset: nat, n: nat): seq<Entry<Route>>
    requires n <= |created|
  {
    if n == 0 then routes
    else
      var before := WithoutCreated(routes, created, undo, offset, n - 1);
      if created[n - 1] != "" && created[n - 1] != WITHOUT_ID && Effect(undo(offset + n - 1))
      then Delete(before, created[n - 1]) else before
  }

  function ClearTrace(z: Zone, created: seq<string>, undo: nat -> Call, offset: nat, n: nat): seq<Zone>
    requires n <= |created|
  {
    if n == 0 then []
    else ClearTrace(z, created, undo, offset, n - 1) + [z.(routes := WithoutCreated(z.routes, created, undo, offset, n))]
  }

  /** Routes first, then created routes, the proxy last; failures are collected, not fatal,
      and the session counts as restored either way. */
  function Restore(z: Zone, s: Session, job: Job, undo: nat -> Call): Outcome {
    if !s.applied || !job.Configured() then Outcome(z, s, [])
    else
      var n, m := |s.restore|, |s.created|;
      var restored := RestoredRoutes(z.routes, s.restore, job.worker, undo, n);
      var cleared := WithoutCreated(restored, s.created, undo, n, m);
      var final := Zone(cleared, if Effect(undo(n + m)) then z.scripts - {job.proxy} else z.scripts);
      Outcome(final, s.(applied := false),
              RestoreTrace(z, s.restore, job.worker, undo, n) + ClearTrace(z.(routes := restored), s.created, undo, n, m) + [final])
  }

  function Append(trace: seq<Zone>, o: Outcome): Outcome {
    o.(trace := trace + o.trace, session := o.session.(applied := false))
  }

  function RedirectExisting(z: Zone, job: Job, calls: Calls, restore: seq<Entry<Route>>): Outcome {
    var n := Attempted(calls.update, |restore|);
    var trace := RewriteTrace(z, restore, job.proxy, calls.update, n);
    var rewritten := z.(routes := Rewritten(z.routes, restore, job.proxy, calls.update, n));
    if AllDone(calls.update, |restore|) then Outcome(rewritten, Session(true, restore, []), trace)
    else Append(trace, Restore(rewritten, Session(true, restore, []), job, calls.undo))
  }

  function RedirectFallback(z: Zone, job: Job, calls: Calls): Outcome {
    if job.pattern == "" then Append([], Restore(z, Session(true, [], []), job, calls.undo))
    else
      var created := if Effect(calls.create) then z.(routes := z.routes + [Entry(calls.createdId, Route(job.pattern, job.proxy))]) else z;
      if calls.create == Done then
        Outcome(created, Session(true, [], [if calls.repliedId == "" then WITHOUT_ID else calls.repliedId]), [created])
      else Append([created], Restore(created, Session(true, [], []), job, calls.undo))
  }

  function Redirect(z: Zone, job: Job, calls: Calls): Outcome {
    if !job.Configured() || !calls.listed then Outcome(z, Session(false, [], []), [])
    else
      var restore := Restorable(z.routes, job.worker);
      var proxied := if Effect(calls.putProxy) then z.(scripts := z.scripts + {job.proxy}) else z;
      if calls.putProxy != Done then Outcome(proxied, Session(false, restore, []), [proxied])
      else
        var rest := if restore == [] then RedirectFallback(proxied, job, calls) else RedirectExisting(proxied, job, calls, restore);
        rest.(trace := [proxied] + rest.trace)
  }

  /** The whole life of a session: redirect, and restore whatever it left applied. */
  function RedirectAndRestore(z: Zone, job: Job, calls: Calls, undo: nat -> Call): Outcome {
    var redirected := Redirect(z, job, calls);
    var restored := Restore(redirected.zone, redirected.session, job, undo);
    restored.(trace := redirected.trace + restored.trace)
  }
}
