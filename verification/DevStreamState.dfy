/** The redirect and its restore as they run: loops over the routes, one API call at a time.
    Each leaves the zone, the session and the zones on the way that DevStream says. */
module DevStreamState {
  import opened DevStream
  import opened RemoteStore

  /** The provider's side; `history` records the zone after each call. */
  class Remote {
    var zone: Zone
    ghost var history: seq<Zone>

    constructor (zone: Zone)
      ensures this.zone == zone && history == []
    {
      this.zone := zone;
      history := [];
    }

    method SetRoutes(routes: seq<Entry<Route>>)
      modifies this
      ensures zone == old(zone).(routes := routes) && history == old(history) + [zone]
    {
      zone := zone.(routes := routes);
      history := history + [zone];
    }

    method SetScripts(scripts: set<string>)
      modifies this
      ensures zone == old(zone).(scripts := scripts) && history == old(history) + [zone]
    {
      zone := zone.(scripts := scripts);
      history := history + [zone];
    }
  }

  class DevStreamState {
    const job: Job
    const remote: Remote
    var applied: bool
    var routeRestore: seq<Entry<Route>>
    var createdRoutes: seq<string>

    function AsSession(): Session
      reads this
    {
      Session(applied, routeRestore, createdRoutes)
    }

    constructor (job: Job, remote: Remote)
      ensures this.job == job && this.remote == remote && AsSession() == Session(false, [], [])
    {
      this.job, this.remote := job, remote;
      applied, routeRestore, createdRoutes := false, [], [];
    }

    method Restore(undo: nat -> Call)
      modifies this, remote
      ensures var o := DevStream.Restore(old(remote.zone), old(AsSession()), job, undo);
              remote.zone == o.zone && AsSession() == o.session && remote.history == old(remote.history) + o.trace
    {
      hide RestoredRoutes, RestoreTrace, WithoutCreated, ClearTrace;
      if !applied || !job.Configured() {
        return;
      }
      ghost var history := remote.history;
      RestoreRoutes(remote, routeRestore, job.worker, undo);
      ghost var first := RestoreTrace(old(remote.zone), routeRestore, job.worker, undo, |routeRestore|);
      ghost var restored := remote.zone;
      ClearRoutes(remote, createdRoutes, undo, |routeRestore|);
      ghost var second := ClearTrace(restored, createdRoutes, undo, |routeRestore|, |createdRoutes|);
      assert remote.history == history + (first + second);
      remote.SetScripts(if Effect(undo(|routeRestore| + |createdRoutes|)) then remote.zone.scripts - {job.proxy} else remote.zone.scripts);
      applied := false;
      assert remote.history == history + (first + second + [remote.zone]);
    }

    /** The rest of a redirect when the worker has routes: rewrite them all, or undo. */
    method RewriteExisting(calls: Calls)
      requires AsSession() == Session(true, routeRestore, [])
      modifies this, remote
      ensures var o := RedirectExisting(old(remote.zone), job, calls, old(routeRestore));
              remote.zone == o.zone && AsSession() == o.session && remote.history == old(remote.history) + o.trace
    {
      hide Rewritten, RewriteTrace, Attempted, AllDone, DevStream.Restore;
      ghost var before, history := remote.zone, remote.history;
      var ok := UpdateRoutes(remote, routeRestore, job.proxy, calls.update);
      ghost var trace := RewriteTrace(before, routeRestore, job.proxy, calls.update, Attempted(calls.update, |routeRestore|));
      if !ok {
        ghost var undone := DevStream.Restore(remote.zone, AsSession(), job, calls.undo).trace;
        Restore(calls.undo);
        applied := false;
        assert remote.history == history + (trace + undone);
      }
    }

    /** The rest of a redirect when it has none: create a fallback route, or undo. */
    method CreateFallback(calls: Calls)
      requires AsSession() == Session(true, [], [])
      modifies this, remote
      ensures var o := RedirectFallback(old(remote.zone), job, calls);
              remote.zone == o.zone && AsSession() == o.session && remote.history == old(remote.history) + o.trace
    {
      ghost var history := remote.history;
      if job.pattern == "" {
        Restore(calls.undo);
        applied := false;
        return;
      }
      if Effect(calls.create) {
        remote.SetRoutes(remote.zone.routes + [Entry(calls.createdId, Route(job.pattern, job.proxy))]);
      } else {
        remote.SetRoutes(remote.zone.routes);
      }
      if calls.create == Done {
        createdRoutes := createdRoutes + [if calls.repliedId == "" then WITHOUT_ID else calls.repliedId];
      } else {
        ghost var created := remote.zone;
        ghost var undone := DevStream.Restore(created, AsSession(), job, calls.undo).trace;
        Restore(calls.undo);
        applied := false;
        assert remote.history == history + ([created] + undone);
      }
    }
  }

  method RestoreRoutes(remote: Remote, restore: seq<Entry<Route>>, worker: string, undo: nat -> Call)
    modifies remote
    ensures remote.zone == old(remote.zone).(routes := RestoredRoutes(old(remote.zone.routes), restore, worker, undo, |restore|))
    ensures remote.history == old(remote.history) + RestoreTrace(old(remote.zone), restore, worker, undo, |restore|)
  {
    ghost var before, history := remote.zone, remote.history;
    for k := 0 to |restore|
      invariant remote.zone == before.(routes := RestoredRoutes(before.routes, restore, worker, undo, k))
      invariant remote.history == history + RestoreTrace(before, restore, worker, undo, k)
    {
      var e := restore[k];
      var after := remote.zone.routes;
      if e.id != "" && e.body.pattern != "" {
        var script := if e.body.script == "" then worker else e.body.script;
        if Effect(undo(k)) {
          after := Replace(after, e.id, Route(e.body.pattern, script));
        }
      }
      remote.SetRoutes(after);
    }
  }

  method ClearRoutes(remote: Remote, created: seq<string>, undo: nat -> Call, offset: nat)
    modifies remote
    ensures remote.zone == old(remote.zone).(routes := WithoutCreated(old(remote.zone.routes), created, undo, offset, |created|))
    ensures remote.history == old(remote.history) + ClearTrace(old(remote.zone), created, undo, offset, |created|)
  {
    ghost var before, history := remote.zone, remote.history;
    for k := 0 to |created|
      invariant remote.zone == before.(routes := WithoutCreated(before.routes, created, undo, offset, k))
      invariant remote.history == history + ClearTrace(before, created, undo, offset, k)
    {
      var after := remote.zone.routes;
      if created[k] != "" && created[k] != WITHOUT_ID && Effect(undo(offset + k)) {
        after := Delete(after, created[k]);
      }
      remote.SetRoutes(after);
    }
  }

  lemma StoppedAt(update: nat -> Call, n: nat, k: nat)
    requires k < n && AllDone(update, k) && update(k) != Done
    ensures Attempted(update, n) == k + 1 && !AllDone(update, n)
  {
  }

  lemma NeverStopped(update: nat -> Call, n: nat)
    requires AllDone(update, n)
    ensures Attempted(update, n) == n
  {
  }

  /** Points one route after another at the proxy, until an update fails. */
  method UpdateRoutes(remote: Remote, restore: seq<Entry<Route>>, proxy: string, update: nat -> Call) returns (ok: bool)
    modifies remote
    ensures ok == AllDone(update, |restore|)
    ensures var n := Attempted(update, |restore|);
            && remote.zone == old(remote.zone).(routes := Rewritten(old(remote.zone.routes), restore, proxy, update, n))
            && remote.history == old(remote.history) + RewriteTrace(old(remote.zone), restore, proxy, update, n)
  {
    hide Attempted;
    ghost var before, history := remote.zone, remote.history;
    for k := 0 to |restore|
      invariant AllDone(update, k)
      invariant remote.zone == before.(routes := Rewritten(before.routes, restore, proxy, update, k))
      invariant remote.history == history + RewriteTrace(before, restore, proxy, update, k)
    {
      var e := restore[k];
      remote.SetRoutes(if Effect(update(k)) then Replace(remote.zone.routes, e.id, Route(e.body.pattern, proxy)) else remote.zone.routes);
      if update(k) != Done {
        StoppedAt(update, |restore|, k);
        return false;
      }
    }
    NeverStopped(update, |restore|);
    ok := true;
  }

  method FindRestorable(routes: seq<Entry<Route>>, worker: string) returns (restore: seq<Entry<Route>>)
    ensures restore == Restorable(routes, worker)
  {
    restore := [];
    for k := 0 to |routes|
      invariant restore == Restorable(routes[..k], worker)
    {
      assert routes[..k + 1][..k] == routes[..k];
      if routes[k].body.script == worker && routes[k].id != "" && routes[k].body.pattern != "" {
        restore := restore + [routes[k]];
      }
    }
    assert routes[..|routes|] == routes;
  }

  method RedirectToTunnel(remote: Remote, job: Job, calls: Calls) returns (state: DevStreamState)
    modifies remote
    ensures fresh(state) && state.job == job && state.remote == remote
    ensures var o := Redirect(old(remote.zone), job, calls);
            remote.zone == o.zone && state.AsSession() == o.session && remote.history == old(remote.history) + o.trace
  {
    hide Restorable, RedirectFallback, RedirectExisting, DevStream.Restore;
    state := new DevStreamState(job, remote);
    if !job.Configured() || !calls.listed {
      return;
    }
    state.routeRestore := FindRestorable(remote.zone.routes, job.worker);
    remote.SetScripts(if Effect(calls.putProxy) then remote.zone.scripts + {job.proxy} else remote.zone.scripts);
    if calls.putProxy != Done {
      return;
    }
    ghost var proxied := remote.zone;
    state.applied := true;
    if |state.routeRestore| == 0 {
      ghost var rest := RedirectFallback(proxied, job, calls).trace;
      state.CreateFallback(calls);
      assert remote.history == old(remote.history) + ([proxied] + rest);
    } else {
      ghost var rest := RedirectExisting(proxied, job, calls, state.routeRestore).trace;
      state.RewriteExisting(calls);
      assert remote.history == old(remote.history) + ([proxied] + rest);
    }
  }
}
