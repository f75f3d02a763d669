/** When the saga leaves, or passes through, a zone with a route at a proxy that is gone. */
module DevStreamDangling {
  import opened DevStream
  import opened DevStreamLaws
  import opened RemoteStore

  ghost predicate NoDangling(z: Zone, proxy: string) {
    proxy in z.scripts || forall e | e in z.routes :: e.body.script != proxy
  }

  ghost predicate NoneDangle(trace: seq<Zone>, proxy: string) {
    forall t | t in trace :: NoDangling(t, proxy)
  }

  /** The zone before the session: no route points at the proxy. */
  ghost predicate Untouched(z: Zone, job: Job) {
    forall e | e in z.routes :: e.body.script != job.proxy
  }

  /** The k-th update was sent and took effect. */
  predicate Redirected(update: nat -> Call, n: nat, k: nat) {
    k < Attempted(update, n) && Effect(update(k))
  }

  /** If the proxy goes, every redirected route has gone back before. */
  ghost predicate RoutesGoFirst(update: nat -> Call, n: nat, back: nat -> Call) {
    Effect(back(n)) ==> forall k | 0 <= k < n && Redirected(update, n, k) :: Effect(back(k))
  }

  /** The way back that applies: the restore if every update succeeded, or else the undo. */
  function WayBack(calls: Calls, undo: nat -> Call, n: nat): nat -> Call {
    if AllDone(calls.update, n) then undo else calls.undo
  }

  /** If the proxy goes, a fallback route that was created has gone before. */
  predicate FallbackGoesFirst(job: Job, calls: Calls, undo: nat -> Call) {
    if job.pattern == "" then true
    else if calls.create == Done then Effect(undo(1)) ==> calls.repliedId != "" && Effect(undo(0))
    else Effect(calls.create) ==> !Effect(calls.undo(0))
  }

  /** What must hold of the calls on the way back, failing ones included. */
  ghost predicate ProxyGoesLast(z: Zone, job: Job, calls: Calls, undo: nat -> Call) {
    var n := |Restorable(z.routes, job.worker)|;
    job.Configured() && calls.listed && calls.putProxy == Done ==>
      if n == 0 then FallbackGoesFirst(job, calls, undo) else RoutesGoFirst(calls.update, n, WayBack(calls, undo, n))
  }

  // ---- Existing routes ----

  ghost predicate HasProxy(trace: seq<Zone>, proxy: string) {
    forall t | t in trace :: proxy in t.scripts
  }

  lemma {:induction false} RestoreTraceHasProxy(now: Zone, restore: seq<Entry<Route>>, job: Job, undo: nat -> Call, n: nat)
    requires n <= |restore| && job.proxy in now.scripts
    ensures HasProxy(RestoreTrace(now, restore, job.worker, undo, n), job.proxy)
  {
    hide RestoredRoutes;
    if n > 0 {
      RestoreTraceHasProxy(now, restore, job, undo, n - 1);
    }
  }

  lemma {:induction false} RewriteTraceHasProxy(z: Zone, restore: seq<Entry<Route>>, job: Job, update: nat -> Call, n: nat)
    requires n <= |restore| && job.proxy in z.scripts
    ensures HasProxy(RewriteTrace(z, restore, job.proxy, update, n), job.proxy)
  {
    hide Rewritten;
    if n > 0 {
      RewriteTraceHasProxy(z, restore, job, update, n - 1);
    }
  }

  lemma ProxyMeansNoneDangle(trace: seq<Zone>, last: Zone, proxy: string)
    requires HasProxy(trace, proxy)
    ensures NoneDangle(trace + [last], proxy) <==> NoDangling(last, proxy)
  {
    assert last in trace + [last];
    hide NoDangling;
    forall t | t in trace ensures NoDangling(t, proxy) {
      HasProxyNoDangling(t, proxy);
    }
  }

  lemma HasProxyNoDangling(t: Zone, proxy: string)
    requires proxy in t.scripts
    ensures NoDangling(t, proxy)
  {
  }

  /** The route of the k-th restorable entry after n updates and a whole restore. */
  lemma RouteComesBackIff(z: Zone, job: Job, update: nat -> Call, n: nat, back: nat -> Call, k: nat, i: nat)
    requires DistinctIds(z.routes) && Untouched(z, job) && n <= |Restorable(z.routes, job.worker)|
    requires k < |Restorable(z.routes, job.worker)| && i < |z.routes| && Restorable(z.routes, job.worker)[k] == z.routes[i]
    ensures var restore := Restorable(z.routes, job.worker);
            var routes := RestoredRoutes(Rewritten(z.routes, restore, job.proxy, update, n), restore, job.worker, back, |restore|);
            |routes| == |z.routes|
            && (routes[i].body.script == job.proxy <==> k < n && Effect(update(k)) && !Effect(back(k)))
  {
    var restore := Restorable(z.routes, job.worker);
    RewrittenAt(z.routes, job, update, n, k, i);
    RestoredAt(z.routes, Rewritten(z.routes, restore, job.proxy, update, n), job, back, |restore|, k, i);
    assert z.routes[i] in z.routes;
    hide Restorable, Rewritten, RestoredRoutes, DistinctIds;
  }

  /** The other routes never pointed at the proxy. */
  lemma RouteStays(z: Zone, job: Job, update: nat -> Call, n: nat, back: nat -> Call, i: nat)
    requires DistinctIds(z.routes) && Untouched(z, job) && n <= |Restorable(z.routes, job.worker)|
    requires i < |z.routes|
    ensures var restore := Restorable(z.routes, job.worker);
            var routes := RestoredRoutes(Rewritten(z.routes, restore, job.proxy, update, n), restore, job.worker, back, |restore|);
            |routes| == |z.routes| && (!IsRestorable(z.routes[i], job.worker) ==> routes[i].body.script != job.proxy)
  {
    var restore := Restorable(z.routes, job.worker);
    RewritingDetours(z.routes, job, update, n);
    RestoringDetours(z.routes, Rewritten(z.routes, restore, job.proxy, update, n), job, back, |restore|);
    assert z.routes[i] in z.routes;
    hide Restorable, Rewritten, RestoredRoutes, DistinctIds;
  }

  lemma AllComeBackIff(z: Zone, job: Job, update: nat -> Call, n: nat, back: nat -> Call)
    requires DistinctIds(z.routes) && Untouched(z, job) && n <= |Restorable(z.routes, job.worker)|
    ensures var restore := Restorable(z.routes, job.worker);
            var routes := RestoredRoutes(Rewritten(z.routes, restore, job.proxy, update, n), restore, job.worker, back, |restore|);
            (forall e | e in routes :: e.body.script != job.proxy)
            <==> forall k | 0 <= k < |restore| && k < n && Effect(update(k)) :: Effect(back(k))
  {
    var restore := Restorable(z.routes, job.worker);
    var routes := RestoredRoutes(Rewritten(z.routes, restore, job.proxy, update, n), restore, job.worker, back, |restore|);
    RewritingDetours(z.routes, job, update, n);
    RestoringDetours(z.routes, Rewritten(z.routes, restore, job.proxy, update, n), job, back, |restore|);
    assert |routes| == |z.routes|;
    hide Rewritten, RestoredRoutes, DistinctIds, Untouched;
    forall k | 0 <= k < |restore| && k < n && Effect(update(k)) && !Effect(back(k))
      ensures exists e :: e in routes && e.body.script == job.proxy
    {
      assert restore[k] in z.routes;
      var i :| 0 <= i < |z.routes| && z.routes[i] == restore[k];
      RouteComesBackIff(z, job, update, n, back, k, i);
      assert routes[i] in routes;
    }
    forall i | 0 <= i < |routes| && routes[i].body.script == job.proxy
      ensures exists k :: 0 <= k < |restore| && k < n && Effect(update(k)) && !Effect(back(k))
    {
      RouteStays(z, job, update, n, back, i);
      assert z.routes[i] in z.routes && z.routes[i] in restore;
      var k :| 0 <= k < |restore| && restore[k] == z.routes[i];
      RouteComesBackIff(z, job, update, n, back, k, i);
    }
  }

  /** The rewriting way is the updates, and then one way back. */
  lemma ExistingWay(z: Zone, job: Job, calls: Calls, undo: nat -> Call)
    requires job.Configured()
    ensures var restore := Restorable(z.routes, job.worker);
            var redirected := RedirectExisting(Proxied(z, job), job, calls, restore);
            var n := Attempted(calls.update, |restore|);
            var now := Proxied(z, job).(routes := Rewritten(z.routes, restore, job.proxy, calls.update, n));
            redirected.trace + Restore(redirected.zone, redirected.session, job, undo).trace
            == RewriteTrace(Proxied(z, job), restore, job.proxy, calls.update, n)
               + Restore(now, Session(true, restore, []), job, WayBack(calls, undo, |restore|)).trace
  {
    hide Rewritten, RestoredRoutes, RestoreTrace, RewriteTrace, WithoutCreated, ClearTrace;
    var restore := Restorable(z.routes, job.worker);
    var redirected := RedirectExisting(Proxied(z, job), job, calls, restore);
    if !AllDone(calls.update, |restore|) {
      assert Restore(redirected.zone, redirected.session, job, undo).trace == [];
      assert redirected.trace + [] == redirected.trace;
    }
  }

  lemma ExistingDanglesIff(z: Zone, job: Job, calls: Calls, undo: nat -> Call)
    requires Ready(z, job, calls) && Untouched(z, job) && job.Configured()
    ensures var n := |Restorable(z.routes, job.worker)|;
            var redirected := RedirectExisting(Proxied(z, job), job, calls, Restorable(z.routes, job.worker));
            NoneDangle(redirected.trace + Restore(redirected.zone, redirected.session, job, undo).trace, job.proxy)
            <==> RoutesGoFirst(calls.update, n, WayBack(calls, undo, n))
  {
    var restore := Restorable(z.routes, job.worker);
    var n := Attempted(calls.update, |restore|);
    var back := WayBack(calls, undo, |restore|);
    var now := Proxied(z, job).(routes := Rewritten(z.routes, restore, job.proxy, calls.update, n));
    ExistingWay(z, job, calls, undo);
    RestoreOfRoutes(now, restore, job, back);
    AllComeBackIff(z, job, calls.update, n, back);
    RewriteTraceHasProxy(Proxied(z, job), restore, job, calls.update, n);
    RestoreTraceHasProxy(now, restore, job, back, |restore|);
    hide Rewritten, RestoredRoutes, RestoreTrace, RewriteTrace, RedirectExisting, Restore, DistinctIds, Ready, Untouched, Restorable, Attempted, WayBack;
    var ahead := RewriteTrace(Proxied(z, job), restore, job.proxy, calls.update, n);
    var behind := RestoreTrace(now, restore, job.worker, back, |restore|);
    var final := Restore(now, Session(true, restore, []), job, back).zone;
    assert ahead + (behind + [final]) == (ahead + behind) + [final];
    ProxyMeansNoneDangle(ahead + behind, final, job.proxy);
  }

  // ---- The fallback route ----

  /** A restore of a zone with at most the fallback route leaves it dangling just if the proxy
      goes and the route does not. */
  lemma FallbackRestoreDanglesIff(z: Zone, now: Zone, job: Job, calls: Calls, created: seq<string>, back: nat -> Call)
    requires Ready(z, job, calls) && AtMostFallback(z, now, job, calls) && job.Configured() && Untouched(z, job) && job.proxy in now.scripts
    requires created == [] || created == [WITHOUT_ID]
          || (created == [calls.createdId] && now.routes == z.routes + [Entry(calls.createdId, Route(job.pattern, job.proxy))])
    ensures NoneDangle(Restore(now, Session(true, [], created), job, back).trace, job.proxy)
       <==> (now.routes != z.routes && Effect(back(|created|)) ==> created == [calls.createdId] && Effect(back(0)))
  {
    RestoreOfFallback(z, now, job, calls, created, back);
    var o := Restore(now, Session(true, [], created), job, back);
    var fallback := Entry(calls.createdId, Route(job.pattern, job.proxy));
    assert fallback in z.routes + [fallback];
    var front := o.trace[..|o.trace| - 1];
    assert o.trace == front + [o.zone];
    assert |z.routes + [fallback]| > |z.routes|;
    ProxyMeansNoneDangle(front, o.zone, job.proxy);
    hide Ready, Restore;
  }

  lemma FallbackDanglesIff(z: Zone, job: Job, calls: Calls, undo: nat -> Call)
    requires Ready(z, job, calls) && job.Configured() && Untouched(z, job)
    ensures var redirected := RedirectFallback(Proxied(z, job), job, calls);
            NoneDangle(redirected.trace + Restore(redirected.zone, redirected.session, job, undo).trace, job.proxy)
            <==> FallbackGoesFirst(job, calls, undo)
  {
    var redirected := RedirectFallback(Proxied(z, job), job, calls);
    var restored := Restore(redirected.zone, redirected.session, job, undo);
    var fallback := Entry(calls.createdId, Route(job.pattern, job.proxy));
    var now := Proxied(z, job).(routes := if Effect(calls.create) then z.routes + [fallback] else z.routes);
    assert |z.routes + [fallback]| > |z.routes|;
    if job.pattern == "" {
      FallbackRestoreDanglesIff(z, Proxied(z, job), job, calls, [], calls.undo);
      assert redirected.trace + restored.trace == Restore(Proxied(z, job), Session(true, [], []), job, calls.undo).trace;
    } else {
      var created := if calls.create != Done then [] else if calls.repliedId == "" then [WITHOUT_ID] else [calls.repliedId];
      var back := if calls.create == Done then undo else calls.undo;
      FallbackRestoreDanglesIff(z, now, job, calls, created, back);
      var rest := Restore(now, Session(true, [], created), job, back).trace;
      assert redirected.trace + restored.trace == [now] + rest;
      hide Restore, Ready, RedirectFallback;
      OneMoreZone(now, rest, job.proxy);
    }
  }

  lemma OneMoreZone(t: Zone, rest: seq<Zone>, proxy: string)
    requires proxy in t.scripts
    ensures NoneDangle([t] + rest, proxy) <==> NoneDangle(rest, proxy)
  {
    assert forall x | x in rest :: x in [t] + rest;
  }

  // ---- The whole session ----

  /** No zone the session passes through has a route at a missing proxy, exactly if on the way
      back the proxy only goes when all that was pointed at it has gone before. */
  lemma NeverDanglingIff(z: Zone, job: Job, calls: Calls, undo: nat -> Call)
    requires Ready(z, job, calls) && Untouched(z, job)
    ensures NoneDangle(RedirectAndRestore(z, job, calls, undo).trace, job.proxy) <==> ProxyGoesLast(z, job, calls, undo)
  {
    TraceCases(z, job, calls, undo);
    if job.Configured() && calls.listed && calls.putProxy == Done {
      ExistingDanglesIff(z, job, calls, undo);
      FallbackDanglesIff(z, job, calls, undo);
      hide RedirectAndRestore, RedirectExisting, RedirectFallback, Restore, Ready, RoutesGoFirst, FallbackGoesFirst, Restorable, Untouched;
      var restore := Restorable(z.routes, job.worker);
      var way := if restore == [] then RedirectFallback(Proxied(z, job), job, calls) else RedirectExisting(Proxied(z, job), job, calls, restore);
      OneMoreZone(Proxied(z, job), way.trace + Restore(way.zone, way.session, job, undo).trace, job.proxy);
    }
  }

  /** If all compensating calls take effect, the one way to a dangling route is a fallback route
      created without the session learning of it. */
  lemma DependableNeverDanglesIff(z: Zone, job: Job, calls: Calls, undo: nat -> Call)
    requires Ready(z, job, calls) && Dependable(calls.undo) && Dependable(undo) && Untouched(z, job)
    ensures NoneDangle(RedirectAndRestore(z, job, calls, undo).trace, job.proxy) <==> FallbackKnown(z, job, calls)
  {
    NeverDanglingIff(z, job, calls, undo);
    var n := |Restorable(z.routes, job.worker)|;
    assert Effect(undo(0)) && Effect(undo(1)) && Effect(calls.undo(0));
    hide RedirectAndRestore, Ready, Restorable, Untouched;
    assert RoutesGoFirst(calls.update, n, WayBack(calls, undo, n));
  }

  /** A restore that failed to bring back some route and then deletes the proxy leaves that
      route dangling. */
  lemma FailedRestoreDanglesIff(z: Zone, job: Job, calls: Calls, undo: nat -> Call)
    requires Ready(z, job, calls) && Untouched(z, job) && RoutesTakenOver(z, job, calls)
    ensures var n := |Restorable(z.routes, job.worker)|;
            NoneDangle(RedirectAndRestore(z, job, calls, undo).trace, job.proxy)
            <==> (Effect(undo(n)) ==> forall k | 0 <= k < n :: Effect(undo(k)))
  {
    NeverDanglingIff(z, job, calls, undo);
    var n := |Restorable(z.routes, job.worker)|;
    assert Attempted(calls.update, n) == n;
    hide RedirectAndRestore, Ready, Restorable, Untouched;
    assert forall k | 0 <= k < n :: Redirected(calls.update, n, k);
  }
}
