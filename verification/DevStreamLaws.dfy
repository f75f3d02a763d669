/** What the redirect saga promises, for every way its forward calls may go. */
module DevStreamLaws {
  import opened DevStream
  import opened RemoteStore

  /** A zone no earlier session left traces in, and a server that gives out new IDs. */
  ghost predicate Ready(z: Zone, job: Job, calls: Calls) {
    && DistinctIds(z.routes) && job.proxy !in z.scripts && job.proxy != job.worker
    && !HasId(z.routes, calls.createdId) && calls.createdId != "" && calls.createdId != WITHOUT_ID
    && (calls.repliedId == "" || calls.repliedId == calls.createdId)
  }

  ghost predicate Dependable(undo: nat -> Call) {
    forall k: nat :: Effect(undo(k))
  }

  ghost predicate NeedsFallback(z: Zone, job: Job, calls: Calls) {
    job.Configured() && calls.listed && calls.putProxy == Done && Restorable(z.routes, job.worker) == [] && job.pattern != ""
  }

  /** A fallback route that was created is also known to the session, by its ID. */
  ghost predicate FallbackKnown(z: Zone, job: Job, calls: Calls) {
    NeedsFallback(z, job, calls) ==> CreationKnown(calls)
  }

  ghost predicate NoLostProxy(job: Job, calls: Calls) {
    job.Configured() && calls.listed ==> calls.putProxy != FailedAfter
  }

  /** A missing zone is reported only along with a missing account or token; alone it changes
      nothing about the redirect. */
  lemma MissingZoneDoesNotStop(z: Zone, job: Job, calls: Calls)
    ensures "CLOUDFLARE_ZONE_ID" in job.MissingPrereqs() <==> job.zoneId == "" && (job.account == "" || job.token == "")
    ensures job.MissingPrereqs() == [] <==> job.Configured()
    ensures Redirect(z, job.(zoneId := ""), calls) == Redirect(z, job, calls)
  {
    assert "CLOUDFLARE_ZONE_ID"[11] == 'Z' && "CLOUDFLARE_ACCOUNT_ID"[11] == 'A' && "CLOUDFLARE_API_TOKEN"[12] == 'P';
  }

  // ---- Routes position by position ----

  predicate IsDetour(e: Entry<Route>, after: Entry<Route>, proxy: string) {
    after == Entry(e.id, Route(e.body.pattern, proxy))
  }

  /** `after` differs from `routes` only in restorable entries that point at the proxy. */
  ghost predicate Detoured(routes: seq<Entry<Route>>, after: seq<Entry<Route>>, job: Job) {
    && |after| == |routes|
    && forall i | 0 <= i < |routes| ::
         after[i] == routes[i] || (IsRestorable(routes[i], job.worker) && IsDetour(routes[i], after[i], job.proxy))
  }

  lemma {:induction false} RewritingDetours(routes: seq<Entry<Route>>, job: Job, update: nat -> Call, n: nat)
    requires DistinctIds(routes) && n <= |Restorable(routes, job.worker)|
    ensures Detoured(routes, Rewritten(routes, Restorable(routes, job.worker), job.proxy, update, n), job)
  {
    if n > 0 {
      RewritingDetours(routes, job, update, n - 1);
      var e := Restorable(routes, job.worker)[n - 1];
      assert e in routes && IsRestorable(e, job.worker);
      hide Detoured, DistinctIds, Restorable;
      ReplaceDetours(routes, Rewritten(routes, Restorable(routes, job.worker), job.proxy, update, n - 1), job, e, job.proxy);
    }
  }

  /** Replacing the body of one route by its own pattern and either script keeps a detour. */
  lemma ReplaceDetours(routes: seq<Entry<Route>>, now: seq<Entry<Route>>, job: Job, e: Entry<Route>, script: string)
    requires DistinctIds(routes) && Detoured(routes, now, job) && e in routes && IsRestorable(e, job.worker)
    requires script == job.proxy || script == job.worker
    ensures Detoured(routes, Replace(now, e.id, Route(e.body.pattern, script)), job)
  {
    var after := Replace(now, e.id, Route(e.body.pattern, script));
    var k :| 0 <= k < |routes| && routes[k] == e;
    forall i | 0 <= i < |routes|
      ensures after[i] == routes[i] || (IsRestorable(routes[i], job.worker) && IsDetour(routes[i], after[i], job.proxy))
    {
      assert i != k ==> routes[i].id != e.id;
      assert now[i].id == routes[i].id;
    }
  }

  lemma {:induction false} RestoringDetours(routes: seq<Entry<Route>>, now: seq<Entry<Route>>, job: Job, undo: nat -> Call, n: nat)
    requires DistinctIds(routes) && n <= |Restorable(routes, job.worker)| && Detoured(routes, now, job)
    ensures Detoured(routes, RestoredRoutes(now, Restorable(routes, job.worker), job.worker, undo, n), job)
  {
    if n > 0 {
      RestoringDetours(routes, now, job, undo, n - 1);
      var e := Restorable(routes, job.worker)[n - 1];
      assert e in routes && IsRestorable(e, job.worker);
      hide Detoured, DistinctIds, Restorable;
      ReplaceDetours(routes, RestoredRoutes(now, Restorable(routes, job.worker), job.worker, undo, n - 1), job, e, job.worker);
    }
  }

  lemma {:induction false} RestorableDistinct(routes: seq<Entry<Route>>, worker: string)
    requires DistinctIds(routes)
    ensures DistinctIds(Restorable(routes, worker))
  {
    if routes != [] {
      var front := routes[..|routes| - 1];
      RestorableDistinct(front, worker);
      var restore := Restorable(front, worker);
      forall k | 0 <= k < |restore| ensures restore[k].id != routes[|routes| - 1].id {
        assert restore[k] in front;
      }
    }
  }

  lemma RestorableAt(routes: seq<Entry<Route>>, worker: string, k: nat, m: nat)
    requires DistinctIds(routes) && k < |Restorable(routes, worker)| && m < |Restorable(routes, worker)|
    ensures IsRestorable(Restorable(routes, worker)[m], worker)
    ensures Restorable(routes, worker)[k].id == Restorable(routes, worker)[m].id <==> k == m
  {
    RestorableDistinct(routes, worker);
    assert Restorable(routes, worker)[m] in routes;
  }

  /** Once its turn has come, a route points where its undo call put it, and not otherwise. */
  lemma {:induction false} RestoredAt(routes: seq<Entry<Route>>, now: seq<Entry<Route>>, job: Job, undo: nat -> Call, n: nat, k: nat, i: nat)
    requires DistinctIds(routes) && n <= |Restorable(routes, job.worker)|
    requires |now| == |routes| && k < |Restorable(routes, job.worker)| && i < |routes|
    requires Restorable(routes, job.worker)[k] == routes[i] && now[i].id == routes[i].id
    ensures var restored := RestoredRoutes(now, Restorable(routes, job.worker), job.worker, undo, n);
            |restored| == |routes| && restored[i] == if k < n && Effect(undo(k)) then routes[i] else now[i]
  {
    if n > 0 {
      RestoredAt(routes, now, job, undo, n - 1, k, i);
      RestorableAt(routes, job.worker, k, n - 1);
    }
  }

  /** After n updates a route points at the proxy if its own update came and took effect, and
      otherwise where it did. */
  lemma {:induction false} RewrittenAt(routes: seq<Entry<Route>>, job: Job, update: nat -> Call, n: nat, k: nat, i: nat)
    requires DistinctIds(routes) && n <= |Restorable(routes, job.worker)|
    requires k < |Restorable(routes, job.worker)| && i < |routes| && Restorable(routes, job.worker)[k] == routes[i]
    ensures var after := Rewritten(routes, Restorable(routes, job.worker), job.proxy, update, n);
            |after| == |routes|
            && if k < n && Effect(update(k)) then IsDetour(routes[i], after[i], job.proxy) else after[i] == routes[i]
  {
    if n > 0 {
      RewrittenAt(routes, job, update, n - 1, k, i);
      RestorableAt(routes, job.worker, k, n - 1);
      RestorableAt(routes, job.worker, k, k);
    }
  }

  lemma RestoredInFull(routes: seq<Entry<Route>>, now: seq<Entry<Route>>, job: Job, undo: nat -> Call)
    requires DistinctIds(routes) && Detoured(routes, now, job)
    requires forall k | 0 <= k < |Restorable(routes, job.worker)| :: Effect(undo(k))
    ensures RestoredRoutes(now, Restorable(routes, job.worker), job.worker, undo, |Restorable(routes, job.worker)|) == routes
  {
    var restore := Restorable(routes, job.worker);
    var restored := RestoredRoutes(now, restore, job.worker, undo, |restore|);
    RestoringDetours(routes, now, job, undo, |restore|);
    forall i | 0 <= i < |routes| ensures restored[i] == routes[i] {
      if IsRestorable(routes[i], job.worker) {
        assert routes[i] in restore;
        var k :| 0 <= k < |restore| && restore[k] == routes[i];
        RestoredAt(routes, now, job, undo, |restore|, k, i);
      }
    }
  }

  lemma {:induction false} DeletingNewest(routes: seq<Entry<Route>>, created: Entry<Route>)
    requires !HasId(routes, created.id)
    ensures Delete(routes + [created], created.id) == routes
  {
    if routes == [] {
      assert ([created] + [])[1..] == [];
    } else {
      assert routes[0].id != created.id;
      assert (routes + [created])[1..] == routes[1..] + [created];
      assert !HasId(routes[1..], created.id);
      DeletingNewest(routes[1..], created);
    }
  }

  // ---- One restore ----

  /** Where a restore ends. */
  lemma RestoreEnds(now: Zone, s: Session, job: Job, back: nat -> Call)
    requires job.Configured() && s.applied
    ensures var n, m := |s.restore|, |s.created|;
            Restore(now, s, job, back).zone ==
            Zone(WithoutCreated(RestoredRoutes(now.routes, s.restore, job.worker, back, n), s.created, back, n, m),
                 if Effect(back(n + m)) then now.scripts - {job.proxy} else now.scripts)
  {
    hide RestoredRoutes, RestoreTrace, WithoutCreated, ClearTrace, Effect;
  }

  /** What a restore passes through. */
  lemma RestorePasses(now: Zone, s: Session, job: Job, back: nat -> Call)
    requires job.Configured() && s.applied
    ensures var o := Restore(now, s, job, back);
            var restored := RestoredRoutes(now.routes, s.restore, job.worker, back, |s.restore|);
            o.trace == RestoreTrace(now, s.restore, job.worker, back, |s.restore|)
                       + ClearTrace(now.(routes := restored), s.created, back, |s.restore|, |s.created|) + [o.zone]
  {
    hide RestoredRoutes, RestoreTrace, WithoutCreated, ClearTrace, Effect;
  }

  /** What a restore of a session without created routes passes through, and where it ends. */
  lemma RestoreOfRoutes(now: Zone, restore: seq<Entry<Route>>, job: Job, back: nat -> Call)
    requires job.Configured()
    ensures var o := Restore(now, Session(true, restore, []), job, back);
            var n := |restore|;
            && o.trace == RestoreTrace(now, restore, job.worker, back, n) + [o.zone]
            && o.zone == Zone(RestoredRoutes(now.routes, restore, job.worker, back, n),
                              if Effect(back(n)) then now.scripts - {job.proxy} else now.scripts)
  {
    hide *;
    var n := |restore|;
    RestoreEnds(now, Session(true, restore, []), job, back);
    RestorePasses(now, Session(true, restore, []), job, back);
    NothingToClear(now.(routes := RestoredRoutes(now.routes, restore, job.worker, back, n)), back, n);
    NoneBetween(RestoreTrace(now, restore, job.worker, back, n), Restore(now, Session(true, restore, []), job, back).zone);
  }

  lemma NothingToClear(z: Zone, back: nat -> Call, offset: nat)
    ensures ClearTrace(z, [], back, offset, 0) == [] && WithoutCreated(z.routes, [], back, offset, 0) == z.routes
  {
  }

  lemma NoneBetween(trace: seq<Zone>, last: Zone)
    ensures trace + [] + [last] == trace + [last]
  {
  }

  /** What clearing the one created route amounts to. */
  lemma ClearOne(z: Zone, created: string, back: nat -> Call)
    ensures var routes := if created != "" && created != WITHOUT_ID && Effect(back(0)) then Delete(z.routes, created) else z.routes;
            WithoutCreated(z.routes, [created], back, 0, 1) == routes && ClearTrace(z, [created], back, 0, 1) == [z.(routes := routes)]
  {
    hide Delete;
    assert WithoutCreated(z.routes, [created], back, 0, 0) == z.routes && ClearTrace(z, [created], back, 0, 0) == [];
  }

  /** Where a restore of a session without existing routes ends. */
  lemma NoRoutesEnd(now: Zone, created: seq<string>, job: Job, back: nat -> Call)
    requires job.Configured()
    ensures Restore(now, Session(true, [], created), job, back).zone ==
            Zone(WithoutCreated(now.routes, created, back, 0, |created|),
                 if Effect(back(|created|)) then now.scripts - {job.proxy} else now.scripts)
  {
    hide *;
    RestoreEnds(now, Session(true, [], created), job, back);
    NothingToRestore(now, job, back);
  }

  /** What a restore of a session without existing routes passes through. */
  lemma NoRoutesPass(now: Zone, created: seq<string>, job: Job, back: nat -> Call)
    requires job.Configured()
    ensures var o := Restore(now, Session(true, [], created), job, back);
            o.trace == ClearTrace(now, created, back, 0, |created|) + [o.zone]
  {
    hide *;
    RestorePasses(now, Session(true, [], created), job, back);
    NothingToRestore(now, job, back);
    NoneBefore(ClearTrace(now, created, back, 0, |created|));
  }

  lemma NothingToRestore(z: Zone, job: Job, back: nat -> Call)
    ensures RestoreTrace(z, [], job.worker, back, 0) == [] && RestoredRoutes(z.routes, [], job.worker, back, 0) == z.routes
  {
  }

  lemma NoneBefore(trace: seq<Zone>)
    ensures [] + trace == trace
  {
  }

  // ---- Atomicity ----

  function Proxied(z: Zone, job: Job): Zone {
    z.(scripts := z.scripts + {job.proxy})
  }

  lemma ExistingRoutesUndone(z: Zone, job: Job, calls: Calls, undo: nat -> Call)
    requires Ready(z, job, calls) && job.Configured() && Dependable(calls.undo) && Dependable(undo)
    ensures var redirected := RedirectExisting(Proxied(z, job), job, calls, Restorable(z.routes, job.worker));
            Restore(redirected.zone, redirected.session, job, undo).zone == z
  {
    var restore := Restorable(z.routes, job.worker);
    var n := Attempted(calls.update, |restore|);
    RewritingDetours(z.routes, job, calls.update, n);
    var now := Rewritten(z.routes, restore, job.proxy, calls.update, n);
    RestoredInFull(z.routes, now, job, undo);
    RestoredInFull(z.routes, now, job, calls.undo);
    assert z.scripts + {job.proxy} - {job.proxy} == z.scripts;
    RestoreSettles(z.(scripts := z.scripts + {job.proxy}, routes := now), restore, job, undo, z.routes);
    RestoreSettles(z.(scripts := z.scripts + {job.proxy}, routes := now), restore, job, calls.undo, z.routes);
    hide Restorable, Rewritten, RestoredRoutes, Attempted, Ready, RestoreTrace, RewriteTrace, WithoutCreated, ClearTrace;
  }

  /** What a restore without created routes leaves, and that a second one does nothing. */
  lemma RestoreSettles(z: Zone, restore: seq<Entry<Route>>, job: Job, undo: nat -> Call, routes: seq<Entry<Route>>)
    requires job.Configured() && Dependable(undo) && RestoredRoutes(z.routes, restore, job.worker, undo, |restore|) == routes
    ensures var o := Restore(z, Session(true, restore, []), job, undo);
            && o.zone == Zone(routes, z.scripts - {job.proxy}) && !o.session.applied
            && forall later :: Restore(o.zone, o.session, job, later).zone == o.zone
  {
    hide RestoredRoutes;
  }

  /** The session learned of the fallback route, if there is one. */
  predicate CreationKnown(calls: Calls) {
    calls.create != FailedAfter && (calls.create == Done ==> calls.repliedId != "")
  }

  /** Clearing the fallback route takes it away, if the session has its ID. */
  lemma FallbackCleared(routes: seq<Entry<Route>>, created: Entry<Route>, known: string, undo: nat -> Call)
    requires !HasId(routes, created.id) && created.id != "" && created.id != WITHOUT_ID && Effect(undo(0))
    requires known == created.id || known == WITHOUT_ID
    ensures WithoutCreated(routes + [created], [known], undo, 0, 1) == if known == WITHOUT_ID then routes + [created] else routes
  {
    DeletingNewest(routes, created);
    assert WithoutCreated(routes + [created], [known], undo, 0, 0) == routes + [created];
  }

  lemma FallbackUndoneIff(z: Zone, job: Job, calls: Calls, undo: nat -> Call)
    requires Ready(z, job, calls) && job.Configured() && Dependable(calls.undo) && Dependable(undo)
    ensures var redirected := RedirectFallback(Proxied(z, job), job, calls);
            Restore(redirected.zone, redirected.session, job, undo).zone == z <==> (job.pattern != "" ==> CreationKnown(calls))
  {
    var created := Entry(calls.createdId, Route(job.pattern, job.proxy));
    assert z.scripts + {job.proxy} - {job.proxy} == z.scripts;
    var redirected := RedirectFallback(Proxied(z, job), job, calls);
    var restored := Restore(redirected.zone, redirected.session, job, undo);
    assert |z.routes + [created]| > |z.routes|;
    if job.pattern != "" && calls.create == Done {
      var known := if calls.repliedId == "" then WITHOUT_ID else calls.repliedId;
      FallbackCleared(z.routes, created, known, undo);
      assert redirected.session == Session(true, [], [known]) && redirected.zone.routes == z.routes + [created];
      assert restored.zone.routes == if calls.repliedId == "" then z.routes + [created] else z.routes;
    }
  }

  /** If the compensating calls take effect, redirecting and restoring leaves the zone exactly
      as it was, however the forward calls fail, unless the proxy upload or the fallback
      creation took effect without the session learning of it. */
  lemma SagaRestoresIff(z: Zone, job: Job, calls: Calls, undo: nat -> Call)
    requires Ready(z, job, calls) && Dependable(calls.undo) && Dependable(undo)
    ensures RedirectAndRestore(z, job, calls, undo).zone == z <==> NoLostProxy(job, calls) && FallbackKnown(z, job, calls)
  {
    if job.Configured() && calls.listed {
      if calls.putProxy == Done {
        ExistingRoutesUndone(z, job, calls, undo);
        FallbackUndoneIff(z, job, calls, undo);
      } else {
        assert Proxied(z, job).scripts != z.scripts;
      }
    }
  }

  /** A redirect that does not end up applied has already undone itself. */
  lemma FailedRedirectLeavesNothing(z: Zone, job: Job, calls: Calls)
    requires Ready(z, job, calls) && Dependable(calls.undo)
    requires NoLostProxy(job, calls) && FallbackKnown(z, job, calls)
    ensures var o := Redirect(z, job, calls); !o.session.applied ==> o.zone == z
  {
    SagaRestoresIff(z, job, calls, calls.undo);
  }

  // ---- Every zone on the way ----

  /** Routes of other workers are in place. */
  ghost predicate OthersUntouched(z: Zone, now: Zone, worker: string) {
    |now.routes| >= |z.routes| && forall i | 0 <= i < |z.routes| && z.routes[i].body.script != worker :: now.routes[i] == z.routes[i]
  }

  lemma {:induction false} RestoreTraceDetours(z: Zone, now: Zone, job: Job, undo: nat -> Call, n: nat)
    requires DistinctIds(z.routes) && Detoured(z.routes, now.routes, job) && n <= |Restorable(z.routes, job.worker)|
    ensures forall t | t in RestoreTrace(now, Restorable(z.routes, job.worker), job.worker, undo, n) ::
              Detoured(z.routes, t.routes, job) && t.scripts == now.scripts
  {
    if n > 0 {
      hide Detoured, DistinctIds, Restorable, RestoredRoutes;
      RestoreTraceDetours(z, now, job, undo, n - 1);
      RestoringDetours(z.routes, now.routes, job, undo, n);
    }
  }

  lemma {:induction false} RewriteTraceDetours(z: Zone, job: Job, update: nat -> Call, n: nat)
    requires DistinctIds(z.routes) && n <= |Restorable(z.routes, job.worker)|
    ensures forall t | t in RewriteTrace(Proxied(z, job), Restorable(z.routes, job.worker), job.proxy, update, n) ::
              Detoured(z.routes, t.routes, job) && job.proxy in t.scripts
  {
    if n > 0 {
      RewriteTraceDetours(z, job, update, n - 1);
      RewritingDetours(z.routes, job, update, n);
    }
  }

  /** A zone that only has detours, and, if the undo calls can be depended on, no detour
      without a proxy. */
  ghost predicate Fine(z: Zone, t: Zone, job: Job, dependable: bool) {
    Detoured(z.routes, t.routes, job) && (dependable ==> job.proxy in t.scripts || t.routes == z.routes)
  }

  lemma RestoreOfDetours(z: Zone, now: Zone, job: Job, undo: nat -> Call)
    requires DistinctIds(z.routes) && Detoured(z.routes, now.routes, job) && job.proxy in now.scripts
    ensures var o := Restore(now, Session(true, Restorable(z.routes, job.worker), []), job, undo);
            && (forall t | t in o.trace :: Fine(z, t, job, Dependable(undo)))
            && Fine(z, o.zone, job, Dependable(undo))
  {
    var restore := Restorable(z.routes, job.worker);
    RestoreTraceDetours(z, now, job, undo, |restore|);
    RestoringDetours(z.routes, now.routes, job, undo, |restore|);
    if Dependable(undo) {
      RestoredInFull(z.routes, now.routes, job, undo);
    }
  }

  /** Rewriting existing routes, and undoing that, never harms: not on the way either. */
  lemma ExistingRoutesTrace(z: Zone, job: Job, calls: Calls, undo: nat -> Call)
    requires Ready(z, job, calls)
    ensures var redirected := RedirectExisting(Proxied(z, job), job, calls, Restorable(z.routes, job.worker));
            var restored := Restore(redirected.zone, redirected.session, job, undo);
            forall t | t in redirected.trace + restored.trace :: Fine(z, t, job, Dependable(calls.undo) && Dependable(undo))
  {
    var restore := Restorable(z.routes, job.worker);
    var n := Attempted(calls.update, |restore|);
    RewriteTraceDetours(z, job, calls.update, n);
    RewritingDetours(z.routes, job, calls.update, n);
    var now := Proxied(z, job).(routes := Rewritten(z.routes, restore, job.proxy, calls.update, n));
    RestoreOfDetours(z, now, job, undo);
    RestoreOfDetours(z, now, job, calls.undo);
  }

  /** The zone has its routes, and perhaps the fallback route too. */
  ghost predicate AtMostFallback(z: Zone, t: Zone, job: Job, calls: Calls) {
    t.routes == z.routes || t.routes == z.routes + [Entry(calls.createdId, Route(job.pattern, job.proxy))]
  }

  lemma RestoreOfFallback(z: Zone, now: Zone, job: Job, calls: Calls, created: seq<string>, undo: nat -> Call)
    requires Ready(z, job, calls) && AtMostFallback(z, now, job, calls) && job.Configured()
    requires created == [] || created == [WITHOUT_ID]
          || (created == [calls.createdId] && now.routes == z.routes + [Entry(calls.createdId, Route(job.pattern, job.proxy))])
    ensures var o := Restore(now, Session(true, [], created), job, undo);
            && (forall t | t in o.trace :: AtMostFallback(z, t, job, calls))
            && o.trace != [] && o.trace[|o.trace| - 1] == o.zone
            && (forall t | t in o.trace[..|o.trace| - 1] :: t.scripts == now.scripts)
            && o.zone.scripts == (if Effect(undo(|created|)) then now.scripts - {job.proxy} else now.scripts)
            && o.zone.routes == if created == [calls.createdId] && Effect(undo(0)) then z.routes else now.routes
  {
    hide Restore, ClearTrace, WithoutCreated, Delete, DistinctIds;
    DeletingNewest(z.routes, Entry(calls.createdId, Route(job.pattern, job.proxy)));
    NoRoutesEnd(now, created, job, undo);
    NoRoutesPass(now, created, job, undo);
    var o := Restore(now, Session(true, [], created), job, undo);
    if created == [] {
      NothingToClear(now, undo, 0);
      assert o.trace == [o.zone];
    } else {
      ClearOne(now, created[0], undo);
      assert created == [created[0]];
      var cleared := if created[0] != WITHOUT_ID && Effect(undo(0)) then z.routes else now.routes;
      assert o.trace == [now.(routes := cleared), o.zone];
    }
  }

  lemma FallbackTrace(z: Zone, job: Job, calls: Calls, undo: nat -> Call)
    requires Ready(z, job, calls) && job.Configured()
    ensures var redirected := RedirectFallback(Proxied(z, job), job, calls);
            forall t | t in redirected.trace + Restore(redirected.zone, redirected.session, job, undo).trace :: AtMostFallback(z, t, job, calls)
  {
    RestoreOfFallback(z, Proxied(z, job), job, calls, [], calls.undo);
    var created := if Effect(calls.create) then z.routes + [Entry(calls.createdId, Route(job.pattern, job.proxy))] else z.routes;
    var t := Proxied(z, job).(routes := created);
    RestoreOfFallback(z, t, job, calls, [], calls.undo);
    if job.pattern != "" && calls.create == Done {
      RestoreOfFallback(z, t, job, calls, [if calls.repliedId == "" then WITHOUT_ID else calls.repliedId], undo);
    }
  }

  /** The saga's trace: nothing, the upload, or the upload and one of the two ways on. */
  lemma TraceCases(z: Zone, job: Job, calls: Calls, undo: nat -> Call)
    ensures var trace := RedirectAndRestore(z, job, calls, undo).trace;
            if !job.Configured() || !calls.listed then trace == []
            else if calls.putProxy != Done then trace == [if Effect(calls.putProxy) then Proxied(z, job) else z]
            else
              var restore := Restorable(z.routes, job.worker);
              var way := if restore == [] then RedirectFallback(Proxied(z, job), job, calls) else RedirectExisting(Proxied(z, job), job, calls, restore);
              trace == [Proxied(z, job)] + (way.trace + Restore(way.zone, way.session, job, undo).trace)
  {
  }

  /** For every way the calls go, compensating calls included, the routes of other workers
      stay as they are in every zone the saga goes through. */
  lemma OtherWorkersUntouched(z: Zone, job: Job, calls: Calls, undo: nat -> Call)
    requires Ready(z, job, calls)
    ensures forall t | t in RedirectAndRestore(z, job, calls, undo).trace :: OthersUntouched(z, t, job.worker)
  {
    TraceCases(z, job, calls, undo);
    ExistingRoutesTrace(z, job, calls, undo);
    if job.Configured() {
      FallbackTrace(z, job, calls, undo);
    }
    forall t | t in RedirectAndRestore(z, job, calls, undo).trace ensures OthersUntouched(z, t, job.worker) {
      if !AtMostFallback(z, t, job, calls) {
        assert Detoured(z.routes, t.routes, job);
      }
    }
  }

  // ---- What a successful redirect does, and what undoing it needs ----

  ghost predicate RoutesTakenOver(z: Zone, job: Job, calls: Calls) {
    && job.Configured() && calls.listed && calls.putProxy == Done
    && Restorable(z.routes, job.worker) != [] && AllDone(calls.update, |Restorable(z.routes, job.worker)|)
  }

  /** When every call is answered, the worker's routes, and only they, point at the proxy. */
  lemma RedirectTakesOver(z: Zone, job: Job, calls: Calls)
    requires Ready(z, job, calls) && RoutesTakenOver(z, job, calls)
    ensures var o := Redirect(z, job, calls);
            && o.session == Session(true, Restorable(z.routes, job.worker), []) && o.zone.scripts == z.scripts + {job.proxy}
            && |o.zone.routes| == |z.routes|
            && forall i | 0 <= i < |z.routes| ::
                 if IsRestorable(z.routes[i], job.worker) then IsDetour(z.routes[i], o.zone.routes[i], job.proxy) else o.zone.routes[i] == z.routes[i]
  {
    var restore := Restorable(z.routes, job.worker);
    var o := Redirect(z, job, calls);
    assert Attempted(calls.update, |restore|) == |restore|;
    RewritingDetours(z.routes, job, calls.update, |restore|);
    forall i | 0 <= i < |z.routes| && IsRestorable(z.routes[i], job.worker) ensures IsDetour(z.routes[i], o.zone.routes[i], job.proxy) {
      assert z.routes[i] in restore;
      var k :| 0 <= k < |restore| && restore[k] == z.routes[i];
      RewrittenAt(z.routes, job, calls.update, |restore|, k, i);
    }
  }

  /** A restore brings all routes back exactly if all its calls take effect, given that all had
      been rewritten. */
  lemma RoutesBackIff(routes: seq<Entry<Route>>, now: seq<Entry<Route>>, job: Job, undo: nat -> Call)
    requires DistinctIds(routes) && Detoured(routes, now, job) && job.proxy != job.worker
    requires forall i | 0 <= i < |routes| && IsRestorable(routes[i], job.worker) :: IsDetour(routes[i], now[i], job.proxy)
    ensures var restore := Restorable(routes, job.worker);
            RestoredRoutes(now, restore, job.worker, undo, |restore|) == routes <==> forall k | 0 <= k < |restore| :: Effect(undo(k))
  {
    var restore := Restorable(routes, job.worker);
    if forall k | 0 <= k < |restore| :: Effect(undo(k)) {
      RestoredInFull(routes, now, job, undo);
    } else {
      var k :| 0 <= k < |restore| && !Effect(undo(k));
      assert restore[k] in routes;
      var i :| 0 <= i < |routes| && routes[i] == restore[k];
      RestoredAt(routes, now, job, undo, |restore|, k, i);
      hide RestoredRoutes, DistinctIds, Restorable;
      assert routes[i].body.script == job.worker && now[i].body.script == job.proxy;
    }
  }

  /** The redirected zone has its routes detoured, and only the proxy added to its scripts. */
  lemma TakenOver(z: Zone, job: Job, calls: Calls)
    requires Ready(z, job, calls) && RoutesTakenOver(z, job, calls)
    ensures var o := Redirect(z, job, calls);
            && Detoured(z.routes, o.zone.routes, job) && o.zone.scripts - {job.proxy} == z.scripts && job.proxy in o.zone.scripts
            && forall i | 0 <= i < |z.routes| && IsRestorable(z.routes[i], job.worker) :: IsDetour(z.routes[i], o.zone.routes[i], job.proxy)
  {
    RedirectTakesOver(z, job, calls);
    assert z.scripts + {job.proxy} - {job.proxy} == z.scripts;
    hide Redirect, DistinctIds, Restorable;
  }

  /** Restoring such a session needs every one of its calls: a single lost one leaves a
      trace, and the session is spent all the same. */
  lemma RestoreNeedsEveryCallIff(z: Zone, job: Job, calls: Calls, undo: nat -> Call)
    requires Ready(z, job, calls) && RoutesTakenOver(z, job, calls)
    ensures var o := RedirectAndRestore(z, job, calls, undo);
            && (o.zone == z <==> forall k | 0 <= k <= |Restorable(z.routes, job.worker)| :: Effect(undo(k)))
            && Restore(o.zone, o.session, job, undo).zone == o.zone
  {
    hide Redirect, RestoredRoutes, RestoreTrace, Restorable, DistinctIds, Detoured;
    RedirectTakesOver(z, job, calls);
    TakenOver(z, job, calls);
    var restore := Restorable(z.routes, job.worker);
    var redirected := Redirect(z, job, calls).zone;
    RoutesBackIff(z.routes, redirected.routes, job, undo);
    RestoreOfRoutes(redirected, restore, job, undo);
    assert job.proxy !in z.scripts;
    hide Ready, RoutesTakenOver;
    var o := RedirectAndRestore(z, job, calls, undo);
    assert o.zone.scripts == z.scripts <==> Effect(undo(|restore|));
  }
}
