/** The syncer itself: loops over what the API lists, at most one write a resource. Each
    method is tied to the stage it performs. */
module CloudflareSyncer {
  import opened Cloudflare
  import opened CloudflareLaws
  import opened Decimal
  import opened RemoteStore
  import opened Routing
  import opened Text
  import opened Wrappers

  /** What the API lists for a name and type. */
  function Listed(store: seq<Entry<DNSRecord>>, name: string, kind: string): seq<Entry<DNSRecord>> {
    if store == [] then []
    else
      var last := store[|store| - 1];
      Listed(store[..|store| - 1], name, kind) + if last.body.name == name && last.body.kind == kind then [last] else []
  }

  /** The first record listed is the first match in the zone, and only matches are listed. */
  lemma {:induction false} ListedMatches(store: seq<Entry<DNSRecord>>, r: Config)
    ensures var listed := Listed(store, r.hostname, "CNAME");
            && (forall e | e in listed :: RecordMatches(r)(e.body))
            && var i := First(store, RecordMatches(r));
               if i < |store| then listed != [] && listed[0] == store[i] else listed == []
  {
    if store != [] {
      var front, last := store[..|store| - 1], store[|store| - 1];
      ListedMatches(front, r);
      FirstAppended(front, last, RecordMatches(r));
      assert store == front + [last];
      hide First;
    }
  }

  lemma FirstAppended<T>(front: seq<Entry<T>>, last: Entry<T>, matches: T -> bool)
    ensures First(front + [last], matches) ==
            var i := First(front, matches); if i < |front| || matches(last.body) then i else |front| + 1
  {
    var i := First(front, matches);
    FirstIs(front + [last], matches, if i < |front| || matches(last.body) then i else |front| + 1);
  }

  lemma {:induction false} ListedManaged(store: seq<Entry<DNSRecord>>, r: Config)
    ensures Managed(Listed(store, r.hostname, "CNAME"), r) == Managed(store, r)
  {
    if store != [] {
      var front, last := store[..|store| - 1], store[|store| - 1];
      ListedManaged(front, r);
      var listed := Listed(front, r.hostname, "CNAME");
      if last.body.name == r.hostname && last.body.kind == "CNAME" {
        ManagedGrows(listed, last, r);
      } else {
        assert listed + [] == listed && Managed(front, r) + [] == Managed(front, r);
      }
    }
  }

  lemma NoneManaged(r: Config)
    ensures Managed([], r) == []
  {
  }

  class Syncer {
    const hasAccount: bool
    const dryRun: bool
    /** Whether a URL parses; net/url is not part of this model. */
    const parses: string -> bool
    var account: Account
    var writes: nat

    constructor (account: Account, hasAccount: bool, dryRun: bool, parses: string -> bool)
      ensures this.account == account && writes == 0
      ensures this.hasAccount == hasAccount && this.dryRun == dryRun && this.parses == parses
    {
      this.account, this.writes := account, 0;
      this.hasAccount, this.dryRun, this.parses := hasAccount, dryRun, parses;
    }

    method Preflight(r: Config) returns (ok: bool)
      ensures ok <==> Acceptable(r, parses)
    {
      if r.hostname == "" || r.endpoints == [] {
        return false;
      }
      var seen: set<string> := {};
      for i := 0 to |r.endpoints|
        invariant forall k | 0 <= k < i :: r.endpoints[k].url != "" && parses(r.endpoints[k].url)
        invariant seen == set k | 0 <= k < i :: r.endpoints[k].name
        invariant forall j, k | 0 <= j < k < i :: r.endpoints[j].name != r.endpoints[k].name
      {
        var ep := r.endpoints[i];
        if ep.url == "" || !parses(ep.url) {
          return false;
        }
        if ep.name in seen {
          return false;
        }
        seen := seen + {ep.name};
      }
      ok := true;
    }

    method SyncMonitor(r: Config, newId: string, server: Server) returns (ok: bool, id: string, action: Action)
      modifies this
      ensures var stage := MonitorStage(old(account.monitors), r, dryRun, newId);
              && (ok <==> Served(stage, server))
              && (ok ==> account == old(account).(monitors := stage.store) && writes == old(writes) + Count(stage))
              && (ok ==> id == stage.id && action == MonitorAction(r, stage.verdict))
      ensures !ok ==> account == old(account) && writes == old(writes)
    {
      ok, id, action := server.lists, "", MonitorAction(r, NoOp);
      if !ok {
        return;
      }
      var existing := account.monitors;
      for i := 0 to |existing|
        invariant forall k | 0 <= k < i :: !MonitorMatches(r)(existing[k].body)
        invariant account == old(account) && writes == old(writes)
      {
        var m := existing[i];
        if m.body.description == ServiceTag(r) {
          FirstIs(existing, MonitorMatches(r), i);
          if m.body.path == HealthPath(r) && m.body.kind == "https" {
            return true, m.id, MonitorAction(r, NoOp);
          }
          ok := dryRun || server.takes;
          if !dryRun && ok {
            account := account.(monitors := Replace(existing, m.id, WantedMonitor(r)));
            writes := writes + 1;
          }
          return ok, m.id, MonitorAction(r, Update);
        }
      }
      FirstIs(existing, MonitorMatches(r), |existing|);
      action := MonitorAction(r, Create);
      if dryRun {
        return true, DRY_RUN_MONITOR, action;
      }
      if !server.takes {
        return false, "", action;
      }
      account := account.(monitors := existing + [Entry(newId, WantedMonitor(r))]);
      writes := writes + 1;
      id := newId;
    }

    method SyncPool(r: Config, monitor: string, newId: string, server: Server) returns (ok: bool, id: string, action: Action)
      modifies this
      ensures var stage := PoolStage(old(account.pools), r, monitor, dryRun, newId);
              && (ok <==> Served(stage, server))
              && (ok ==> account == old(account).(pools := stage.store) && writes == old(writes) + Count(stage))
              && (ok ==> id == stage.id && action == PoolAction(r, stage.verdict))
      ensures !ok ==> account == old(account) && writes == old(writes)
    {
      ok, id, action := server.lists, "", PoolAction(r, NoOp);
      if !ok {
        return;
      }
      var existing := account.pools;
      var wanted := ToOrigins(r.endpoints);
      for i := 0 to |existing|
        invariant forall k | 0 <= k < i :: !PoolMatches(r)(existing[k].body)
        invariant account == old(account) && writes == old(writes)
      {
        var p := existing[i];
        if p.body.name == PoolName(r) {
          FirstIs(existing, PoolMatches(r), i);
          var same := CompareOrigins(p.body.origins, wanted);
          if same && p.body.monitor == monitor {
            return true, p.id, PoolAction(r, NoOp);
          }
          ok := dryRun || server.takes;
          if !dryRun && ok {
            account := account.(pools := Replace(existing, p.id, WantedPool(r, monitor)));
            writes := writes + 1;
          }
          return ok, p.id, PoolAction(r, Update);
        }
      }
      FirstIs(existing, PoolMatches(r), |existing|);
      action := PoolAction(r, Create);
      if dryRun {
        return true, DRY_RUN_POOL, action;
      }
      if !server.takes {
        return false, "", action;
      }
      account := account.(pools := existing + [Entry(newId, WantedPool(r, monitor))]);
      writes := writes + 1;
      id := newId;
    }

    method SyncLoadBalancer(r: Config, pool: string, newId: string, server: Server) returns (ok: bool, action: Action)
      modifies this
      ensures var stage := BalancerStage(old(account.balancers), r, pool, dryRun, newId);
              && (ok <==> Served(stage, server))
              && (ok ==> account == old(account).(balancers := stage.store) && writes == old(writes) + Count(stage))
              && (ok ==> action == BalancerAction(r, stage.verdict))
      ensures !ok ==> account == old(account) && writes == old(writes)
    {
      ok, action := server.lists, BalancerAction(r, NoOp);
      if !ok {
        return;
      }
      var existing := account.balancers;
      for i := 0 to |existing|
        invariant forall k | 0 <= k < i :: !BalancerMatches(r)(existing[k].body)
        invariant account == old(account) && writes == old(writes)
      {
        var lb := existing[i];
        if lb.body.name == r.hostname {
          FirstIs(existing, BalancerMatches(r), i);
          var poolUnchanged := |lb.body.defaultPools| > 0 && lb.body.defaultPools[0] == pool;
          if poolUnchanged && lb.body.steeringPolicy == SteeringPolicy(r.strategy) && lb.body.ttl == r.ttl {
            return;
          }
          ok := dryRun || server.takes;
          if !dryRun && ok {
            account := account.(balancers := Replace(existing, lb.id, WantedBalancer(r, pool)));
            writes := writes + 1;
          }
          return ok, BalancerAction(r, Update);
        }
      }
      FirstIs(existing, BalancerMatches(r), |existing|);
      ok := dryRun || server.takes;
      if !dryRun && ok {
        account := account.(balancers := existing + [Entry(newId, WantedBalancer(r, pool))]);
        writes := writes + 1;
      }
      action := BalancerAction(r, Create);
    }

    method SyncDNSRecord(r: Config, newId: string, server: Server) returns (ok: bool, action: Action)
      requires r.endpoints != []
      modifies this
      ensures var stage := RecordStage(old(account.records), r, dryRun, newId);
              && (ok <==> Served(stage, server))
              && (ok ==> account == old(account).(records := stage.store) && writes == old(writes) + Count(stage))
              && (ok ==> action == RecordAction(r, stage.verdict))
      ensures !ok ==> account == old(account) && writes == old(writes)
    {
      ok, action := server.lists, RecordAction(r, NoOp);
      if !ok {
        return;
      }
      ListedMatches(account.records, r);
      var existing := Listed(account.records, r.hostname, "CNAME");
      for i := 0 to |existing|
        invariant i == 0  // the first one listed already has the name
        invariant account == old(account) && writes == old(writes)
      {
        var rec := existing[i];
        assert rec in existing;
        if rec.body.name == r.hostname {
          if rec.body.content == Content(r) && rec.body.ttl == r.ttl {
            return;
          }
          ok := dryRun || server.takes;
          if !dryRun && ok {
            account := account.(records := Replace(account.records, rec.id, WantedRecord(r, rec.body.comment)));
            writes := writes + 1;
          }
          return ok, RecordAction(r, Update);
        }
      }
      ok := dryRun || server.takes;
      if !dryRun && ok {
        account := account.(records := account.records + [Entry(newId, WantedRecord(r, MANAGED_BY))]);
        writes := writes + 1;
      }
      action := RecordAction(r, Create);
    }

    method ManagedRecords(r: Config) returns (managed: seq<DNSRecord>)
      requires r.endpoints != []
      ensures managed == Managed(account.records, r)
    {
      ListedMatches(account.records, r);
      ListedManaged(account.records, r);
      var records := Listed(account.records, r.hostname, "CNAME");
      hide Listed, First, TrimSpace, Managed;
      assert Managed([], r) == [] by {
        NoneManaged(r);
      }
      managed := [];
      for i := 0 to |records|
        invariant managed == Managed(records[..i], r)
      {
        ManagedGrows(records[..i], records[i], r);
        assert records[..i + 1] == records[..i] + [records[i]] && records[i] in records;
        if records[i].body.name == r.hostname && TrimSpace(records[i].body.comment) == MANAGED_BY {
          managed := managed + [records[i].body];
        }
      }
      assert records[..|records|] == records;
    }

    method CollectDNSDeleteCandidates(r: Config) returns (out: seq<Action>)
      requires r.endpoints != []
      ensures out == RecordCandidates(account.records, r)
    {
      var managed := ManagedRecords(r);
      if |managed| <= 1 {
        return [];
      }
      var keep := FindKept(managed, Content(r));
      out := CandidatesExcept(r, managed, keep);
    }

    method CollectLBDeleteCandidates(r: Config, monitor: string, pool: string) returns (out: seq<Action>)
      ensures out == MonitorCandidates(account.monitors, r, monitor) + PoolCandidates(account.pools, r, pool)
    {
      out := [];
      var monitors := account.monitors;
      for i := 0 to |monitors|
        invariant out == MonitorCandidates(monitors[..i], r, monitor)
      {
        var m := monitors[i];
        assert monitors[..i + 1][..i] == monitors[..i];
        if m.id != monitor && TrimSpace(m.body.description) == ServiceTag(r) {
          out := out + [Action("lb_monitor", "delete-candidate", MonitorName(r), "managed monitor id=" + m.id + " path=" + m.body.path)];
        }
      }
      assert monitors[..|monitors|] == monitors;
      var pools := account.pools;
      for i := 0 to |pools|
        invariant out == MonitorCandidates(monitors, r, monitor) + PoolCandidates(pools[..i], r, pool)
      {
        var p := pools[i];
        assert pools[..i + 1][..i] == pools[..i];
        if p.id != pool && TrimSpace(p.body.description) == StageTag(r) {
          out := out + [Action("lb_pool", "delete-candidate", PoolName(r), "managed pool id=" + p.id + " origins=" + Print(|p.body.origins|))];
        }
      }
      assert pools[..|pools|] == pools;
    }

    /** The chain, stopped by the first call that fails. */
    method SyncBalanced(r: Config, ids: NewIds, servers: Servers) returns (ok: bool, actions: seq<Action>)
      modifies this
      ensures var attempt := AttemptBalanced(old(account), r, dryRun, ids, servers);
              && account == attempt.outcome.account && actions == attempt.outcome.actions && ok == attempt.ok
              && writes == old(writes) + attempt.outcome.writes
    {
      hide MonitorStage, PoolStage, BalancerStage, MonitorAction, PoolAction, BalancerAction, MonitorCandidates, PoolCandidates, Served;
      actions := [];
      var monitorId, poolId, action;
      ok, monitorId, action := SyncMonitor(r, ids.monitor, servers.monitor);
      if !ok {
        return;
      }
      actions := [action];
      ok, poolId, action := SyncPool(r, monitorId, ids.pool, servers.pool);
      if !ok {
        return;
      }
      actions := actions + [action];
      ok, action := SyncLoadBalancer(r, poolId, ids.balancer, servers.balancer);
      if !ok {
        return;
      }
      actions := actions + [action];
      ok := servers.candidates;
      if ok {
        var candidates := CollectLBDeleteCandidates(r, monitorId, poolId);
        actions := actions + candidates;
      }
    }

    method SyncRecord(r: Config, ids: NewIds, servers: Servers) returns (ok: bool, actions: seq<Action>)
      requires r.endpoints != []
      modifies this
      ensures var attempt := AttemptRecord(old(account), r, dryRun, ids, servers);
              && account == attempt.outcome.account && actions == attempt.outcome.actions && ok == attempt.ok
              && writes == old(writes) + attempt.outcome.writes
    {
      hide RecordStage, RecordAction, RecordCandidates, Served;
      actions := [];
      var action;
      ok, action := SyncDNSRecord(r, ids.record, servers.record);
      if !ok {
        return;
      }
      actions := [action];
      ok := servers.candidates;
      if ok {
        var candidates := CollectDNSDeleteCandidates(r);
        actions := actions + candidates;
      }
    }

    /** Refuses what preflight refuses, without a call; otherwise it is the attempt the laws are
        about, with the actions done reported even if a call fails. */
    method Sync(r: Config, ids: NewIds, servers: Servers) returns (ok: bool, actions: seq<Action>)
      modifies this
      ensures !Acceptable(r, parses) ==> !ok && actions == [] && account == old(account) && writes == old(writes)
      ensures Acceptable(r, parses) ==>
        var attempt := AttemptSync(old(account), r, hasAccount, dryRun, ids, servers);
        && account == attempt.outcome.account && actions == attempt.outcome.actions && ok == attempt.ok
        && writes == old(writes) + attempt.outcome.writes
    {
      hide AttemptBalanced, AttemptRecord;
      ok := Preflight(r);
      if !ok {
        return false, [];
      }
      if hasAccount {
        ok, actions := SyncBalanced(r, ids, servers);
      } else {
        ok, actions := SyncRecord(r, ids, servers);
      }
    }
  }

  method FindKept(managed: seq<DNSRecord>, target: string) returns (keep: nat)
    requires managed != []
    ensures keep == KeepIndex(managed, target)
  {
    keep := 0;
    for i := 0 to |managed|
      invariant keep == 0 && forall k | 0 <= k < i :: managed[k].content != target
    {
      if managed[i].content == target {
        return i;
      }
    }
  }

  method CandidatesExcept(r: Config, managed: seq<DNSRecord>, keep: nat) returns (out: seq<Action>)
    requires keep < |managed|
    ensures out == CandidateActions(r, managed[..keep] + managed[keep + 1..])
  {
    hide RecordCandidate;
    out := [];
    for i := 0 to |managed|
      invariant |out| == if i <= keep then i else i - 1
      invariant forall k | 0 <= k < |out| :: out[k] == RecordCandidate(r, managed[if k < keep then k else k + 1])
    {
      if i != keep {
        out := out + [RecordCandidate(r, managed[i])];
      }
    }
    assert |out| == |managed[..keep] + managed[keep + 1..]|;
  }

  method CompareOrigins(a: seq<Origin>, b: seq<Origin>) returns (same: bool)
    ensures same <==> OriginsEqual(a, b)
  {
    if |a| != |b| {
      return false;
    }
    var byName: map<string, Shape> := map[];
    for i := 0 to |a|
      invariant byName == ByName(a[..i])
    {
      assert a[..i + 1][..i] == a[..i];
      byName := byName[a[i].name := ShapeOf(a[i])];
    }
    assert a[..|a|] == a;
    ByNameHolds(a);
    for i := 0 to |b|
      invariant forall k | 0 <= k < i :: b[k].name in byName && byName[b[k].name] == ShapeOf(b[k])
    {
      var o := b[i];
      if o.name !in byName {
        return false;
      }
      if byName[o.name].address != o.address || byName[o.name].weight != o.weight {
        return false;
      }
    }
    same := true;
  }
}
