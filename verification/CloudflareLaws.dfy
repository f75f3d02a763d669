/** What the Cloudflare sync promises over every account: a dry run tells the truth, and a
    sync settles. */
module CloudflareLaws {
  import opened Cloudflare
  import opened Decimal
  import opened Permutations
  import opened RemoteStore
  import opened Routing
  import opened Text

  /** IDs identify, as the server guarantees. */
  ghost predicate WellFormed(a: Account) {
    DistinctIds(a.monitors) && DistinctIds(a.pools) && DistinctIds(a.balancers) && DistinctIds(a.records)
  }

  ghost predicate UnusedMonitor(a: Account, id: string) {
    !HasId(a.monitors, id) && forall p | p in a.pools :: p.body.monitor != id
  }

  ghost predicate UnusedPool(a: Account, id: string) {
    !HasId(a.pools, id) && forall lb | lb in a.balancers :: id !in lb.body.defaultPools
  }

  /** New IDs and dry-run placeholders are neither taken nor referred to. */
  ghost predicate NewIdsUnused(a: Account, ids: NewIds) {
    && UnusedMonitor(a, ids.monitor) && UnusedPool(a, ids.pool)
    && !HasId(a.balancers, ids.balancer) && !HasId(a.records, ids.record)
  }

  ghost predicate PlaceholdersUnused(a: Account) {
    UnusedMonitor(a, DRY_RUN_MONITOR) && UnusedPool(a, DRY_RUN_POOL)
  }

  // ---- Origins ----

  ghost predicate OriginNamesDistinct(origins: seq<Origin>) {
    forall i, j | 0 <= i < j < |origins| :: origins[i].name != origins[j].name
  }

  lemma {:induction false} ByNameHolds(origins: seq<Origin>)
    ensures forall i | 0 <= i < |origins| :: origins[i].name in ByName(origins)
    ensures forall name | name in ByName(origins) ::
              ByName(origins)[name].name == name && ByName(origins)[name] in Shapes(origins)
  {
    if origins != [] {
      var front := origins[..|origins| - 1];
      ByNameHolds(front);
      assert Shapes(origins) == Shapes(front) + [ShapeOf(origins[|origins| - 1])];
    }
  }

  /** For wanted origins with distinct names the comparison is equality up to order, of
      names, addresses and weights. */
  lemma OriginsEqualIff(a: seq<Origin>, b: seq<Origin>)
    requires OriginNamesDistinct(b)
    ensures OriginsEqual(a, b) <==> multiset(Shapes(a)) == multiset(Shapes(b))
  {
    ByNameHolds(a);
    var left, right := Shapes(a), Shapes(b);
    if OriginsEqual(a, b) {
      forall x | x in right ensures x in left {
        var i :| 0 <= i < |right| && right[i] == x;
        assert ByName(a)[b[i].name] in left;
      }
      Pigeonhole(right, left);
    }
    if multiset(left) == multiset(right) {
      assert |left| == |multiset(left)| == |right|;
      forall i | 0 <= i < |b| ensures b[i].name in ByName(a) && ByName(a)[b[i].name] == ShapeOf(b[i]) {
        assert right[i] in multiset(right) && right[i] in multiset(left);
        var k :| 0 <= k < |left| && left[k] == right[i];
        assert a[k].name == b[i].name;
        var found := ByName(a)[b[i].name];
        assert found in multiset(left) && found in multiset(right);
        var j :| 0 <= j < |right| && right[j] == found;
        assert b[j].name == b[i].name;
      }
    }
  }

  /** Renaming an origin touches the table at its old and its new name only. */
  lemma {:induction false} RenamedElsewhere(b: seq<Origin>, i: nat, o: Origin, name: string)
    requires i < |b| && name != b[i].name && name != o.name
    ensures name in ByName(b[i := o]) <==> name in ByName(b)
    ensures name in ByName(b) ==> ByName(b[i := o])[name] == ByName(b)[name]
  {
    var n := |b| - 1;
    if i < n {
      assert b[i := o][..n] == b[..n][i := o];
      RenamedElsewhere(b[..n], i, o, name);
    } else {
      assert b[i := o][..n] == b[..n];
    }
  }

  /** Not even at its old name, if a later origin has that name too. */
  lemma {:induction false} RenamedEarlier(b: seq<Origin>, i: nat, j: nat, o: Origin, name: string)
    requires i < j < |b| && b[i].name == b[j].name && name != o.name
    ensures name in ByName(b[i := o]) <==> name in ByName(b)
    ensures name in ByName(b) ==> ByName(b[i := o])[name] == ByName(b)[name]
  {
    var n := |b| - 1;
    assert b[i := o][..n] == b[..n][i := o] && b[i := o][n] == b[n];
    if j < n {
      RenamedEarlier(b[..n], i, j, o, name);
    } else if name != b[i].name {
      RenamedElsewhere(b[..n], i, o, name);
    }
  }

  lemma {:induction false} NameBeyond(b: seq<Origin>) returns (name: string)
    ensures forall i | 0 <= i < |b| :: |b[i].name| < |name|
  {
    if b == [] {
      name := "x";
    } else {
      var n := |b| - 1;
      var shorter := NameBeyond(b[..n]);
      name := if |shorter| > |b[n].name| then shorter else b[n].name + "x";
    }
  }

  /** With a duplicate name the comparison accepts a list it should not, or refuses one it
      should accept. */
  lemma DuplicateNameFools(b: seq<Origin>, i: nat, j: nat) returns (a: seq<Origin>)
    requires i < j < |b| && b[i].name == b[j].name
    ensures OriginsEqual(a, b) != (multiset(Shapes(a)) == multiset(Shapes(b)))
  {
    a := b;
    if OriginsEqual(b, b) {
      var name := NameBeyond(b);
      var o := Origin(name, "", true, 0.0);
      a := b[i := o];
      forall k | 0 <= k < |b| ensures b[k].name in ByName(a) && ByName(a)[b[k].name] == ShapeOf(b[k]) {
        RenamedEarlier(b, i, j, o, b[k].name);
      }
      assert Shapes(a)[i] in multiset(Shapes(a));
      assert forall x | x in Shapes(b) :: x.name != name;
      assert Shapes(a)[i] !in multiset(Shapes(b));
    }
  }

  /** For wanted origins the comparison is equality up to order, whatever is stored, exactly if
      no two have the same name, which preflight sees to. */
  lemma ComparisonIsExactIff(b: seq<Origin>)
    ensures (forall a :: OriginsEqual(a, b) <==> multiset(Shapes(a)) == multiset(Shapes(b))) <==> OriginNamesDistinct(b)
  {
    hide OriginsEqual;
    if OriginNamesDistinct(b) {
      forall a ensures OriginsEqual(a, b) <==> multiset(Shapes(a)) == multiset(Shapes(b)) {
        OriginsEqualIff(a, b);
      }
    } else {
      var i, j :| 0 <= i < j < |b| && b[i].name == b[j].name;
      var a := DuplicateNameFools(b, i, j);
    }
  }

  lemma WantedOriginsCurrent(r: Config)
    requires DistinctNames(r.endpoints)
    ensures OriginsEqual(ToOrigins(r.endpoints), ToOrigins(r.endpoints))
  {
    OriginsEqualIff(ToOrigins(r.endpoints), ToOrigins(r.endpoints));
  }

  // ---- Delete candidates ----

  /** Two stores agree but for the one entry each of them keeps. */
  ghost predicate AgreeExcept<T>(s: seq<Entry<T>>, keep: string, t: seq<Entry<T>>, keep': string) {
    && |s| == |t|
    && forall i | 0 <= i < |s| :: (s[i].id == keep && t[i].id == keep') || (s[i] == t[i] && s[i].id != keep && s[i].id != keep')
  }

  lemma {:induction false} MonitorCandidatesAgree(s: seq<Entry<Monitor>>, keep: string, t: seq<Entry<Monitor>>, keep': string, r: Config)
    requires AgreeExcept(s, keep, t, keep')
    ensures MonitorCandidates(s, r, keep) == MonitorCandidates(t, r, keep')
  {
    if s != [] {
      MonitorCandidatesAgree(s[..|s| - 1], keep, t[..|t| - 1], keep', r);
    }
  }

  lemma {:induction false} PoolCandidatesAgree(s: seq<Entry<Pool>>, keep: string, t: seq<Entry<Pool>>, keep': string, r: Config)
    requires AgreeExcept(s, keep, t, keep')
    ensures PoolCandidates(s, r, keep) == PoolCandidates(t, r, keep')
  {
    if s != [] {
      PoolCandidatesAgree(s[..|s| - 1], keep, t[..|t| - 1], keep', r);
    }
  }

  /** The real run's store, without the entry it appended if it created one. */
  ghost function Shared<T>(stage: Stage<T>): seq<Entry<T>> {
    if stage.verdict == Create && |stage.store| > 0 then stage.store[..|stage.store| - 1] else stage.store
  }

  /** A real and a dry stage leave stores that agree but for the entry kept. */
  lemma StagesAgree<T>(store: seq<Entry<T>>, actual: Stage<T>, dry: Stage<T>, newId: string, placeholder: string)
    requires DistinctIds(store) && !HasId(store, newId) && !HasId(store, placeholder)
    requires dry.store == store && actual.verdict == dry.verdict
    requires if actual.verdict == Create
             then (exists e: Entry<T> :: e.id == newId && actual.store == store + [e]) && actual.id == newId && dry.id == placeholder
             else actual.id == dry.id && |actual.store| == |store|
                  && forall i | 0 <= i < |store| :: actual.store[i].id == store[i].id && (store[i].id != actual.id ==> actual.store[i] == store[i])
    ensures AgreeExcept(Shared(actual), actual.id, dry.store, dry.id)
    ensures actual.verdict == Create ==> actual.store == Shared(actual) + [actual.store[|store|]] && actual.store[|store|].id == actual.id
  {
  }

  lemma MonitorCandidatesFaithful(a: Account, r: Config, ids: NewIds)
    requires WellFormed(a) && NewIdsUnused(a, ids) && PlaceholdersUnused(a)
    ensures var actual, dry := MonitorStage(a.monitors, r, false, ids.monitor), MonitorStage(a.monitors, r, true, ids.monitor);
            && actual.verdict == dry.verdict
            && MonitorCandidates(actual.store, r, actual.id) == MonitorCandidates(dry.store, r, dry.id)
  {
    var actual, dry := MonitorStage(a.monitors, r, false, ids.monitor), MonitorStage(a.monitors, r, true, ids.monitor);
    StagesAgree(a.monitors, actual, dry, ids.monitor, DRY_RUN_MONITOR);
    MonitorCandidatesAgree(Shared(actual), actual.id, dry.store, dry.id, r);
  }

  /** A pool cannot already refer to a monitor that the real run is about to create, nor to
      the dry run's placeholder, so both find it equally out of date. */
  lemma PoolVerdictFaithful(a: Account, r: Config, ids: NewIds, monitor: string, dryMonitor: string)
    requires WellFormed(a) && NewIdsUnused(a, ids) && PlaceholdersUnused(a)
    requires monitor == dryMonitor || (UnusedMonitor(a, monitor) && UnusedMonitor(a, dryMonitor))
    ensures var actual, dry := PoolStage(a.pools, r, monitor, false, ids.pool), PoolStage(a.pools, r, dryMonitor, true, ids.pool);
            && actual.verdict == dry.verdict
            && (actual.id == dry.id || (UnusedPool(a, actual.id) && UnusedPool(a, dry.id)))
            && PoolCandidates(actual.store, r, actual.id) == PoolCandidates(dry.store, r, dry.id)
  {
    hide *;
    PoolIdFaithful(a, r, ids, monitor, dryMonitor);
    PoolCandidatesFaithful(a, r, ids, monitor, dryMonitor);
  }

  lemma PoolIdFaithful(a: Account, r: Config, ids: NewIds, monitor: string, dryMonitor: string)
    requires NewIdsUnused(a, ids) && PlaceholdersUnused(a)
    requires monitor == dryMonitor || (UnusedMonitor(a, monitor) && UnusedMonitor(a, dryMonitor))
    ensures var actual, dry := PoolStage(a.pools, r, monitor, false, ids.pool), PoolStage(a.pools, r, dryMonitor, true, ids.pool);
            actual.verdict == dry.verdict && (actual.id == dry.id || (UnusedPool(a, actual.id) && UnusedPool(a, dry.id)))
  {
    hide OriginsEqual, ToOrigins, HasId, Reconcile;
    DryVerdictAgrees(a.pools, PoolMatches(r), PoolCurrent(r, monitor), PoolCurrent(r, dryMonitor),
                     _ => WantedPool(r, monitor), _ => WantedPool(r, dryMonitor), WantedPool(r, monitor), WantedPool(r, dryMonitor),
                     ids.pool, DRY_RUN_POOL);
  }

  lemma PoolCandidatesFaithful(a: Account, r: Config, ids: NewIds, monitor: string, dryMonitor: string)
    requires WellFormed(a) && NewIdsUnused(a, ids) && PlaceholdersUnused(a)
    requires PoolStage(a.pools, r, monitor, false, ids.pool).verdict == PoolStage(a.pools, r, dryMonitor, true, ids.pool).verdict
    ensures var actual, dry := PoolStage(a.pools, r, monitor, false, ids.pool), PoolStage(a.pools, r, dryMonitor, true, ids.pool);
            PoolCandidates(actual.store, r, actual.id) == PoolCandidates(dry.store, r, dry.id)
  {
    hide AgreeExcept, OriginsEqual, ToOrigins;
    var actual, dry := PoolStage(a.pools, r, monitor, false, ids.pool), PoolStage(a.pools, r, dryMonitor, true, ids.pool);
    StagesAgree(a.pools, actual, dry, ids.pool, DRY_RUN_POOL);
    PoolCandidatesAgree(Shared(actual), actual.id, dry.store, dry.id, r);
  }

  lemma BalancerVerdictFaithful(a: Account, r: Config, ids: NewIds, pool: string, dryPool: string)
    requires pool == dryPool || (UnusedPool(a, pool) && UnusedPool(a, dryPool))
    ensures BalancerStage(a.balancers, r, pool, false, ids.balancer).verdict
         == BalancerStage(a.balancers, r, dryPool, true, ids.balancer).verdict
  {
    forall e | e in a.balancers ensures BalancerCurrent(r, pool)(e.body) == BalancerCurrent(r, dryPool)(e.body) {
      assert pool != dryPool && |e.body.defaultPools| > 0 ==> e.body.defaultPools[0] in e.body.defaultPools;
    }
    DryVerdictAgrees(a.balancers, BalancerMatches(r), BalancerCurrent(r, pool), BalancerCurrent(r, dryPool),
                     _ => WantedBalancer(r, pool), _ => WantedBalancer(r, dryPool), WantedBalancer(r, pool), WantedBalancer(r, dryPool),
                     ids.balancer, "");
  }

  lemma MonitorIdFaithful(a: Account, r: Config, ids: NewIds)
    requires NewIdsUnused(a, ids) && PlaceholdersUnused(a)
    ensures var actual, dry := MonitorStage(a.monitors, r, false, ids.monitor).id, MonitorStage(a.monitors, r, true, ids.monitor).id;
            actual == dry || (UnusedMonitor(a, actual) && UnusedMonitor(a, dry))
  {
  }

  lemma DryStagesAreSilent(a: Account, r: Config, ids: NewIds, monitor: string, pool: string)
    ensures var m := MonitorStage(a.monitors, r, true, ids.monitor); m.store == a.monitors && !m.wrote
    ensures var p := PoolStage(a.pools, r, monitor, true, ids.pool); p.store == a.pools && !p.wrote
    ensures var b := BalancerStage(a.balancers, r, pool, true, ids.balancer); b.store == a.balancers && !b.wrote
  {
  }

  /** In load-balancer mode a dry run writes nothing and reports exactly the actions of the
      real run, in order, delete candidates included. */
  lemma DryRunIsFaithful(a: Account, r: Config, ids: NewIds)
    requires WellFormed(a) && NewIdsUnused(a, ids) && PlaceholdersUnused(a)
    ensures var dry := SyncBalanced(a, r, true, ids);
            dry.account == a && dry.writes == 0 && dry.actions == SyncBalanced(a, r, false, ids).actions
  {
    hide MonitorStage, PoolStage, BalancerStage, MonitorAction, PoolAction, BalancerAction, MonitorCandidates, PoolCandidates,
         WellFormed, NewIdsUnused, PlaceholdersUnused, UnusedMonitor, UnusedPool;
    var monitor, dryMonitor := MonitorStage(a.monitors, r, false, ids.monitor).id, MonitorStage(a.monitors, r, true, ids.monitor).id;
    var pool, dryPool := PoolStage(a.pools, r, monitor, false, ids.pool).id, PoolStage(a.pools, r, dryMonitor, true, ids.pool).id;
    MonitorCandidatesFaithful(a, r, ids);
    MonitorIdFaithful(a, r, ids);
    PoolVerdictFaithful(a, r, ids, monitor, dryMonitor);
    BalancerVerdictFaithful(a, r, ids, pool, dryPool);
    DryStagesAreSilent(a, r, ids, dryMonitor, dryPool);
  }

  // ---- Convergence ----

  /** A second sync of the same routing, real or dry, writes nothing, changes nothing and
      reports the three resources as no-ops, with the delete candidates of the first. */
  lemma BalancedSyncSettles(a: Account, r: Config, ids: NewIds, dryRun: bool, ids': NewIds, parses: string -> bool)
    requires WellFormed(a) && NewIdsUnused(a, ids) && Acceptable(r, parses)
    ensures var first := SyncBalanced(a, r, false, ids);
            var second := SyncBalanced(first.account, r, dryRun, ids');
            && second.account == first.account && second.writes == 0
            && second.actions == [MonitorAction(r, NoOp), PoolAction(r, NoOp), BalancerAction(r, NoOp)] + first.actions[3..]
            && WellFormed(first.account)
  {
    StagesSettle(a, r, ids, parses);
    hide MonitorStage, PoolStage, BalancerStage, MonitorAction, PoolAction, BalancerAction, MonitorCandidates, PoolCandidates,
         Acceptable, NewIdsUnused;
  }

  /** The same for the DNS record. */
  lemma RecordSyncSettles(a: Account, r: Config, ids: NewIds, dryRun: bool, ids': NewIds)
    requires DistinctIds(a.records) && !HasId(a.records, ids.record) && r.endpoints != []
    ensures var first := SyncRecord(a, r, false, ids);
            var second := SyncRecord(first.account, r, dryRun, ids');
            && second.account == first.account && second.writes == 0
            && second.actions == [RecordAction(r, NoOp)] + first.actions[1..]
            && DistinctIds(first.account.records) && first.account == a.(records := first.account.records)
  {
    ReconcileSettles(a.records, RecordMatches(r), RecordCurrent(r), (rec: DNSRecord) => WantedRecord(r, rec.comment),
                     WantedRecord(r, MANAGED_BY), ids.record, "", dryRun, ids'.record);
  }

  // ---- Calls that fail ----

  /** Without failures the attempt is the sync. */
  lemma UnfailingAttempt(a: Account, r: Config, hasAccount: bool, dryRun: bool, ids: NewIds, servers: Servers)
    requires r.endpoints != [] && AttemptSync(a, r, hasAccount, dryRun, ids, servers).ok
    ensures AttemptSync(a, r, hasAccount, dryRun, ids, servers).outcome == Cloudflare.Sync(a, r, hasAccount, dryRun, ids)
  {
    hide MonitorStage, PoolStage, BalancerStage, RecordStage, MonitorAction, PoolAction, BalancerAction, RecordAction,
         MonitorCandidates, PoolCandidates, RecordCandidates;
  }

  /** The account with the first n stages of the chain done. */
  ghost function DoneUpTo(a: Account, r: Config, ids: NewIds, n: nat): Account {
    var monitor := MonitorStage(a.monitors, r, false, ids.monitor);
    var pool := PoolStage(a.pools, r, monitor.id, false, ids.pool);
    var balancer := BalancerStage(a.balancers, r, pool.id, false, ids.balancer);
    Account(if n > 0 then monitor.store else a.monitors, if n > 1 then pool.store else a.pools,
            if n > 2 then balancer.store else a.balancers, a.records)
  }

  lemma AttemptStops(a: Account, r: Config, ids: NewIds, servers: Servers) returns (n: nat)
    ensures var interrupted := AttemptBalanced(a, r, false, ids, servers).outcome;
            && n <= 3 && interrupted.account == DoneUpTo(a, r, ids, n) && interrupted.actions <= SyncBalanced(a, r, false, ids).actions
  {
    hide MonitorStage, PoolStage, BalancerStage, MonitorAction, PoolAction, BalancerAction, MonitorCandidates, PoolCandidates;
    n := |AttemptBalanced(a, r, false, ids, servers).outcome.actions|;
    n := if n > 3 then 3 else n;
  }

  lemma ResumedFrom(a: Account, r: Config, ids: NewIds, n: nat, parses: string -> bool)
    requires WellFormed(a) && NewIdsUnused(a, ids) && Acceptable(r, parses)
    ensures DoneUpTo(DoneUpTo(a, r, ids, n), r, ids, 3) == DoneUpTo(a, r, ids, 3)
  {
    StagesSettle(a, r, ids, parses);
    hide MonitorStage, PoolStage, BalancerStage, Acceptable, WellFormed, NewIdsUnused;
  }

  lemma AllDone(a: Account, r: Config, ids: NewIds)
    ensures SyncBalanced(a, r, false, ids).account == DoneUpTo(a, r, ids, 3)
  {
    hide MonitorStage, PoolStage, BalancerStage, MonitorAction, PoolAction, BalancerAction, MonitorCandidates, PoolCandidates;
  }

  /** Wherever a call of the chain fails, the stages before it are done and none after it, and
      syncing again without failures leads where the first sync would have led, with the IDs
      that had not been given out. */
  lemma InterruptedSyncResumes(a: Account, r: Config, ids: NewIds, servers: Servers, parses: string -> bool)
    requires WellFormed(a) && NewIdsUnused(a, ids) && Acceptable(r, parses)
    ensures var interrupted := AttemptBalanced(a, r, false, ids, servers).outcome;
            && interrupted.actions <= SyncBalanced(a, r, false, ids).actions
            && SyncBalanced(interrupted.account, r, false, ids).account == SyncBalanced(a, r, false, ids).account
  {
    hide *;
    var n := AttemptStops(a, r, ids, servers);
    ResumedFrom(a, r, ids, n, parses);
    AllDone(a, r, ids);
    AllDone(DoneUpTo(a, r, ids, n), r, ids);
  }

  /** Each stage of the chain, run again on what it left, does nothing and passes on the same ID. */
  lemma StagesSettle(a: Account, r: Config, ids: NewIds, parses: string -> bool)
    requires WellFormed(a) && NewIdsUnused(a, ids) && Acceptable(r, parses)
    ensures var monitor := MonitorStage(a.monitors, r, false, ids.monitor);
            var pool := PoolStage(a.pools, r, monitor.id, false, ids.pool);
            var balancer := BalancerStage(a.balancers, r, pool.id, false, ids.balancer);
            && DistinctIds(monitor.store) && DistinctIds(pool.store) && DistinctIds(balancer.store)
            && (forall dryRun, newId :: MonitorStage(monitor.store, r, dryRun, newId) == Stage(monitor.store, monitor.id, NoOp, false))
            && (forall dryRun, newId :: PoolStage(pool.store, r, monitor.id, dryRun, newId) == Stage(pool.store, pool.id, NoOp, false))
            && (forall dryRun, newId :: BalancerStage(balancer.store, r, pool.id, dryRun, newId) == Stage(balancer.store, balancer.id, NoOp, false))
  {
    hide *;
    WellFormedParts(a, ids);
    AcceptableNames(r, parses);
    var monitor := MonitorStage(a.monitors, r, false, ids.monitor);
    MonitorSettles(a.monitors, r, ids.monitor);
    PoolSettles(a.pools, r, monitor.id, ids.pool);
    BalancerSettles(a.balancers, r, PoolStage(a.pools, r, monitor.id, false, ids.pool).id, ids.balancer);
  }

  lemma WellFormedParts(a: Account, ids: NewIds)
    requires WellFormed(a) && NewIdsUnused(a, ids)
    ensures DistinctIds(a.monitors) && DistinctIds(a.pools) && DistinctIds(a.balancers)
    ensures !HasId(a.monitors, ids.monitor) && !HasId(a.pools, ids.pool) && !HasId(a.balancers, ids.balancer)
  {
    hide DistinctIds, HasId;
  }

  lemma AcceptableNames(r: Config, parses: string -> bool)
    requires Acceptable(r, parses)
    ensures DistinctNames(r.endpoints)
  {
    hide DistinctNames;
  }

  lemma MonitorSettles(store: seq<Entry<Monitor>>, r: Config, newId: string)
    requires DistinctIds(store) && !HasId(store, newId)
    ensures var first := MonitorStage(store, r, false, newId);
            && DistinctIds(first.store)
            && forall dryRun, newId' :: MonitorStage(first.store, r, dryRun, newId') == Stage(first.store, first.id, NoOp, false)
  {
    hide Reconcile, DistinctIds, HasId;
    var first := MonitorStage(store, r, false, newId);
    ReconcileSettles(store, MonitorMatches(r), MonitorCurrent(r), _ => WantedMonitor(r), WantedMonitor(r),
                     newId, DRY_RUN_MONITOR, false, newId);
    forall dryRun, newId'
      ensures MonitorStage(first.store, r, dryRun, newId') == Stage(first.store, first.id, NoOp, false)
    {
      ReconcileSettles(store, MonitorMatches(r), MonitorCurrent(r), _ => WantedMonitor(r), WantedMonitor(r),
                       newId, DRY_RUN_MONITOR, dryRun, newId');
    }
  }

  lemma PoolSettles(store: seq<Entry<Pool>>, r: Config, monitor: string, newId: string)
    requires DistinctIds(store) && !HasId(store, newId) && DistinctNames(r.endpoints)
    ensures var first := PoolStage(store, r, monitor, false, newId);
            && DistinctIds(first.store)
            && forall dryRun, newId' :: PoolStage(first.store, r, monitor, dryRun, newId') == Stage(first.store, first.id, NoOp, false)
  {
    WantedOriginsCurrent(r);
    hide Reconcile, DistinctIds, HasId, OriginsEqual, ToOrigins, DistinctNames;
    var first := PoolStage(store, r, monitor, false, newId);
    ReconcileSettles(store, PoolMatches(r), PoolCurrent(r, monitor), _ => WantedPool(r, monitor), WantedPool(r, monitor),
                     newId, DRY_RUN_POOL, false, newId);
    forall dryRun, newId'
      ensures PoolStage(first.store, r, monitor, dryRun, newId') == Stage(first.store, first.id, NoOp, false)
    {
      ReconcileSettles(store, PoolMatches(r), PoolCurrent(r, monitor), _ => WantedPool(r, monitor), WantedPool(r, monitor),
                       newId, DRY_RUN_POOL, dryRun, newId');
    }
  }

  lemma BalancerSettles(store: seq<Entry<LoadBalancer>>, r: Config, pool: string, newId: string)
    requires DistinctIds(store) && !HasId(store, newId)
    ensures var first := BalancerStage(store, r, pool, false, newId);
            && DistinctIds(first.store)
            && forall dryRun, newId' :: BalancerStage(first.store, r, pool, dryRun, newId') == Stage(first.store, first.id, NoOp, false)
  {
    hide Reconcile, DistinctIds, HasId;
    var first := BalancerStage(store, r, pool, false, newId);
    ReconcileSettles(store, BalancerMatches(r), BalancerCurrent(r, pool), _ => WantedBalancer(r, pool), WantedBalancer(r, pool),
                     newId, "", false, newId);
    forall dryRun, newId'
      ensures BalancerStage(first.store, r, pool, dryRun, newId') == Stage(first.store, first.id, NoOp, false)
    {
      ReconcileSettles(store, BalancerMatches(r), BalancerCurrent(r, pool), _ => WantedBalancer(r, pool), WantedBalancer(r, pool),
                       newId, "", dryRun, newId');
    }
  }

  // ---- Dry runs in DNS mode ----

  lemma {:induction false} ManagedMatches(store: seq<Entry<DNSRecord>>, r: Config)
    requires First(store, RecordMatches(r)) == |store|
    ensures Managed(store, r) == []
  {
    if store != [] {
      var front := store[..|store| - 1];
      assert !RecordMatches(r)(store[|store| - 1].body);
      FirstIs(front, RecordMatches(r), |front|);
      ManagedMatches(front, r);
    }
  }

  /** `after` is `before` with its first element revised, if that one is managed. */
  ghost predicate FirstRevised(found: DNSRecord, revised: DNSRecord, r: Config, before: seq<DNSRecord>, after: seq<DNSRecord>) {
    if IsManaged(found, r) then before != [] && before[0] == found && after == [revised] + before[1..] else after == before
  }

  lemma RevisionAppends(found: DNSRecord, revised: DNSRecord, r: Config, before: seq<DNSRecord>, after: seq<DNSRecord>, more: seq<DNSRecord>)
    requires FirstRevised(found, revised, r, before, after)
    ensures FirstRevised(found, revised, r, before + more, after + more)
  {
    if IsManaged(found, r) {
      assert (before + more)[1..] == before[1..] + more;
    }
  }

  lemma ManagedGrows(front: seq<Entry<DNSRecord>>, last: Entry<DNSRecord>, r: Config)
    ensures Managed(front + [last], r) == Managed(front, r) + (if IsManaged(last.body, r) then [last.body] else [])
  {
    assert (front + [last])[..|front|] == front;
  }

  lemma ManagedAfterLastUpdate(front: seq<Entry<DNSRecord>>, last: Entry<DNSRecord>, r: Config, revised: DNSRecord)
    requires r.endpoints != [] && First(front, RecordMatches(r)) == |front| && RecordMatches(r)(last.body)
    requires revised == WantedRecord(r, last.body.comment)
    ensures FirstRevised(last.body, revised, r, Managed(front + [last], r), Managed(front + [Entry(last.id, revised)], r))
  {
    ManagedMatches(front, r);
    ManagedGrows(front, last, r);
    ManagedGrows(front, Entry(last.id, revised), r);
  }

  lemma ReplaceInFront<T>(front: seq<Entry<T>>, last: Entry<T>, i: nat, body: T)
    requires i < |front| && DistinctIds(front + [last])
    ensures DistinctIds(front)
    ensures Replace(front + [last], front[i].id, body) == Replace(front, front[i].id, body) + [last]
  {
    assert forall j, k | 0 <= j < k < |front| :: (front + [last])[j] == front[j] && (front + [last])[k] == front[k];
    assert (front + [last])[i] == front[i] && (front + [last])[|front|] == last;
  }

  lemma ReplaceLast<T>(front: seq<Entry<T>>, last: Entry<T>, body: T)
    requires DistinctIds(front + [last])
    ensures Replace(front + [last], last.id, body) == front + [Entry(last.id, body)]
  {
    assert (front + [last])[|front|] == last;
    assert forall j | 0 <= j < |front| :: (front + [last])[j] == front[j];
  }

  /** Revising the first match leaves its management alone, and if it is managed it is the
      first managed record. */
  lemma {:induction false} ManagedAfterUpdate(store: seq<Entry<DNSRecord>>, r: Config, i: nat, revised: DNSRecord)
    requires r.endpoints != [] && DistinctIds(store) && i < |store| && i == First(store, RecordMatches(r))
    requires revised == WantedRecord(r, store[i].body.comment)
    ensures FirstRevised(store[i].body, revised, r, Managed(store, r), Managed(Replace(store, store[i].id, revised), r))
  {
    var front, last, id := store[..|store| - 1], store[|store| - 1], store[i].id;
    assert store == front + [last];
    FirstIs(front, RecordMatches(r), i);
    if i < |front| {
      ReplaceInFront(front, last, i, revised);
      ManagedAfterUpdate(front, r, i, revised);
      ManagedGrows(front, last, r);
      ManagedGrows(Replace(front, id, revised), last, r);
      RevisionAppends(store[i].body, revised, r, Managed(front, r), Managed(Replace(front, id, revised), r),
                      if IsManaged(last.body, r) then [last.body] else []);
    } else {
      ReplaceLast(front, last, revised);
      ManagedAfterLastUpdate(front, last, r, revised);
    }
  }

  lemma TagIsTrimmed()
    ensures TrimSpace(MANAGED_BY) == MANAGED_BY
  {
    assert !IsSpace(MANAGED_BY[0]) && !IsSpace(MANAGED_BY[|MANAGED_BY| - 1]);
  }

  /** How the real run changes the managed records a dry run sees: not at all, or it creates
      the first, or it revises the first. */
  ghost predicate ManagedChange(before: seq<DNSRecord>, after: seq<DNSRecord>, stage: Stage<DNSRecord>, store: seq<Entry<DNSRecord>>, r: Config)
    requires r.endpoints != []
  {
    match stage.verdict
    case NoOp => after == before
    case Create => before == [] && |after| == 1
    case Update =>
      var i := First(store, RecordMatches(r));
      && i < |store|
      && var found := store[i].body;
         if IsManaged(found, r)
         then before != [] && before[0] == found && after == [WantedRecord(r, found.comment)] + before[1..]
         else after == before
  }

  lemma ManagedAfterRun(a: Account, r: Config, ids: NewIds)
    requires DistinctIds(a.records) && r.endpoints != []
    ensures var stage := RecordStage(a.records, r, false, ids.record);
            ManagedChange(Managed(a.records, r), Managed(stage.store, r), stage, a.records, r)
  {
    var stage := RecordStage(a.records, r, false, ids.record);
    var i := First(a.records, RecordMatches(r));
    if stage.verdict == Create {
      ManagedMatches(a.records, r);
      TagIsTrimmed();
      assert stage.store[..|a.records|] == a.records;
    } else if stage.verdict == Update {
      ManagedAfterUpdate(a.records, r, i, WantedRecord(r, a.records[i].body.comment));
    }
  }

  /** In DNS mode a dry run reports the real main action and as many delete candidates. */
  lemma RecordDryRunAgrees(a: Account, r: Config, ids: NewIds)
    requires DistinctIds(a.records) && r.endpoints != []
    ensures var actual, dry := SyncRecord(a, r, false, ids), SyncRecord(a, r, true, ids);
            && dry.account == a && dry.writes == 0
            && dry.actions[0] == actual.actions[0] && |dry.actions| == |actual.actions|
  {
    ManagedAfterRun(a, r, ids);
    hide Managed, RecordMatches, RecordCurrent, IsManaged, KeepIndex, RecordCandidate, RecordAction;
  }

  /** The first match is a managed record about to get a target that a later managed one
      already has: the dry run would keep that one, the real run keeps the updated one. */
  predicate KeepsAnother(a: Account, r: Config)
    requires r.endpoints != []
  {
    var i := First(a.records, RecordMatches(r));
    && i < |a.records| && IsManaged(a.records[i].body, r) && a.records[i].body.content != Content(r)
    && exists k :: 0 <= k < |Managed(a.records, r)| && Managed(a.records, r)[k].content == Content(r)
  }

  lemma CandidateTellsContent(r: Config, x: DNSRecord, y: DNSRecord)
    requires RecordCandidate(r, x) == RecordCandidate(r, y)
    ensures x.content == y.content
  {
    var prefix := "managed duplicate CNAME -> ";
    var left, right := prefix + x.content + " (TTL " + Print(x.ttl), prefix + y.content + " (TTL " + Print(y.ttl);
    assert left == (left + ")")[..|left + ")"| - 1] && right == (right + ")")[..|right + ")"| - 1];
    PrintedLastSplits(prefix + x.content, x.ttl, prefix + y.content, y.ttl, " (TTL ");
    assert x.content == (prefix + x.content)[|prefix|..] && y.content == (prefix + y.content)[|prefix|..];
  }

  /** `after` is `before` with its first record given the target. */
  predicate FirstRetargeted(before: seq<DNSRecord>, after: seq<DNSRecord>, target: string) {
    before != [] && after != [] && after[0].content == target && after[1..] == before[1..]
  }

  /** Just before the one kept, the excess before has its predecessor where the excess after
      has the one kept itself. */
  lemma ExcessShifts(before: seq<DNSRecord>, after: seq<DNSRecord>, target: string) returns (k: nat)
    requires FirstRetargeted(before, after, target) && before[0].content != target
    requires exists k :: 0 <= k < |before| && before[k].content == target
    ensures 0 < k < |before| && before[k].content == target && before[k - 1].content != target
    ensures |Excess(before, target)| == |Excess(after, target)| == |before| - 1
    ensures Excess(before, target)[k - 1] == before[k - 1] && Excess(after, target)[k - 1] == before[k]
  {
    hide KeepIndex;
    k := KeepIndex(before, target);
    assert KeepIndex(after, target) == 0;
    assert |before| - 1 == |before[1..]| == |after[1..]| == |after| - 1;
    assert before[k] == before[1..][k - 1] == after[1..][k - 1];
    OneOut(before, k, k - 1);
    OneOut(after, 0, k - 1);
  }

  lemma OneOut<T>(s: seq<T>, k: nat, j: nat)
    requires k < |s| && j < |s| - 1
    ensures |s[..k] + s[k + 1..]| == |s| - 1 && (s[..k] + s[k + 1..])[j] == if j < k then s[j] else s[j + 1]
  {
  }

  /** If another one had the target, it is listed as excess after but not before. */
  lemma AnotherKeptDiffers(r: Config, before: seq<DNSRecord>, after: seq<DNSRecord>, target: string)
    requires FirstRetargeted(before, after, target) && before[0].content != target
    requires exists k :: 0 <= k < |before| && before[k].content == target
    ensures CandidateActions(r, Excess(before, target)) != CandidateActions(r, Excess(after, target))
  {
    hide Excess, RecordCandidate, FirstRetargeted, KeepIndex;
    var k := ExcessShifts(before, after, target);
    var dry, actual := CandidateActions(r, Excess(before, target)), CandidateActions(r, Excess(after, target));
    assert dry[k - 1] == RecordCandidate(r, before[k - 1]) && actual[k - 1] == RecordCandidate(r, before[k]);
    if dry[k - 1] == actual[k - 1] {
      CandidateTellsContent(r, before[k - 1], before[k]);
    }
  }

  lemma SameKept(before: seq<DNSRecord>, after: seq<DNSRecord>, target: string)
    requires FirstRetargeted(before, after, target)
    requires before[0].content == target || !exists k :: 0 <= k < |before| && before[k].content == target
    ensures Excess(before, target) == Excess(after, target)
  {
    assert KeepIndex(before, target) == 0 && KeepIndex(after, target) == 0;
    assert |before| == |before[1..]| + 1 && |after| == |after[1..]| + 1;
    assert before[..0] + before[1..] == before[1..] && after[..0] + after[1..] == after[1..];
    hide KeepIndex;
  }

  lemma ExcessDiffersIff(a: Account, r: Config, ids: NewIds)
    requires DistinctIds(a.records) && r.endpoints != []
    ensures var before, after := Managed(a.records, r), Managed(RecordStage(a.records, r, false, ids.record).store, r);
            CandidateActions(r, Excess(before, Content(r))) == CandidateActions(r, Excess(after, Content(r))) <==> !KeepsAnother(a, r)
  {
    ManagedAfterRun(a, r, ids);
    var stage := RecordStage(a.records, r, false, ids.record);
    var before, after := Managed(a.records, r), Managed(stage.store, r);
    var i := First(a.records, RecordMatches(r));
    hide Managed, KeepIndex, Excess, CandidateActions, IsManaged;
    if stage.verdict == Update && IsManaged(a.records[i].body, r) {
      assert FirstRetargeted(before, after, Content(r));
      if KeepsAnother(a, r) {
        AnotherKeptDiffers(r, before, after, Content(r));
      } else {
        SameKept(before, after, Content(r));
      }
    } else if stage.verdict == Create {
      OneHasNoExcess(before, after, Content(r));
    } else {
      assert after == before;
    }
  }

  lemma OneHasNoExcess(before: seq<DNSRecord>, after: seq<DNSRecord>, target: string)
    requires |before| <= 1 && |after| <= 1
    ensures Excess(before, target) == Excess(after, target)
  {
  }

  /** Exactly then do the candidates of a DNS dry run differ from those of the real run. */
  lemma RecordDryRunFaithfulIff(a: Account, r: Config, ids: NewIds)
    requires DistinctIds(a.records) && r.endpoints != []
    ensures SyncRecord(a, r, true, ids).actions == SyncRecord(a, r, false, ids).actions <==> !KeepsAnother(a, r)
  {
    ExcessDiffersIff(a, r, ids);
    RecordDryRunAgrees(a, r, ids);
    DryRecordIsSilent(a, r, ids);
    hide *;
    ActionsSplit(a, r, true, ids);
    ActionsSplit(a, r, false, ids);
  }

  lemma DryRecordIsSilent(a: Account, r: Config, ids: NewIds)
    requires r.endpoints != []
    ensures RecordStage(a.records, r, true, ids.record).store == a.records
  {
  }

  /** The main action, and then the candidates of the store left behind. */
  lemma ActionsSplit(a: Account, r: Config, dryRun: bool, ids: NewIds)
    requires r.endpoints != []
    ensures var actions := SyncRecord(a, r, dryRun, ids).actions;
            && actions != [] && actions == [actions[0]] + actions[1..]
            && actions[1..] == CandidateActions(r, Excess(Managed(RecordStage(a.records, r, dryRun, ids.record).store, r), Content(r)))
  {
    hide Managed, Excess, CandidateActions, RecordStage, RecordAction;
  }
}
