/** What a real sync leaves stored, field by field, and which resources it reports as delete
    candidates. */
module CloudflareStored {
  import opened Cloudflare
  import opened CloudflareLaws
  import opened Decimal
  import opened RemoteStore
  import opened Routing
  import opened Selections
  import opened Text
  import opened Wrappers

  ghost predicate IsFirst<T(!new)>(store: seq<Entry<T>>, i: nat, own: T -> bool) {
    i < |store| && own(store[i].body) && forall k | 0 <= k < i :: !own(store[k].body)
  }

  /** Where a real stage leaves the entry it is about: the first of its own, up to date, as it
      was or as wanted. */
  lemma StageLeaves<T(!new)>(store: seq<Entry<T>>, own: T -> bool, current: T -> bool, revise: T -> T, wanted: T,
                             newId: string, placeholder: string) returns (i: nat)
    requires DistinctIds(store) && own(wanted) && current(wanted) && forall t | own(t) :: own(revise(t)) && current(revise(t))
    ensures var stage := Reconcile(store, own, current, revise, wanted, false, newId, placeholder);
            && IsFirst(stage.store, i, own) && stage.id == stage.store[i].id && current(stage.store[i].body)
            && if i >= |store| then stage.verdict == Create && stage.store[i].body == wanted
               else IsFirst(store, i, own)
                    && if stage.verdict == NoOp then stage.store[i] == store[i] else stage.store[i].body == revise(store[i].body)
  {
    i := First(store, own);
  }

  // ---- The chain ----

  predicate OriginOf(o: Origin, ep: Endpoint) {
    && o.name == ep.name && o.address == ep.url
    && (ep.weight > 0 ==> o.weight == ep.weight as real) && (ep.weight <= 0 ==> o.weight == 1.0)
  }

  /** One origin for each endpoint and no other. */
  ghost predicate OriginsOf(origins: seq<Origin>, endpoints: seq<Endpoint>) {
    && |origins| == |endpoints|
    && (forall ep | ep in endpoints :: exists o :: o in origins && OriginOf(o, ep))
    && (forall o | o in origins :: exists ep :: ep in endpoints && OriginOf(o, ep))
  }

  predicate SteersBy(policy: string, strategy: string) {
    match Lower(strategy)
    case "latency" => policy == "dynamic_latency"
    case "failover" => policy == "off"
    case _ => policy == "random"
  }

  function OwnMonitor(r: Config): Monitor -> bool {
    (m: Monitor) => m.description == "managed-by:runfabric service=" + r.service
  }

  function OwnPool(r: Config): Pool -> bool {
    (p: Pool) => p.name == r.service + (if r.stage == "" then "" else "-" + r.stage) + "-pool"
  }

  function OwnBalancer(r: Config): LoadBalancer -> bool {
    (lb: LoadBalancer) => lb.name == r.hostname
  }

  /** The monitor probes the health path, the pool has the endpoints and this monitor, the load
      balancer this pool; each is the first of its own. */
  ghost predicate Chained(a: Account, r: Config, m: nat, p: nat, b: nat) {
    && IsFirst(a.monitors, m, OwnMonitor(r)) && IsFirst(a.pools, p, OwnPool(r)) && IsFirst(a.balancers, b, OwnBalancer(r))
    && var monitor, pool, balancer := a.monitors[m].body, a.pools[p].body, a.balancers[b].body;
       && monitor.kind == "https" && monitor.path == (if r.healthPath == "" then "/health" else r.healthPath)
       && OriginsOf(pool.origins, r.endpoints) && pool.monitor == a.monitors[m].id
       && balancer.defaultPools != [] && balancer.defaultPools[0] == a.pools[p].id
       && SteersBy(balancer.steeringPolicy, r.strategy) && balancer.ttl == r.ttl
  }

  predicate FreshMonitor(m: Monitor) {
    m.interval == 60 && m.timeout == 5 && m.retries == 2
  }

  predicate FreshPool(p: Pool, r: Config) {
    p.description == "managed-by:runfabric service=" + r.service + " stage=" + r.stage && p.enabled
    && forall o | o in p.origins :: o.enabled
  }

  predicate FreshBalancer(lb: LoadBalancer, r: Config, pool: string) {
    && lb.description == "managed-by:runfabric service=" + r.service + " stage=" + r.stage
    && lb.fallbackPool == pool && lb.defaultPools == [pool] && lb.proxied && lb.enabled
  }

  /** What was not stored like this before was written, with all its other fields too. */
  ghost predicate WrittenWhole(before: Account, a: Account, r: Config, m: nat, p: nat, b: nat)
    requires m < |a.monitors| && p < |a.pools| && b < |a.balancers|
  {
    && (a.monitors[m] in before.monitors || FreshMonitor(a.monitors[m].body))
    && (a.pools[p] in before.pools || FreshPool(a.pools[p].body, r))
    && (a.balancers[b] in before.balancers || FreshBalancer(a.balancers[b].body, r, a.pools[p].id))
  }

  // ---- Their delete candidates ----

  function StaleMonitor(r: Config, used: string): Entry<Monitor> -> bool {
    (e: Entry<Monitor>) => e.id != used && TrimSpace(e.body.description) == "managed-by:runfabric service=" + r.service
  }

  function StalePool(r: Config, used: string): Entry<Pool> -> bool {
    (e: Entry<Pool>) =>
      e.id != used && TrimSpace(e.body.description) == "managed-by:runfabric service=" + r.service + " stage=" + r.stage
  }

  function NamesMonitor(r: Config): Entry<Monitor> -> Action {
    (e: Entry<Monitor>) => Action("lb_monitor", "delete-candidate", r.service + (if r.stage == "" then "" else "-" + r.stage) + "-monitor",
                                  "managed monitor id=" + e.id + " path=" + e.body.path)
  }

  function NamesPool(r: Config): Entry<Pool> -> Action {
    (e: Entry<Pool>) => Action("lb_pool", "delete-candidate", r.service + (if r.stage == "" then "" else "-" + r.stage) + "-pool",
                               "managed pool id=" + e.id + " origins=" + Print(|e.body.origins|))
  }

  lemma NameParts(r: Config, suffix: string)
    ensures Suffixed(r, suffix) == r.service + (if r.stage == "" then "" else "-" + r.stage) + suffix
  {
    if r.stage == "" {
      assert r.service + "" == r.service;
    } else {
      assert r.service + "-" + r.stage + suffix == r.service + ("-" + r.stage) + suffix;
    }
  }

  lemma TagParts(r: Config)
    ensures ServiceTag(r) == "managed-by:runfabric service=" + r.service
    ensures StageTag(r) == "managed-by:runfabric service=" + r.service + " stage=" + r.stage
  {
    assert MANAGED_BY + " service=" == "managed-by:runfabric service=";
  }

  lemma {:induction false} StaleMonitorsListed(store: seq<Entry<Monitor>>, r: Config, used: string)
    ensures Selects(store, StaleMonitor(r, used), NamesMonitor(r), MonitorCandidates(store, r, used))
  {
    hide Selects, Suffixed, ServiceTag;
    if store == [] {
      NoneSelected(StaleMonitor(r, used), NamesMonitor(r));
    } else {
      var front, last := store[..|store| - 1], store[|store| - 1];
      StaleMonitorsListed(front, r, used);
      SelectsAppended(front, last, StaleMonitor(r, used), NamesMonitor(r), MonitorCandidates(front, r, used));
      NameParts(r, "-monitor");
      TagParts(r);
      assert store == front + [last];
      assert MonitorCandidates(front, r, used) + [] == MonitorCandidates(front, r, used);
    }
  }

  lemma {:induction false} StalePoolsListed(store: seq<Entry<Pool>>, r: Config, used: string)
    ensures Selects(store, StalePool(r, used), NamesPool(r), PoolCandidates(store, r, used))
  {
    hide Selects, Suffixed, StageTag;
    if store == [] {
      NoneSelected(StalePool(r, used), NamesPool(r));
    } else {
      var front, last := store[..|store| - 1], store[|store| - 1];
      StalePoolsListed(front, r, used);
      SelectsAppended(front, last, StalePool(r, used), NamesPool(r), PoolCandidates(front, r, used));
      NameParts(r, "-pool");
      TagParts(r);
      assert store == front + [last];
      assert PoolCandidates(front, r, used) + [] == PoolCandidates(front, r, used);
    }
  }

  // ---- What the stages leave ----

  lemma MonitorLeft(store: seq<Entry<Monitor>>, r: Config, newId: string) returns (i: nat)
    requires DistinctIds(store)
    ensures var stage := MonitorStage(store, r, false, newId);
            && IsFirst(stage.store, i, OwnMonitor(r)) && stage.id == stage.store[i].id
            && var monitor := stage.store[i].body;
               && monitor.kind == "https" && monitor.path == (if r.healthPath == "" then "/health" else r.healthPath)
               && (stage.store[i] in store || FreshMonitor(monitor))
  {
    TagParts(r);
    i := StageLeaves(store, MonitorMatches(r), MonitorCurrent(r), _ => WantedMonitor(r), WantedMonitor(r), newId, DRY_RUN_MONITOR);
  }

  lemma PoolLeft(store: seq<Entry<Pool>>, r: Config, monitor: string, newId: string) returns (i: nat)
    requires DistinctIds(store) && DistinctNames(r.endpoints)
    ensures var stage := PoolStage(store, r, monitor, false, newId);
            && IsFirst(stage.store, i, OwnPool(r)) && stage.id == stage.store[i].id
            && var pool := stage.store[i].body;
               && OriginsOf(pool.origins, r.endpoints) && pool.monitor == monitor && (stage.store[i] in store || FreshPool(pool, r))
  {
    NameParts(r, "-pool");
    TagParts(r);
    WantedOriginsCurrent(r);
    hide OriginsEqual, OriginsOf, StageTag, Suffixed, DistinctIds, DistinctNames;
    i := StageLeaves(store, PoolMatches(r), PoolCurrent(r, monitor), _ => WantedPool(r, monitor), WantedPool(r, monitor), newId, DRY_RUN_POOL);
    OriginsMatch(PoolStage(store, r, monitor, false, newId).store[i].body.origins, r);
  }

  /** Origins that pass the comparison are those of the endpoints. */
  lemma OriginsMatch(origins: seq<Origin>, r: Config)
    requires DistinctNames(r.endpoints) && OriginsEqual(origins, ToOrigins(r.endpoints))
    ensures OriginsOf(origins, r.endpoints)
  {
    var wanted := ToOrigins(r.endpoints);
    OriginsEqualIff(origins, wanted);
    assert |origins| == |wanted|;
    hide OriginsEqual, DistinctNames, OriginNamesDistinct;
    forall ep | ep in r.endpoints ensures exists o :: o in origins && OriginOf(o, ep) {
      var k :| 0 <= k < |r.endpoints| && r.endpoints[k] == ep;
      assert Shapes(wanted)[k] in multiset(Shapes(origins));
      var i :| 0 <= i < |origins| && Shapes(origins)[i] == Shapes(wanted)[k];
      assert origins[i] in origins && OriginOf(origins[i], ep);
    }
    forall o | o in origins ensures exists ep :: ep in r.endpoints && OriginOf(o, ep) {
      var i :| 0 <= i < |origins| && origins[i] == o;
      assert Shapes(origins)[i] in multiset(Shapes(wanted));
      var k :| 0 <= k < |wanted| && Shapes(wanted)[k] == Shapes(origins)[i];
      assert r.endpoints[k] in r.endpoints && OriginOf(o, r.endpoints[k]);
    }
  }

  lemma BalancerLeft(store: seq<Entry<LoadBalancer>>, r: Config, pool: string, newId: string) returns (i: nat)
    requires DistinctIds(store)
    ensures var stage := BalancerStage(store, r, pool, false, newId);
            && IsFirst(stage.store, i, OwnBalancer(r))
            && var balancer := stage.store[i].body;
               && balancer.defaultPools != [] && balancer.defaultPools[0] == pool
               && SteersBy(balancer.steeringPolicy, r.strategy) && balancer.ttl == r.ttl
               && (stage.store[i] in store || FreshBalancer(balancer, r, pool))
  {
    TagParts(r);
    i := StageLeaves(store, BalancerMatches(r), BalancerCurrent(r, pool), _ => WantedBalancer(r, pool), WantedBalancer(r, pool), newId, "");
  }

  ghost predicate NamesStale(a: Account, r: Config, monitor: string, pool: string, candidates: seq<Action>) {
    exists ms, ps :: candidates == ms + ps
                     && Selects(a.monitors, StaleMonitor(r, monitor), NamesMonitor(r), ms)
                     && Selects(a.pools, StalePool(r, pool), NamesPool(r), ps)
  }

  /** A real sync leaves the whole chain stored as the routing says, and its delete candidates
      are exactly the monitors tagged with the service and the pools tagged with the stage that
      the chain does not use, in store order. */
  lemma SyncLeavesChain(a: Account, r: Config, ids: NewIds, parses: string -> bool) returns (m: nat, p: nat, b: nat)
    requires WellFormed(a) && NewIdsUnused(a, ids) && Acceptable(r, parses)
    ensures var o := SyncBalanced(a, r, false, ids);
            && Chained(o.account, r, m, p, b) && WrittenWhole(a, o.account, r, m, p, b)
            && |o.actions| >= 3 && NamesStale(o.account, r, o.account.monitors[m].id, o.account.pools[p].id, o.actions[3..])
  {
    hide MonitorStage, PoolStage, BalancerStage, MonitorAction, PoolAction, BalancerAction, MonitorCandidates, PoolCandidates,
         OriginsOf, SteersBy, FreshMonitor, FreshPool, FreshBalancer, Selects, IsFirst;
    WellFormedParts(a, ids);
    AcceptableNames(r, parses);
    m := MonitorLeft(a.monitors, r, ids.monitor);
    var monitor := MonitorStage(a.monitors, r, false, ids.monitor);
    p := PoolLeft(a.pools, r, monitor.id, ids.pool);
    var pool := PoolStage(a.pools, r, monitor.id, false, ids.pool);
    b := BalancerLeft(a.balancers, r, pool.id, ids.balancer);
    StaleMonitorsListed(monitor.store, r, monitor.id);
    StalePoolsListed(pool.store, r, pool.id);
    var o := SyncBalanced(a, r, false, ids);
    assert o.actions[3..] == MonitorCandidates(monitor.store, r, monitor.id) + PoolCandidates(pool.store, r, pool.id);
    assert m < |monitor.store| && p < |pool.store| by {
      FirstIsThere(monitor.store, m, OwnMonitor(r));
      FirstIsThere(pool.store, p, OwnPool(r));
    }
    FirstIsThere(o.account.balancers, b, OwnBalancer(r));
  }

  lemma FirstIsThere<T(!new)>(store: seq<Entry<T>>, i: nat, own: T -> bool)
    requires IsFirst(store, i, own)
    ensures i < |store|
  {
  }

  // ---- The DNS record ----

  /** The content is the URL without its scheme, if it has one of the two. */
  ghost predicate StripsTo(url: string, content: string) {
    || url == "https://" + content
    || url == "http://" + content
    || (url == content && !("https://" <= url) && !("http://" <= url))
  }

  lemma ContentIsUrl(r: Config)
    requires r.endpoints != []
    ensures StripsTo(r.endpoints[0].url, Content(r))
  {
    var url := r.endpoints[0].url;
    if "https://" <= url {
      assert url == url[..8] + url[8..];
    } else if "http://" <= url {
      assert url == url[..7] + url[7..];
    }
  }

  function OwnRecord(r: Config): DNSRecord -> bool {
    (rec: DNSRecord) => rec.kind == "CNAME" && rec.name == r.hostname
  }

  /** The first CNAME of the host points at the first endpoint. One that was written is not
      proxied, and keeps the comment it had or, if new, bears the tag. */
  ghost predicate Pointed(before: seq<Entry<DNSRecord>>, store: seq<Entry<DNSRecord>>, r: Config, i: nat)
    requires r.endpoints != []
  {
    && IsFirst(store, i, OwnRecord(r))
    && var rec := store[i].body;
       && StripsTo(r.endpoints[0].url, rec.content) && rec.ttl == r.ttl
       && (store[i] in before
           || (!rec.proxied && rec.comment == if i < |before| then before[i].body.comment else "managed-by:runfabric"))
  }

  function TaggedRecord(r: Config): Entry<DNSRecord> -> bool {
    (e: Entry<DNSRecord>) => e.body.kind == "CNAME" && e.body.name == r.hostname && TrimSpace(e.body.comment) == "managed-by:runfabric"
  }

  function NamesRecord(r: Config): DNSRecord -> Action {
    (rec: DNSRecord) => Action("dns_record", "delete-candidate", r.hostname, "managed duplicate CNAME -> " + rec.content + " (TTL " + Print(rec.ttl) + ")")
  }

  function BodyOf(e: Entry<DNSRecord>): DNSRecord {
    e.body
  }

  /** The record that stays: the first with the target, or else the first. */
  ghost predicate Stays(managed: seq<DNSRecord>, target: string, kept: nat) {
    && kept < |managed|
    && (managed[kept].content == target || (kept == 0 && forall rec | rec in managed :: rec.content != target))
    && forall k | 0 <= k < kept :: managed[k].content != target
  }

  /** The candidates are the tagged records of the host, in order, but for the one that stays. */
  ghost predicate NamesDuplicates(store: seq<Entry<DNSRecord>>, r: Config, target: string, candidates: seq<Action>) {
    exists managed: seq<DNSRecord> ::
      && Selects(store, TaggedRecord(r), BodyOf, managed)
      && if managed == [] then candidates == []
         else exists kept: nat :: Stays(managed, target, kept) && AllBut(managed, kept, NamesRecord(r), candidates)
  }

  ghost predicate AllBut(managed: seq<DNSRecord>, kept: nat, show: DNSRecord -> Action, candidates: seq<Action>) {
    && |candidates| == |managed| - 1
    && forall k | 0 <= k < |candidates| :: candidates[k] == show(managed[if k < kept then k else k + 1])
  }

  lemma {:induction false} TaggedListed(store: seq<Entry<DNSRecord>>, r: Config)
    ensures Selects(store, TaggedRecord(r), BodyOf, Managed(store, r))
  {
    hide Selects;
    if store == [] {
      NoneSelected(TaggedRecord(r), BodyOf);
    } else {
      var front, last := store[..|store| - 1], store[|store| - 1];
      TaggedListed(front, r);
      SelectsAppended(front, last, TaggedRecord(r), BodyOf, Managed(front, r));
      assert store == front + [last];
      assert Managed(front, r) + [] == Managed(front, r);
    }
  }

  lemma KeptStays(managed: seq<DNSRecord>, target: string)
    requires managed != []
    ensures Stays(managed, target, KeepIndex(managed, target))
  {
    hide KeepIndex;
    forall rec | rec in managed && rec.content == target ensures exists k :: 0 <= k < |managed| && managed[k].content == target {
      var k :| 0 <= k < |managed| && managed[k] == rec;
    }
  }

  lemma ExcessIsAllBut(managed: seq<DNSRecord>, r: Config, target: string)
    requires managed != []
    ensures AllBut(managed, KeepIndex(managed, target), NamesRecord(r), CandidateActions(r, Excess(managed, target)))
  {
    var kept := KeepIndex(managed, target);
    hide KeepIndex;
    var candidates := CandidateActions(r, Excess(managed, target));
    ExcessLength(managed, target);
    forall k | 0 <= k < |candidates| ensures candidates[k] == NamesRecord(r)(managed[if k < kept then k else k + 1]) {
      OneOut(managed, kept, k);
    }
  }

  lemma ExcessLength(managed: seq<DNSRecord>, target: string)
    requires managed != []
    ensures |Excess(managed, target)| == |managed| - 1
    ensures |managed| > 1 ==> Excess(managed, target) == managed[..KeepIndex(managed, target)] + managed[KeepIndex(managed, target) + 1..]
  {
    hide KeepIndex;
  }

  lemma DuplicatesNamed(store: seq<Entry<DNSRecord>>, r: Config)
    requires r.endpoints != []
    ensures NamesDuplicates(store, r, Content(r), RecordCandidates(store, r))
  {
    TaggedListed(store, r);
    var managed := Managed(store, r);
    hide Managed, Content, Selects, Stays, AllBut, KeepIndex;
    if managed != [] {
      KeptStays(managed, Content(r));
      ExcessIsAllBut(managed, r, Content(r));
      assert Stays(managed, Content(r), KeepIndex(managed, Content(r)));
    }
  }

  /** A real sync in DNS mode leaves the host's record at the first endpoint, and reports every
      other tagged record of the host. */
  lemma SyncLeavesRecord(a: Account, r: Config, ids: NewIds) returns (i: nat)
    requires DistinctIds(a.records) && r.endpoints != []
    ensures var o := SyncRecord(a, r, false, ids);
            && Pointed(a.records, o.account.records, r, i) && o.actions != []
            && NamesDuplicates(o.account.records, r, o.account.records[i].body.content, o.actions[1..])
  {
    ContentIsUrl(r);
    TagLiteral();
    var stage := RecordStage(a.records, r, false, ids.record);
    DuplicatesNamed(stage.store, r);
    hide Content, StripsTo, NamesDuplicates, RecordCandidates, RecordAction;
    i := StageLeaves(a.records, RecordMatches(r), RecordCurrent(r), (rec: DNSRecord) => WantedRecord(r, rec.comment), WantedRecord(r, MANAGED_BY),
                     ids.record, "");
    assert SyncRecord(a, r, false, ids).actions[1..] == RecordCandidates(stage.store, r);
  }

  lemma TagLiteral()
    ensures MANAGED_BY == "managed-by:runfabric"
  {
  }

  // ---- The report ----

  /** The word reported for a resource says what became of it. */
  ghost predicate Tells<T(!new)>(word: string, before: seq<Entry<T>>, after: seq<Entry<T>>, wrote: nat) {
    match word
    case "create" => wrote == 1 && exists e :: after == before + [e]
    case "update" => wrote == 1 && exists i, body :: 0 <= i < |before| && after == Replace(before, before[i].id, body)
    case "no-op" => wrote == 0 && after == before
    case _ => false
  }

  lemma StageTells<T(!new)>(store: seq<Entry<T>>, own: T -> bool, current: T -> bool, revise: T -> T, wanted: T, newId: string, placeholder: string)
    ensures var stage := Reconcile(store, own, current, revise, wanted, false, newId, placeholder);
            Tells(match stage.verdict case Create => "create" case Update => "update" case NoOp => "no-op", store, stage.store, Count(stage))
  {
    var i := First(store, own);
    var stage := Reconcile(store, own, current, revise, wanted, false, newId, placeholder);
    if stage.verdict == Update {
      assert stage.store == Replace(store, store[i].id, revise(store[i].body));
    }
  }

  /** The first actions of a real sync name monitor, pool and load balancer in turn, and tell of
      each whether it was created, updated or left alone. */
  lemma ReportTellsWrites(a: Account, r: Config, ids: NewIds) returns (wrote: seq<nat>)
    ensures var o := SyncBalanced(a, r, false, ids);
            && |o.actions| >= 3 && |wrote| == 3 && o.writes == wrote[0] + wrote[1] + wrote[2]
            && o.actions[0].name == r.service + (if r.stage == "" then "" else "-" + r.stage) + "-monitor"
            && o.actions[1].name == r.service + (if r.stage == "" then "" else "-" + r.stage) + "-pool" && o.actions[2].name == r.hostname
            && o.actions[0].resource == "lb_monitor" && Tells(o.actions[0].action, a.monitors, o.account.monitors, wrote[0])
            && o.actions[1].resource == "lb_pool" && Tells(o.actions[1].action, a.pools, o.account.pools, wrote[1])
            && o.actions[2].resource == "load_balancer" && Tells(o.actions[2].action, a.balancers, o.account.balancers, wrote[2])
            && o.account.records == a.records
  {
    NameParts(r, "-monitor");
    NameParts(r, "-pool");
    var monitor := MonitorStage(a.monitors, r, false, ids.monitor);
    var pool := PoolStage(a.pools, r, monitor.id, false, ids.pool);
    var balancer := BalancerStage(a.balancers, r, pool.id, false, ids.balancer);
    hide Suffixed, Tells, Reconcile, MonitorCandidates, PoolCandidates;
    StageTells(a.monitors, MonitorMatches(r), MonitorCurrent(r), _ => WantedMonitor(r), WantedMonitor(r), ids.monitor, DRY_RUN_MONITOR);
    StageTells(a.pools, PoolMatches(r), PoolCurrent(r, monitor.id), _ => WantedPool(r, monitor.id), WantedPool(r, monitor.id), ids.pool, DRY_RUN_POOL);
    StageTells(a.balancers, BalancerMatches(r), BalancerCurrent(r, pool.id), _ => WantedBalancer(r, pool.id), WantedBalancer(r, pool.id), ids.balancer, "");
    wrote := [Count(monitor), Count(pool), Count(balancer)];
  }

  lemma RecordReportTells(a: Account, r: Config, ids: NewIds)
    requires r.endpoints != []
    ensures var o := SyncRecord(a, r, false, ids);
            && o.actions != [] && o.actions[0].resource == "dns_record" && o.actions[0].name == r.hostname
            && Tells(o.actions[0].action, a.records, o.account.records, o.writes)
            && o.account.(records := a.records) == a
  {
    hide Tells, Reconcile, RecordCandidates;
    StageTells(a.records, RecordMatches(r), RecordCurrent(r), (rec: DNSRecord) => WantedRecord(r, rec.comment), WantedRecord(r, MANAGED_BY),
               ids.record, "");
  }
}
