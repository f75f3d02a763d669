/** The Cloudflare router sync: a chain of monitor, pool and load balancer, each carrying
    the ID of the one before, or a single DNS record when there is no account. */
module Cloudflare {
  import opened Decimal
  import opened RemoteStore
  import opened Routing
  import opened Text
  import opened Wrappers

  datatype Monitor = Monitor(kind: string, path: string, description: string, interval: int, timeout: int, retries: int)

  datatype Origin = Origin(name: string, address: string, enabled: bool, weight: real)

  datatype Pool = Pool(name: string, description: string, origins: seq<Origin>, monitor: string, enabled: bool)

  datatype LoadBalancer = LoadBalancer(name: string, description: string, fallbackPool: string, defaultPools: seq<string>,
                                       steeringPolicy: string, ttl: int, proxied: bool, enabled: bool)

  datatype DNSRecord = DNSRecord(kind: string, name: string, content: string, ttl: int, proxied: bool, comment: string)

  datatype Account = Account(monitors: seq<Entry<Monitor>>, pools: seq<Entry<Pool>>,
                             balancers: seq<Entry<LoadBalancer>>, records: seq<Entry<DNSRecord>>)

  /** The IDs the server would give to what this sync creates. */
  datatype NewIds = NewIds(monitor: string, pool: string, balancer: string, record: string)

  const MANAGED_BY := "managed-by:runfabric"
  const DRY_RUN_MONITOR := "dry-run-monitor-id"
  const DRY_RUN_POOL := "dry-run-pool-id"

  // ---- Names ----

  function Suffixed(r: Config, suffix: string): string {
    if r.stage != "" then r.service + "-" + r.stage + suffix else r.service + suffix
  }

  function MonitorName(r: Config): string { Suffixed(r, "-monitor") }

  function PoolName(r: Config): string { Suffixed(r, "-pool") }

  function HealthPath(r: Config): string { if r.healthPath == "" then "/health" else r.healthPath }

  function ServiceTag(r: Config): string { MANAGED_BY + " service=" + r.service }

  function StageTag(r: Config): string { ServiceTag(r) + " stage=" + r.stage }

  function SteeringPolicy(strategy: string): string {
    var s := Lower(strategy);
    if s == "latency" then "dynamic_latency" else if s == "failover" then "off" else "random"
  }

  function StripScheme(url: string): string {
    if "https://" <= url then url[8..] else if "http://" <= url then url[7..] else url
  }

  // ---- Preflight ----

  predicate DistinctNames(endpoints: seq<Endpoint>) {
    forall i, j | 0 <= i < j < |endpoints| :: endpoints[i].name != endpoints[j].name
  }

  predicate Acceptable(r: Config, parses: string -> bool) {
    && r.hostname != "" && r.endpoints != []
    && (forall ep | ep in r.endpoints :: ep.url != "" && parses(ep.url))
    && DistinctNames(r.endpoints)
  }

  // ---- Origins ----

  function ToOrigin(ep: Endpoint): Origin {
    Origin(ep.name, ep.url, true, if ep.weight <= 0 then 1.0 else ep.weight as real)
  }

  function ToOrigins(endpoints: seq<Endpoint>): (origins: seq<Origin>)
    ensures |origins| == |endpoints|
    ensures forall i | 0 <= i < |endpoints| :: origins[i] == ToOrigin(endpoints[i])
  {
    seq(|endpoints|, i requires 0 <= i < |endpoints| => ToOrigin(endpoints[i]))
  }

  /** What of an origin is compared: whether it is enabled is not. */
  datatype Shape = Shape(name: string, address: string, weight: real)

  function ShapeOf(o: Origin): Shape { Shape(o.name, o.address, o.weight) }

  function Shapes(origins: seq<Origin>): (shapes: seq<Shape>)
    ensures |shapes| == |origins|
    ensures forall i | 0 <= i < |origins| :: shapes[i] == ShapeOf(origins[i])
  {
    seq(|origins|, i requires 0 <= i < |origins| => ShapeOf(origins[i]))
  }

  /** The by-name table of the comparison: a later origin of the same name wins. */
  function ByName(origins: seq<Origin>): map<string, Shape> {
    if origins == [] then map[]
    else
      var last := origins[|origins| - 1];
      ByName(origins[..|origins| - 1])[last.name := ShapeOf(last)]
  }

  predicate OriginsEqual(a: seq<Origin>, b: seq<Origin>) {
    |a| == |b| && forall i | 0 <= i < |b| :: b[i].name in ByName(a) && ByName(a)[b[i].name] == ShapeOf(b[i])
  }

  // ---- The four stages ----

  function MonitorMatches(r: Config): Monitor -> bool { (m: Monitor) => m.description == ServiceTag(r) }

  function MonitorCurrent(r: Config): Monitor -> bool { (m: Monitor) => m.path == HealthPath(r) && m.kind == "https" }

  function WantedMonitor(r: Config): Monitor { Monitor("https", HealthPath(r), ServiceTag(r), 60, 5, 2) }

  function MonitorStage(store: seq<Entry<Monitor>>, r: Config, dryRun: bool, newId: string): Stage<Monitor> {
    Reconcile(store, MonitorMatches(r), MonitorCurrent(r), _ => WantedMonitor(r), WantedMonitor(r), dryRun, newId, DRY_RUN_MONITOR)
  }

  function MonitorAction(r: Config, v: Verdict): Action {
    match v
    case NoOp => Action("lb_monitor", "no-op", MonitorName(r), "")
    case Update => Action("lb_monitor", "update", MonitorName(r), "path updated to " + HealthPath(r))
    case Create => Action("lb_monitor", "create", MonitorName(r), "type=https path=" + HealthPath(r) + " interval=60s")
  }

  function PoolMatches(r: Config): Pool -> bool { (p: Pool) => p.name == PoolName(r) }

  function PoolCurrent(r: Config, monitor: string): Pool -> bool {
    (p: Pool) => OriginsEqual(p.origins, ToOrigins(r.endpoints)) && p.monitor == monitor
  }

  function WantedPool(r: Config, monitor: string): Pool {
    Pool(PoolName(r), StageTag(r), ToOrigins(r.endpoints), monitor, true)
  }

  function PoolStage(store: seq<Entry<Pool>>, r: Config, monitor: string, dryRun: bool, newId: string): Stage<Pool> {
    Reconcile(store, PoolMatches(r), PoolCurrent(r, monitor), _ => WantedPool(r, monitor), WantedPool(r, monitor),
              dryRun, newId, DRY_RUN_POOL)
  }

  function PoolAction(r: Config, v: Verdict): Action {
    var origins := Print(|r.endpoints|) + " origins";
    match v
    case NoOp => Action("lb_pool", "no-op", PoolName(r), "")
    case Update => Action("lb_pool", "update", PoolName(r), origins)
    case Create => Action("lb_pool", "create", PoolName(r), origins)
  }

  function BalancerMatches(r: Config): LoadBalancer -> bool { (lb: LoadBalancer) => lb.name == r.hostname }

  function BalancerCurrent(r: Config, pool: string): LoadBalancer -> bool {
    (lb: LoadBalancer) => |lb.defaultPools| > 0 && lb.defaultPools[0] == pool
                          && lb.steeringPolicy == SteeringPolicy(r.strategy) && lb.ttl == r.ttl
  }

  function WantedBalancer(r: Config, pool: string): LoadBalancer {
    LoadBalancer(r.hostname, StageTag(r), pool, [pool], SteeringPolicy(r.strategy), r.ttl, true, true)
  }

  function BalancerStage(store: seq<Entry<LoadBalancer>>, r: Config, pool: string, dryRun: bool, newId: string): Stage<LoadBalancer> {
    Reconcile(store, BalancerMatches(r), BalancerCurrent(r, pool), _ => WantedBalancer(r, pool), WantedBalancer(r, pool),
              dryRun, newId, "")
  }

  function BalancerAction(r: Config, v: Verdict): Action {
    var settings := "steering=" + SteeringPolicy(r.strategy) + " ttl=" + Print(r.ttl);
    match v
    case NoOp => Action("load_balancer", "no-op", r.hostname, "")
    case Update => Action("load_balancer", "update", r.hostname, settings)
    case Create => Action("load_balancer", "create", r.hostname, "strategy=" + r.strategy + " " + settings)
  }

  function Content(r: Config): string
    requires r.endpoints != []
  {
    StripScheme(r.endpoints[0].url)
  }

  function RecordMatches(r: Config): DNSRecord -> bool { (rec: DNSRecord) => rec.kind == "CNAME" && rec.name == r.hostname }

  function RecordCurrent(r: Config): DNSRecord -> bool
    requires r.endpoints != []
  {
    (rec: DNSRecord) => rec.content == Content(r) && rec.ttl == r.ttl
  }

  function WantedRecord(r: Config, comment: string): DNSRecord
    requires r.endpoints != []
  {
    DNSRecord("CNAME", r.hostname, Content(r), r.ttl, false, comment)
  }

  /** An updated record keeps its comment, so it stays managed or unmanaged. */
  function RecordStage(store: seq<Entry<DNSRecord>>, r: Config, dryRun: bool, newId: string): Stage<DNSRecord>
    requires r.endpoints != []
  {
    Reconcile(store, RecordMatches(r), RecordCurrent(r), (rec: DNSRecord) => WantedRecord(r, rec.comment), WantedRecord(r, MANAGED_BY),
              dryRun, newId, "")
  }

  function RecordAction(r: Config, v: Verdict): Action
    requires r.endpoints != []
  {
    var detail := "CNAME -> " + Content(r) + " (TTL " + Print(r.ttl) + ")";
    match v
    case NoOp => Action("dns_record", "no-op", r.hostname, "")
    case Update => Action("dns_record", "update", r.hostname, detail)
    case Create => Action("dns_record", "create", r.hostname, detail)
  }

  // ---- Delete candidates ----

  function MonitorCandidates(store: seq<Entry<Monitor>>, r: Config, keep: string): seq<Action> {
    if store == [] then []
    else
      var last := store[|store| - 1];
      MonitorCandidates(store[..|store| - 1], r, keep)
      + if last.id == keep || TrimSpace(last.body.description) != ServiceTag(r) then []
        else [Action("lb_monitor", "delete-candidate", MonitorName(r), "managed monitor id=" + last.id + " path=" + last.body.path)]
  }

  function PoolCandidates(store: seq<Entry<Pool>>, r: Config, keep: string): seq<Action> {
    if store == [] then []
    else
      var last := store[|store| - 1];
      PoolCandidates(store[..|store| - 1], r, keep)
      + if last.id == keep || TrimSpace(last.body.description) != StageTag(r) then []
        else [Action("lb_pool", "delete-candidate", PoolName(r),
                     "managed pool id=" + last.id + " origins=" + Print(|last.body.origins|))]
  }

  predicate IsManaged(rec: DNSRecord, r: Config) {
    rec.kind == "CNAME" && rec.name == r.hostname && TrimSpace(rec.comment) == MANAGED_BY
  }

  function Managed(store: seq<Entry<DNSRecord>>, r: Config): seq<DNSRecord> {
    if store == [] then []
    else
      var last := store[|store| - 1].body;
      Managed(store[..|store| - 1], r) + if IsManaged(last, r) then [last] else []
  }

  /** The managed record that stays: the first with the wanted target, or just the first. */
  function KeepIndex(managed: seq<DNSRecord>, target: string): (keep: nat)
    ensures managed != [] ==> keep < |managed|
    ensures (exists k :: 0 <= k < |managed| && managed[k].content == target) ==>
              keep < |managed| && managed[keep].content == target && forall k | 0 <= k < keep :: managed[k].content != target
    ensures !(exists k :: 0 <= k < |managed| && managed[k].content == target) ==> keep == 0
  {
    if managed == [] then 0
    else
      var front := managed[..|managed| - 1];
      if exists k :: 0 <= k < |front| && front[k].content == target then
        assert exists k :: 0 <= k < |managed| && managed[k].content == target; KeepIndex(front, target)
      else if managed[|managed| - 1].content == target then |managed| - 1
      else 0
  }

  function RecordCandidate(r: Config, rec: DNSRecord): Action {
    Action("dns_record", "delete-candidate", r.hostname, "managed duplicate CNAME -> " + rec.content + " (TTL " + Print(rec.ttl) + ")")
  }

  function Excess(managed: seq<DNSRecord>, target: string): seq<DNSRecord> {
    if |managed| <= 1 then []
    else
      var keep := KeepIndex(managed, target);
      managed[..keep] + managed[keep + 1..]
  }

  function CandidateActions(r: Config, excess: seq<DNSRecord>): (actions: seq<Action>)
    ensures |actions| == |excess|
    ensures forall i | 0 <= i < |excess| :: actions[i] == RecordCandidate(r, excess[i])
  {
    seq(|excess|, i requires 0 <= i < |excess| => RecordCandidate(r, excess[i]))
  }

  function RecordCandidates(store: seq<Entry<DNSRecord>>, r: Config): seq<Action>
    requires r.endpoints != []
  {
    CandidateActions(r, Excess(Managed(store, r), Content(r)))
  }

  // ---- The whole sync ----

  /** The account afterwards, the actions reported and the number of writes sent. */
  datatype Outcome = Outcome(account: Account, actions: seq<Action>, writes: nat)

  function Count<T>(stage: Stage<T>): nat { if stage.wrote then 1 else 0 }

  function SyncBalanced(a: Account, r: Config, dryRun: bool, ids: NewIds): Outcome {
    var monitor := MonitorStage(a.monitors, r, dryRun, ids.monitor);
    var pool := PoolStage(a.pools, r, monitor.id, dryRun, ids.pool);
    var balancer := BalancerStage(a.balancers, r, pool.id, dryRun, ids.balancer);
    Outcome(Account(monitor.store, pool.store, balancer.store, a.records),
            [MonitorAction(r, monitor.verdict), PoolAction(r, pool.verdict), BalancerAction(r, balancer.verdict)]
            + (MonitorCandidates(monitor.store, r, monitor.id) + PoolCandidates(pool.store, r, pool.id)),
            Count(monitor) + Count(pool) + Count(balancer))
  }

  function SyncRecord(a: Account, r: Config, dryRun: bool, ids: NewIds): Outcome
    requires r.endpoints != []
  {
    var record := RecordStage(a.records, r, dryRun, ids.record);
    Outcome(a.(records := record.store), [RecordAction(r, record.verdict)] + RecordCandidates(record.store, r), Count(record))
  }

  function Sync(a: Account, r: Config, hasAccount: bool, dryRun: bool, ids: NewIds): Outcome
    requires r.endpoints != []
  {
    if hasAccount then SyncBalanced(a, r, dryRun, ids) else SyncRecord(a, r, dryRun, ids)
  }

  // ---- With calls that fail ----

  /** Whether the API answers a listing, and takes a write; a refused write has no effect. */
  datatype Server = Server(lists: bool, takes: bool)

  /** The API as each stage finds it, and whether the candidates can be listed. */
  datatype Servers = Servers(monitor: Server, pool: Server, balancer: Server, record: Server, candidates: bool)

  predicate Served<T>(stage: Stage<T>, server: Server) {
    server.lists && (stage.wrote ==> server.takes)
  }

  /** The outcome up to the first failure, and whether there was none. */
  datatype Attempt = Attempt(outcome: Outcome, ok: bool)

  function AttemptBalanced(a: Account, r: Config, dryRun: bool, ids: NewIds, servers: Servers): Attempt {
    var monitor := MonitorStage(a.monitors, r, dryRun, ids.monitor);
    if !Served(monitor, servers.monitor) then Attempt(Outcome(a, [], 0), false)
    else
      var a1 := a.(monitors := monitor.store);
      var done1 := [MonitorAction(r, monitor.verdict)];
      var pool := PoolStage(a.pools, r, monitor.id, dryRun, ids.pool);
      if !Served(pool, servers.pool) then Attempt(Outcome(a1, done1, Count(monitor)), false)
      else
        var a2 := a1.(pools := pool.store);
        var done2 := done1 + [PoolAction(r, pool.verdict)];
        var balancer := BalancerStage(a.balancers, r, pool.id, dryRun, ids.balancer);
        if !Served(balancer, servers.balancer) then Attempt(Outcome(a2, done2, Count(monitor) + Count(pool)), false)
        else
          var a3 := a2.(balancers := balancer.store);
          var done3 := done2 + [BalancerAction(r, balancer.verdict)];
          var candidates := MonitorCandidates(monitor.store, r, monitor.id) + PoolCandidates(pool.store, r, pool.id);
          Attempt(Outcome(a3, if servers.candidates then done3 + candidates else done3, Count(monitor) + Count(pool) + Count(balancer)),
                  servers.candidates)
  }

  function AttemptRecord(a: Account, r: Config, dryRun: bool, ids: NewIds, servers: Servers): Attempt
    requires r.endpoints != []
  {
    var record := RecordStage(a.records, r, dryRun, ids.record);
    if !Served(record, servers.record) then Attempt(Outcome(a, [], 0), false)
    else
      var done := [RecordAction(r, record.verdict)];
      Attempt(Outcome(a.(records := record.store), if servers.candidates then done + RecordCandidates(record.store, r) else done, Count(record)),
              servers.candidates)
  }

  function AttemptSync(a: Account, r: Config, hasAccount: bool, dryRun: bool, ids: NewIds, servers: Servers): Attempt
    requires r.endpoints != []
  {
    if hasAccount then AttemptBalanced(a, r, dryRun, ids, servers) else AttemptRecord(a, r, dryRun, ids, servers)
  }
}
