/** The Route53 router: weighted or failover CNAME record sets, compared by a key made of
    their failover role or set identifier. */
module Route53 {
  import opened Decimal
  import opened KeyedPlan
  import opened Ordering
  import opened Permutations
  import opened Routing
  import opened Text
  import opened Wrappers

  /** An absent set identifier or failover role is "". */
  datatype RRSet = RRSet(name: string, kind: string, ttl: int, failover: string, weight: Option<int>, setId: string, values: seq<string>)

  const PAGE := 100

  function EnsureFQDN(name: string): string {
    var n := TrimSuffix(TrimSpace(Lower(name)), ".");
    if n == "" then "." else n + "."
  }

  predicate SameFQDN(a: string, b: string) {
    EnsureFQDN(a) == EnsureFQDN(b)
  }

  function RecordKey(rec: RRSet): string {
    var id := Lower(TrimSpace(rec.setId));
    if rec.failover != "" then "failover:" + Lower(TrimSpace(rec.failover))
    else if id != "" then "id:" + id
    else "default"
  }

  predicate RecordsEqual(a: RRSet, b: RRSet) {
    && SameFQDN(a.name, b.name) && a.kind == b.kind && a.ttl == b.ttl && a.failover == b.failover
    && WeightOf(a) == WeightOf(b) && TrimSpace(a.setId) == TrimSpace(b.setId)
    && |a.values| == |b.values| && forall i | 0 <= i < |a.values| :: SameFQDN(a.values[i], b.values[i])
  }

  function WeightOf(rec: RRSet): int {
    if rec.weight == None then 0 else rec.weight.value
  }

  /** The table by key; a later record of the same key wins. */
  function ByKey(records: seq<RRSet>): map<string, RRSet> {
    if records == [] then map[] else map[RecordKey(records[0]) := records[0]] + ByKey(records[1..])
  }

  // ---- What is desired ----

  function CnameTarget(url: string, host: string -> string): Option<string> {
    var trimmed := TrimSpace(url);
    if trimmed == "" then None
    else
      var target := TrimSpace(TrimSuffix(if host(trimmed) != "" then host(trimmed) else trimmed, "."));
      if target == "" || '/' in target then None else Some(target + ".")
  }

  predicate HasCname(ep: Endpoint, host: string -> string) {
    CnameTarget(ep.url, host).Some?
  }

  predicate Accepts(r: Config, host: string -> string) {
    TrimSpace(r.hostname) != "" && r.endpoints != [] && forall ep | ep in r.endpoints :: HasCname(ep, host)
  }

  function NormalizeIdentifier(name: string, idx: nat): string {
    var s := Lower(TrimSpace(name));
    if s == "" then "endpoint-" + Print(idx + 1) else s
  }

  function RecordFor(r: Config, host: string -> string, i: nat): RRSet
    requires i < |r.endpoints|
  {
    var ep := r.endpoints[i];
    var target := match CnameTarget(ep.url, host) case Some(t) => t case None => "";
    RRSet(EnsureFQDN(r.hostname), "CNAME", if r.ttl <= 0 then 60 else r.ttl,
          if !IsFailover(r) then "" else if i == 0 then "PRIMARY" else "SECONDARY",
          if IsFailover(r) then None else Some(if ep.weight <= 0 then 1 else ep.weight),
          NormalizeIdentifier(ep.name, i), [target])
  }

  function RecordsFor(r: Config, host: string -> string): (records: seq<RRSet>)
    ensures |records| == |r.endpoints|
    ensures forall i | 0 <= i < |records| :: records[i] == RecordFor(r, host, i)
  {
    seq(|r.endpoints|, i requires 0 <= i < |r.endpoints| => RecordFor(r, host, i))
  }

  // ---- The hosted zone ----

  predicate Relevant(rec: RRSet, hostname: string) {
    rec.kind == "CNAME" && SameFQDN(rec.name, EnsureFQDN(hostname))
  }

  function Select(records: seq<RRSet>, keep: RRSet -> bool): seq<RRSet> {
    if records == [] then []
    else if keep(records[0]) then [records[0]] + Select(records[1..], keep)
    else Select(records[1..], keep)
  }

  function IsRelevant(hostname: string): RRSet -> bool {
    (rec: RRSet) => Relevant(rec, hostname)
  }

  function RelevantOf(records: seq<RRSet>, hostname: string): seq<RRSet> {
    Select(records, IsRelevant(hostname))
  }

  /** Which record sets the server lists when asked to start at a host name and the CNAME type:
      the order is the server's. */
  type Order = (string, RRSet) -> bool

  ghost predicate StartsAtHost(onward: Order) {
    forall hostname, rec | Relevant(rec, hostname) :: onward(hostname, rec)
  }

  function Onward(records: seq<RRSet>, hostname: string, onward: Order): seq<RRSet> {
    Select(records, (rec: RRSet) => onward(hostname, rec))
  }

  function Page(records: seq<RRSet>): seq<RRSet> {
    if |records| <= PAGE then records else records[..PAGE]
  }

  /** One page of the zone, from the host name on, and of it the CNAMEs of the host. */
  function Listed(records: seq<RRSet>, hostname: string, onward: Order): seq<RRSet> {
    RelevantOf(Page(Onward(records, hostname, onward)), hostname)
  }

  /** A record set is identified by name, type and set identifier. */
  predicate SameSlot(a: RRSet, b: RRSet) {
    SameFQDN(a.name, b.name) && a.kind == b.kind && a.setId == b.setId
  }

  function Upsert(records: seq<RRSet>, rec: RRSet): seq<RRSet> {
    if records == [] then [rec]
    else if SameSlot(records[0], rec) then [rec] + records[1..]
    else [records[0]] + Upsert(records[1..], rec)
  }

  function UpsertAll(records: seq<RRSet>, changes: seq<RRSet>): seq<RRSet> {
    if changes == [] then records else Upsert(UpsertAll(records, changes[..|changes| - 1]), changes[|changes| - 1])
  }

  predicate Changes(e: Entry) {
    e.verdict == Create || e.verdict == Update
  }

  /** The upserts of a plan: its creates and updates. */
  function ChangesOf(plan: seq<Entry>, desired: map<string, RRSet>): seq<RRSet> {
    if plan == [] then []
    else
      var last := plan[|plan| - 1];
      ChangesOf(plan[..|plan| - 1], desired) + if Changes(last) && last.key in desired then [desired[last.key]] else []
  }

  // ---- What is reported ----

  function DisplayName(name: string): string {
    TrimSpace(TrimSuffix(name, "."))
  }

  function Describe(rec: RRSet): string {
    var target := if rec.values == [] then "" else DisplayName(rec.values[0]);
    "route53 cname=" + target
    + (if rec.failover != "" then " failover=" + rec.failover
       else if rec.weight.Some? then " weight=" + Print(rec.weight.value)
       else "")
    + " ttl=" + Print(rec.ttl)
  }

  function ActionOn(rec: RRSet, verdict: Verdict): Action {
    Action("dns_record", Word(verdict), DisplayName(rec.name), Describe(rec))
  }

  /** The action for an entry shows the desired record, or the stale one. */
  function ActionFor(existing: map<string, RRSet>, desired: map<string, RRSet>): Entry -> Action {
    (e: Entry) =>
      if e.key in desired then ActionOn(desired[e.key], e.verdict)
      else if e.key in existing then ActionOn(existing[e.key], e.verdict)
      else Action("", "", "", "")
  }
}
