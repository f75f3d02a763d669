/** The hosted zone and the sync that brings it to a routing. */
module Route53Zone {
  import opened KeyedPlan
  import opened Ordering
  import opened Permutations
  import opened Route53
  import opened Route53Laws
  import opened Route53Records
  import opened Routing
  import opened Text
  import opened Wrappers

  lemma {:induction false} ByKeyAppended(records: seq<RRSet>, rec: RRSet)
    ensures ByKey(records + [rec]) == ByKey(records)[RecordKey(rec) := rec]
  {
    hide RecordKey;
    if records == [] {
      assert ([] + [rec])[1..] == [];
    } else {
      ByKeyAppended(records[1..], rec);
      assert (records + [rec])[1..] == records[1..] + [rec];
    }
  }

  lemma {:induction false} SelectAppended(records: seq<RRSet>, rec: RRSet, keep: RRSet -> bool)
    ensures Select(records + [rec], keep) == if keep(rec) then Select(records, keep) + [rec] else Select(records, keep)
  {
    if records == [] {
      assert ([] + [rec])[1..] == [];
    } else {
      SelectAppended(records[1..], rec, keep);
      assert (records + [rec])[1..] == records[1..] + [rec];
    }
  }

  lemma ChangesOfAppended(plan: seq<Entry>, last: Entry, desired: map<string, RRSet>)
    ensures ChangesOf(plan + [last], desired)
         == ChangesOf(plan, desired) + if Changes(last) && last.key in desired then [desired[last.key]] else []
  {
    assert (plan + [last])[..|plan|] == plan;
  }

  method DesiredRecords(r: Config, host: string -> string) returns (result: Result<seq<RRSet>>)
    ensures result.Ok? <==> Accepts(r, host)
    ensures result.Ok? ==> result.value == RecordsFor(r, host)
  {
    hide RecordFor, HasCname, TrimSpace;
    if TrimSpace(r.hostname) == "" {
      return Err("routing hostname is required");
    }
    if r.endpoints == [] {
      return Err("routing endpoints are required");
    }
    var records := [];
    for i := 0 to |r.endpoints|
      invariant forall j | 0 <= j < i :: HasCname(r.endpoints[j], host)
      invariant |records| == i && forall j | 0 <= j < i :: records[j] == RecordFor(r, host, j)
    {
      if !HasCname(r.endpoints[i], host) {
        assert r.endpoints[i] in r.endpoints;
        return Err("endpoint " + r.endpoints[i].name);
      }
      records := records + [RecordFor(r, host, i)];
    }
    result := Ok(records);
  }

  method MapByKey(records: seq<RRSet>) returns (table: map<string, RRSet>)
    ensures table == ByKey(records)
  {
    table := map[];
    for i := 0 to |records|
      invariant table == ByKey(records[..i])
    {
      ByKeyAppended(records[..i], records[i]);
      assert records[..i + 1] == records[..i] + [records[i]];
      table := table[RecordKey(records[i]) := records[i]];
    }
    assert records[..|records|] == records;
  }

  /** Keys in the order the plan visits them: desired ones sorted, then stale ones. */
  ghost predicate DesiredFirst(plan: seq<Entry>, desired: map<string, RRSet>) {
    exists n | 0 <= n <= |plan| ::
      && Sorted(Map(plan[..n], KeyOf))
      && (forall i | 0 <= i < n :: plan[i].key in desired)
      && forall i | n <= i < |plan| :: plan[i].key !in desired
  }

  ghost predicate Reports(plan: seq<Entry>, actions: seq<Action>, existing: map<string, RRSet>, desired: map<string, RRSet>) {
    && IsPlan(plan, existing, desired, RecordsEqual, Manages) && DesiredFirst(plan, desired)
    && actions == Map(plan, ActionFor(existing, desired))
  }

  /** The loop over the desired keys has planned the first i. */
  ghost predicate Planned(plan: seq<Entry>, actions: seq<Action>, changes: seq<RRSet>, keys: seq<string>, i: nat,
                          existing: map<string, RRSet>, desired: map<string, RRSet>)
    requires i <= |keys|
  {
    && Map(plan, KeyOf) == keys[..i] && Decides(plan, Members(keys[..i]), existing, desired, RecordsEqual)
    && actions == Map(plan, ActionFor(existing, desired)) && changes == ChangesOf(plan, desired)
  }

  lemma NothingPlanned(keys: seq<string>, existing: map<string, RRSet>, desired: map<string, RRSet>)
    ensures Planned([], [], [], keys, 0, existing, desired)
  {
    hide RecordsEqual;
  }

  lemma PlanOne(plan: seq<Entry>, actions: seq<Action>, changes: seq<RRSet>, keys: seq<string>, i: nat, verdict: Verdict,
                existing: map<string, RRSet>, desired: map<string, RRSet>)
    requires i < |keys| && keys[i] in desired && Distinct(keys) && Planned(plan, actions, changes, keys, i, existing, desired)
    requires verdict == VerdictOf(existing, desired, RecordsEqual, keys[i])
    ensures Planned(plan + [Entry(keys[i], verdict)], actions + [ActionOn(desired[keys[i]], verdict)],
                    if verdict != NoOp then changes + [desired[keys[i]]] else changes, keys, i + 1, existing, desired)
  {
    hide RecordsEqual, ActionOn, ActionFor, ChangesOf, Decides, VerdictOf;
    DecideOne(plan, Members(keys[..i]), existing, desired, RecordsEqual, keys[i]);
    assert Members(keys[..i + 1]) == Members(keys[..i]) + {keys[i]};
    DesiredHasNoDelete(existing, desired, keys[i]);
    ReportOne(plan, keys[i], verdict, existing, desired);
  }

  lemma ReportOne(plan: seq<Entry>, key: string, verdict: Verdict, existing: map<string, RRSet>, desired: map<string, RRSet>)
    requires key in desired && verdict != DeleteCandidate
    ensures var last := Entry(key, verdict);
            && Map(plan + [last], ActionFor(existing, desired)) == Map(plan, ActionFor(existing, desired)) + [ActionOn(desired[key], verdict)]
            && ChangesOf(plan + [last], desired)
               == if verdict != NoOp then ChangesOf(plan, desired) + [desired[key]] else ChangesOf(plan, desired)
  {
    hide ActionOn;
    ChangesOfAppended(plan, Entry(key, verdict), desired);
  }

  lemma DesiredHasNoDelete(existing: map<string, RRSet>, desired: map<string, RRSet>, key: string)
    requires key in desired
    ensures VerdictOf(existing, desired, RecordsEqual, key) != DeleteCandidate
  {
  }

  lemma AllPlanned(plan: seq<Entry>, actions: seq<Action>, changes: seq<RRSet>, keys: seq<string>,
                   existing: map<string, RRSet>, desired: map<string, RRSet>)
    requires Planned(plan, actions, changes, keys, |keys|, existing, desired) && Members(keys) == desired.Keys && Sorted(keys)
    ensures Decides(plan, desired.Keys, existing, desired, RecordsEqual) && Sorted(Map(plan, KeyOf))
    ensures actions == Map(plan, ActionFor(existing, desired)) && changes == ChangesOf(plan, desired)
  {
    assert keys[..|keys|] == keys;
  }

  /** The desired keys in sorted order: their actions and upserts. */
  method PlanDesired(existing: map<string, RRSet>, desired: map<string, RRSet>)
    returns (actions: seq<Action>, changes: seq<RRSet>, ghost plan: seq<Entry>)
    ensures Decides(plan, desired.Keys, existing, desired, RecordsEqual)
    ensures actions == Map(plan, ActionFor(existing, desired)) && changes == ChangesOf(plan, desired)
    ensures Sorted(Map(plan, KeyOf))
  {
    hide RecordsEqual, ActionOn, ActionFor, Decides, ChangesOf, Planned, Distinct, Sorted;
    var keys := SortedKeysOf(desired);
    actions, changes, plan := [], [], [];
    NothingPlanned(keys, existing, desired);
    for i := 0 to |keys|
      invariant Planned(plan, actions, changes, keys, i, existing, desired)
    {
      var key := keys[i];
      assert key in Members(keys);
      var verdict := if key !in existing then Create else if RecordsEqual(existing[key], desired[key]) then NoOp else Update;
      PlanOne(plan, actions, changes, keys, i, verdict, existing, desired);
      plan := plan + [Entry(key, verdict)];
      actions := actions + [ActionOn(desired[key], verdict)];
      if verdict != NoOp {
        changes := changes + [desired[key]];
      }
    }
    AllPlanned(plan, actions, changes, keys, existing, desired);
  }

  lemma PlanStale(plan: seq<Entry>, key: string, done: set<string>, existing: map<string, RRSet>, desired: map<string, RRSet>)
    requires key in existing && key !in desired && key !in done && Decides(plan, done, existing, desired, RecordsEqual)
    ensures var last := Entry(key, DeleteCandidate);
            && Decides(plan + [last], done + {key}, existing, desired, RecordsEqual)
            && Map(plan + [last], ActionFor(existing, desired))
               == Map(plan, ActionFor(existing, desired)) + [ActionOn(existing[key], DeleteCandidate)]
            && ChangesOf(plan + [last], desired) == ChangesOf(plan, desired)
  {
    hide RecordsEqual, ActionOn, Decides;
    DecideOne(plan, done, existing, desired, RecordsEqual, key);
    ChangesOfAppended(plan, Entry(key, DeleteCandidate), desired);
  }

  /** The existing keys among the first n enumerated that are not desired. */
  ghost function StaleAmong(keys: seq<string>, n: nat, desired: map<string, RRSet>): set<string>
    requires n <= |keys|
  {
    Members(keys[..n]) - desired.Keys
  }

  /** The loop over the existing keys has visited n of them. */
  ghost predicate Visited(front: seq<Entry>, stale: seq<Entry>, actions: seq<Action>, keys: seq<string>, n: nat,
                          existing: map<string, RRSet>, desired: map<string, RRSet>)
    requires n <= |keys|
  {
    && Decides(front + stale, desired.Keys + StaleAmong(keys, n, desired), existing, desired, RecordsEqual)
    && Map(front + stale, ActionFor(existing, desired)) == Map(front, ActionFor(existing, desired)) + actions
    && ChangesOf(front + stale, desired) == ChangesOf(front, desired)
    && forall e | e in stale :: e.key !in desired
  }

  lemma NoneVisited(front: seq<Entry>, keys: seq<string>, existing: map<string, RRSet>, desired: map<string, RRSet>)
    requires Decides(front, desired.Keys, existing, desired, RecordsEqual)
    ensures Visited(front, [], [], keys, 0, existing, desired)
  {
    assert front + [] == front && desired.Keys + StaleAmong(keys, 0, desired) == desired.Keys;
  }

  lemma VisitStale(front: seq<Entry>, stale: seq<Entry>, actions: seq<Action>, keys: seq<string>, i: nat,
                   existing: map<string, RRSet>, desired: map<string, RRSet>)
    requires i < |keys| && Distinct(keys) && keys[i] in existing && keys[i] !in desired
    requires Visited(front, stale, actions, keys, i, existing, desired)
    ensures Visited(front, stale + [Entry(keys[i], DeleteCandidate)], actions + [ActionOn(existing[keys[i]], DeleteCandidate)],
                    keys, i + 1, existing, desired)
  {
    hide RecordsEqual, ActionOn, ActionFor, Decides, ChangesOf;
    var last := Entry(keys[i], DeleteCandidate);
    PlanStale(front + stale, keys[i], desired.Keys + StaleAmong(keys, i, desired), existing, desired);
    assert front + (stale + [last]) == front + stale + [last];
    assert Members(keys[..i + 1]) == Members(keys[..i]) + {keys[i]};
    assert desired.Keys + StaleAmong(keys, i, desired) + {keys[i]} == desired.Keys + StaleAmong(keys, i + 1, desired);
  }

  lemma VisitDesired(front: seq<Entry>, stale: seq<Entry>, actions: seq<Action>, keys: seq<string>, i: nat,
                     existing: map<string, RRSet>, desired: map<string, RRSet>)
    requires i < |keys| && keys[i] in desired && Visited(front, stale, actions, keys, i, existing, desired)
    ensures Visited(front, stale, actions, keys, i + 1, existing, desired)
  {
    hide RecordsEqual, ActionFor, Decides, ChangesOf;
    assert Members(keys[..i + 1]) == Members(keys[..i]) + {keys[i]};
    assert StaleAmong(keys, i, desired) == StaleAmong(keys, i + 1, desired);
  }

  /** The stale keys, in whatever order they are enumerated. */
  method PlanStaleKeys(existing: map<string, RRSet>, desired: map<string, RRSet>, ghost front: seq<Entry>)
    returns (actions: seq<Action>, ghost stale: seq<Entry>)
    requires Decides(front, desired.Keys, existing, desired, RecordsEqual)
    ensures Decides(front + stale, desired.Keys + existing.Keys, existing, desired, RecordsEqual)
    ensures Map(front + stale, ActionFor(existing, desired)) == Map(front, ActionFor(existing, desired)) + actions
    ensures ChangesOf(front + stale, desired) == ChangesOf(front, desired)
    ensures forall e | e in stale :: e.key !in desired
  {
    hide RecordsEqual, ActionOn, Decides, ChangesOf, Visited;
    var keys := KeysOf(existing);
    actions, stale := [], [];
    NoneVisited(front, keys, existing, desired);
    for i := 0 to |keys|
      invariant Visited(front, stale, actions, keys, i, existing, desired)
    {
      if keys[i] !in desired {
        VisitStale(front, stale, actions, keys, i, existing, desired);
        actions := actions + [ActionOn(existing[keys[i]], DeleteCandidate)];
        stale := stale + [Entry(keys[i], DeleteCandidate)];
      } else {
        VisitDesired(front, stale, actions, keys, i, existing, desired);
      }
    }
    AllVisited(front, stale, actions, keys, existing, desired);
  }

  lemma AllVisited(front: seq<Entry>, stale: seq<Entry>, actions: seq<Action>, keys: seq<string>,
                   existing: map<string, RRSet>, desired: map<string, RRSet>)
    requires Visited(front, stale, actions, keys, |keys|, existing, desired) && Members(keys) == existing.Keys
    ensures Decides(front + stale, desired.Keys + existing.Keys, existing, desired, RecordsEqual)
    ensures Map(front + stale, ActionFor(existing, desired)) == Map(front, ActionFor(existing, desired)) + actions
    ensures ChangesOf(front + stale, desired) == ChangesOf(front, desired)
    ensures forall e | e in stale :: e.key !in desired
  {
    assert keys[..|keys|] == keys;
    assert desired.Keys + StaleAmong(keys, |keys|, desired) == desired.Keys + existing.Keys;
  }

  lemma PlanComplete(plan: seq<Entry>, existing: map<string, RRSet>, desired: map<string, RRSet>)
    requires Decides(plan, desired.Keys + existing.Keys, existing, desired, RecordsEqual)
    ensures IsPlan(plan, existing, desired, RecordsEqual, Manages)
  {
    hide RecordsEqual;
  }

  lemma FrontFirst(front: seq<Entry>, stale: seq<Entry>, desired: map<string, RRSet>)
    requires Sorted(Map(front, KeyOf)) && forall e | e in front :: e.key in desired
    requires forall e | e in stale :: e.key !in desired
    ensures DesiredFirst(front + stale, desired)
  {
    hide Sorted, Map;
    var plan := front + stale;
    assert plan[..|front|] == front;
    assert forall i | 0 <= i < |front| :: plan[i] in front;
    assert forall i | |front| <= i < |plan| :: plan[i] in stale;
  }

  lemma PlanReported(front: seq<Entry>, stale: seq<Entry>, existing: map<string, RRSet>, desired: map<string, RRSet>)
    requires Decides(front, desired.Keys, existing, desired, RecordsEqual) && Sorted(Map(front, KeyOf))
    requires Decides(front + stale, desired.Keys + existing.Keys, existing, desired, RecordsEqual)
    requires forall e | e in stale :: e.key !in desired
    ensures Reports(front + stale, Map(front + stale, ActionFor(existing, desired)), existing, desired)
  {
    PlanComplete(front + stale, existing, desired);
    FrontFirst(front, stale, desired);
    hide RecordsEqual, IsPlan, DesiredFirst, Decides;
  }

  lemma WrittenIsUpserted(before: seq<RRSet>, after: seq<RRSet>, changes: seq<RRSet>)
    requires after == if changes == [] then before else UpsertAll(before, changes)
    ensures after == UpsertAll(before, changes)
  {
  }

  lemma {:induction false} NothingToChange(plan: seq<Entry>, desired: map<string, RRSet>)
    requires forall e | e in plan :: !Changes(e)
    ensures ChangesOf(plan, desired) == []
  {
    if plan != [] {
      NothingToChange(plan[..|plan| - 1], desired);
    }
  }

  /** Whether the server answers the listing, and takes a batch; a batch is taken whole or not. */
  datatype Server = Server(lists: bool, takes: bool)

  const WORKING := Server(true, true)

  lemma CandidateShown(existing: map<string, RRSet>, desired: map<string, RRSet>, e: Entry)
    requires e.key in existing
    ensures var a := ActionFor(existing, desired)(e);
            && (a.action == "delete-candidate" <==> e.verdict == DeleteCandidate)
            && (e.key !in desired ==> a.name == TrimSpace(Undotted(existing[e.key].name)))
  {
    assert "create"[0] == 'c' && "update"[0] == 'u' && "no-op"[0] == 'n' && "delete-candidate"[0] == 'd';
    if e.key !in desired {
      Undots(existing[e.key].name);
    }
    hide TrimSpace, Describe, TrimSuffix, Undotted;
  }

  lemma DesiredShown(existing: map<string, RRSet>, desired: map<string, RRSet>, e: Entry)
    requires e.key in desired && e.verdict != DeleteCandidate
    ensures ActionFor(existing, desired)(e).action != "delete-candidate"
  {
    assert "create"[0] == 'c' && "update"[0] == 'u' && "no-op"[0] == 'n' && "delete-candidate"[0] == 'd';
    hide Describe, DisplayName;
  }

  /** A reported delete candidate is a listed record that stands for no endpoint. */
  lemma CandidateStandsForNone(plan: seq<Entry>, actions: seq<Action>, listed: seq<RRSet>, r: Config, host: string -> string, a: Action)
    returns (rec: RRSet)
    requires Reports(plan, actions, ByKey(listed), ByKey(RecordsFor(r, host))) && a in actions && a.action == "delete-candidate"
    ensures rec in listed && a.name == TrimSpace(Undotted(rec.name)) && forall i | 0 <= i < |r.endpoints| :: !StandsFor(rec, r, i)
  {
    hide RecordKey, RecordsFor, RecordsEqual, StandsFor, ByKey, DesiredFirst, ActionFor, TrimSpace, Undotted;
    var existing, desired := ByKey(listed), ByKey(RecordsFor(r, host));
    var k :| 0 <= k < |actions| && actions[k] == a;
    var e := plan[k];
    assert e in plan && (e.key in desired || e.key in existing);
    if e.key in desired {
      DesiredShown(existing, desired, e);
    }
    CandidateShown(existing, desired, e);
    ByKeyFrom(listed, e.key);
    rec := existing[e.key];
    UndesiredStandsForNone(rec, r, host);
  }

  /** And every listed record that stands for none is reported by its key. */
  lemma StaleIsReported(plan: seq<Entry>, actions: seq<Action>, listed: seq<RRSet>, r: Config, host: string -> string, rec: RRSet)
    returns (shown: RRSet, a: Action)
    requires Reports(plan, actions, ByKey(listed), ByKey(RecordsFor(r, host)))
    requires rec in listed && forall i | 0 <= i < |r.endpoints| :: !StandsFor(rec, r, i)
    ensures a in actions && a.action == "delete-candidate" && a.name == TrimSpace(Undotted(shown.name))
    ensures shown in listed && RecordKey(shown) == RecordKey(rec)
  {
    hide RecordKey, RecordsFor, RecordsEqual, StandsFor, ByKey, DesiredFirst, ActionFor, TrimSpace, Undotted;
    var existing, desired := ByKey(listed), ByKey(RecordsFor(r, host));
    ByKeyHas(listed, rec);
    ByKeyFrom(listed, RecordKey(rec));
    UndesiredStandsForNone(rec, r, host);
    var e :| e in plan && e.key == RecordKey(rec);
    CandidateShown(existing, desired, e);
    var k :| 0 <= k < |plan| && plan[k] == e;
    shown, a := existing[e.key], actions[k];
  }

  lemma {:induction false} SelectIsShorter(records: seq<RRSet>, keep: RRSet -> bool)
    ensures |Select(records, keep)| <= |records|
  {
    if records != [] {
      SelectIsShorter(records[1..], keep);
    }
  }

  lemma PageBound(records: seq<RRSet>, hostname: string, onward: Order)
    ensures |Listed(records, hostname, onward)| <= 100
  {
    SelectIsShorter(Page(Onward(records, hostname, onward)), IsRelevant(hostname));
  }

  lemma EveryoneServed(records: seq<RRSet>, r: Config, host: string -> string, onward: Order, plan: seq<Entry>)
    requires StartsAtHost(onward) && Settled(Listed(records, r.hostname, onward), r, host) && Accepts(r, host)
    requires |Onward(records, r.hostname, onward)| + |r.endpoints| <= PAGE
    requires IsPlan(plan, ByKey(Listed(records, r.hostname, onward)), ByKey(RecordsFor(r, host)), RecordsEqual, Manages)
    ensures var listed := Listed(UpsertAll(records, ChangesOf(plan, ByKey(RecordsFor(r, host)))), r.hostname, onward);
            forall i | 0 <= i < |r.endpoints| && Lasting(r, i) :: exists rec :: rec in listed && StandsFor(rec, r, i) && Serves(rec, r, host, i)
  {
    hide Listed, Onward, Settled, StartsAtHost, IsPlan, RecordsFor, ByKey, UpsertAll, ChangesOf, Lasting, StandsFor, Serves, HasCname, TrimSpace;
    forall i | 0 <= i < |r.endpoints| && Lasting(r, i)
      ensures var listed := Listed(UpsertAll(records, ChangesOf(plan, ByKey(RecordsFor(r, host)))), r.hostname, onward);
              exists rec :: rec in listed && StandsFor(rec, r, i) && Serves(rec, r, host, i)
    {
      assert r.endpoints[i] in r.endpoints;
      var rec := SyncServes(records, r, host, onward, plan, i);
    }
  }

  lemma HostDisplayed(r: Config, host: string -> string, i: nat)
    requires i < |r.endpoints|
    ensures DisplayName(RecordFor(r, host, i).name) == TrimSpace(Undotted(TrimSpace(Lower(r.hostname))))
  {
    hide TrimSpace, Lower;
    Redotted(r.hostname);
    var fqdn := EnsureFQDN(r.hostname);
    Undots(fqdn);
    assert Undotted(fqdn) == Undotted(TrimSpace(Lower(r.hostname)));
    hide CnameTarget, NormalizeIdentifier, EnsureFQDN, Undotted;
  }

  /** The report has for every endpoint one action that says whether its record was missing, had
      to be changed, or serves the endpoint as it is. */
  lemma ReportTellsServing(plan: seq<Entry>, actions: seq<Action>, listed: seq<RRSet>, r: Config, host: string -> string, i: nat)
    returns (a: Action)
    requires Reports(plan, actions, ByKey(listed), ByKey(RecordsFor(r, host)))
    requires i < |r.endpoints| && Lasting(r, i) && HasCname(r.endpoints[i], host)
    ensures a in actions && a.resource == "dns_record" && Details(a.detail, r, host, i)
    ensures a.name == TrimSpace(Undotted(TrimSpace(Lower(r.hostname))))
    ensures a.action == "create" <==> forall rec | rec in listed :: !StandsFor(rec, r, i)
    ensures forall k | 0 <= k < |listed| && StandsFor(listed[k], r, i) && (forall l | k < l < |listed| :: !StandsFor(listed[l], r, i)) ::
              a.action == if Serves(listed[k], r, host, i) then "no-op" else "update"
  {
    hide RecordKey, RecordFor, RecordsFor, RecordsEqual, Lasting, StandsFor, Serves, ByKey, HasCname, IsPlan, DesiredFirst, Describe, DisplayName, Details,
         TrimSpace, Lower;
    DescribeDetails(r, host, i);
    HostDisplayed(r, host, i);
    EndpointDesired(r, host, i);
    var e := PlanDecidesByServing(plan, listed, r, host, i);
    var k :| 0 <= k < |plan| && plan[k] == e;
    a := actions[k];
    assert "create"[0] == 'c' && "update"[0] == 'u' && "no-op"[0] == 'n';
  }

  class Zone {
    const onward: Order
    var records: seq<RRSet>
    var batches: nat

    constructor (records: seq<RRSet>, onward: Order)
      ensures this.records == records && this.onward == onward && batches == 0
    {
      this.records, this.onward, batches := records, onward, 0;
    }

    method LoadExisting(hostname: string) returns (listed: seq<RRSet>)
      ensures listed == Listed(records, hostname, onward) && |listed| <= 100
      ensures |Onward(records, hostname, onward)| <= 100 ==> listed == RelevantOf(Onward(records, hostname, onward), hostname)
    {
      hide Relevant;
      PageBound(records, hostname, onward);
      var page := Page(Onward(records, hostname, onward));
      listed := [];
      for i := 0 to |page|
        invariant listed == RelevantOf(page[..i], hostname)
      {
        SelectAppended(page[..i], page[i], IsRelevant(hostname));
        assert page[..i + 1] == page[..i] + [page[i]];
        if Relevant(page[i], hostname) {
          listed := listed + [page[i]];
        }
      }
      assert page[..|page|] == page;
    }

    /** The plan covers every desired key, sorted, then every stale one; its creates and updates
        are sent as one batch, unless there are none or the run is dry. A run that fails leaves
        the zone as it is. */
    method Sync(r: Config, dryRun: bool, host: string -> string, server: Server)
      returns (result: Result<seq<Action>>, ghost plan: seq<Entry>)
      modifies this
      ensures !Accepts(r, host) || !server.lists ==> result.Err? && records == old(records) && batches == old(batches)
      ensures Accepts(r, host) && server.lists ==>
        var existing, desired := ByKey(Listed(old(records), r.hostname, onward)), ByKey(RecordsFor(r, host));
        var sends := !dryRun && ChangesOf(plan, desired) != [];
        && IsPlan(plan, existing, desired, RecordsEqual, Manages)
        && (result.Ok? <==> !sends || server.takes)
        && (result.Ok? ==> Reports(plan, result.value, existing, desired))
        && records == (if sends && server.takes then UpsertAll(old(records), ChangesOf(plan, desired)) else old(records))
        && batches == old(batches) + if sends && server.takes then 1 else 0
    {
      hide *;
      plan := [];
      var wanted := DesiredRecords(r, host);
      if wanted.Err? {
        return Err(wanted.reason), [];
      }
      if !server.lists {
        return Err("route53 list records"), [];
      }
      var listed := LoadExisting(r.hostname);
      var desired := MapByKey(wanted.value);
      var existing := MapByKey(listed);
      var actions, changes, front := PlanDesired(existing, desired);
      var staleActions, stale := PlanStaleKeys(existing, desired, front);
      plan := front + stale;
      PlanReported(front, stale, existing, desired);
      PlanComplete(plan, existing, desired);
      if dryRun || |changes| == 0 {
        return Ok(actions + staleActions), plan;
      }
      if !server.takes {
        return Err("route53 reconcile failed"), plan;
      }
      records := UpsertAll(records, changes);
      batches := batches + 1;
      result := Ok(actions + staleActions);
    }

    /** A dry run writes nothing and reports what the real run after it reports, up to the order
        of the stale keys. */
    method Preview(r: Config, host: string -> string) returns (dry: Result<seq<Action>>, wet: Result<seq<Action>>)
      modifies this
      ensures dry.Ok? == wet.Ok? == Accepts(r, host)
      ensures dry.Ok? ==> multiset(dry.value) == multiset(wet.value)
      ensures batches <= old(batches) + 1
    {
      hide Accepts, RecordsEqual, Listed, IsPlan, DesiredFirst, ActionFor, ChangesOf, UpsertAll, ByKey, RecordsFor;
      ghost var p, q;
      dry, p := Sync(r, true, host, WORKING);
      wet, q := Sync(r, false, host, WORKING);
      if dry.Ok? {
        ghost var existing, desired := ByKey(Listed(old(records), r.hostname, onward)), ByKey(RecordsFor(r, host));
        PlansAgree(p, q, existing, desired, RecordsEqual, Manages);
        MapPermutes(p, q, ActionFor(existing, desired));
      }
    }

    /** A second sync finds nothing to write, so that it succeeds, with the batches and the
        records of the first, even against a server that takes none: every desired key is a
        no-op and every stale one is still only a candidate. */
    method SyncTwice(r: Config, dryRun: bool, host: string -> string)
      returns (result: Result<seq<Action>>, ghost plan: seq<Entry>, ghost synced: seq<RRSet>, ghost sent: nat)
      requires StartsAtHost(onward) && Settled(Listed(records, r.hostname, onward), r, host)
      requires |Onward(records, r.hostname, onward)| + |r.endpoints| <= PAGE
      modifies this
      ensures result.Ok? <==> Accepts(r, host)
      ensures sent <= old(batches) + 1 && batches == sent && records == synced
      ensures result.Ok? ==>
        forall i | 0 <= i < |r.endpoints| && Lasting(r, i) ::
          exists rec :: rec in Listed(records, r.hostname, onward) && StandsFor(rec, r, i) && Serves(rec, r, host, i)
      ensures result.Ok? ==>
        var existing, desired := ByKey(Listed(records, r.hostname, onward)), ByKey(RecordsFor(r, host));
        && Reports(plan, result.value, existing, desired)
        && forall e | e in plan :: e.verdict == if e.key in desired then NoOp else DeleteCandidate
    {
      hide Accepts, IsFailover, RecordsEqual, Settled, Listed, Onward, StartsAtHost, RecordsFor, IsPlan, DesiredFirst, ActionFor, ByKey, UpsertAll, ChangesOf;
      ghost var before;
      result, before := Sync(r, false, host, WORKING);
      synced, sent, plan := records, batches, [];
      if result.Err? {
        return;
      }
      ghost var desired := ByKey(RecordsFor(r, host));
      WrittenIsUpserted(old(records), records, ChangesOf(before, desired));
      SyncSettles(old(records), r, host, onward, before);
      EveryoneServed(old(records), r, host, onward, before);
      result, plan := Sync(r, dryRun, host, Server(true, false));
      SettledPlan(plan, ByKey(Listed(synced, r.hostname, onward)), desired, RecordsEqual, Manages);
      NothingToChange(plan, desired);
    }
  }
}
