/** What the router's records say of the endpoints, independently of how records are compared. */
module Route53Records {
  import opened Decimal
  import opened KeyedPlan
  import opened Permutations
  import opened Route53
  import opened Route53Laws
  import opened Routing
  import opened Text
  import opened Wrappers

  // ---- Names ----

  /** Equal but for case, spaces around and one final dot. */
  predicate SameHost(a: string, b: string) {
    Undotted(TrimSpace(Lower(a))) == Undotted(TrimSpace(Lower(b)))
  }

  lemma FqdnsAgreeIff(a: string, b: string)
    ensures SameFQDN(a, b) <==> SameHost(a, b)
  {
    hide TrimSpace, Lower;
    var x, y := TrimSpace(Lower(a)), TrimSpace(Lower(b));
    Undots(x);
    Undots(y);
    Redotted(a);
    Redotted(b);
    if EnsureFQDN(a) == EnsureFQDN(b) {
      assert Undotted(x) == EnsureFQDN(a)[..|EnsureFQDN(a)| - 1] == EnsureFQDN(b)[..|EnsureFQDN(b)| - 1] == Undotted(y);
    }
  }

  lemma Redotted(a: string)
    ensures EnsureFQDN(a) == Undotted(TrimSpace(Lower(a))) + "."
  {
    hide TrimSpace, Lower;
    Undots(TrimSpace(Lower(a)));
  }

  /** The URL's host, or the URL itself if it has none; neither dotted nor a path. */
  predicate LeadsTo(url: string, host: string -> string, name: string) {
    && TrimSpace(url) != "" && name != "" && '/' !in name
    && name == TrimSpace(Undotted(if host(TrimSpace(url)) != "" then host(TrimSpace(url)) else TrimSpace(url)))
  }

  lemma CnameIff(url: string, host: string -> string, name: string)
    ensures CnameTarget(url, host) == Some(name + ".") <==> LeadsTo(url, host, name)
  {
    hide TrimSpace;
    var raw := host(TrimSpace(url));
    var text := if raw != "" then raw else TrimSpace(url);
    Undots(text);
    var target := TrimSpace(TrimSuffix(text, "."));
    if target + "." == name + "." {
      assert target == (target + ".")[..|target|] == (name + ".")[..|name|] == name;
    }
  }

  /** An endpoint is accepted exactly if its URL leads somewhere. */
  lemma HasCnameIff(ep: Endpoint, host: string -> string)
    ensures HasCname(ep, host) <==> exists name :: LeadsTo(ep.url, host, name)
  {
    hide TrimSpace, LeadsTo;
    if HasCname(ep, host) {
      var target := CnameTarget(ep.url, host).value;
      var name := target[..|target| - 1];
      assert target == name + ".";
      CnameIff(ep.url, host, name);
    }
    forall name | LeadsTo(ep.url, host, name) ensures HasCname(ep, host) {
      CnameIff(ep.url, host, name);
    }
  }

  predicate Identifies(id: string, ep: Endpoint, i: nat) {
    var given := Lower(TrimSpace(ep.name));
    id == if given == "" then "endpoint-" + Print(i + 1) else given
  }

  // ---- One record ----

  /** The record serves the endpoint: its name, target and TTL, and its role or its weight. */
  ghost predicate Serves(rec: RRSet, r: Config, host: string -> string, i: nat)
    requires i < |r.endpoints|
  {
    var ep := r.endpoints[i];
    && rec.kind == "CNAME" && SameHost(rec.name, r.hostname)
    && (exists name :: LeadsTo(ep.url, host, name) && |rec.values| == 1 && SameHost(rec.values[0], name + "."))
    && rec.ttl == (if r.ttl > 0 then r.ttl else 60)
    && Identifies(TrimSpace(rec.setId), ep, i)
    && if Lower(TrimSpace(r.strategy)) == "failover" && |r.endpoints| == 2
       then rec.failover == (if i == 0 then "PRIMARY" else "SECONDARY") && (rec.weight.None? || rec.weight.value == 0)
       else rec.failover == "" && rec.weight == Some(if ep.weight > 0 then ep.weight else 1)
  }

  /** What the comparison with a desired record decides: whether the record serves the endpoint. */
  lemma EqualIffServes(rec: RRSet, r: Config, host: string -> string, i: nat)
    requires i < |r.endpoints| && HasCname(r.endpoints[i], host)
    ensures RecordsEqual(rec, RecordFor(r, host, i)) <==> Serves(rec, r, host, i)
  {
    var ep := r.endpoints[i];
    var want := RecordFor(r, host, i);
    IdentifierNormal(ep.name, i);
    NormalizedIdentifies(ep, i);
    NameAgrees(rec.name, r.hostname);
    hide TrimSpace, Lower, EnsureFQDN, CnameTarget, Print, LeadsTo, Identifies, NormalizeIdentifier;
    OneIdentifier(ep, i);
    assert IsNormal(want.setId);
    ValueAgrees(rec, want, ep.url, host);
  }

  lemma OneIdentifier(ep: Endpoint, i: nat)
    ensures forall id, other | Identifies(id, ep, i) && Identifies(other, ep, i) :: id == other
  {
    hide TrimSpace, Lower, Print;
  }

  lemma ValueAgrees(rec: RRSet, want: RRSet, url: string, host: string -> string)
    requires CnameTarget(url, host).Some? && want.values == [CnameTarget(url, host).value]
    ensures |rec.values| == |want.values| && (forall k | 0 <= k < |rec.values| :: SameFQDN(rec.values[k], want.values[k]))
       <==> exists name :: LeadsTo(url, host, name) && |rec.values| == 1 && SameHost(rec.values[0], name + ".")
  {
    hide TrimSpace, LeadsTo, SameFQDN, SameHost;
    var target := CnameTarget(url, host).value;
    var name := target[..|target| - 1];
    assert target == name + ".";
    CnameIff(url, host, name);
    OneName(url, host, name);
    if |rec.values| == 1 {
      FqdnsAgreeIff(rec.values[0], name + ".");
    }
  }

  lemma OneName(url: string, host: string -> string, name: string)
    requires LeadsTo(url, host, name)
    ensures forall other | LeadsTo(url, host, other) :: other == name
  {
    hide TrimSpace, Undotted;
  }

  lemma NameAgrees(name: string, hostname: string)
    ensures SameFQDN(name, EnsureFQDN(hostname)) <==> SameHost(name, hostname)
  {
    FqdnsAgreeIff(name, hostname);
    FqdnStable(hostname);
  }

  lemma FqdnStable(hostname: string)
    ensures EnsureFQDN(EnsureFQDN(hostname)) == EnsureFQDN(hostname)
  {
    var t := TrimSpace(Lower(hostname));
    var fqdn := Undotted(t) + ".";
    Redotted(hostname);
    TrimSpaceEnds(Lower(hostname));
    TrimSpaceLower(hostname);
    assert Lower(fqdn) == fqdn;
    TrimmedStays(fqdn);
    Redotted(fqdn);
  }

  /** What the report shows of an endpoint: its target, its role or weight, and the TTL. */
  ghost predicate Details(detail: string, r: Config, host: string -> string, i: nat)
    requires i < |r.endpoints|
  {
    var failover := Lower(TrimSpace(r.strategy)) == "failover" && |r.endpoints| == 2;
    exists name :: LeadsTo(r.endpoints[i].url, host, name)
                   && detail == "route53 cname=" + name
                                + (if failover then " failover=" + (if i == 0 then "PRIMARY" else "SECONDARY")
                                   else " weight=" + Print(if r.endpoints[i].weight > 0 then r.endpoints[i].weight else 1))
                                + " ttl=" + Print(if r.ttl > 0 then r.ttl else 60)
  }

  lemma DescribeDetails(r: Config, host: string -> string, i: nat)
    requires i < |r.endpoints| && HasCname(r.endpoints[i], host)
    ensures Details(Describe(RecordFor(r, host, i)), r, host, i)
  {
    var target := CnameTarget(r.endpoints[i].url, host).value;
    var name := target[..|target| - 1];
    assert target == name + ".";
    CnameIff(r.endpoints[i].url, host, name);
    Displayed(r.endpoints[i].url, host, name);
    hide TrimSpace, Lower, LeadsTo, CnameTarget, DisplayName, EnsureFQDN, NormalizeIdentifier, Print;
  }

  lemma Displayed(url: string, host: string -> string, name: string)
    requires LeadsTo(url, host, name)
    ensures DisplayName(name + ".") == name
  {
    Undots(name + ".");
    assert (name + ".")[..|name|] == name;
    TrimSpaceEnds(Undotted(if host(TrimSpace(url)) != "" then host(TrimSpace(url)) else TrimSpace(url)));
    TrimmedStays(name);
    hide Undotted, TrimSpace;
  }

  // ---- A whole sync ----

  /** No later endpoint takes over the endpoint's record: the two roles differ, and of several
      endpoints of one identifier the last one counts. */
  predicate Lasting(r: Config, i: nat)
    requires i < |r.endpoints|
  {
    IsFailover(r) || forall j | i < j < |r.endpoints| :: NormalizeIdentifier(r.endpoints[j].name, j) != NormalizeIdentifier(r.endpoints[i].name, i)
  }

  lemma NormalizedIdentifies(ep: Endpoint, i: nat)
    ensures Identifies(NormalizeIdentifier(ep.name, i), ep, i)
  {
    hide TrimSpace, Lower, Print;
  }

  /** Which listed records count as the endpoint's: those of its role, or of its identifier. */
  predicate StandsFor(rec: RRSet, r: Config, i: nat)
    requires i < |r.endpoints|
  {
    if IsFailover(r) then rec.failover != "" && Lower(TrimSpace(rec.failover)) == if i == 0 then "primary" else "secondary"
    else rec.failover == "" && Identifies(Lower(TrimSpace(rec.setId)), r.endpoints[i], i)
  }

  lemma RolesLowered()
    ensures Lower(TrimSpace("PRIMARY")) == "primary" && Lower(TrimSpace("SECONDARY")) == "secondary"
  {
    assert TrimSpace("PRIMARY") == "PRIMARY" && TrimSpace("SECONDARY") == "SECONDARY";
    assert Lower("PRIMARY") == "primary" && Lower("SECONDARY") == "secondary";
  }

  lemma KeyOfRole(rec: RRSet)
    requires rec.failover != ""
    ensures RecordKey(rec) == "failover:" + Lower(TrimSpace(rec.failover)) && RecordKey(rec)[0] == 'f'
  {
    hide TrimSpace, Lower;
  }

  lemma KeyOfIdentifier(rec: RRSet)
    requires rec.failover == ""
    ensures var id := Lower(TrimSpace(rec.setId));
            RecordKey(rec) == (if id != "" then "id:" + id else "default") && RecordKey(rec)[0] != 'f'
  {
    hide TrimSpace, Lower;
  }

  lemma Unprefixed(prefix: string, a: string, b: string)
    ensures prefix + a == prefix + b <==> a == b
  {
    if prefix + a == prefix + b {
      assert a == (prefix + a)[|prefix|..] == (prefix + b)[|prefix|..] == b;
    }
  }

  lemma RoleKeyIff(rec: RRSet, want: RRSet, role: string)
    requires want.failover != "" && Lower(TrimSpace(want.failover)) == role
    ensures RecordKey(rec) == RecordKey(want) <==> rec.failover != "" && Lower(TrimSpace(rec.failover)) == role
  {
    hide TrimSpace, Lower, RecordKey;
    KeyOfRole(want);
    if rec.failover == "" {
      KeyOfIdentifier(rec);
    } else {
      KeyOfRole(rec);
      Unprefixed("failover:", Lower(TrimSpace(rec.failover)), role);
    }
  }

  lemma IdentifierKeyIff(rec: RRSet, want: RRSet)
    requires want.failover == "" && want.setId != "" && IsNormal(want.setId)
    ensures RecordKey(rec) == RecordKey(want) <==> rec.failover == "" && Lower(TrimSpace(rec.setId)) == want.setId
  {
    assert Lower(TrimSpace(want.setId)) == want.setId;
    hide TrimSpace, Lower, RecordKey;
    KeyOfIdentifier(want);
    if rec.failover != "" {
      KeyOfRole(rec);
    } else {
      KeyOfIdentifier(rec);
      Unprefixed("id:", Lower(TrimSpace(rec.setId)), want.setId);
      assert "default"[0] == 'd' && RecordKey(want)[0] == 'i';
    }
  }

  /** The key of a record is an endpoint's exactly if it stands for that endpoint. */
  lemma KeyIffStandsFor(rec: RRSet, r: Config, host: string -> string, i: nat)
    requires i < |r.endpoints|
    ensures RecordKey(rec) == RecordKey(RecordFor(r, host, i)) <==> StandsFor(rec, r, i)
  {
    var want := RecordFor(r, host, i);
    IdentifierNormal(r.endpoints[i].name, i);
    NormalizedIdentifies(r.endpoints[i], i);
    RolesLowered();
    hide TrimSpace, Lower, RecordKey, NormalizeIdentifier, CnameTarget, EnsureFQDN, IsFailover, IsNormal;
    if IsFailover(r) {
      RoleKeyIff(rec, want, if i == 0 then "primary" else "secondary");
    } else {
      IdentifierKeyIff(rec, want);
    }
  }

  lemma KeysDiffer(r: Config, host: string -> string, i: nat, j: nat)
    requires i < j < |r.endpoints| && Lasting(r, i)
    ensures RecordKey(RecordFor(r, host, i)) != RecordKey(RecordFor(r, host, j))
  {
    KeyIffStandsFor(RecordFor(r, host, i), r, host, j);
    NormalizedIdentifies(r.endpoints[j], j);
    IdentifierNormal(r.endpoints[i].name, i);
    RolesLowered();
    assert "primary"[0] != "secondary"[0];
    hide TrimSpace, Lower, RecordKey, NormalizeIdentifier, CnameTarget, EnsureFQDN;
  }

  lemma {:induction false} LastOfKey(records: seq<RRSet>, i: nat)
    requires i < |records| && forall j | i < j < |records| :: RecordKey(records[j]) != RecordKey(records[i])
    ensures RecordKey(records[i]) in ByKey(records) && ByKey(records)[RecordKey(records[i])] == records[i]
  {
    hide RecordKey;
    if i > 0 {
      LastOfKey(records[1..], i - 1);
    } else if RecordKey(records[0]) in ByKey(records[1..]) {
      ByKeyFrom(records[1..], RecordKey(records[0]));
    }
  }

  lemma EndpointDesired(r: Config, host: string -> string, i: nat)
    requires i < |r.endpoints| && Lasting(r, i)
    ensures var key := RecordKey(RecordFor(r, host, i));
            key in ByKey(RecordsFor(r, host)) && ByKey(RecordsFor(r, host))[key] == RecordFor(r, host, i)
  {
    hide RecordKey, RecordFor, Lasting, ByKey;
    forall j | i < j < |r.endpoints| ensures RecordKey(RecordFor(r, host, j)) != RecordKey(RecordFor(r, host, i)) {
      KeysDiffer(r, host, i, j);
    }
    LastOfKey(RecordsFor(r, host), i);
  }

  /** After a sync, the zone lists for every endpoint a record that serves it. */
  lemma SyncServes(records: seq<RRSet>, r: Config, host: string -> string, onward: Order, plan: seq<Entry>, i: nat) returns (rec: RRSet)
    requires StartsAtHost(onward) && Settled(Listed(records, r.hostname, onward), r, host)
    requires |Onward(records, r.hostname, onward)| + |r.endpoints| <= PAGE
    requires IsPlan(plan, ByKey(Listed(records, r.hostname, onward)), ByKey(RecordsFor(r, host)), RecordsEqual, Manages)
    requires i < |r.endpoints| && Lasting(r, i) && HasCname(r.endpoints[i], host)
    ensures rec in Listed(UpsertAll(records, ChangesOf(plan, ByKey(RecordsFor(r, host)))), r.hostname, onward)
    ensures StandsFor(rec, r, i) && Serves(rec, r, host, i)
  {
    hide *;
    var listed := Listed(UpsertAll(records, ChangesOf(plan, ByKey(RecordsFor(r, host)))), r.hostname, onward);
    var key := RecordKey(RecordFor(r, host, i));
    SyncSettles(records, r, host, onward, plan);
    EndpointDesired(r, host, i);
    ByKeyFrom(listed, key);
    rec := ByKey(listed)[key];
    EqualIffServes(rec, r, host, i);
    KeyIffStandsFor(rec, r, host, i);
  }

  /** The plan creates an endpoint's record exactly if none listed stands for it, and leaves the
      one that does (the last, if several do) exactly if it serves the endpoint. */
  lemma PlanDecidesByServing(plan: seq<Entry>, listed: seq<RRSet>, r: Config, host: string -> string, i: nat) returns (e: Entry)
    requires IsPlan(plan, ByKey(listed), ByKey(RecordsFor(r, host)), RecordsEqual, Manages)
    requires i < |r.endpoints| && Lasting(r, i) && HasCname(r.endpoints[i], host)
    ensures e in plan && e.key == RecordKey(RecordFor(r, host, i)) && e.verdict != DeleteCandidate
    ensures e.verdict == Create <==> forall rec | rec in listed :: !StandsFor(rec, r, i)
    ensures forall k | 0 <= k < |listed| && StandsFor(listed[k], r, i) && (forall l | k < l < |listed| :: !StandsFor(listed[l], r, i)) ::
              e.verdict == if Serves(listed[k], r, host, i) then NoOp else Update
  {
    hide RecordKey, RecordFor, RecordsEqual, Lasting, StandsFor, Serves, ByKey, HasCname;
    EndpointDesired(r, host, i);
    var key := RecordKey(RecordFor(r, host, i));
    e :| e in plan && e.key == key;
    forall rec ensures RecordKey(rec) == key <==> StandsFor(rec, r, i) {
      KeyIffStandsFor(rec, r, host, i);
    }
    if key in ByKey(listed) {
      ByKeyFrom(listed, key);
      assert StandsFor(ByKey(listed)[key], r, i);
    }
    forall rec | rec in listed && StandsFor(rec, r, i) ensures key in ByKey(listed) {
      ByKeyHas(listed, rec);
    }
    forall k | 0 <= k < |listed| && StandsFor(listed[k], r, i) && (forall l | k < l < |listed| :: !StandsFor(listed[l], r, i))
      ensures e.verdict == if Serves(listed[k], r, host, i) then NoOp else Update
    {
      LastOfKey(listed, k);
      EqualIffServes(listed[k], r, host, i);
    }
  }

  lemma {:induction false} ByKeyHas(records: seq<RRSet>, rec: RRSet)
    requires rec in records
    ensures RecordKey(rec) in ByKey(records)
  {
    hide RecordKey;
    if rec != records[0] {
      ByKeyHas(records[1..], rec);
    }
  }

  /** A delete candidate is a listed record that stands for no endpoint, and every such record's
      key is one. */
  lemma CandidatesStandForNone(plan: seq<Entry>, listed: seq<RRSet>, r: Config, host: string -> string)
    requires IsPlan(plan, ByKey(listed), ByKey(RecordsFor(r, host)), RecordsEqual, Manages)
    ensures forall e | e in plan && e.verdict == DeleteCandidate ::
              exists rec :: rec in listed && RecordKey(rec) == e.key && forall i | 0 <= i < |r.endpoints| :: !StandsFor(rec, r, i)
    ensures forall rec | rec in listed && (forall i | 0 <= i < |r.endpoints| :: !StandsFor(rec, r, i)) ::
              exists e :: e in plan && e.key == RecordKey(rec) && e.verdict == DeleteCandidate
  {
    hide RecordKey, RecordsEqual, StandsFor, ByKey;
    forall e | e in plan && e.verdict == DeleteCandidate
      ensures exists rec :: rec in listed && RecordKey(rec) == e.key && forall i | 0 <= i < |r.endpoints| :: !StandsFor(rec, r, i)
    {
      ByKeyFrom(listed, e.key);
      UndesiredStandsForNone(ByKey(listed)[e.key], r, host);
    }
    forall rec | rec in listed && (forall i | 0 <= i < |r.endpoints| :: !StandsFor(rec, r, i))
      ensures exists e :: e in plan && e.key == RecordKey(rec) && e.verdict == DeleteCandidate
    {
      ByKeyHas(listed, rec);
      UndesiredStandsForNone(rec, r, host);
      var e :| e in plan && e.key == RecordKey(rec);
    }
  }

  lemma UndesiredStandsForNone(rec: RRSet, r: Config, host: string -> string)
    ensures RecordKey(rec) !in ByKey(RecordsFor(r, host)) <==> forall i | 0 <= i < |r.endpoints| :: !StandsFor(rec, r, i)
  {
    hide RecordKey, RecordFor, StandsFor, ByKey;
    forall i | 0 <= i < |r.endpoints| ensures RecordKey(rec) == RecordKey(RecordFor(r, host, i)) <==> StandsFor(rec, r, i) {
      KeyIffStandsFor(rec, r, host, i);
    }
    forall i | 0 <= i < |r.endpoints| ensures RecordKey(RecordFor(r, host, i)) in ByKey(RecordsFor(r, host)) {
      assert RecordsFor(r, host)[i] == RecordFor(r, host, i);
      ByKeyHas(RecordsFor(r, host), RecordFor(r, host, i));
    }
    if RecordKey(rec) in ByKey(RecordsFor(r, host)) {
      var i := DesiredFrom(r, host, RecordKey(rec));
    }
  }
}
