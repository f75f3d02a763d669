/** What the profile's endpoints say of the routing's, independently of how they are compared. */
module TrafficManagerEndpoints {
  import opened Decimal
  import opened KeyedPlan
  import opened Ordering
  import opened Permutations
  import opened Routing
  import opened Selections
  import opened Text
  import opened TrafficManager
  import opened TrafficManagerLaws
  import opened TrafficManagerProfile
  import opened Wrappers

  // ---- Names ----

  predicate Dashes(s: string) {
    forall c | c in s :: c == '-'
  }

  lemma {:induction false} TrimDashesTakes(s: string) returns (before: string, after: string)
    ensures s == before + TrimDashes(s) + after && Dashes(before) && Dashes(after)
    decreases |s|
  {
    before, after := "", "";
    if s == "" {
    } else if s[0] == '-' {
      before, after := TrimDashesTakes(s[1..]);
      assert s == ['-'] + (before + TrimDashes(s[1..]) + after);
      assert s == (['-'] + before) + TrimDashes(s[1..]) + after;
      before := ['-'] + before;
    } else if s[|s| - 1] == '-' {
      var front := s[..|s| - 1];
      before, after := TrimDashesTakes(front);
      assert s == (before + TrimDashes(front) + after) + ['-'];
      assert s == before + TrimDashes(front) + (after + ['-']);
      after := after + ['-'];
    }
  }

  /** The slug is the text with everything but letters and digits turned into dashes, and the
      dashes at both ends taken off. */
  ghost predicate SlugOf(slug: string, text: string) {
    exists before, after: string ::
      && Dashes(before) && Dashes(after) && |before| + |slug| + |after| == |text|
      && (slug == "" || (slug[0] != '-' && slug[|slug| - 1] != '-'))
      && forall k | 0 <= k < |text| :: (before + slug + after)[k] == if IsSlugChar(text[k]) then text[k] else '-'
  }

  /** An endpoint is named for itself, in lower case and as a slug, and otherwise numbered. */
  lemma NameTellsEndpoint(name: string, idx: nat) returns (slug: string)
    ensures var given := Lower(TrimSpace(name));
            SlugOf(slug, if given == "" then "endpoint-" + Print(idx + 1) else given)
    ensures EndpointName(name, idx) == "runfabric-" + if slug == "" then "endpoint-" + Print(idx + 1) else slug
  {
    hide TrimSpace, Lower, Print;
    var given := Lower(TrimSpace(name));
    var text := if given == "" then "endpoint-" + Print(idx + 1) else given;
    var mapped := Map(text, SlugChar);
    slug := TrimDashes(mapped);
    var before, after := TrimDashesTakes(mapped);
    TrimDashesEnds(mapped);
    assert before + slug + after == mapped;
  }

  lemma {:induction false} TrimDashesEnds(s: string)
    ensures var t := TrimDashes(s); t == "" || (t[0] != '-' && t[|t| - 1] != '-')
    decreases |s|
  {
    if s == "" {
    } else if s[0] == '-' {
      TrimDashesEnds(s[1..]);
    } else if s[|s| - 1] == '-' {
      TrimDashesEnds(s[..|s| - 1]);
    }
  }

  // ---- One endpoint ----

  predicate FailsOver(r: Config) {
    Lower(TrimSpace(r.strategy)) == "failover" && |r.endpoints| == 2
  }

  function Weight(r: Config, i: nat): int
    requires i < |r.endpoints|
  {
    if r.endpoints[i].weight > 0 then r.endpoints[i].weight else 1
  }

  /** The stored endpoint directs to the routing's: its target, switched on, with its place in
      failover mode and its weight otherwise. */
  ghost predicate Directs(ep: Resource, r: Config, host: string -> string, i: nat)
    requires i < |r.endpoints|
  {
    && (exists name :: LeadsToName(r.endpoints[i].url, host, name) && SameName(ep.target, name))
    && Lower(TrimSpace(ep.status)) == "enabled"
    && if FailsOver(r) then ep.priority == i + 1 else ep.weight == Weight(r, i)
  }

  lemma EqualIffDirects(ep: Resource, r: Config, host: string -> string, i: nat)
    requires i < |r.endpoints| && HasTarget(r.endpoints[i], host)
    ensures EndpointEqual(ep, DesiredFor(r, host, i), IsFailover(r)) <==> Directs(ep, r, host, i)
  {
    var want := DesiredFor(r, host, i);
    var name := Target(r.endpoints[i].url, host).value;
    TargetIff(r.endpoints[i].url, host, name);
    OneTarget(r.endpoints[i].url, host, name);
    NormalizeIff(ep.target, name);
    EnabledLowered();
    hide TrimSpace, Lower, Normalize, SameName, LeadsToName, Target, EndpointName;
  }

  lemma OneTarget(url: string, host: string -> string, name: string)
    requires LeadsToName(url, host, name)
    ensures forall other | LeadsToName(url, host, other) :: other == name
  {
    hide TrimSpace, Lower, Undotted;
  }

  lemma EnabledLowered()
    ensures Lower(TrimSpace("Enabled")) == "enabled"
  {
    assert TrimSpace("Enabled") == "Enabled" && Lower("Enabled") == "enabled";
  }

  /** One the router wrote itself has nothing else set. */
  ghost predicate WrittenFor(ep: Resource, r: Config, host: string -> string, i: nat)
    requires i < |r.endpoints|
  {
    && ep.name == EndpointName(r.endpoints[i].name, i) && LeadsToName(r.endpoints[i].url, host, ep.target)
    && ep.kind == "Microsoft.Network/trafficManagerProfiles/externalEndpoints" && ep.status == "Enabled"
    && if FailsOver(r) then ep.weight == 0 && ep.priority == i + 1 else ep.weight == Weight(r, i) && ep.priority == 0
  }

  lemma DesiredIsWritten(r: Config, host: string -> string, i: nat)
    requires i < |r.endpoints| && HasTarget(r.endpoints[i], host)
    ensures WrittenFor(DesiredFor(r, host, i), r, host, i)
  {
    TargetIff(r.endpoints[i].url, host, Target(r.endpoints[i].url, host).value);
    hide TrimSpace, Lower, Target, EndpointName, LeadsToName;
  }

  // ---- A whole sync ----

  lemma DesiredHas(desired: seq<Resource>, r: Config, host: string -> string, i: nat)
    requires IsDesired(desired, r, host) && i < |r.endpoints|
    ensures DesiredFor(r, host, i) in desired
  {
    hide DesiredFor;
    assert DesiredOf(r, host)[i] in multiset(DesiredOf(r, host));
  }

  lemma DesiredFrom(desired: seq<Resource>, r: Config, host: string -> string, want: Resource) returns (i: nat)
    requires IsDesired(desired, r, host) && want in desired
    ensures i < |r.endpoints| && want == DesiredFor(r, host, i)
  {
    hide DesiredFor;
    assert want in multiset(DesiredOf(r, host));
    i :| 0 <= i < |r.endpoints| && DesiredOf(r, host)[i] == want;
  }

  lemma DesiredNamed(r: Config, host: string -> string, i: nat)
    requires i < |r.endpoints|
    ensures NameOf(DesiredFor(r, host, i)) == EndpointName(r.endpoints[i].name, i) != ""
  {
    EndpointNameIsManaged(r.endpoints[i].name, i);
    hide EndpointName, TrimSpace, Lower;
  }

  /** After a real sync of distinct names, the one endpoint of each endpoint's name directs to it,
      and was stored before or written for it. */
  lemma SyncDirects(endpoints: seq<Resource>, desired: seq<Resource>, r: Config, host: string -> string, i: nat) returns (ep: Resource)
    requires DistinctNames(endpoints) && DistinctNames(desired) && Valid(r, host) && IsDesired(desired, r, host) && i < |r.endpoints|
    ensures var after := UpsertAll(endpoints, Needed(desired, ByName(endpoints), IsFailover(r)));
            && ep in after && NameOf(ep) == EndpointName(r.endpoints[i].name, i)
            && Directs(ep, r, host, i) && (ep in endpoints || WrittenFor(ep, r, host, i))
            && forall other | other in after && NameOf(other) == NameOf(ep) :: other == ep
  {
    var want := DesiredFor(r, host, i);
    assert r.endpoints[i] in r.endpoints;
    var failover := IsFailover(r);
    var needed := Needed(desired, ByName(endpoints), failover);
    var after := UpsertAll(endpoints, needed);
    hide NameOf, DesiredFor, EndpointName, Needed, UpsertAll, ByName, IsFailover, Directs, WrittenFor, HasTarget, TrimSpace, DistinctNames, EndpointEqual;
    DesiredHas(desired, r, host, i);
    DesiredNamed(r, host, i);
    AllNamed(desired, r, host);
    SyncSettles(endpoints, desired, failover);
    TableIsEndpoints(after);
    ep := ByName(after)[NameOf(want)];
    EqualIffDirects(ep, r, host, i);
    NeededIff(desired, ByName(endpoints), failover);
    UpsertAllIff(endpoints, needed);
    if ep !in endpoints {
      SameNameSame(desired, ep, want);
      DesiredIsWritten(r, host, i);
    }
    forall other | other in after && NameOf(other) == NameOf(ep) ensures other == ep {
      SameNameSame(after, other, ep);
    }
  }

  lemma AllNamed(desired: seq<Resource>, r: Config, host: string -> string)
    requires IsDesired(desired, r, host)
    ensures Named(desired)
  {
    hide NameOf, IsDesired;
    forall want | want in desired ensures NameOf(want) != "" {
      var i := DesiredFrom(desired, r, host, want);
      DesiredNamed(r, host, i);
    }
  }

  // ---- The report ----

  lemma ReportHas(actions: seq<Action>, endpoints: seq<Resource>, desired: seq<Resource>, failover: bool, want: Resource)
    requires Reports(actions, endpoints, desired, failover) && want in desired
    ensures ActionFor(ByName(endpoints), failover)(want) in actions
  {
    hide ActionFor, StaleOf, ByName, SortedBy;
    var mapped := Map(desired, ActionFor(ByName(endpoints), failover));
    var k :| 0 <= k < |desired| && desired[k] == want;
    assert mapped[k] in multiset(mapped);
    assert mapped[k] in multiset(actions);
  }

  lemma VerdictTellsDirecting(endpoints: seq<Resource>, r: Config, host: string -> string, i: nat)
    requires DistinctNames(endpoints) && i < |r.endpoints| && HasTarget(r.endpoints[i], host)
    ensures var want := DesiredFor(r, host, i);
            var verdict := VerdictFor(ByName(endpoints), IsFailover(r), want);
            && (verdict == Create <==> forall ep | ep in endpoints :: NameOf(ep) != NameOf(want))
            && (forall ep | ep in endpoints && NameOf(ep) == NameOf(want) :: verdict == if Directs(ep, r, host, i) then NoOp else Update)
  {
    var want := DesiredFor(r, host, i);
    hide NameOf, DesiredFor, EndpointName, ByName, IsFailover, Directs, HasTarget, TrimSpace, DistinctNames, EndpointEqual;
    DesiredNamed(r, host, i);
    TableIsEndpoints(endpoints);
    forall ep | ep in endpoints && NameOf(ep) == NameOf(want)
      ensures VerdictFor(ByName(endpoints), IsFailover(r), want) == if Directs(ep, r, host, i) then NoOp else Update
    {
      EqualIffDirects(ep, r, host, i);
    }
  }

  lemma ActionTellsVerdict(endpoints: seq<Resource>, failover: bool, want: Resource)
    ensures var a, verdict := ActionFor(ByName(endpoints), failover)(want), VerdictFor(ByName(endpoints), failover, want);
            && a.resource == "traffic_manager_endpoint" && a.name == NameOf(want)
            && a.detail == Describe(want, failover)
            && (a.action == "create" <==> verdict == Create) && (a.action == "update" <==> verdict == Update)
            && (a.action == "no-op" <==> verdict == NoOp)
  {
    assert "create"[0] == 'c' && "update"[0] == 'u' && "no-op"[0] == 'n' && "delete-candidate"[0] == 'd';
    hide NameOf, ByName, EndpointEqual, Describe;
  }

  /** What the report shows of an endpoint: its target, and its place or weight. */
  ghost predicate Details(detail: string, r: Config, host: string -> string, i: nat)
    requires i < |r.endpoints|
  {
    exists name :: LeadsToName(r.endpoints[i].url, host, name)
                   && detail == "azure-traffic-manager target=" + Undotted(Lower(TrimSpace(name)))
                                + if FailsOver(r) then " priority=" + Print(i + 1) else " weight=" + Print(Weight(r, i))
  }

  lemma DescribeDetails(r: Config, host: string -> string, i: nat)
    requires i < |r.endpoints| && HasTarget(r.endpoints[i], host)
    ensures Details(Describe(DesiredFor(r, host, i), IsFailover(r)), r, host, i)
  {
    var name := Target(r.endpoints[i].url, host).value;
    TargetIff(r.endpoints[i].url, host, name);
    Undots(Lower(TrimSpace(name)));
    hide TrimSpace, Lower, Target, EndpointName, LeadsToName, Print, Undotted, TrimSuffix;
  }

  /** For every endpoint the report says whether its name was missing, had to be changed, or
      directs to it as it is. */
  lemma ReportTellsDirecting(actions: seq<Action>, endpoints: seq<Resource>, desired: seq<Resource>, r: Config, host: string -> string, i: nat)
    returns (a: Action)
    requires DistinctNames(endpoints) && Valid(r, host) && IsDesired(desired, r, host) && i < |r.endpoints|
    requires Reports(actions, endpoints, desired, IsFailover(r))
    ensures a in actions && a.resource == "traffic_manager_endpoint" && a.name == EndpointName(r.endpoints[i].name, i)
    ensures Details(a.detail, r, host, i)
    ensures a.action == "create" <==> forall ep | ep in endpoints :: NameOf(ep) != a.name
    ensures forall ep | ep in endpoints && NameOf(ep) == a.name :: a.action == if Directs(ep, r, host, i) then "no-op" else "update"
  {
    var want := DesiredFor(r, host, i);
    assert r.endpoints[i] in r.endpoints && HasTarget(r.endpoints[i], host);
    a := ActionFor(ByName(endpoints), IsFailover(r))(want);
    hide *;
    DesiredHas(desired, r, host, i);
    DesiredNamed(r, host, i);
    ReportHas(actions, endpoints, desired, IsFailover(r), want);
    ActionTellsVerdict(endpoints, IsFailover(r), want);
    VerdictTellsDirecting(endpoints, r, host, i);
    DescribeDetails(r, host, i);
  }

  // ---- Delete candidates ----

  function Stale(wanted: set<string>): Resource -> bool {
    (ep: Resource) => "runfabric-" <= NameOf(ep) && NameOf(ep) !in wanted
  }

  function NamesStale(ep: Resource): Action {
    Action("traffic_manager_endpoint", "delete-candidate", NameOf(ep), "azure-traffic-manager target=" + Normalize(ep.target))
  }

  lemma {:induction false} StaleListed(endpoints: seq<Resource>, wanted: set<string>)
    ensures Selects(endpoints, Stale(wanted), NamesStale, Map(StaleOf(endpoints, wanted), CandidateAction))
  {
    hide Selects, NameOf, Normalize;
    if endpoints == [] {
      NoneSelected(Stale(wanted), NamesStale);
    } else {
      var front, last := endpoints[..|endpoints| - 1], endpoints[|endpoints| - 1];
      StaleListed(front, wanted);
      assert endpoints == front + [last];
      StaleAppendedTo(front, last, wanted);
      hide StaleOf;
      SelectsAppended(front, last, Stale(wanted), NamesStale, Map(StaleOf(front, wanted), CandidateAction));
    }
  }

  lemma StaleAppendedTo(front: seq<Resource>, last: Resource, wanted: set<string>)
    ensures Map(StaleOf(front + [last], wanted), CandidateAction)
         == if Stale(wanted)(last) then Map(StaleOf(front, wanted), CandidateAction) + [NamesStale(last)] else Map(StaleOf(front, wanted), CandidateAction)
  {
    hide NameOf, Normalize;
    assert (front + [last])[..|front|] == front;
    assert StaleOf(front, wanted) + [] == StaleOf(front, wanted);
  }

  /** Besides one action for each desired endpoint the report has just the delete candidates: the
      endpoints with the router's prefix whose names no endpoint has. */
  lemma ReportNamesStale(actions: seq<Action>, endpoints: seq<Resource>, desired: seq<Resource>, failover: bool) returns (candidates: seq<Action>)
    requires Reports(actions, endpoints, desired, failover)
    ensures Selects(endpoints, Stale(NamesOf(desired)), NamesStale, candidates)
    ensures multiset(actions) == multiset(Map(desired, ActionFor(ByName(endpoints), failover))) + multiset(candidates)
  {
    hide StaleOf, ByName, SortedBy, Selects, ActionFor;
    StaleListed(endpoints, NamesOf(desired));
    candidates := Map(StaleOf(endpoints, NamesOf(desired)), CandidateAction);
  }
}
