/** The Azure Traffic Manager router: named endpoints of one profile, of which those with the
    router's prefix are its own. */
module TrafficManager {
  import opened Decimal
  import opened KeyedPlan
  import opened Ordering
  import opened Permutations
  import opened Routing
  import opened Text
  import opened Wrappers

  datatype Resource = Resource(name: string, kind: string, target: string, status: string, weight: int, priority: int)

  const MANAGED_PREFIX := "runfabric-"
  const KIND := "Microsoft.Network/trafficManagerProfiles/externalEndpoints"

  /** Names are compared trimmed and in lower case. */
  function NameOf(ep: Resource): string {
    Lower(TrimSpace(ep.name))
  }

  predicate IsManaged(name: string) {
    MANAGED_PREFIX <= name
  }

  // ---- Names of desired endpoints ----

  predicate IsSlugChar(c: char) {
    'a' <= c <= 'z' || '0' <= c <= '9'
  }

  function SlugChar(c: char): char {
    if IsSlugChar(c) then c else '-'
  }

  function TrimDashes(s: string): string {
    if s == "" then ""
    else if s[0] == '-' then TrimDashes(s[1..])
    else if s[|s| - 1] == '-' then TrimDashes(s[..|s| - 1])
    else s
  }

  function DefaultName(idx: nat): string {
    "endpoint-" + Print(idx + 1)
  }

  function EndpointName(name: string, idx: nat): string {
    var given := Lower(TrimSpace(name));
    var slug := TrimDashes(Map(if given == "" then DefaultName(idx) else given, SlugChar));
    MANAGED_PREFIX + if slug == "" then DefaultName(idx) else slug
  }

  /** Letters, digits and dashes, neither first nor last a dash. */
  ghost predicate IsSlug(s: string) {
    s != "" && IsSlugChar(s[0]) && IsSlugChar(s[|s| - 1]) && forall c | c in s :: IsSlugChar(c) || c == '-'
  }

  lemma {:induction false} TrimDashesMakesSlug(s: string)
    requires forall c | c in s :: IsSlugChar(c) || c == '-'
    ensures TrimDashes(s) == "" || IsSlug(TrimDashes(s))
  {
    if s == "" {
    } else if s[0] == '-' {
      TrimDashesMakesSlug(s[1..]);
    } else if s[|s| - 1] == '-' {
      TrimDashesMakesSlug(s[..|s| - 1]);
    } else {
      assert s[0] in s && s[|s| - 1] in s;
    }
  }

  lemma DefaultNameIsSlug(idx: nat)
    ensures IsSlug(DefaultName(idx))
  {
    hide Print;
    var digits := Print(idx + 1);
    var s := DefaultName(idx);
    PositivePrinted(idx + 1);
    assert s[|s| - 1] == digits[|digits| - 1] && digits[|digits| - 1] in digits;
    forall k | 0 <= k < |s| ensures IsSlugChar(s[k]) || s[k] == '-' {
      if k >= 9 {
        assert s[k] == digits[k - 9] && digits[k - 9] in digits;
      } else {
        assert s[k] == "endpoint-"[k];
      }
    }
  }

  /** Whatever an endpoint is called, its name is a slug under the router's prefix, so that it
      is recognised as the router's own once it is no longer wanted. */
  lemma EndpointNameIsManaged(name: string, idx: nat)
    ensures var n := EndpointName(name, idx); IsManaged(n) && IsSlug(n[|MANAGED_PREFIX|..]) && Lower(TrimSpace(n)) == n
  {
    var given := Lower(TrimSpace(name));
    var base := Map(if given == "" then DefaultName(idx) else given, SlugChar);
    TrimDashesMakesSlug(base);
    DefaultNameIsSlug(idx);
    SlugIsNormal(if TrimDashes(base) == "" then DefaultName(idx) else TrimDashes(base));
  }

  lemma SlugIsNormal(slug: string)
    requires IsSlug(slug)
    ensures var n := MANAGED_PREFIX + slug; IsManaged(n) && n[|MANAGED_PREFIX|..] == slug && Lower(TrimSpace(n)) == n
  {
    var n := MANAGED_PREFIX + slug;
    assert n[|n| - 1] == slug[|slug| - 1];
    assert TrimSpace(n) == n;
    forall k | 0 <= k < |n| ensures LowerChar(n[k]) == n[k] {
      if k >= |MANAGED_PREFIX| {
        assert n[k] == slug[k - |MANAGED_PREFIX|] && n[k] in slug;
      } else {
        assert n[k] == MANAGED_PREFIX[k];
      }
    }
  }

  // ---- What is desired ----

  function DesiredFor(r: Config, host: string -> string, i: nat): Resource
    requires i < |r.endpoints|
  {
    var ep := r.endpoints[i];
    var target := match Target(ep.url, host) case Some(t) => t case None => "";
    Resource(EndpointName(ep.name, i), KIND, target, "Enabled",
             if IsFailover(r) then 0 else if ep.weight <= 0 then 1 else ep.weight,
             if IsFailover(r) then i + 1 else 0)
  }

  function DesiredOf(r: Config, host: string -> string): (desired: seq<Resource>)
    ensures |desired| == |r.endpoints|
    ensures forall i | 0 <= i < |desired| :: desired[i] == DesiredFor(r, host, i)
  {
    seq(|r.endpoints|, i requires 0 <= i < |r.endpoints| => DesiredFor(r, host, i))
  }

  function RawName(ep: Resource): string {
    ep.name
  }

  ghost predicate IsDesired(desired: seq<Resource>, r: Config, host: string -> string) {
    multiset(desired) == multiset(DesiredOf(r, host)) && Sorted(Map(desired, RawName))
  }

  predicate EndpointEqual(got: Resource, want: Resource, failover: bool) {
    && Normalize(got.target) == Normalize(want.target)
    && Lower(TrimSpace(got.status)) == Lower(TrimSpace(want.status))
    && if failover then got.priority == want.priority else got.weight == want.weight
  }

  function Equality(failover: bool): (Resource, Resource) -> bool {
    (got: Resource, want: Resource) => EndpointEqual(got, want, failover)
  }

  // ---- The profile ----

  /** The endpoints by name, unnamed ones left out; a later one of the same name wins. */
  function ByName(endpoints: seq<Resource>): map<string, Resource> {
    if endpoints == [] then map[]
    else
      var last := endpoints[|endpoints| - 1];
      var before := ByName(endpoints[..|endpoints| - 1]);
      if NameOf(last) == "" then before else before[NameOf(last) := last]
  }

  function Upsert(endpoints: seq<Resource>, ep: Resource): seq<Resource> {
    if endpoints == [] then [ep]
    else if NameOf(endpoints[0]) == NameOf(ep) then [ep] + endpoints[1..]
    else [endpoints[0]] + Upsert(endpoints[1..], ep)
  }

  function UpsertAll(endpoints: seq<Resource>, changes: seq<Resource>): seq<Resource> {
    if changes == [] then endpoints else Upsert(UpsertAll(endpoints, changes[..|changes| - 1]), changes[|changes| - 1])
  }

  function VerdictFor(existing: map<string, Resource>, failover: bool, want: Resource): Verdict {
    if NameOf(want) !in existing then Create
    else if EndpointEqual(existing[NameOf(want)], want, failover) then NoOp
    else Update
  }

  /** The desired endpoints that are upserted. */
  function Needed(desired: seq<Resource>, existing: map<string, Resource>, failover: bool): seq<Resource> {
    if desired == [] then []
    else
      var last := desired[|desired| - 1];
      Needed(desired[..|desired| - 1], existing, failover) + if VerdictFor(existing, failover, last) == NoOp then [] else [last]
  }

  function NamesOf(endpoints: seq<Resource>): set<string> {
    set ep | ep in endpoints :: NameOf(ep)
  }

  /** The router's own endpoints that are no longer wanted. */
  function StaleOf(endpoints: seq<Resource>, wanted: set<string>): seq<Resource> {
    if endpoints == [] then []
    else
      var last := endpoints[|endpoints| - 1];
      StaleOf(endpoints[..|endpoints| - 1], wanted) + if IsManaged(NameOf(last)) && NameOf(last) !in wanted then [last] else []
  }

  // ---- What is reported ----

  function Describe(ep: Resource, failover: bool): string {
    "azure-traffic-manager target=" + Normalize(ep.target)
    + if failover then " priority=" + Print(ep.priority) else " weight=" + Print(ep.weight)
  }

  function ActionFor(existing: map<string, Resource>, failover: bool): Resource -> Action {
    (want: Resource) =>
      Action("traffic_manager_endpoint", Word(VerdictFor(existing, failover, want)), NameOf(want), Describe(want, failover))
  }

  function CandidateAction(ep: Resource): Action {
    Action("traffic_manager_endpoint", Word(DeleteCandidate), NameOf(ep), "azure-traffic-manager target=" + Normalize(ep.target))
  }

  predicate ActionLeq(a: Action, b: Action) {
    if a.action == b.action then Leq(a.name, b.name) else Leq(a.action, b.action)
  }

  lemma ActionsAreOrdered()
    ensures TotalOrder(ActionLeq)
  {
    forall a, b ensures ActionLeq(a, b) || ActionLeq(b, a) {
      LeqTotal(a.action, b.action);
      LeqTotal(a.name, b.name);
    }
    forall a, b, c | ActionLeq(a, b) && ActionLeq(b, c) ensures ActionLeq(a, c) {
      ActionLeqTransitive(a, b, c);
    }
  }

  lemma ActionLeqTransitive(a: Action, b: Action, c: Action)
    requires ActionLeq(a, b) && ActionLeq(b, c)
    ensures ActionLeq(a, c)
  {
    hide Leq;
    if a.action == b.action == c.action {
      LeqTransitive(a.name, b.name, c.name);
    } else {
      LeqTotal(a.action, b.action);
      LeqTotal(b.action, c.action);
      LeqTotal(a.action, c.action);
      if a.action != b.action && b.action != c.action {
        LeqTransitive(a.action, b.action, c.action);
      }
    }
  }
}
