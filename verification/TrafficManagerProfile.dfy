/** The profile and the sync that brings it to a routing. */
module TrafficManagerProfile {
  import opened KeyedPlan
  import opened Ordering
  import opened Permutations
  import opened Routing
  import opened Text
  import opened TrafficManager
  import opened TrafficManagerLaws
  import opened Wrappers

  method DesiredEndpoints(r: Config, host: string -> string) returns (result: Result<seq<Resource>>)
    ensures result.Ok? <==> Valid(r, host)
    ensures result.Ok? ==> IsDesired(result.value, r, host)
  {
    hide TrimSpace, HasTarget, DesiredFor;
    if TrimSpace(r.hostname) == "" {
      return Err("routing hostname is required");
    }
    if r.endpoints == [] {
      return Err("routing endpoints are required");
    }
    var endpoints := [];
    for i := 0 to |r.endpoints|
      invariant forall j | 0 <= j < i :: HasTarget(r.endpoints[j], host)
      invariant |endpoints| == i && forall j | 0 <= j < i :: endpoints[j] == DesiredFor(r, host, j)
    {
      if !HasTarget(r.endpoints[i], host) {
        assert r.endpoints[i] in r.endpoints;
        return Err("endpoint " + r.endpoints[i].name);
      }
      endpoints := endpoints + [DesiredFor(r, host, i)];
    }
    assert endpoints == DesiredOf(r, host);
    endpoints := SortBy(endpoints, RawName);
    result := Ok(endpoints);
  }

  /** The table of a list built by repeated assignment. */
  method TableOf(endpoints: seq<Resource>) returns (table: map<string, Resource>)
    ensures table == ByName(endpoints)
  {
    hide NameOf;
    table := map[];
    for i := 0 to |endpoints|
      invariant table == ByName(endpoints[..i])
    {
      assert endpoints[..i + 1][..i] == endpoints[..i];
      var name := NameOf(endpoints[i]);
      if name != "" {
        table := table[name := endpoints[i]];
      }
    }
    assert endpoints[..|endpoints|] == endpoints;
  }

  lemma NeededAppended(desired: seq<Resource>, i: nat, existing: map<string, Resource>, failover: bool)
    requires i < |desired|
    ensures var done := Needed(desired[..i], existing, failover);
            Needed(desired[..i + 1], existing, failover) == if VerdictFor(existing, failover, desired[i]) == NoOp then done else done + [desired[i]]
  {
    assert desired[..i + 1][..i] == desired[..i];
  }

  lemma {:induction false} NeededPrefix(desired: seq<Resource>, i: nat, existing: map<string, Resource>, failover: bool)
    requires i <= |desired|
    ensures Needed(desired[..i], existing, failover) <= Needed(desired, existing, failover)
    decreases |desired| - i
  {
    hide VerdictFor;
    if i < |desired| {
      NeededPrefix(desired, i + 1, existing, failover);
      NeededAppended(desired, i, existing, failover);
    } else {
      assert desired[..i] == desired;
    }
  }

  lemma UpsertAllAppended(endpoints: seq<Resource>, changes: seq<Resource>, ep: Resource)
    ensures UpsertAll(endpoints, changes + [ep]) == Upsert(UpsertAll(endpoints, changes), ep)
  {
    assert (changes + [ep])[..|changes|] == changes;
  }

  lemma StaleAppended(endpoints: seq<Resource>, i: nat, wanted: set<string>)
    requires i < |endpoints|
    ensures StaleOf(endpoints[..i + 1], wanted)
         == StaleOf(endpoints[..i], wanted) + if IsManaged(NameOf(endpoints[i])) && NameOf(endpoints[i]) !in wanted then [endpoints[i]] else []
  {
    assert endpoints[..i + 1][..i] == endpoints[..i];
  }

  method CollectCandidates(endpoints: seq<Resource>, wanted: set<string>) returns (actions: seq<Action>)
    ensures actions == Map(StaleOf(endpoints, wanted), CandidateAction)
  {
    hide NameOf, IsManaged, CandidateAction;
    actions := [];
    for i := 0 to |endpoints|
      invariant actions == Map(StaleOf(endpoints[..i], wanted), CandidateAction)
    {
      StaleAppended(endpoints, i, wanted);
      if IsManaged(NameOf(endpoints[i])) && NameOf(endpoints[i]) !in wanted {
        actions := actions + [CandidateAction(endpoints[i])];
      }
    }
    assert endpoints[..|endpoints|] == endpoints;
  }

  /** The report: one action for each desired endpoint and each stale one, sorted. */
  ghost predicate Reports(actions: seq<Action>, endpoints: seq<Resource>, desired: seq<Resource>, failover: bool) {
    && SortedBy(actions, ActionLeq)
    && multiset(actions) == multiset(Map(desired, ActionFor(ByName(endpoints), failover)))
                            + multiset(Map(StaleOf(endpoints, NamesOf(desired)), CandidateAction))
  }

  function Headline(a: Action): (string, string) {
    (a.action, a.name)
  }

  function EntryHeadline(e: Entry): (string, string) {
    (Word(e.verdict), e.key)
  }

  /** The verdicts and names reported are those of the plan, which SyncPartitions describes. */
  lemma ReportFollowsPlan(actions: seq<Action>, endpoints: seq<Resource>, desired: seq<Resource>, failover: bool)
    requires Reports(actions, endpoints, desired, failover)
    ensures multiset(Map(actions, Headline)) == multiset(Map(PlanOf(endpoints, desired, failover), EntryHeadline))
  {
    hide NameOf, ByName, StaleOf, SortedBy, VerdictFor, Describe;
    var stale := StaleOf(endpoints, NamesOf(desired));
    var unsorted := Map(desired, ActionFor(ByName(endpoints), failover)) + Map(stale, CandidateAction);
    HeadlinesAgree(endpoints, desired, failover);
    hide PlanOf, ActionFor, CandidateAction, Headline, EntryHeadline;
    MapPermutes(actions, unsorted, Headline);
  }

  lemma HeadlinesAgree(endpoints: seq<Resource>, desired: seq<Resource>, failover: bool)
    ensures Map(Map(desired, ActionFor(ByName(endpoints), failover)) + Map(StaleOf(endpoints, NamesOf(desired)), CandidateAction), Headline)
         == Map(PlanOf(endpoints, desired, failover), EntryHeadline)
  {
    hide NameOf, ByName, StaleOf, VerdictFor, Describe;
  }

  /** The upserts were sent up to the first that the server refuses. */
  ghost predicate StoppedAt(before: seq<Resource>, after: seq<Resource>, needed: seq<Resource>, refuses: Resource -> bool) {
    exists n | 0 <= n < |needed| ::
      refuses(needed[n]) && (forall k | 0 <= k < n :: !refuses(needed[k])) && after == UpsertAll(before, needed[..n])
  }

  /** So far `done` has been upserted, or, in a dry run, nothing. */
  ghost predicate Applied(before: seq<Resource>, now: seq<Resource>, done: seq<Resource>, dryRun: bool, refuses: Resource -> bool) {
    now == (if dryRun then before else UpsertAll(before, done)) && (dryRun || forall x | x in done :: !refuses(x))
  }

  lemma AppliedOne(before: seq<Resource>, now: seq<Resource>, done: seq<Resource>, want: Resource, dryRun: bool, refuses: Resource -> bool)
    requires Applied(before, now, done, dryRun, refuses)
    ensures if dryRun then Applied(before, now, done + [want], dryRun, refuses)
            else refuses(want) || Applied(before, Upsert(now, want), done + [want], dryRun, refuses)
  {
    hide Upsert;
    UpsertAllAppended(before, done, want);
  }

  lemma AllApplied(before: seq<Resource>, now: seq<Resource>, desired: seq<Resource>, existing: map<string, Resource>,
                   failover: bool, dryRun: bool, refuses: Resource -> bool)
    requires Applied(before, now, Needed(desired[..|desired|], existing, failover), dryRun, refuses)
    ensures dryRun || forall x | x in Needed(desired, existing, failover) :: !refuses(x)
    ensures now == if dryRun then before else UpsertAll(before, Needed(desired, existing, failover))
  {
    assert desired[..|desired|] == desired;
  }

  lemma Stops(before: seq<Resource>, after: seq<Resource>, desired: seq<Resource>, i: nat, existing: map<string, Resource>,
              failover: bool, refuses: Resource -> bool)
    requires i < |desired| && VerdictFor(existing, failover, desired[i]) != NoOp && refuses(desired[i])
    requires Applied(before, after, Needed(desired[..i], existing, failover), false, refuses)
    ensures desired[i] in Needed(desired, existing, failover)
    ensures StoppedAt(before, after, Needed(desired, existing, failover), refuses)
  {
    hide VerdictFor, UpsertAll, Needed;
    var done, all := Needed(desired[..i], existing, failover), Needed(desired, existing, failover);
    NeededAppended(desired, i, existing, failover);
    NeededPrefix(desired, i + 1, existing, failover);
    assert all[|done|] == desired[i] && all[..|done|] == done;
    assert forall k | 0 <= k < |done| :: all[k] in done;
  }

  lemma DesiredAgree(p: seq<Resource>, q: seq<Resource>, r: Config, host: string -> string)
    requires IsDesired(p, r, host) && IsDesired(q, r, host)
    ensures multiset(p) == multiset(q) && NamesOf(p) == NamesOf(q) && forall x :: x in p <==> x in q
  {
    assert forall x :: x in p <==> x in multiset(p);
    assert forall x :: x in q <==> x in multiset(q);
  }

  lemma DistinctNamesIff(endpoints: seq<Resource>)
    ensures DistinctNames(endpoints) <==> Distinct(Map(endpoints, NameOf))
  {
    hide NameOf;
    forall i, j | 0 <= i < j < |endpoints|
      ensures NameOf(endpoints[i]) != NameOf(endpoints[j]) <==> Map(endpoints, NameOf)[i] != Map(endpoints, NameOf)[j]
    {
    }
  }

  lemma DesiredIsDistinct(desired: seq<Resource>, r: Config, host: string -> string)
    requires IsDesired(desired, r, host) && DistinctNames(DesiredOf(r, host))
    ensures DistinctNames(desired) && Named(desired)
  {
    var raw := DesiredOf(r, host);
    hide NameOf, DesiredOf, DesiredFor, Target;
    MapPermutes(desired, raw, NameOf);
    DistinctNamesIff(raw);
    DistinctNamesIff(desired);
    SameKeys(Map(raw, NameOf), Map(desired, NameOf));
    DesiredIsNamed(desired, r, host);
  }

  lemma DesiredIsNamed(desired: seq<Resource>, r: Config, host: string -> string)
    requires IsDesired(desired, r, host)
    ensures Named(desired)
  {
    forall ep | ep in desired ensures NameOf(ep) != "" {
      assert ep in multiset(DesiredOf(r, host));
      var i :| 0 <= i < |r.endpoints| && DesiredFor(r, host, i) == ep;
      EndpointNameIsManaged(r.endpoints[i].name, i);
    }
  }

  lemma {:induction false} NothingNeeded(desired: seq<Resource>, existing: map<string, Resource>, failover: bool)
    requires forall want | want in desired :: VerdictFor(existing, failover, want) == NoOp
    ensures Needed(desired, existing, failover) == []
  {
    hide VerdictFor;
    if desired != [] {
      NothingNeeded(desired[..|desired| - 1], existing, failover);
    }
  }

  lemma UpsertNothing(endpoints: seq<Resource>)
    ensures UpsertAll(endpoints, []) == endpoints
  {
  }

  class Profile {
    var endpoints: seq<Resource>

    constructor (endpoints: seq<Resource>)
      ensures this.endpoints == endpoints
    {
      this.endpoints := endpoints;
    }

    method UpsertEndpoint(ep: Resource, refuses: Resource -> bool) returns (ok: bool)
      modifies this
      ensures ok == !refuses(ep)
      ensures endpoints == if ok then Upsert(old(endpoints), ep) else old(endpoints)
    {
      ok := !refuses(ep);
      if ok {
        endpoints := Upsert(endpoints, ep);
      }
    }

    /** One endpoint of the loop: upserted if it differs, unless the run is dry. */
    method ApplyOne(want: Resource, verdict: Verdict, dryRun: bool, refuses: Resource -> bool,
                    ghost before: seq<Resource>, ghost done: seq<Resource>) returns (ok: bool)
      requires Applied(before, endpoints, done, dryRun, refuses)
      modifies this
      ensures ok <==> verdict == NoOp || dryRun || !refuses(want)
      ensures if ok then Applied(before, endpoints, if verdict == NoOp then done else done + [want], dryRun, refuses)
              else endpoints == old(endpoints)
    {
      hide Applied, Upsert;
      ok := true;
      if verdict != NoOp {
        AppliedOne(before, endpoints, done, want, dryRun, refuses);
        if !dryRun {
          ok := UpsertEndpoint(want, refuses);
        }
      }
    }

    /** The loop over the desired endpoints; stops at the first refused upsert. */
    method Apply(desired: seq<Resource>, existing: map<string, Resource>, failover: bool, dryRun: bool, refuses: Resource -> bool)
      returns (ok: bool, actions: seq<Action>)
      modifies this
      ensures ok <==> dryRun || forall x | x in Needed(desired, existing, failover) :: !refuses(x)
      ensures ok ==> actions == Map(desired, ActionFor(existing, failover))
      ensures ok ==> endpoints == if dryRun then old(endpoints) else UpsertAll(old(endpoints), Needed(desired, existing, failover))
      ensures !ok ==> StoppedAt(old(endpoints), endpoints, Needed(desired, existing, failover), refuses)
    {
      actions := [];
      assert Applied(endpoints, endpoints, Needed(desired[..0], existing, failover), dryRun, refuses);
      hide *;
      for i := 0 to |desired|
        invariant actions == Map(desired[..i], ActionFor(existing, failover))
        invariant Applied(old(endpoints), endpoints, Needed(desired[..i], existing, failover), dryRun, refuses)
      {
        var verdict := VerdictFor(existing, failover, desired[i]);
        actions := actions + [ActionFor(existing, failover)(desired[i])];
        MapPrefix(desired, i, ActionFor(existing, failover));
        NeededAppended(desired, i, existing, failover);
        ok := ApplyOne(desired[i], verdict, dryRun, refuses, old(endpoints), Needed(desired[..i], existing, failover));
        if !ok {
          Stops(old(endpoints), endpoints, desired, i, existing, failover, refuses);
          return;
        }
      }
      AllApplied(old(endpoints), endpoints, desired, existing, failover, dryRun, refuses);
      assert desired[..|desired|] == desired;
      ok := true;
    }

    /** `loads` tells whether the server hands out the profile, `refuses` which upserts it
        rejects. */
    method Sync(r: Config, dryRun: bool, host: string -> string, loads: bool, refuses: Resource -> bool)
      returns (result: Result<seq<Action>>, ghost desired: seq<Resource>)
      modifies this
      ensures !Valid(r, host) || !loads ==> result.Err? && endpoints == old(endpoints)
      ensures Valid(r, host) && loads ==>
        var needed := Needed(desired, ByName(old(endpoints)), IsFailover(r));
        && IsDesired(desired, r, host)
        && (result.Ok? <==> dryRun || forall x | x in needed :: !refuses(x))
        && if result.Err? then StoppedAt(old(endpoints), endpoints, needed, refuses)
           else Reports(result.value, old(endpoints), desired, IsFailover(r))
                && endpoints == if dryRun then old(endpoints) else UpsertAll(old(endpoints), needed)
    {
      hide Valid, IsFailover, IsDesired, Needed, StoppedAt, UpsertAll, ByName, StaleOf, NameOf, ActionLeq;
      var wanted := DesiredEndpoints(r, host);
      if wanted.Err? {
        return Err(wanted.reason), [];
      }
      desired := wanted.value;
      if !loads {
        return Err("azure traffic manager get profile"), desired;
      }
      var listed := endpoints;
      var existing := TableOf(listed);
      var ok, actions := Apply(wanted.value, existing, IsFailover(r), dryRun, refuses);
      if !ok {
        return Err("azure traffic manager upsert endpoint failed"), desired;
      }
      var names := set ep | ep in wanted.value :: NameOf(ep);
      var candidates := CollectCandidates(listed, names);
      ActionsAreOrdered();
      actions := SortWith(actions + candidates, ActionLeq);
      result := Ok(actions);
    }

    /** A dry run writes nothing and reports what the real run after it reports, unless that one
        is stopped by a refusal. */
    method Preview(r: Config, host: string -> string, refuses: Resource -> bool)
      returns (dry: Result<seq<Action>>, wet: Result<seq<Action>>)
      modifies this
      ensures dry.Ok? == Valid(r, host)
      ensures wet.Ok? ==> dry.Ok? && multiset(dry.value) == multiset(wet.value)
    {
      hide Valid, IsDesired, Needed, StoppedAt, UpsertAll, ByName, StaleOf, NameOf, SortedBy;
      ghost var p, q;
      dry, p := Sync(r, true, host, true, refuses);
      wet, q := Sync(r, false, host, true, refuses);
      if wet.Ok? {
        DesiredAgree(p, q, r, host);
        MapPermutes(p, q, ActionFor(ByName(old(endpoints)), IsFailover(r)));
      }
    }

    /** With distinct names, a second sync succeeds even if the server refuses every write:
        every desired endpoint is a no-op. */
    method SyncTwice(r: Config, dryRun: bool, host: string -> string, refuses: Resource -> bool)
      returns (first: Result<seq<Action>>, second: Result<seq<Action>>, ghost desired: seq<Resource>, ghost synced: seq<Resource>)
      requires DistinctNames(endpoints) && DistinctNames(DesiredOf(r, host))
      modifies this
      ensures first.Ok? ==>
        && endpoints == synced && second.Ok? && IsDesired(desired, r, host) && Reports(second.value, endpoints, desired, IsFailover(r))
        && forall want | want in desired :: VerdictFor(ByName(endpoints), IsFailover(r), want) == NoOp
    {
      hide Valid, IsFailover, IsDesired, VerdictFor, Needed, DistinctNames, StoppedAt, UpsertAll, ByName, StaleOf, NameOf, SortedBy;
      first, desired := Sync(r, false, host, true, refuses);
      synced := endpoints;
      if first.Err? {
        return first, first, desired, synced;
      }
      DesiredIsDistinct(desired, r, host);
      SyncSettles(old(endpoints), desired, IsFailover(r));
      ghost var again;
      second, again := Sync(r, dryRun, host, true, (ep: Resource) => true);
      DesiredAgree(desired, again, r, host);
      NothingNeeded(again, ByName(synced), IsFailover(r));
      UpsertNothing(synced);
      desired := again;
    }
  }
}
