/** What a Traffic Manager sync amounts to when names are distinct: a partition of the keys,
    convergence, and nobody else's endpoints touched. */
module TrafficManagerLaws {
  import opened KeyedPlan
  import opened Permutations
  import opened Routing
  import opened TrafficManager

  ghost predicate DistinctNames(endpoints: seq<Resource>) {
    forall i, j | 0 <= i < j < |endpoints| :: NameOf(endpoints[i]) != NameOf(endpoints[j])
  }

  ghost predicate Named(endpoints: seq<Resource>) {
    forall ep | ep in endpoints :: NameOf(ep) != ""
  }

  lemma FrontNames(endpoints: seq<Resource>)
    requires endpoints != [] && DistinctNames(endpoints)
    ensures DistinctNames(endpoints[..|endpoints| - 1])
    ensures forall ep | ep in endpoints[..|endpoints| - 1] :: NameOf(ep) != NameOf(endpoints[|endpoints| - 1])
  {
    hide NameOf;
    var front := endpoints[..|endpoints| - 1];
    forall ep | ep in front ensures NameOf(ep) != NameOf(endpoints[|endpoints| - 1]) {
      var i :| 0 <= i < |front| && front[i] == ep;
      assert endpoints[i] == ep;
    }
  }

  /** With distinct names the table holds exactly the named endpoints. */
  lemma {:induction false} TableIsEndpoints(endpoints: seq<Resource>)
    requires DistinctNames(endpoints)
    ensures forall ep | ep in endpoints && NameOf(ep) != "" :: NameOf(ep) in ByName(endpoints) && ByName(endpoints)[NameOf(ep)] == ep
    ensures forall name | name in ByName(endpoints) :: ByName(endpoints)[name] in endpoints && NameOf(ByName(endpoints)[name]) == name != ""
  {
    hide NameOf;
    if endpoints != [] {
      var front, last := endpoints[..|endpoints| - 1], endpoints[|endpoints| - 1];
      FrontNames(endpoints);
      TableIsEndpoints(front);
      assert endpoints == front + [last];
    }
  }

  // ---- Partition ----

  function EntryOf(existing: map<string, Resource>, failover: bool): Resource -> Entry {
    (want: Resource) => Entry(NameOf(want), VerdictFor(existing, failover, want))
  }

  function StaleEntry(ep: Resource): Entry {
    Entry(NameOf(ep), DeleteCandidate)
  }

  function PlanOf(endpoints: seq<Resource>, desired: seq<Resource>, failover: bool): seq<Entry> {
    Map(desired, EntryOf(ByName(endpoints), failover)) + Map(StaleOf(endpoints, NamesOf(desired)), StaleEntry)
  }

  lemma {:induction false} StaleIff(endpoints: seq<Resource>, wanted: set<string>)
    requires DistinctNames(endpoints)
    ensures DistinctNames(StaleOf(endpoints, wanted))
    ensures forall ep :: ep in StaleOf(endpoints, wanted) <==> ep in endpoints && IsManaged(NameOf(ep)) && NameOf(ep) !in wanted
  {
    hide NameOf, IsManaged;
    if endpoints != [] {
      var front, last := endpoints[..|endpoints| - 1], endpoints[|endpoints| - 1];
      FrontNames(endpoints);
      StaleIff(front, wanted);
      assert endpoints == front + [last];
    }
  }

  lemma EntriesDistinct(endpoints: seq<Resource>, desired: seq<Resource>, failover: bool)
    requires DistinctNames(endpoints) && DistinctNames(desired)
    ensures var plan := PlanOf(endpoints, desired, failover);
            forall i, j | 0 <= i < j < |plan| :: plan[i].key != plan[j].key
  {
    hide NameOf, IsManaged, VerdictFor, StaleOf;
    var stale := StaleOf(endpoints, NamesOf(desired));
    var plan := PlanOf(endpoints, desired, failover);
    StaleIff(endpoints, NamesOf(desired));
    forall i, j | 0 <= i < j < |plan| ensures plan[i].key != plan[j].key {
      assert plan[i].key == NameOf(if i < |desired| then desired[i] else stale[i - |desired|]);
      assert plan[j].key == NameOf(if j < |desired| then desired[j] else stale[j - |desired|]);
      if i < |desired| <= j {
        assert desired[i] in desired && stale[j - |desired|] in stale;
      }
    }
  }

  lemma EntriesRight(endpoints: seq<Resource>, desired: seq<Resource>, failover: bool, k: nat)
    requires DistinctNames(endpoints) && DistinctNames(desired) && Named(desired)
    requires k < |PlanOf(endpoints, desired, failover)|
    ensures var e := PlanOf(endpoints, desired, failover)[k];
            && (e.key in ByName(desired) || (e.key in ByName(endpoints) && IsManaged(e.key)))
            && e.verdict == VerdictOf(ByName(endpoints), ByName(desired), Equality(failover), e.key)
  {
    TableIsEndpoints(desired);
    TableIsEndpoints(endpoints);
    var stale := StaleOf(endpoints, NamesOf(desired));
    StaleIff(endpoints, NamesOf(desired));
    hide NameOf, EndpointEqual, StaleOf, ByName;
    if k < |desired| {
      assert desired[k] in desired;
    } else {
      assert stale[k - |desired|] in stale;
      assert NameOf(stale[k - |desired|]) !in NamesOf(desired);
    }
  }

  lemma EntriesCover(endpoints: seq<Resource>, desired: seq<Resource>, failover: bool, key: string)
    requires DistinctNames(endpoints) && DistinctNames(desired) && Named(desired)
    requires key in ByName(desired) || (key in ByName(endpoints) && IsManaged(key))
    ensures exists e :: e in PlanOf(endpoints, desired, failover) && e.key == key
  {
    TableIsEndpoints(desired);
    TableIsEndpoints(endpoints);
    var stale := StaleOf(endpoints, NamesOf(desired));
    StaleIff(endpoints, NamesOf(desired));
    hide NameOf, EndpointEqual, StaleOf, ByName, IsManaged;
    var plan := PlanOf(endpoints, desired, failover);
    if key in ByName(desired) {
      var i :| 0 <= i < |desired| && desired[i] == ByName(desired)[key];
      assert plan[i] in plan;
    } else {
      var ep := ByName(endpoints)[key];
      assert forall d | d in desired :: NameOf(d) != key;
      var i :| 0 <= i < |stale| && stale[i] == ep;
      assert plan[|desired| + i] in plan;
    }
  }

  /** Every desired name gets one create, update or no-op, every stale name under the router's
      prefix one delete candidate, and no other name any. */
  lemma SyncPartitions(endpoints: seq<Resource>, desired: seq<Resource>, failover: bool)
    requires DistinctNames(endpoints) && DistinctNames(desired) && Named(desired)
    ensures IsPlan(PlanOf(endpoints, desired, failover), ByName(endpoints), ByName(desired), Equality(failover), IsManaged)
  {
    var plan := PlanOf(endpoints, desired, failover);
    EntriesDistinct(endpoints, desired, failover);
    forall k | 0 <= k < |plan|
      ensures && (plan[k].key in ByName(desired) || (plan[k].key in ByName(endpoints) && IsManaged(plan[k].key)))
              && plan[k].verdict == VerdictOf(ByName(endpoints), ByName(desired), Equality(failover), plan[k].key)
    {
      EntriesRight(endpoints, desired, failover, k);
    }
    forall key | key in ByName(desired) || (key in ByName(endpoints) && IsManaged(key))
      ensures exists e :: e in plan && e.key == key
    {
      EntriesCover(endpoints, desired, failover, key);
    }
    hide PlanOf, ByName, VerdictOf, IsManaged;
  }

  // ---- Convergence ----

  lemma TailNames(endpoints: seq<Resource>)
    requires endpoints != [] && DistinctNames(endpoints)
    ensures DistinctNames(endpoints[1..]) && forall x | x in endpoints[1..] :: NameOf(x) != NameOf(endpoints[0])
  {
    hide NameOf;
    assert forall i | 0 <= i < |endpoints| - 1 :: endpoints[1..][i] == endpoints[i + 1];
  }

  lemma {:induction false} UpsertIff(endpoints: seq<Resource>, ep: Resource)
    requires DistinctNames(endpoints)
    ensures DistinctNames(Upsert(endpoints, ep))
    ensures forall x :: x in Upsert(endpoints, ep) <==> x == ep || (x in endpoints && NameOf(x) != NameOf(ep))
  {
    hide NameOf;
    if endpoints != [] {
      var head, tail := endpoints[0], endpoints[1..];
      TailNames(endpoints);
      assert endpoints == [head] + tail;
      if NameOf(head) != NameOf(ep) {
        hide DistinctNames;
        UpsertIff(tail, ep);
        HeadAdded(head, Upsert(tail, ep));
      } else {
        assert forall x :: x in [ep] + tail <==> x == ep || x in tail;
      }
    }
  }

  lemma HeadAdded(head: Resource, tail: seq<Resource>)
    requires DistinctNames(tail) && forall x | x in tail :: NameOf(x) != NameOf(head)
    ensures DistinctNames([head] + tail) && forall x :: x in [head] + tail <==> x == head || x in tail
  {
    hide NameOf;
    assert forall j | 0 <= j < |tail| :: tail[j] in tail;
  }

  lemma {:induction false} UpsertAllIff(endpoints: seq<Resource>, changes: seq<Resource>)
    requires DistinctNames(endpoints) && DistinctNames(changes)
    ensures DistinctNames(UpsertAll(endpoints, changes))
    ensures forall x :: x in UpsertAll(endpoints, changes) <==> x in changes || (x in endpoints && NameOf(x) !in NamesOf(changes))
  {
    hide NameOf;
    if changes != [] {
      var front, last := changes[..|changes| - 1], changes[|changes| - 1];
      assert changes == front + [last];
      FrontNames(changes);
      UpsertAllIff(endpoints, front);
      UpsertIff(UpsertAll(endpoints, front), last);
      assert NamesOf(changes) == NamesOf(front) + {NameOf(last)};
    }
  }

  lemma {:induction false} NeededIff(desired: seq<Resource>, existing: map<string, Resource>, failover: bool)
    requires DistinctNames(desired)
    ensures DistinctNames(Needed(desired, existing, failover))
    ensures forall x :: x in Needed(desired, existing, failover) <==> x in desired && VerdictFor(existing, failover, x) != NoOp
  {
    hide NameOf, VerdictFor;
    if desired != [] {
      var front, last := desired[..|desired| - 1], desired[|desired| - 1];
      assert desired == front + [last];
      FrontNames(desired);
      NeededIff(front, existing, failover);
    }
  }

  lemma SameNameSame(endpoints: seq<Resource>, x: Resource, y: Resource)
    requires DistinctNames(endpoints) && x in endpoints && y in endpoints && NameOf(x) == NameOf(y)
    ensures x == y
  {
    hide NameOf;
    var i :| 0 <= i < |endpoints| && endpoints[i] == x;
    var j :| 0 <= j < |endpoints| && endpoints[j] == y;
  }

  /** After the upserts every desired endpoint is stored, or one equal to it. */
  lemma SyncSettles(endpoints: seq<Resource>, desired: seq<Resource>, failover: bool)
    requires DistinctNames(endpoints) && DistinctNames(desired) && Named(desired)
    ensures var after := UpsertAll(endpoints, Needed(desired, ByName(endpoints), failover));
            DistinctNames(after) && forall want | want in desired :: VerdictFor(ByName(after), failover, want) == NoOp
  {
    var existing := ByName(endpoints);
    var needed := Needed(desired, existing, failover);
    var after := UpsertAll(endpoints, needed);
    NeededIff(desired, existing, failover);
    UpsertAllIff(endpoints, needed);
    TableIsEndpoints(endpoints);
    TableIsEndpoints(after);
    forall want | want in desired ensures VerdictFor(ByName(after), failover, want) == NoOp {
      hide NameOf, ByName, Needed, UpsertAll;
      if VerdictFor(existing, failover, want) == NoOp {
        var got := existing[NameOf(want)];
        forall x | x in needed ensures NameOf(x) != NameOf(got) {
          if NameOf(x) == NameOf(want) {
            SameNameSame(desired, x, want);
          }
        }
        assert got in after;
      } else {
        assert want in after;
      }
    }
  }

  /** An endpoint that is not of a desired name is left as it is, stale or not the router's. */
  lemma OthersAreKept(endpoints: seq<Resource>, desired: seq<Resource>, failover: bool, ep: Resource)
    requires DistinctNames(endpoints) && DistinctNames(desired) && NameOf(ep) !in NamesOf(desired)
    ensures ep in UpsertAll(endpoints, Needed(desired, ByName(endpoints), failover)) <==> ep in endpoints
  {
    var needed := Needed(desired, ByName(endpoints), failover);
    NeededIff(desired, ByName(endpoints), failover);
    UpsertAllIff(endpoints, needed);
    assert ep in needed ==> NameOf(ep) in NamesOf(desired);
  }
}
