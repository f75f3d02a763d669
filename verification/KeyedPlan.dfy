/** Plans of routers that compare two maps of records by key. */
module KeyedPlan {
  import opened Ordering
  import opened Permutations

  datatype Verdict = Create | Update | NoOp | DeleteCandidate

  datatype Entry = Entry(key: string, verdict: Verdict)

  function KeyOf(e: Entry): string {
    e.key
  }

  function VerdictOf<V>(existing: map<string, V>, desired: map<string, V>, equal: (V, V) -> bool, key: string): Verdict {
    if key !in desired then DeleteCandidate
    else if key !in existing then Create
    else if equal(existing[key], desired[key]) then NoOp
    else Update
  }

  /** Every desired key, and every stale existing key under management, once. */
  ghost predicate IsPlan<V>(plan: seq<Entry>, existing: map<string, V>, desired: map<string, V>, equal: (V, V) -> bool, managed: string -> bool) {
    && (forall i, j | 0 <= i < j < |plan| :: plan[i].key != plan[j].key)
    && (forall e | e in plan ::
          && (e.key in desired || (e.key in existing && managed(e.key)))
          && e.verdict == VerdictOf(existing, desired, equal, e.key))
    && (forall key | key in desired || (key in existing && managed(key)) :: exists e :: e in plan && e.key == key)
  }

  /** What a plan says of an action list: the verdict of each entry, in the words reported. */
  function Word(verdict: Verdict): string {
    match verdict
    case Create => "create"
    case Update => "update"
    case NoOp => "no-op"
    case DeleteCandidate => "delete-candidate"
  }

  /** A plan under construction: `done` are the keys decided so far. */
  ghost predicate Decides<V>(plan: seq<Entry>, done: set<string>, existing: map<string, V>, desired: map<string, V>, equal: (V, V) -> bool) {
    && (forall i, j | 0 <= i < j < |plan| :: plan[i].key != plan[j].key)
    && (forall e | e in plan :: e.key in done && e.verdict == VerdictOf(existing, desired, equal, e.key))
    && (forall key | key in done :: exists e :: e in plan && e.key == key)
  }

  lemma DecideOne<V>(plan: seq<Entry>, done: set<string>, existing: map<string, V>, desired: map<string, V>, equal: (V, V) -> bool, key: string)
    requires Decides(plan, done, existing, desired, equal) && key !in done
    ensures Decides(plan + [Entry(key, VerdictOf(existing, desired, equal, key))], done + {key}, existing, desired, equal)
  {
    var entry := Entry(key, VerdictOf(existing, desired, equal, key));
    assert forall i | 0 <= i < |plan| :: plan[i] in plan;
    assert entry in plan + [entry];
    forall k | k in done ensures exists e :: e in plan + [entry] && e.key == k {
      var e :| e in plan && e.key == k;
      assert e in plan + [entry];
    }
  }

  /** However its keys were enumerated, a plan has the same entries. */
  lemma PlansAgree<V>(p: seq<Entry>, q: seq<Entry>, existing: map<string, V>, desired: map<string, V>, equal: (V, V) -> bool, managed: string -> bool)
    requires IsPlan(p, existing, desired, equal, managed) && IsPlan(q, existing, desired, equal, managed)
    ensures multiset(p) == multiset(q)
  {
    forall e | e in p ensures e in q {
      var f :| f in q && f.key == e.key;
      assert f == e;
    }
    forall e | e in q ensures e in p {
      var f :| f in p && f.key == e.key;
      assert f == e;
    }
    DistinctPermutes(p, q);
  }

  /** Nothing is left to do for keys whose stored record equals the desired one. */
  lemma SettledPlan<V>(plan: seq<Entry>, existing: map<string, V>, desired: map<string, V>, equal: (V, V) -> bool, managed: string -> bool)
    requires IsPlan(plan, existing, desired, equal, managed)
    requires forall key | key in desired :: key in existing && equal(existing[key], desired[key])
    ensures forall e | e in plan :: e.verdict == if e.key in desired then NoOp else DeleteCandidate
  {
  }
}
