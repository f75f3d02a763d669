/** A remote collection as its API shows it: creating appends under a new ID, updating
    replaces by ID, deleting removes by ID, and listing returns what is stored. */
module RemoteStore {

  datatype Entry<T> = Entry(id: string, body: T)

  ghost predicate DistinctIds<T>(store: seq<Entry<T>>) {
    forall i, j | 0 <= i < j < |store| :: store[i].id != store[j].id
  }

  ghost predicate HasId<T>(store: seq<Entry<T>>, id: string) {
    exists i :: 0 <= i < |store| && store[i].id == id
  }

  function Replace<T>(store: seq<Entry<T>>, id: string, body: T): (after: seq<Entry<T>>)
    ensures |after| == |store|
    ensures forall i | 0 <= i < |store| :: after[i] == if store[i].id == id then Entry(id, body) else store[i]
  {
    seq(|store|, i requires 0 <= i < |store| => if store[i].id == id then Entry(id, body) else store[i])
  }

  function Delete<T>(store: seq<Entry<T>>, id: string): (after: seq<Entry<T>>)
    ensures forall e | e in after :: e in store && e.id != id
  {
    if store == [] then []
    else (if store[0].id == id then [] else [store[0]]) + Delete(store[1..], id)
  }

  /** The position of the first entry that satisfies p, or the length if there is none. */
  function First<T>(store: seq<Entry<T>>, p: T -> bool): (i: nat)
    ensures i <= |store|
    ensures i < |store| ==> p(store[i].body)
    ensures forall k | 0 <= k < i :: !p(store[k].body)
  {
    if store == [] then 0 else if p(store[0].body) then 0 else 1 + First(store[1..], p)
  }

  lemma FirstIs<T>(store: seq<Entry<T>>, p: T -> bool, i: nat)
    requires i <= |store|
    requires i < |store| ==> p(store[i].body)
    requires forall k | 0 <= k < i :: !p(store[k].body)
    ensures First(store, p) == i
  {
  }

  // ---- One reconciled resource ----

  datatype Verdict = NoOp | Update | Create

  /** What reconciling one resource does: the store afterwards, the ID to pass on, the
      verdict reported and whether a write was sent. */
  datatype Stage<T> = Stage(store: seq<Entry<T>>, id: string, verdict: Verdict, wrote: bool)

  /** The first match is kept if it is up to date and revised otherwise; without a match a
      new entry is created. A dry run sends nothing and makes up an ID for a creation. */
  function Reconcile<T>(store: seq<Entry<T>>, matches: T -> bool, upToDate: T -> bool, revise: T -> T, wanted: T,
                        dryRun: bool, newId: string, placeholder: string): Stage<T>
  {
    var i := First(store, matches);
    if i < |store| then
      if upToDate(store[i].body) then Stage(store, store[i].id, NoOp, false)
      else if dryRun then Stage(store, store[i].id, Update, false)
      else Stage(Replace(store, store[i].id, revise(store[i].body)), store[i].id, Update, true)
    else if dryRun then Stage(store, placeholder, Create, false)
    else Stage(store + [Entry(newId, wanted)], newId, Create, true)
  }

  /** A later run over the store a real run left behind finds the entry, up to date. */
  lemma ReconcileSettles<T>(store: seq<Entry<T>>, matches: T -> bool, upToDate: T -> bool, revise: T -> T, wanted: T,
                            newId: string, placeholder: string, dryRun': bool, newId': string)
    requires DistinctIds(store) && !HasId(store, newId)
    requires matches(wanted) && upToDate(wanted)
    requires forall t | matches(t) :: matches(revise(t)) && upToDate(revise(t))
    ensures var first := Reconcile(store, matches, upToDate, revise, wanted, false, newId, placeholder);
            && Reconcile(first.store, matches, upToDate, revise, wanted, dryRun', newId', placeholder)
               == Stage(first.store, first.id, NoOp, false)
            && DistinctIds(first.store)
  {
    var first := Reconcile(store, matches, upToDate, revise, wanted, false, newId, placeholder);
    var i := First(store, matches);
    FirstIs(first.store, matches, i);
  }

  /** A dry run's verdict is the real one, even for another notion of being up to date, as
      long as the two agree on what is stored; so is its ID, unless it would create. */
  lemma DryVerdictAgrees<T>(store: seq<Entry<T>>, matches: T -> bool, realUpToDate: T -> bool, dryUpToDate: T -> bool,
                            revise: T -> T, dryRevise: T -> T, wanted: T, dryWanted: T, newId: string, placeholder: string)
    requires forall e | e in store :: realUpToDate(e.body) == dryUpToDate(e.body)
    ensures var actual := Reconcile(store, matches, realUpToDate, revise, wanted, false, newId, placeholder);
            var dry := Reconcile(store, matches, dryUpToDate, dryRevise, dryWanted, true, newId, placeholder);
            && actual.verdict == dry.verdict && dry.store == store && !dry.wrote
            && (actual.verdict != Create ==> actual.id == dry.id && HasId(store, actual.id))
            && (actual.verdict == Create ==> actual.id == newId && dry.id == placeholder)
  {
    var i := First(store, matches);
    assert i < |store| ==> store[i] in store;
  }
}
