/** When a Route53 sync settles: the keys its upserts set, and the records they replace. */
module Route53Laws {
  import opened Decimal
  import opened KeyedPlan
  import opened Permutations
  import opened Route53
  import opened Routing
  import opened Text
  import opened Wrappers

  // ---- Selecting and upserting ----

  /** The selection takes the record and whatever shares its slot. */
  ghost predicate TakesSlot(keep: RRSet -> bool, rec: RRSet) {
    keep(rec) && forall x | SameSlot(x, rec) :: keep(x)
  }

  /** A selection that does not part record sets of one slot commutes with an upsert into it. */
  lemma {:induction false} SelectTogether(records: seq<RRSet>, rec: RRSet, keep: RRSet -> bool)
    requires TakesSlot(keep, rec)
    ensures Select(Upsert(records, rec), keep) == Upsert(Select(records, keep), rec)
  {
    hide SameSlot;
    if records == [] {
      assert [rec][1..] == [];
    } else {
      SelectTogether(records[1..], rec, keep);
      var rest := Select(records[1..], keep);
      assert ([records[0]] + rest)[1..] == rest;
      assert ([rec] + records[1..])[1..] == records[1..];
      assert ([records[0]] + Upsert(records[1..], rec))[1..] == Upsert(records[1..], rec);
    }
  }

  lemma {:induction false} SelectAllTogether(records: seq<RRSet>, changes: seq<RRSet>, keep: RRSet -> bool)
    requires forall rec | rec in changes :: TakesSlot(keep, rec)
    ensures Select(UpsertAll(records, changes), keep) == UpsertAll(Select(records, keep), changes)
  {
    hide TakesSlot, Upsert;
    if changes != [] {
      var n := |changes| - 1;
      SelectAllTogether(records, changes[..n], keep);
      SelectTogether(UpsertAll(records, changes[..n]), changes[n], keep);
    }
  }

  lemma {:induction false} SelectTwice(records: seq<RRSet>, outer: RRSet -> bool, inner: RRSet -> bool)
    requires forall x | inner(x) :: outer(x)
    ensures Select(Select(records, outer), inner) == Select(records, inner)
  {
    if records != [] {
      SelectTwice(records[1..], outer, inner);
      assert ([records[0]] + Select(records[1..], outer))[1..] == Select(records[1..], outer);
    }
  }

  lemma SlotIsRelevant(x: RRSet, rec: RRSet, hostname: string)
    requires Relevant(rec, hostname) && SameSlot(x, rec)
    ensures Relevant(x, hostname)
  {
    hide EnsureFQDN;
  }

  lemma {:induction false} UpsertGrowth(records: seq<RRSet>, rec: RRSet)
    ensures |Upsert(records, rec)| <= |records| + 1
  {
    if records != [] {
      UpsertGrowth(records[1..], rec);
    }
  }

  lemma {:induction false} UpsertsStayListed(records: seq<RRSet>, changes: seq<RRSet>)
    ensures |UpsertAll(records, changes)| <= |records| + |changes|
  {
    if changes != [] {
      UpsertsStayListed(records, changes[..|changes| - 1]);
      UpsertGrowth(UpsertAll(records, changes[..|changes| - 1]), changes[|changes| - 1]);
    }
  }

  // ---- Keys and slots ----

  /** For records of one host: the same key means the same slot, and the same slot the same key,
      unless the key is none of those that matter. */
  ghost predicate Fits(x: RRSet, rec: RRSet, matters: string -> bool) {
    && (RecordKey(x) == RecordKey(rec) ==> x.setId == rec.setId)
    && (x.setId == rec.setId ==> RecordKey(x) == RecordKey(rec) || !matters(RecordKey(x)))
  }

  ghost predicate SlotsDistinct(records: seq<RRSet>) {
    forall i, j | 0 <= i < j < |records| :: records[i].setId != records[j].setId
  }

  ghost predicate OfHost(records: seq<RRSet>, hostname: string) {
    forall x | x in records :: Relevant(x, hostname)
  }

  lemma {:induction false} ByKeyFrom(records: seq<RRSet>, key: string)
    requires key in ByKey(records)
    ensures ByKey(records)[key] in records && RecordKey(ByKey(records)[key]) == key
  {
    if key in ByKey(records[1..]) {
      ByKeyFrom(records[1..], key);
    }
  }

  /** The tables agree on keys that matter, but for `key`, which is `rec`'s in the second. */
  ghost predicate KeySet(before: map<string, RRSet>, after: map<string, RRSet>, key: string, rec: RRSet, matters: string -> bool) {
    && key in after && after[key] == rec
    && forall k | matters(k) && k != key :: (k in before <==> k in after) && (k in before ==> after[k] == before[k])
  }

  lemma HostSlot(x: RRSet, rec: RRSet, hostname: string)
    requires Relevant(x, hostname) && Relevant(rec, hostname)
    ensures SameSlot(x, rec) <==> x.setId == rec.setId
  {
    hide EnsureFQDN;
  }

  lemma SlotsTail(records: seq<RRSet>)
    requires records != [] && SlotsDistinct(records)
    ensures SlotsDistinct(records[1..]) && forall x | x in records[1..] :: x.setId != records[0].setId
  {
    assert forall i | 0 <= i < |records| - 1 :: records[1..][i] == records[i + 1];
  }

  lemma {:induction false} KeyOnlyThere(records: seq<RRSet>, rec: RRSet, matters: string -> bool)
    requires forall x | x in records :: Fits(x, rec, matters) && x.setId != rec.setId
    ensures RecordKey(rec) !in ByKey(records)
  {
    hide RecordKey;
    if records != [] {
      assert Fits(records[0], rec, matters);
      KeyOnlyThere(records[1..], rec, matters);
    }
  }

  lemma HeadReplaced(table: map<string, RRSet>, formerKey: string, former: RRSet, key: string, rec: RRSet, matters: string -> bool)
    requires key !in table && (formerKey == key || !matters(formerKey))
    ensures KeySet(map[formerKey := former] + table, map[key := rec] + table, key, rec, matters)
  {
  }

  lemma UpsertFirstSetsKey(records: seq<RRSet>, rec: RRSet, matters: string -> bool)
    requires records != [] && SlotsDistinct(records) && records[0].setId == rec.setId
    requires forall x | x in records :: Fits(x, rec, matters)
    ensures KeySet(ByKey(records), ByKey([rec] + records[1..]), RecordKey(rec), rec, matters)
  {
    hide RecordKey, SlotsDistinct, KeySet;
    var tail := records[1..];
    SlotsTail(records);
    assert ([rec] + tail)[1..] == tail;
    assert Fits(records[0], rec, matters);
    KeyOnlyThere(tail, rec, matters);
    HeadReplaced(ByKey(tail), RecordKey(records[0]), records[0], RecordKey(rec), rec, matters);
  }

  /** An upsert sets the key of its record and leaves the other keys that matter alone. */
  lemma {:induction false} UpsertSetsKey(records: seq<RRSet>, rec: RRSet, hostname: string, matters: string -> bool)
    requires SlotsDistinct(records) && OfHost(records, hostname) && Relevant(rec, hostname)
    requires forall x | x in records :: Fits(x, rec, matters)
    ensures KeySet(ByKey(records), ByKey(Upsert(records, rec)), RecordKey(rec), rec, matters)
  {
    hide RecordKey, Relevant, SameSlot;
    if records == [] {
      assert [rec][1..] == [];
    } else {
      HostSlot(records[0], rec, hostname);
      if records[0].setId == rec.setId {
        UpsertFirstSetsKey(records, rec, matters);
      } else {
        SlotsTail(records);
        UpsertSetsKey(records[1..], rec, hostname, matters);
        assert Fits(records[0], rec, matters);
        assert ([records[0]] + Upsert(records[1..], rec))[1..] == Upsert(records[1..], rec);
      }
    }
  }

  lemma {:induction false} UpsertKeepsSlots(records: seq<RRSet>, rec: RRSet, hostname: string)
    requires SlotsDistinct(records) && OfHost(records, hostname) && Relevant(rec, hostname)
    ensures SlotsDistinct(Upsert(records, rec))
    ensures forall x | x in Upsert(records, rec) :: x == rec || (x in records && x.setId != rec.setId)
  {
    hide Relevant, SameSlot;
    if records != [] {
      var tail := records[1..];
      HostSlot(records[0], rec, hostname);
      SlotsTail(records);
      if records[0].setId == rec.setId {
        assert forall i | 0 < i < |records| :: ([rec] + tail)[i] == records[i];
      } else {
        UpsertKeepsSlots(tail, rec, hostname);
        var after := Upsert(tail, rec);
        assert forall j | 0 <= j < |after| :: after[j] in after;
      }
    }
  }

  /** Record sets as the router writes them for a host, each under its key, and the records
      there, all fitting together. */
  ghost predicate FitTogether(base: seq<RRSet>, desired: map<string, RRSet>, hostname: string, matters: string -> bool) {
    && (forall key | key in desired :: matters(key) && RecordKey(desired[key]) == key && Relevant(desired[key], hostname))
    && (forall key, x | key in desired && x in base :: Fits(x, desired[key], matters))
    && (forall key, other | key in desired && other in desired :: Fits(desired[other], desired[key], matters))
  }

  /** The plan creates or updates the key. */
  ghost predicate Changed(plan: seq<Entry>, desired: map<string, RRSet>, key: string) {
    key in desired && exists e :: e in plan && e.key == key && Changes(e)
  }

  /** A changed key is as desired, any other as before. */
  ghost predicate KeyAfter(before: map<string, RRSet>, after: map<string, RRSet>, changed: bool, desired: map<string, RRSet>, key: string)
    requires changed ==> key in desired
  {
    if changed then key in after && after[key] == desired[key]
    else (key in after <==> key in before) && (key in before ==> after[key] == before[key])
  }

  ghost predicate KeysAfter(before: map<string, RRSet>, after: map<string, RRSet>, plan: seq<Entry>, desired: map<string, RRSet>, matters: string -> bool) {
    forall key | matters(key) :: KeyAfter(before, after, Changed(plan, desired, key), desired, key)
  }

  lemma EntryAppended(base: map<string, RRSet>, before: map<string, RRSet>, after: map<string, RRSet>,
                      plan: seq<Entry>, last: Entry, desired: map<string, RRSet>, matters: string -> bool)
    requires KeysAfter(base, before, plan, desired, matters)
    requires if Changes(last) && last.key in desired then KeySet(before, after, last.key, desired[last.key], matters) else after == before
    ensures KeysAfter(base, after, plan + [last], desired, matters)
  {
    forall key | matters(key) ensures KeyAfter(base, after, Changed(plan + [last], desired, key), desired, key) {
      assert KeyAfter(base, before, Changed(plan, desired, key), desired, key);
      if Changed(plan, desired, key) {
        var e :| e in plan && e.key == key && Changes(e);
        assert e in plan + [last];
      } else if key == last.key && Changes(last) {
        assert last in plan + [last];
      }
    }
  }

  /** The records after some upserts: distinct slots, of the host, and old or desired. */
  ghost predicate Written(base: seq<RRSet>, after: seq<RRSet>, desired: map<string, RRSet>, hostname: string) {
    SlotsDistinct(after) && OfHost(after, hostname) && forall x | x in after :: x in base || exists key :: key in desired && desired[key] == x
  }

  lemma UpsertIsSound(base: seq<RRSet>, records: seq<RRSet>, key: string, desired: map<string, RRSet>, hostname: string, matters: string -> bool)
    requires Written(base, records, desired, hostname) && FitTogether(base, desired, hostname, matters) && key in desired
    ensures Written(base, Upsert(records, desired[key]), desired, hostname)
    ensures KeySet(ByKey(records), ByKey(Upsert(records, desired[key])), key, desired[key], matters)
  {
    hide RecordKey, Relevant, ByKey, Upsert, Fits, SlotsDistinct;
    UpsertSetsKey(records, desired[key], hostname, matters);
    UpsertKeepsSlots(records, desired[key], hostname);
  }

  /** After the upserts of a plan, exactly the keys it creates or updates are as desired, and
      every other key that matters is as it was. */
  lemma {:induction false} ChangesTakeEffect(base: seq<RRSet>, plan: seq<Entry>, desired: map<string, RRSet>, hostname: string, matters: string -> bool)
    requires SlotsDistinct(base) && OfHost(base, hostname) && FitTogether(base, desired, hostname, matters)
    ensures var after := UpsertAll(base, ChangesOf(plan, desired));
            Written(base, after, desired, hostname) && KeysAfter(ByKey(base), ByKey(after), plan, desired, matters)
  {
    hide *;
    if plan == [] {
      NothingChanged(base, desired, hostname, matters);
    } else {
      var front, last := plan[..|plan| - 1], plan[|plan| - 1];
      ChangesTakeEffect(base, front, desired, hostname, matters);
      assert plan == front + [last];
      OneMoreChange(base, front, last, desired);
      var before := UpsertAll(base, ChangesOf(front, desired));
      if Changes(last) && last.key in desired {
        UpsertIsSound(base, before, last.key, desired, hostname, matters);
        EntryAppended(ByKey(base), ByKey(before), ByKey(Upsert(before, desired[last.key])), front, last, desired, matters);
      } else {
        EntryAppended(ByKey(base), ByKey(before), ByKey(before), front, last, desired, matters);
      }
    }
  }

  lemma NothingChanged(base: seq<RRSet>, desired: map<string, RRSet>, hostname: string, matters: string -> bool)
    requires SlotsDistinct(base) && OfHost(base, hostname)
    ensures var after := UpsertAll(base, ChangesOf([], desired));
            Written(base, after, desired, hostname) && KeysAfter(ByKey(base), ByKey(after), [], desired, matters)
  {
    hide ByKey, SlotsDistinct, OfHost;
  }

  lemma OneMoreChange(base: seq<RRSet>, front: seq<Entry>, last: Entry, desired: map<string, RRSet>)
    ensures UpsertAll(base, ChangesOf(front + [last], desired)) ==
            var before := UpsertAll(base, ChangesOf(front, desired));
            if Changes(last) && last.key in desired then Upsert(before, desired[last.key]) else before
  {
    hide Upsert;
    assert (front + [last])[..|front|] == front;
    var changes := ChangesOf(front, desired);
    if Changes(last) && last.key in desired {
      assert (changes + [desired[last.key]])[..|changes|] == changes;
    } else {
      assert changes + [] == changes;
    }
  }

  // ---- Few upserts ----

  ghost function DesiredKeys(plan: seq<Entry>, desired: map<string, RRSet>): set<string> {
    set e | e in plan && e.key in desired :: e.key
  }

  lemma DesiredKeysAppended(front: seq<Entry>, last: Entry, desired: map<string, RRSet>)
    requires forall e | e in front :: e.key != last.key
    ensures |DesiredKeys(front + [last], desired)| == |DesiredKeys(front, desired)| + if last.key in desired then 1 else 0
  {
    assert DesiredKeys(front + [last], desired) == DesiredKeys(front, desired) + if last.key in desired then {last.key} else {};
  }

  lemma {:induction false} FewChanges(plan: seq<Entry>, desired: map<string, RRSet>)
    requires forall i, j | 0 <= i < j < |plan| :: plan[i].key != plan[j].key
    ensures |ChangesOf(plan, desired)| <= |DesiredKeys(plan, desired)|
  {
    if plan != [] {
      var front, last := plan[..|plan| - 1], plan[|plan| - 1];
      FewChanges(front, desired);
      assert plan == front + [last];
      forall e | e in front ensures e.key != last.key {
        var i :| 0 <= i < |front| && plan[i] == e;
      }
      DesiredKeysAppended(front, last, desired);
    }
  }

  lemma {:induction false} ChangesAreDesired(plan: seq<Entry>, desired: map<string, RRSet>)
    ensures forall x | x in ChangesOf(plan, desired) :: exists key :: key in desired && desired[key] == x
  {
    if plan != [] {
      ChangesAreDesired(plan[..|plan| - 1], desired);
    }
  }

  lemma {:induction false} NoMoreKeysThanRecords(records: seq<RRSet>)
    ensures |ByKey(records).Keys| <= |records|
  {
    if records != [] {
      NoMoreKeysThanRecords(records[1..]);
      assert ByKey(records).Keys == {RecordKey(records[0])} + ByKey(records[1..]).Keys;
    }
  }

  lemma Within(small: set<string>, large: set<string>)
    requires small <= large
    ensures |small| <= |large|
  {
    assert large == small + (large - small);
  }

  /** With room for the endpoints in the page, the upserts are listed like any other records. */
  lemma UpsertsAreListed(records: seq<RRSet>, plan: seq<Entry>, written: seq<RRSet>, hostname: string, onward: Order)
    requires StartsAtHost(onward) && forall key | key in ByKey(written) :: Relevant(ByKey(written)[key], hostname)
    requires |Onward(records, hostname, onward)| + |written| <= PAGE
    requires forall i, j | 0 <= i < j < |plan| :: plan[i].key != plan[j].key
    ensures Listed(records, hostname, onward) == RelevantOf(records, hostname)
    ensures var changes := ChangesOf(plan, ByKey(written));
            Listed(UpsertAll(records, changes), hostname, onward) == UpsertAll(Listed(records, hostname, onward), changes)
  {
    var desired := ByKey(written);
    var changes := ChangesOf(plan, desired);
    ChangesAreDesired(plan, desired);
    FewChanges(plan, desired);
    NoMoreKeysThanRecords(written);
    Within(DesiredKeys(plan, desired), desired.Keys);
    hide Relevant, ByKey, ChangesOf, UpsertAll, Select, SameSlot;
    RelevantChanges(changes, desired, hostname);
    ListedWithRoom(records, changes, hostname, onward);
  }

  lemma RelevantChanges(changes: seq<RRSet>, desired: map<string, RRSet>, hostname: string)
    requires forall x | x in changes :: exists key :: key in desired && desired[key] == x
    requires forall key | key in desired :: Relevant(desired[key], hostname)
    ensures OfHost(changes, hostname)
  {
    hide Relevant;
  }

  lemma ListedWithRoom(records: seq<RRSet>, changes: seq<RRSet>, hostname: string, onward: Order)
    requires StartsAtHost(onward) && OfHost(changes, hostname) && |Onward(records, hostname, onward)| + |changes| <= PAGE
    ensures Listed(records, hostname, onward) == RelevantOf(records, hostname)
    ensures Listed(UpsertAll(records, changes), hostname, onward) == UpsertAll(Listed(records, hostname, onward), changes)
  {
    var ahead := (rec: RRSet) => onward(hostname, rec);
    forall rec | rec in changes ensures TakesSlot(ahead, rec) && TakesSlot(IsRelevant(hostname), rec) {
      forall x | SameSlot(x, rec) ensures Relevant(x, hostname) {
        SlotIsRelevant(x, rec, hostname);
      }
      hide SameSlot, Relevant;
    }
    hide Relevant, UpsertAll, Select, SameSlot, TakesSlot;
    SelectAllTogether(records, changes, ahead);
    SelectAllTogether(records, changes, IsRelevant(hostname));
    SelectTwice(records, ahead, IsRelevant(hostname));
    SelectTwice(UpsertAll(records, changes), ahead, IsRelevant(hostname));
    UpsertsStayListed(Onward(records, hostname, onward), changes);
  }

  lemma {:induction false} RelevantAreOfHost(records: seq<RRSet>, hostname: string)
    ensures OfHost(RelevantOf(records, hostname), hostname)
  {
    hide Relevant;
    if records != [] {
      RelevantAreOfHost(records[1..], hostname);
    }
  }

  // ---- The two modes ----

  predicate IsNormal(id: string) {
    TrimSpace(id) == id && Lower(id) == id
  }

  predicate IsIdKey(key: string) {
    "id:" <= key
  }

  predicate IsRoleKey(key: string) {
    "failover:" <= key
  }

  /** Identifiers are already normalised. */
  ghost predicate Normal(records: seq<RRSet>) {
    forall x | x in records :: IsNormal(x.setId)
  }

  /** Of the failover records, exactly those of a desired role have that role's identifier. */
  ghost predicate Unrenamed(base: seq<RRSet>, desired: map<string, RRSet>) {
    forall key, x | key in desired && x in base && x.failover != "" :: RecordKey(x) == key <==> x.setId == desired[key].setId
  }

  /** What each mode needs of the host's records: in weighted mode normalised identifiers, in
      failover mode unchanged ones, and two names for the two endpoints. */
  ghost predicate Settled(base: seq<RRSet>, r: Config, host: string -> string) {
    && SlotsDistinct(base)
    && if IsFailover(r)
       then Unrenamed(base, ByKey(RecordsFor(r, host)))
            && NormalizeIdentifier(r.endpoints[0].name, 0) != NormalizeIdentifier(r.endpoints[1].name, 1)
       else Normal(base)
  }

  function Matters(r: Config): string -> bool {
    if IsFailover(r) then IsRoleKey else IsIdKey
  }

  lemma DefaultIdentifierNormal(idx: nat)
    ensures IsNormal("endpoint-" + Print(idx + 1))
  {
    hide Print;
    PositivePrinted(idx + 1);
    NumberedNormal("endpoint-", Print(idx + 1));
  }

  lemma NumberedNormal(stem: string, digits: string)
    requires stem != "" && 'a' <= stem[0] <= 'z' && (forall c | c in stem :: 'a' <= c <= 'z' || c == '-')
    requires digits != "" && forall c | c in digits :: IsDigit(c) || c == '-'
    ensures IsNormal(stem + digits)
  {
    var id := stem + digits;
    forall k | 0 <= k < |id| ensures LowerChar(id[k]) == id[k] {
      assert if k < |stem| then id[k] in stem else id[k] in digits;
    }
    assert Lower(id) == id;
    assert id[0] == stem[0] && id[|id| - 1] in digits;
    assert TrimSpace(id) == id;
  }

  lemma IdentifierNormal(name: string, idx: nat)
    ensures NormalizeIdentifier(name, idx) != "" && IsNormal(NormalizeIdentifier(name, idx))
  {
    if Lower(TrimSpace(name)) != "" {
      TrimLowerIdempotent(name);
    } else {
      DefaultIdentifierNormal(idx);
    }
  }

  /** A weighted record set as the router writes it. */
  ghost predicate Weighted(rec: RRSet) {
    rec.failover == "" && rec.setId != "" && IsNormal(rec.setId)
  }

  lemma KeyOfWeighted(rec: RRSet)
    requires Weighted(rec)
    ensures RecordKey(rec) == "id:" + rec.setId && IsIdKey(RecordKey(rec))
  {
  }

  /** An id key tells the identifier of a tidy record. */
  lemma IdKeyTells(rec: RRSet, other: RRSet)
    requires IsNormal(rec.setId) && Weighted(other) && RecordKey(rec) == RecordKey(other)
    ensures rec.failover == "" && rec.setId == other.setId
  {
    KeyOfWeighted(other);
    assert RecordKey(other)[0] == 'i';
    if rec.failover == "" {
      assert RecordKey(rec)[3..] == rec.setId && RecordKey(other)[3..] == other.setId;
    }
  }

  lemma SlotKey(rec: RRSet, other: RRSet)
    requires rec.setId == other.setId && Weighted(other)
    ensures RecordKey(rec) == RecordKey(other) || !IsIdKey(RecordKey(rec))
  {
    KeyOfWeighted(other);
    assert rec.failover != "" ==> RecordKey(rec)[0] == 'f';
  }

  lemma WeightedFits(x: RRSet, rec: RRSet)
    requires IsNormal(x.setId) && Weighted(rec)
    ensures Fits(x, rec, IsIdKey)
  {
    if RecordKey(x) == RecordKey(rec) {
      IdKeyTells(x, rec);
    }
    if x.setId == rec.setId {
      SlotKey(x, rec);
    }
    hide RecordKey, IsNormal;
  }

  /** A desired record, and which endpoint it is for. */
  lemma DesiredFrom(r: Config, host: string -> string, key: string) returns (i: nat)
    requires key in ByKey(RecordsFor(r, host))
    ensures i < |r.endpoints| && ByKey(RecordsFor(r, host))[key] == RecordFor(r, host, i)
    ensures RecordKey(ByKey(RecordsFor(r, host))[key]) == key && Relevant(ByKey(RecordsFor(r, host))[key], r.hostname)
  {
    ByKeyFrom(RecordsFor(r, host), key);
    hide RecordKey, CnameTarget, NormalizeIdentifier;
    i :| 0 <= i < |r.endpoints| && RecordFor(r, host, i) == ByKey(RecordsFor(r, host))[key];
  }

  lemma WeightedRecord(r: Config, host: string -> string, i: nat)
    requires i < |r.endpoints| && !IsFailover(r)
    ensures Weighted(RecordFor(r, host, i))
  {
    IdentifierNormal(r.endpoints[i].name, i);
    hide NormalizeIdentifier, CnameTarget, EnsureFQDN, IsNormal;
  }

  lemma WeightedFitTogether(base: seq<RRSet>, r: Config, host: string -> string)
    requires !IsFailover(r) && Normal(base)
    ensures FitTogether(base, ByKey(RecordsFor(r, host)), r.hostname, IsIdKey)
  {
    hide RecordKey, RecordFor, RecordsFor, ByKey, IsFailover, Relevant, IsNormal, Weighted, Fits, IsIdKey;
    var desired := ByKey(RecordsFor(r, host));
    forall key | key in desired
      ensures Weighted(desired[key]) && IsNormal(desired[key].setId) && IsIdKey(key) && RecordKey(desired[key]) == key && Relevant(desired[key], r.hostname)
    {
      var i := DesiredFrom(r, host, key);
      WeightedRecord(r, host, i);
      KeyOfWeighted(desired[key]);
      WeightedIsNormal(desired[key]);
    }
    forall key, x | key in desired && x in base ensures Fits(x, desired[key], IsIdKey) {
      WeightedFits(x, desired[key]);
    }
    forall key, other | key in desired && other in desired ensures Fits(desired[other], desired[key], IsIdKey) {
      WeightedFits(desired[other], desired[key]);
    }
  }

  lemma WeightedIsNormal(rec: RRSet)
    requires Weighted(rec)
    ensures IsNormal(rec.setId)
  {
  }

  lemma RoleRecord(r: Config, host: string -> string, i: nat)
    requires i < |r.endpoints| && IsFailover(r)
    ensures var rec := RecordFor(r, host, i);
            && rec.failover != "" && IsRoleKey(RecordKey(rec)) && |r.endpoints| == 2
            && rec.setId == NormalizeIdentifier(r.endpoints[i].name, i)
  {
    hide NormalizeIdentifier, CnameTarget, EnsureFQDN, TrimSpace, Lower;
  }

  lemma OtherKeysAreNoRoles(x: RRSet)
    ensures x.failover == "" ==> !IsRoleKey(RecordKey(x))
  {
    if x.failover == "" {
      assert RecordKey(x)[0] == 'i' || RecordKey(x)[0] == 'd';
    }
  }

  lemma RoleFits(x: RRSet, rec: RRSet)
    requires IsRoleKey(RecordKey(rec)) && (x.failover != "" ==> (RecordKey(x) == RecordKey(rec) <==> x.setId == rec.setId))
    ensures Fits(x, rec, IsRoleKey)
  {
    OtherKeysAreNoRoles(x);
    hide RecordKey;
  }

  lemma RolesFitTogether(base: seq<RRSet>, r: Config, host: string -> string)
    requires IsFailover(r) && Settled(base, r, host)
    ensures FitTogether(base, ByKey(RecordsFor(r, host)), r.hostname, IsRoleKey)
  {
    hide RecordKey, RecordFor, RecordsFor, ByKey, IsFailover, Relevant, Fits, IsRoleKey, NormalizeIdentifier, SlotsDistinct;
    var desired := ByKey(RecordsFor(r, host));
    forall key | key in desired ensures IsRoleKey(key) && RecordKey(desired[key]) == key && Relevant(desired[key], r.hostname) {
      var i := DesiredFrom(r, host, key);
      RoleRecord(r, host, i);
    }
    forall key, x | key in desired && x in base ensures Fits(x, desired[key], IsRoleKey) {
      RoleFits(x, desired[key]);
    }
    forall key, other | key in desired && other in desired ensures Fits(desired[other], desired[key], IsRoleKey) {
      var i := DesiredFrom(r, host, key);
      var j := DesiredFrom(r, host, other);
      RoleRecord(r, host, i);
      RoleRecord(r, host, j);
      assert i == j ==> desired[key] == desired[other];
      RoleFits(desired[other], desired[key]);
    }
  }

  lemma ModeFits(base: seq<RRSet>, r: Config, host: string -> string)
    requires Settled(base, r, host)
    ensures FitTogether(base, ByKey(RecordsFor(r, host)), r.hostname, Matters(r))
  {
    hide IsFailover, ByKey, RecordsFor, FitTogether;
    if IsFailover(r) {
      RolesFitTogether(base, r, host);
    } else {
      assert Normal(base);
      WeightedFitTogether(base, r, host);
    }
  }

  // ---- Convergence ----

  /** The router manages every key it lists. */
  predicate Manages(key: string) {
    true
  }

  lemma EqualToItself(rec: RRSet)
    ensures RecordsEqual(rec, rec)
  {
  }

  lemma {:induction false} KeySettles(before: map<string, RRSet>, after: map<string, RRSet>, plan: seq<Entry>, desired: map<string, RRSet>, key: string)
    requires IsPlan(plan, before, desired, RecordsEqual, Manages) && key in desired
    requires KeyAfter(before, after, Changed(plan, desired, key), desired, key)
    ensures key in after && RecordsEqual(after[key], desired[key])
  {
    EqualToItself(desired[key]);
    var e :| e in plan && e.key == key;
    if !Changes(e) {
      assert forall f | f in plan && f.key == key :: f.verdict == e.verdict;
    }
  }

  /** Once a plan's upserts are in, the zone has an equal record for every desired key, in
      weighted mode with normalised and in failover mode with unchanged identifiers, as long as
      the record sets from the host on fit in a page with the endpoints. */
  lemma SyncSettles(records: seq<RRSet>, r: Config, host: string -> string, onward: Order, plan: seq<Entry>)
    requires StartsAtHost(onward) && Settled(Listed(records, r.hostname, onward), r, host)
    requires |Onward(records, r.hostname, onward)| + |r.endpoints| <= PAGE
    requires IsPlan(plan, ByKey(Listed(records, r.hostname, onward)), ByKey(RecordsFor(r, host)), RecordsEqual, Manages)
    ensures var desired := ByKey(RecordsFor(r, host));
            var after := ByKey(Listed(UpsertAll(records, ChangesOf(plan, desired)), r.hostname, onward));
            forall key | key in desired :: key in after && RecordsEqual(after[key], desired[key])
  {
    var desired := ByKey(RecordsFor(r, host));
    var base := Listed(records, r.hostname, onward);
    ModeFits(base, r, host);
    hide RecordKey, RecordFor, RecordsEqual, IsFailover, Relevant, Settled, Fits, Select, Upsert, UpsertAll, ChangesOf, ByKey, VerdictOf, StartsAtHost;
    UpsertsAreListed(records, plan, RecordsFor(r, host), r.hostname, onward);
    RelevantAreOfHost(records, r.hostname);
    assert SlotsDistinct(base) by {
      SettledSlots(base, r, host);
    }
    ChangesTakeEffect(base, plan, desired, r.hostname, Matters(r));
    var after := ByKey(UpsertAll(base, ChangesOf(plan, desired)));
    forall key | key in desired ensures key in after && RecordsEqual(after[key], desired[key]) {
      KeySettles(ByKey(base), after, plan, desired, key);
    }
  }

  lemma SettledSlots(base: seq<RRSet>, r: Config, host: string -> string)
    requires Settled(base, r, host)
    ensures SlotsDistinct(base)
  {
    hide SlotsDistinct;
  }
}
