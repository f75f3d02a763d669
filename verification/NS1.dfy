/** The NS1 router: one CNAME record whose answers are compared up to order. */
module NS1 {
  import opened Decimal
  import opened Ordering
  import opened Permutations
  import opened Routing
  import opened Text
  import opened Wrappers

  /** A JSON number as decoded: encoding an integer and decoding it gives a float. */
  datatype Number = Missing | Whole(n: int) | Floating(x: real)

  datatype Answer = Answer(targets: seq<string>, up: bool, weight: Number, priority: Number)

  datatype Record = Record(zone: string, domain: string, kind: string, ttl: int, answers: seq<Answer>)

  /** Floats are truncated toward zero. */
  function ToInt(v: Number): int {
    match v
    case Missing => 0
    case Whole(n) => n
    case Floating(x) => if x >= 0.0 then x.Floor else -(-x).Floor
  }

  /** What of an answer matters. */
  datatype Shape = Shape(target: string, weight: int, priority: int)

  function ShapeOf(a: Answer): Shape {
    Shape(if a.targets == [] then "" else Normalize(a.targets[0]), ToInt(a.weight), ToInt(a.priority))
  }

  function AnswerKey(a: Answer): string {
    var s := ShapeOf(a);
    s.target + "|w=" + Print(s.weight) + "|p=" + Print(s.priority)
  }

  function Shapes(answers: seq<Answer>): seq<Shape> {
    Map(answers, ShapeOf)
  }

  /** The key loses nothing: whatever the target contains, it tells the shape. */
  lemma KeyTellsShape(a: Answer, b: Answer)
    ensures AnswerKey(a) == AnswerKey(b) <==> ShapeOf(a) == ShapeOf(b)
  {
    var s, t := ShapeOf(a), ShapeOf(b);
    if AnswerKey(a) == AnswerKey(b) {
      PrintedLastSplits(s.target + "|w=" + Print(s.weight), s.priority, t.target + "|w=" + Print(t.weight), t.priority, "|p=");
      PrintedLastSplits(s.target, s.weight, t.target, t.weight, "|w=");
    }
  }

  // ---- Comparing records ----

  /** Equal up to the order of answers and everything but targets, weights and priorities. */
  ghost predicate Same(a: Record, b: Record) {
    && Normalize(a.domain) == Normalize(b.domain)
    && Upper(TrimSpace(a.kind)) == Upper(TrimSpace(b.kind))
    && a.ttl == b.ttl
    && multiset(Shapes(a.answers)) == multiset(Shapes(b.answers))
  }

  /** Comparing keys as multisets is comparing shapes as multisets. */
  lemma KeysAgreeIff(a: seq<Answer>, b: seq<Answer>)
    ensures multiset(Map(a, AnswerKey)) == multiset(Map(b, AnswerKey)) <==> multiset(Shapes(a)) == multiset(Shapes(b))
  {
    forall x, y ensures AnswerKey(x) == AnswerKey(y) <==> ShapeOf(x) == ShapeOf(y) {
      KeyTellsShape(x, y);
    }
    if multiset(Map(a, AnswerKey)) == multiset(Map(b, AnswerKey)) {
      ImagesFollow(a, b, AnswerKey, ShapeOf);
    }
    if multiset(Shapes(a)) == multiset(Shapes(b)) {
      ImagesFollow(a, b, ShapeOf, AnswerKey);
    }
  }

  /** Copy, sort, compare keys one by one: true exactly for the same record. */
  method RecordsEqual(a: Record, b: Record) returns (equal: bool)
    ensures equal <==> Same(a, b)
  {
    if Normalize(a.domain) != Normalize(b.domain) {
      return false;
    }
    if Upper(TrimSpace(a.kind)) != Upper(TrimSpace(b.kind)) {
      return false;
    }
    if a.ttl != b.ttl {
      return false;
    }
    equal := AnswersEqual(a.answers, b.answers);
  }

  method AnswersEqual(a: seq<Answer>, b: seq<Answer>) returns (equal: bool)
    ensures equal <==> multiset(Shapes(a)) == multiset(Shapes(b))
  {
    KeysAgreeIff(a, b);
    if |a| != |b| {
      if multiset(Shapes(a)) == multiset(Shapes(b)) {
        SameSize(Shapes(a), Shapes(b));
      }
      return false;
    }
    equal := SortedKeysEqual(a, b, AnswerKey);
  }

  method SortedKeysEqual<T(!new)>(a: seq<T>, b: seq<T>, key: T -> string) returns (equal: bool)
    requires |a| == |b|
    ensures equal <==> multiset(Map(a, key)) == multiset(Map(b, key))
  {
    var left := SortBy(a, key);
    var right := SortBy(b, key);
    MapPermutes(left, a, key);
    MapPermutes(right, b, key);
    SameSize(left, a);
    SameSize(right, b);
    for i := 0 to |left|
      invariant forall k | 0 <= k < i :: key(left[k]) == key(right[k])
    {
      if key(left[i]) != key(right[i]) {
        assert Map(left, key)[i] != Map(right, key)[i];
        if multiset(Map(left, key)) == multiset(Map(right, key)) {
          SortedUnique(Map(left, key), Map(right, key));
        }
        return false;
      }
    }
    assert Map(left, key) == Map(right, key);
    equal := true;
  }

  // ---- What is desired ----

  function AnswerFor(r: Config, host: string -> string, i: nat): Answer
    requires i < |r.endpoints|
  {
    var ep := r.endpoints[i];
    var target := match Target(ep.url, host) case Some(t) => t case None => "";
    if IsFailover(r) then Answer([target], true, Missing, Whole(i + 1))
    else Answer([target], true, Whole(if ep.weight <= 0 then 1 else ep.weight), Missing)
  }

  function AnswersFor(r: Config, host: string -> string): (answers: seq<Answer>)
    ensures |answers| == |r.endpoints|
    ensures forall i | 0 <= i < |answers| :: answers[i] == AnswerFor(r, host, i)
  {
    seq(|r.endpoints|, i requires 0 <= i < |r.endpoints| => AnswerFor(r, host, i))
  }

  /** What desiredRecord may return: the answers in some order sorted by key. */
  ghost predicate IsDesired(rec: Record, zone: string, r: Config, host: string -> string) {
    && rec.zone == zone && rec.domain == Normalize(r.hostname) && rec.kind == "CNAME"
    && rec.ttl == (if r.ttl <= 0 then 60 else r.ttl)
    && multiset(rec.answers) == multiset(AnswersFor(r, host)) && Sorted(Map(rec.answers, AnswerKey))
  }

  /** One answer an endpoint, or nothing if some endpoint has no target. */
  method CollectAnswers(r: Config, host: string -> string) returns (answers: Option<seq<Answer>>)
    ensures answers.Some? <==> forall ep | ep in r.endpoints :: HasTarget(ep, host)
    ensures answers.Some? ==> answers.value == AnswersFor(r, host)
  {
    hide HasTarget, AnswerFor;
    ghost var all := AnswersFor(r, host);
    var out: seq<Answer> := [];
    for i := 0 to |r.endpoints|
      invariant out == all[..i]
      invariant forall k | 0 <= k < i :: HasTarget(r.endpoints[k], host)
    {
      var found := HasTarget(r.endpoints[i], host);
      if !found {
        assert r.endpoints[i] in r.endpoints;
        return None;
      }
      out := out + [AnswerFor(r, host, i)];
    }
    answers := Some(out);
  }

  method DesiredRecord(zone: string, r: Config, host: string -> string) returns (result: Result<Record>)
    ensures result.Ok? <==> Valid(r, host)
    ensures result.Ok? ==> IsDesired(result.value, zone, r, host)
  {
    if TrimSpace(r.hostname) == "" {
      return Err("routing hostname is required");
    }
    if r.endpoints == [] {
      return Err("routing endpoints are required");
    }
    var answers := CollectAnswers(r, host);
    if answers.None? {
      return Err("endpoint URL has no valid host");
    }
    var sorted := SortBy(answers.value, AnswerKey);
    result := Ok(Record(zone, Normalize(r.hostname), "CNAME", if r.ttl <= 0 then 60 else r.ttl, sorted));
  }

  // ---- Reconciling ----

  function TargetsOf(answers: seq<Answer>): seq<string> {
    if answers == [] then []
    else
      var last := answers[|answers| - 1];
      TargetsOf(answers[..|answers| - 1]) + if last.targets == [] then [] else [Normalize(last.targets[0])]
  }

  /** The targets that are not wanted. */
  function Absent(targets: seq<string>, wanted: seq<string>): seq<string> {
    if targets == [] then []
    else
      var last := targets[|targets| - 1];
      Absent(targets[..|targets| - 1], wanted) + if last in wanted then [] else [last]
  }

  method CollectTargets(answers: seq<Answer>) returns (targets: seq<string>)
    ensures targets == TargetsOf(answers)
  {
    targets := [];
    for i := 0 to |answers|
      invariant targets == TargetsOf(answers[..i])
    {
      assert answers[..i + 1][..i] == answers[..i];
      if answers[i].targets != [] {
        targets := targets + [Normalize(answers[i].targets[0])];
      }
    }
    assert answers[..|answers|] == answers;
  }

  ghost predicate AreCandidates(candidates: seq<string>, existing: Record, desired: Record) {
    Sorted(candidates) && multiset(candidates) == multiset(Absent(TargetsOf(existing.answers), TargetsOf(desired.answers)))
  }

  /** The stored targets that are no longer wanted, in order. */
  method DeleteCandidates(existing: Record, desired: Record) returns (candidates: seq<string>)
    ensures AreCandidates(candidates, existing, desired)
  {
    var wanted := CollectTargets(desired.answers);
    var targets := CollectTargets(existing.answers);
    var absent: seq<string> := [];
    for i := 0 to |targets|
      invariant absent == Absent(targets[..i], wanted)
    {
      assert targets[..i + 1][..i] == targets[..i];
      if targets[i] !in wanted {
        absent := absent + [targets[i]];
      }
    }
    assert targets[..|targets|] == targets;
    candidates := SortBy(absent, (s: string) => s);
    assert Map(candidates, (s: string) => s) == candidates;
  }

  function Describe(rec: Record): string {
    "ns1 cname targets=" + Print(|rec.answers|) + " ttl=" + Print(rec.ttl)
  }

  function MainAction(kind: string, desired: Record): Action {
    Action("dns_record_set", kind, desired.domain, Describe(desired))
  }

  function CandidateAction(desired: Record): string -> Action {
    (candidate: string) => Action("dns_record_set", "delete-candidate", desired.domain, "ns1 cname=" + candidate)
  }

  method CandidateActions(candidates: seq<string>, desired: Record) returns (actions: seq<Action>)
    ensures actions == Map(candidates, CandidateAction(desired))
  {
    actions := [];
    for i := 0 to |candidates|
      invariant |actions| == i && forall k | 0 <= k < i :: actions[k] == CandidateAction(desired)(candidates[k])
    {
      actions := actions + [CandidateAction(desired)(candidates[i])];
    }
  }

  ghost predicate UpToDate(stored: Option<Record>, desired: Record) {
    stored.Some? && Same(stored.value, desired)
  }

  /** The actions reported: the candidates, in order, before the main action. */
  ghost predicate Reports(actions: seq<Action>, stored: Option<Record>, desired: Record) {
    if stored.None? then actions == [MainAction("create", desired)]
    else
      var main := MainAction(if UpToDate(stored, desired) then "no-op" else "update", desired);
      exists candidates :: AreCandidates(candidates, stored.value, desired)
                           && actions == Map(candidates, CandidateAction(desired)) + [main]
  }

  // ---- Convergence ----

  /** An answer as it comes back from the server. */
  function Decoded(a: Answer): Answer {
    a.(weight := if a.weight.Whole? then Floating(a.weight.n as real) else a.weight,
       priority := if a.priority.Whole? then Floating(a.priority.n as real) else a.priority)
  }

  /** The server may list the answers of a record in any order. */
  ghost predicate Served(stored: Record, served: Record) {
    && served.domain == stored.domain && served.kind == stored.kind && served.ttl == stored.ttl
    && multiset(served.answers) == multiset(Map(stored.answers, Decoded))
  }

  lemma ServedIsSame(stored: Record, served: Record)
    requires Served(stored, served)
    ensures Same(served, stored)
  {
    var decoded := Map(stored.answers, Decoded);
    MapPermutes(served.answers, decoded, ShapeOf);
    assert forall a :: ShapeOf(Decoded(a)) == ShapeOf(a);
    assert Shapes(decoded) == Shapes(stored.answers);
  }

  lemma TargetsAppended(answers: seq<Answer>, last: Answer)
    ensures TargetsOf(answers + [last]) ==
            if last.targets == [] then TargetsOf(answers) else TargetsOf(answers) + [ShapeOf(last).target]
  {
    hide Normalize, ToInt;
    assert (answers + [last])[..|answers|] == answers;
    assert TargetsOf(answers) + [] == TargetsOf(answers);
  }

  lemma {:induction false} TargetIsShape(answers: seq<Answer>, target: string)
    requires target in TargetsOf(answers)
    ensures exists a :: a in answers && a.targets != [] && ShapeOf(a).target == target
  {
    var front, last := answers[..|answers| - 1], answers[|answers| - 1];
    assert answers == front + [last];
    TargetsAppended(front, last);
    hide *;
    if target in TargetsOf(front) {
      TargetIsShape(front, target);
      var a :| a in front && a.targets != [] && ShapeOf(a).target == target;
      assert a in answers;
    } else {
      assert last in answers;
    }
  }

  lemma {:induction false} ShapeIsTarget(answers: seq<Answer>, a: Answer)
    requires a in answers && a.targets != []
    ensures ShapeOf(a).target in TargetsOf(answers)
  {
    hide *;
    var front, last := answers[..|answers| - 1], answers[|answers| - 1];
    assert answers == front + [last];
    TargetsAppended(front, last);
    if a in front {
      ShapeIsTarget(front, a);
    }
  }

  lemma {:induction false} NothingAbsent(targets: seq<string>, wanted: seq<string>)
    requires forall t | t in targets :: t in wanted
    ensures Absent(targets, wanted) == []
  {
    if targets != [] {
      NothingAbsent(targets[..|targets| - 1], wanted);
    }
  }

  /** A record that is the same has no delete candidates, given that every desired answer has
      a target. */
  lemma SameHasNoCandidates(existing: Record, desired: Record)
    requires Same(existing, desired) && forall a | a in desired.answers :: a.targets != []
    ensures Absent(TargetsOf(existing.answers), TargetsOf(desired.answers)) == []
  {
    hide ShapeOf, TargetsOf;
    forall t | t in TargetsOf(existing.answers) ensures t in TargetsOf(desired.answers) {
      TargetIsShape(existing.answers, t);
      var i :| 0 <= i < |existing.answers| && ShapeOf(existing.answers[i]).target == t;
      assert Shapes(existing.answers)[i] in multiset(Shapes(desired.answers));
      var k :| 0 <= k < |desired.answers| && Shapes(desired.answers)[k] == ShapeOf(existing.answers[i]);
      ShapeIsTarget(desired.answers, desired.answers[k]);
    }
    NothingAbsent(TargetsOf(existing.answers), TargetsOf(desired.answers));
  }

  /** Two runs may sort equal keys differently; their desired records are the same. */
  lemma DesiredIsSame(d: Record, e: Record, zone: string, r: Config, host: string -> string)
    requires IsDesired(d, zone, r, host) && IsDesired(e, zone, r, host)
    ensures Same(d, e) && forall a | a in d.answers :: a.targets != []
  {
    MapPermutes(d.answers, e.answers, ShapeOf);
    forall a | a in d.answers ensures a.targets != [] {
      assert a in multiset(AnswersFor(r, host));
    }
  }

  /** Whether the server answers the lookup, and takes an upsert. */
  datatype Server = Server(answers: bool, takes: bool)

  const WORKING := Server(true, true)

  /** The record stored for the domain, and the writes sent. */
  class Zone {
    var stored: Option<Record>
    var writes: nat

    constructor (stored: Option<Record>)
      ensures this.stored == stored && writes == 0
    {
      this.stored, writes := stored, 0;
    }

    /** Upserts the record, unless the run is dry or the server refuses. */
    method Upsert(rec: Record, dryRun: bool, server: Server) returns (ok: bool)
      modifies this
      ensures ok <==> dryRun || server.takes
      ensures stored == (if dryRun || !ok then old(stored) else Some(rec))
      ensures writes == old(writes) + if dryRun || !ok then 0 else 1
    {
      ok := dryRun || server.takes;
      if !dryRun && ok {
        stored, writes := Some(rec), writes + 1;
      }
    }

    /** A run that fails leaves the record as it is. */
    method Sync(zone: string, r: Config, dryRun: bool, host: string -> string, server: Server)
      returns (result: Result<seq<Action>>, ghost desired: Record)
      modifies this
      ensures !Valid(r, host) || !server.answers ==> result.Err? && stored == old(stored) && writes == old(writes)
      ensures Valid(r, host) && server.answers ==>
        var sends := !dryRun && !UpToDate(old(stored), desired);
        && IsDesired(desired, zone, r, host)
        && (result.Ok? <==> !sends || server.takes)
        && (result.Ok? ==> Reports(result.value, old(stored), desired))
        && stored == (if sends && server.takes then Some(desired) else old(stored))
        && writes == old(writes) + if sends && server.takes then 1 else 0
    {
      hide Valid, IsDesired, AreCandidates, MainAction, Same;
      var wanted := DesiredRecord(zone, r, host);
      if wanted.Err? {
        return Err(wanted.reason), Record(zone, "", "", 0, []);
      }
      desired := wanted.value;
      if !server.answers {
        return Err("ns1 get record"), desired;
      }
      if stored.None? {
        var ok := Upsert(wanted.value, dryRun, server);
        result := if ok then Ok([MainAction("create", wanted.value)]) else Err("ns1 upsert record");
        return;
      }
      var candidates := DeleteCandidates(stored.value, wanted.value);
      var actions := CandidateActions(candidates, wanted.value);
      var equal := RecordsEqual(stored.value, wanted.value);
      if equal {
        result := Ok(actions + [MainAction("no-op", wanted.value)]);
        return;
      }
      var ok := Upsert(wanted.value, dryRun, server);
      result := if ok then Ok(actions + [MainAction("update", wanted.value)]) else Err("ns1 upsert record");
    }

    /** A second sync of the same routing, dry or not, is one no-op, in whatever order and number
        type the server returns the answers: it succeeds, with the writes of the first, against a
        server that takes none, and finds no delete candidate. */
    method SyncTwice(zone: string, r: Config, dryRun: bool, host: string -> string, serve: Record -> Record)
      returns (first: Result<seq<Action>>, second: Result<seq<Action>>, ghost sent: nat)
      requires forall rec :: Served(rec, serve(rec))
      modifies this
      ensures first.Ok? == second.Ok? == Valid(r, host)
      ensures second.Ok? ==> |second.value| == 1 && second.value[0].action == "no-op"
      ensures sent <= old(writes) + 1 && writes == sent
    {
      hide Valid, IsDesired, Same, Served;
      ghost var desired, again;
      first, desired := Sync(zone, r, false, host, WORKING);
      sent := writes;
      if first.Err? {
        return first, first, sent;
      }
      var kept := stored.value;
      stored := Some(serve(kept));
      ghost var served := serve(kept);
      SyncedIsServed(old(stored), kept, served, desired, zone, r, host);
      second, again := Sync(zone, r, dryRun, host, Server(true, false));
      SecondIsSilent(served, desired, again, zone, r, host);
    }
  }

  /** Whatever the first run left, the record served is the same as the desired one. */
  lemma SyncedIsServed(before: Option<Record>, kept: Record, served: Record, desired: Record, zone: string, r: Config, host: string -> string)
    requires IsDesired(desired, zone, r, host) && Served(kept, served)
    requires Some(kept) == if UpToDate(before, desired) then before else Some(desired)
    ensures Same(served, desired)
  {
    DesiredIsSame(desired, desired, zone, r, host);
    ServedIsSame(kept, served);
  }

  lemma SecondIsSilent(served: Record, desired: Record, again: Record, zone: string, r: Config, host: string -> string)
    requires IsDesired(desired, zone, r, host) && IsDesired(again, zone, r, host) && Same(served, desired)
    ensures Same(served, again)
    ensures forall candidates | AreCandidates(candidates, served, again) :: candidates == []
  {
    DesiredIsSame(desired, again, zone, r, host);
    DesiredIsSame(again, desired, zone, r, host);
    SameHasNoCandidates(served, again);
    hide IsDesired, Same, TargetsOf, Absent, Normalize;
    forall candidates | AreCandidates(candidates, served, again) ensures candidates == [] {
      NoCandidates(candidates, served, again);
    }
  }

  lemma NoCandidates(candidates: seq<string>, existing: Record, desired: Record)
    requires AreCandidates(candidates, existing, desired) && Absent(TargetsOf(existing.answers), TargetsOf(desired.answers)) == []
    ensures candidates == []
  {
    SameSize(candidates, []);
  }
}
