/** What NS1 answers say of the endpoints, independently of how records are compared. */
module NS1Answers {
  import opened NS1
  import opened Ordering
  import opened Permutations
  import opened Routing
  import opened Selections
  import opened Text
  import opened Wrappers

  /** Decoded as this integer: fractions are cut off toward zero, a missing number is zero. */
  predicate NumberIs(v: Number, n: int) {
    match v
    case Missing => n == 0
    case Whole(m) => m == n
    case Floating(x) =>
      if n > 0 then n as real <= x < n as real + 1.0 else if n < 0 then n as real - 1.0 < x <= n as real else -1.0 < x < 1.0
  }

  lemma NumberIff(v: Number, n: int)
    ensures ToInt(v) == n <==> NumberIs(v, n)
  {
  }

  predicate FailsOver(r: Config) {
    Lower(TrimSpace(r.strategy)) == "failover" && |r.endpoints| == 2
  }

  /** In failover mode the endpoint's place, otherwise its weight, of which there is at least one. */
  function WeightOf(r: Config, i: nat): int
    requires i < |r.endpoints|
  {
    if FailsOver(r) then 0 else if r.endpoints[i].weight > 0 then r.endpoints[i].weight else 1
  }

  function PlaceOf(r: Config, i: nat): int {
    if FailsOver(r) then i + 1 else 0
  }

  /** The answer sends to the endpoint, with its weight or place. No target counts as none. */
  ghost predicate SendsTo(a: Answer, r: Config, host: string -> string, i: nat)
    requires i < |r.endpoints|
  {
    && (exists name :: LeadsToName(r.endpoints[i].url, host, name) && SameName(if a.targets == [] then "" else a.targets[0], name))
    && NumberIs(a.weight, WeightOf(r, i)) && NumberIs(a.priority, PlaceOf(r, i))
  }

  /** Up to order the answers send to the endpoints, one to each. */
  ghost predicate SendToAll(answers: seq<Answer>, r: Config, host: string -> string) {
    exists ordered: seq<Answer> ::
      && multiset(ordered) == multiset(answers) && |ordered| == |r.endpoints|
      && forall i | 0 <= i < |ordered| :: SendsTo(ordered[i], r, host, i)
  }

  ghost predicate Serves(rec: Record, r: Config, host: string -> string) {
    && SameName(rec.domain, Undotted(Lower(TrimSpace(r.hostname)))) && Upper(TrimSpace(rec.kind)) == "CNAME"
    && rec.ttl == (if r.ttl > 0 then r.ttl else 60) && SendToAll(rec.answers, r, host)
  }

  // ---- What is desired ----

  lemma DesiredName(r: Config, host: string -> string, i: nat) returns (name: string)
    requires i < |r.endpoints| && HasTarget(r.endpoints[i], host)
    ensures LeadsToName(r.endpoints[i].url, host, name) && AnswerFor(r, host, i).targets == [name]
    ensures forall other | LeadsToName(r.endpoints[i].url, host, other) :: other == name
  {
    name := Target(r.endpoints[i].url, host).value;
    TargetIff(r.endpoints[i].url, host, name);
    hide TrimSpace, Lower;
  }

  lemma NoName()
    ensures Normalize("") == ""
  {
  }

  /** An answer has the shape desired for an endpoint exactly if it sends to it. */
  lemma ShapeIffSends(a: Answer, r: Config, host: string -> string, i: nat)
    requires i < |r.endpoints| && HasTarget(r.endpoints[i], host)
    ensures ShapeOf(a) == ShapeOf(AnswerFor(r, host, i)) <==> SendsTo(a, r, host, i)
  {
    var want := AnswerFor(r, host, i);
    var name := DesiredName(r, host, i);
    NoName();
    NormalizeIff(if a.targets == [] then "" else a.targets[0], name);
    NumberIff(a.weight, WeightOf(r, i));
    NumberIff(a.priority, PlaceOf(r, i));
    assert ToInt(want.weight) == WeightOf(r, i) && ToInt(want.priority) == PlaceOf(r, i);
    hide Normalize, SameName, LeadsToName, HasTarget, ToInt, NumberIs, WeightOf, PlaceOf, TrimSpace, Lower, AnswerFor;
  }

  lemma ShapesIffSend(answers: seq<Answer>, r: Config, host: string -> string)
    requires forall ep | ep in r.endpoints :: HasTarget(ep, host)
    ensures multiset(Shapes(answers)) == multiset(Shapes(AnswersFor(r, host))) <==> SendToAll(answers, r, host)
  {
    var wanted := AnswersFor(r, host);
    hide ShapeOf, AnswerFor, SendsTo, HasTarget;
    if multiset(Shapes(answers)) == multiset(Shapes(wanted)) {
      var ordered := Reordered(answers, ShapeOf, Shapes(wanted));
      assert |ordered| == |Map(ordered, ShapeOf)| == |wanted|;
      forall i | 0 <= i < |ordered| ensures SendsTo(ordered[i], r, host, i) {
        assert Map(ordered, ShapeOf)[i] == Shapes(wanted)[i];
        assert r.endpoints[i] in r.endpoints;
        ShapeIffSends(ordered[i], r, host, i);
      }
    }
    if SendToAll(answers, r, host) {
      var ordered: seq<Answer> :|
        multiset(ordered) == multiset(answers) && |ordered| == |r.endpoints| && forall i | 0 <= i < |ordered| :: SendsTo(ordered[i], r, host, i);
      forall i | 0 <= i < |ordered| ensures ShapeOf(ordered[i]) == ShapeOf(wanted[i]) {
        assert r.endpoints[i] in r.endpoints;
        ShapeIffSends(ordered[i], r, host, i);
      }
      assert Map(ordered, ShapeOf) == Shapes(wanted);
      MapPermutes(ordered, answers, ShapeOf);
    }
  }

  /** A stored record is the same as a desired one exactly if it serves the routing. */
  lemma SameIffServes(rec: Record, desired: Record, zone: string, r: Config, host: string -> string)
    requires Valid(r, host) && IsDesired(desired, zone, r, host)
    ensures Same(rec, desired) <==> Serves(rec, r, host)
  {
    Undots(Lower(TrimSpace(r.hostname)));
    NormalizeIff(rec.domain, Normalize(r.hostname));
    UpperName();
    ShapesIffSend(rec.answers, r, host);
    hide Normalize, TrimSpace, Lower, Upper, ShapeOf, AnswersFor, SendToAll, HasTarget;
    MapPermutes(desired.answers, AnswersFor(r, host), ShapeOf);
  }

  lemma UpperName()
    ensures Upper(TrimSpace("CNAME")) == "CNAME"
  {
    assert TrimSpace("CNAME") == "CNAME" && Upper("CNAME") == "CNAME";
  }

  /** What is sent to be stored serves the routing, with every answer marked up. */
  lemma DesiredServes(desired: Record, zone: string, r: Config, host: string -> string)
    requires Valid(r, host) && IsDesired(desired, zone, r, host)
    ensures Serves(desired, r, host) && desired.zone == zone && forall a | a in desired.answers :: a.up && |a.targets| == 1
  {
    hide Serves, Same, Normalize, HasTarget, Sorted, AnswerKey;
    SameIffServes(desired, desired, zone, r, host);
    DesiredIsSame(desired, desired, zone, r, host);
    forall a | a in desired.answers ensures a.up && |a.targets| == 1 {
      assert a in multiset(AnswersFor(r, host));
    }
  }

  // ---- Delete candidates ----

  predicate NamesTarget(a: Answer, target: string) {
    a.targets != [] && SameName(a.targets[0], target)
  }

  function Unwanted(desired: Record): Answer -> bool {
    (a: Answer) => a.targets != [] && forall d | d in desired.answers :: !NamesTarget(d, a.targets[0])
  }

  function FirstTarget(a: Answer): string {
    if a.targets == [] then "" else Normalize(a.targets[0])
  }

  lemma WantedIff(desired: Record, a: Answer)
    requires a.targets != []
    ensures FirstTarget(a) in TargetsOf(desired.answers) <==> !Unwanted(desired)(a)
  {
    var target := FirstTarget(a);
    hide TargetsOf, Normalize, SameName;
    if target in TargetsOf(desired.answers) {
      TargetIsShape(desired.answers, target);
      var d :| d in desired.answers && d.targets != [] && ShapeOf(d).target == target;
      NormalizeIff(d.targets[0], a.targets[0]);
    }
    forall d | d in desired.answers && NamesTarget(d, a.targets[0]) ensures target in TargetsOf(desired.answers) {
      ShapeIsTarget(desired.answers, d);
      NormalizeIff(d.targets[0], a.targets[0]);
    }
  }

  lemma AbsentAppended(targets: seq<string>, last: string, wanted: seq<string>)
    ensures Absent(targets + [last], wanted) == if last in wanted then Absent(targets, wanted) else Absent(targets, wanted) + [last]
  {
    assert (targets + [last])[..|targets|] == targets;
    assert Absent(targets, wanted) + [] == Absent(targets, wanted);
  }

  lemma {:induction false} AbsentSelects(answers: seq<Answer>, desired: Record)
    ensures Selects(answers, Unwanted(desired), FirstTarget, Absent(TargetsOf(answers), TargetsOf(desired.answers)))
  {
    hide Selects, Unwanted, Absent, Normalize;
    if answers == [] {
      assert Absent(TargetsOf([]), TargetsOf(desired.answers)) == [] by {
        NothingIsAbsent(TargetsOf(desired.answers));
      }
      NoneSelected(Unwanted(desired), FirstTarget);
    } else {
      var front, last := answers[..|answers| - 1], answers[|answers| - 1];
      AbsentSelects(front, desired);
      assert answers == front + [last];
      TargetsAppended(front, last);
      hide TargetsOf;
      SelectsAppended(front, last, Unwanted(desired), FirstTarget, Absent(TargetsOf(front), TargetsOf(desired.answers)));
      if last.targets == [] {
        EmptyIsWanted(desired, last);
      } else {
        WantedIff(desired, last);
        AbsentAppended(TargetsOf(front), FirstTarget(last), TargetsOf(desired.answers));
      }
    }
  }

  lemma NothingIsAbsent(wanted: seq<string>)
    ensures Absent([], wanted) == []
  {
  }

  lemma EmptyIsWanted(desired: Record, a: Answer)
    requires a.targets == []
    ensures !Unwanted(desired)(a)
  {
  }

  /** The candidates are, sorted, the targets of the stored answers that no desired answer has. */
  lemma CandidatesAreUnwanted(candidates: seq<string>, existing: Record, desired: Record)
    requires AreCandidates(candidates, existing, desired)
    ensures Sorted(candidates)
    ensures exists targets :: Selects(existing.answers, Unwanted(desired), FirstTarget, targets) && multiset(targets) == multiset(candidates)
  {
    AbsentSelects(existing.answers, desired);
    hide Selects, Absent, TargetsOf;
  }

  /** The candidates reported, as details of delete-candidate actions. */
  ghost predicate Candidates(actions: seq<Action>, existing: Record, desired: Record) {
    exists candidates :: && Sorted(candidates) && Details(actions, candidates)
                         && exists targets :: Selects(existing.answers, Unwanted(desired), FirstTarget, targets)
                                              && multiset(targets) == multiset(candidates)
  }

  ghost predicate Details(actions: seq<Action>, candidates: seq<string>) {
    && |actions| == |candidates|
    && forall k | 0 <= k < |actions| :: actions[k].resource == "dns_record_set" && actions[k].action == "delete-candidate"
                                        && actions[k].detail == "ns1 cname=" + candidates[k]
  }

  lemma CandidatesReported(candidates: seq<string>, existing: Record, desired: Record)
    requires AreCandidates(candidates, existing, desired)
    ensures Candidates(Map(candidates, CandidateAction(desired)), existing, desired)
  {
    CandidatesAreUnwanted(candidates, existing, desired);
    assert Details(Map(candidates, CandidateAction(desired)), candidates);
    hide Selects, AreCandidates, Sorted, Unwanted, Details;
  }

  /** The report in the endpoints' terms: the candidates, and last whether a record was missing,
      had to be changed, or serves the routing as it is. */
  lemma ReportTellsServing(actions: seq<Action>, stored: Option<Record>, desired: Record, zone: string, r: Config, host: string -> string)
    requires Valid(r, host) && IsDesired(desired, zone, r, host) && Reports(actions, stored, desired)
    ensures actions != [] && actions[|actions| - 1].resource == "dns_record_set" && actions[|actions| - 1].name == desired.domain
    ensures actions[|actions| - 1].action == if stored.None? then "create" else if Serves(stored.value, r, host) then "no-op" else "update"
    ensures if stored.None? then |actions| == 1 else Candidates(actions[..|actions| - 1], stored.value, desired)
  {
    hide Same, Serves, Valid, IsDesired, Describe, AreCandidates, Candidates;
    if stored.Some? {
      SameIffServes(stored.value, desired, zone, r, host);
      var main := MainAction(if UpToDate(stored, desired) then "no-op" else "update", desired);
      var candidates :| AreCandidates(candidates, stored.value, desired) && actions == Map(candidates, CandidateAction(desired)) + [main];
      CandidatesReported(candidates, stored.value, desired);
      assert actions[..|actions| - 1] == Map(candidates, CandidateAction(desired));
    }
  }

  /** What a real run leaves stored serves the routing. */
  lemma SyncLeavesServing(before: Option<Record>, after: Option<Record>, desired: Record, zone: string, r: Config, host: string -> string)
    requires Valid(r, host) && IsDesired(desired, zone, r, host)
    requires after == if UpToDate(before, desired) then before else Some(desired)
    ensures after.Some? && Serves(after.value, r, host)
  {
    hide Valid, IsDesired, Same, Serves;
    DesiredServes(desired, zone, r, host);
    if before.Some? {
      SameIffServes(before.value, desired, zone, r, host);
    }
  }
}
