/** When substitution does not depend on the order in which the bindings are enumerated, and
    the substitution of the two workflow providers. */
module BindingLaws {
  import opened Bindings
  import opened Ordering
  import opened Permutations
  import opened Text
  import opened Wrappers

  ghost predicate Enumerates(keys: seq<string>, names: set<string>) {
    Distinct(keys) && forall key :: key in keys <==> key in names
  }

  /** No name followed by a closing brace begins another. */
  ghost predicate PrefixFree(names: set<string>) {
    forall k, l | k in names && l in names :: !(k + "}" <= l)
  }

  lemma WithoutBracesPrefixFree(names: set<string>)
    requires forall k | k in names :: '}' !in k
    ensures PrefixFree(names)
  {
    forall k, l | k in names && l in names ensures !(k + "}" <= l) {
      assert |k| < |l| ==> l[|k|] in l;
      assert (k + "}")[|k|] == '}';
    }
  }

  lemma OpeningTells(f: nat, key: string)
    requires f < 4
    ensures Placeholder(f, key)[0] == (if f < 2 then '$' else '{') && Placeholder(f, key)[9] == if f % 2 == 0 then 's' else '.'
  {
    var opening := OPENINGS[f];
    if f == 0 {
      assert opening == "${bindings.";
    } else if f == 1 {
      assert opening == "${binding.";
    } else if f == 2 {
      assert opening == "{{bindings.";
    } else {
      assert opening == "{{binding.";
    }
    assert Placeholder(f, key)[0] == opening[0] && Placeholder(f, key)[9] == opening[9];
  }

  lemma Stripped(opening: string, a: string, b: string)
    requires opening + a <= opening + b
    ensures a <= b
  {
    assert forall i | 0 <= i < |a| :: a[i] == (opening + a)[|opening| + i] == (opening + b)[|opening| + i] == b[i];
  }

  /** A placeholder begins another only if their keys are equal or clash. */
  lemma PlaceholdersApart(f: nat, k: string, g: nat, l: string)
    requires f < 4 && g < 4 && Placeholder(f, k) <= Placeholder(g, l)
    ensures f == g && (k == l || k + "}" <= l)
  {
    OpeningTells(f, k);
    OpeningTells(g, l);
    SameFormApart(f, k, l);
  }

  lemma SameFormApart(f: nat, k: string, l: string)
    requires f < 4
    ensures Placeholder(f, k) <= Placeholder(f, l) ==> k == l || k + "}" <= l
  {
    if Placeholder(f, k) <= Placeholder(f, l) {
      hide Closing;
      var opening, closing := OPENINGS[f], Closing(f);
      assert Placeholder(f, k) == opening + (k + closing) && Placeholder(f, l) == opening + (l + closing);
      Stripped(opening, k + closing, l + closing);
      ClosingStartsWithBrace(f);
      KeysApart(k, l, closing);
    }
  }

  lemma ClosingStartsWithBrace(form: nat)
    ensures Closing(form) != "" && Closing(form)[0] == '}'
  {
  }

  lemma KeysApart(k: string, l: string, closing: string)
    requires closing != "" && closing[0] == '}' && k + closing <= l + closing
    ensures k == l || k + "}" <= l
  {
    assert forall i | 0 <= i < |k| :: (k + closing)[i] == (l + closing)[i] == l[i];
    assert k == l[..|k|];
    if |k| < |l| {
      assert (k + closing)[|k|] == (l + closing)[|k|] == l[|k|];
      assert k + "}" == l[..|k| + 1];
    }
  }

  // ---- Order does not matter ----

  ghost predicate Unambiguous(slots: seq<Slot<string>>) {
    forall x, y | x in slots && y in slots && x.pattern <= y.pattern :: x == y
  }

  lemma MatchAgrees(s: string, p: seq<Slot<string>>, q: seq<Slot<string>>)
    requires Unambiguous(p) && forall slot :: slot in p <==> slot in q
    ensures Match(s, p) == Match(s, q)
  {
    MatchIff(s, p);
    MatchIff(s, q);
    if Match(s, p).Some? && Match(s, q).Some? {
      var x, y := Match(s, p).value, Match(s, q).value;
      assert x.pattern == s[..|x.pattern|] && y.pattern == s[..|y.pattern|];
      assert x.pattern <= y.pattern || y.pattern <= x.pattern;
    }
  }

  lemma {:induction false} ReplaceAgrees(s: string, p: seq<Slot<string>>, q: seq<Slot<string>>)
    requires Unambiguous(p) && forall slot :: slot in p <==> slot in q
    ensures Replace(s, p) == Replace(s, q)
    decreases |s|
  {
    MatchAgrees(s, p, q);
    if s != "" {
      if Match(s, p).Some? {
        var slot := Match(s, p).value;
        if 0 < |slot.pattern| <= |s| {
          ReplaceAgrees(s[|slot.pattern|..], p, q);
        }
      } else {
        ReplaceAgrees(s[1..], p, q);
      }
    }
  }

  lemma PairFrom(keys: seq<string>, values: map<string, string>, slot: Slot<string>)
    ensures slot in Pairs(keys, values) <==>
              exists f, key :: 0 <= f < 4 && key in keys && slot == Slot(Placeholder(f, key), if key in values then values[key] else "")
  {
    hide Placeholder;
    var slots := SlotsOf(keys);
    if slot in Pairs(keys, values) {
      var i :| 0 <= i < |slots| && Fill(values)(slots[i]) == slot;
      SlotIff(keys, slots[i]);
      assert slots[i] in slots;
    }
    if f, key :| 0 <= f < 4 && key in keys && slot == Slot(Placeholder(f, key), if key in values then values[key] else "") {
      var origin := Slot(Placeholder(f, key), key);
      SlotIff(keys, origin);
      var i :| 0 <= i < |slots| && slots[i] == origin;
      assert Pairs(keys, values)[i] == slot;
    }
  }

  lemma PairsUnambiguous(keys: seq<string>, values: map<string, string>)
    requires PrefixFree(Members(keys))
    ensures Unambiguous(Pairs(keys, values))
  {
    hide Placeholder, Pairs;
    forall x, y | x in Pairs(keys, values) && y in Pairs(keys, values) && x.pattern <= y.pattern ensures x == y {
      PairFrom(keys, values, x);
      PairFrom(keys, values, y);
      var f, k :| 0 <= f < 4 && k in keys && x == Slot(Placeholder(f, k), if k in values then values[k] else "");
      var g, l :| 0 <= g < 4 && l in keys && y == Slot(Placeholder(g, l), if l in values then values[l] else "");
      PlaceholdersApart(f, k, g, l);
      assert k in Members(keys) && l in Members(keys);
    }
  }

  lemma OrderIrrelevant(p: seq<string>, q: seq<string>, values: map<string, string>, s: string)
    requires PrefixFree(values.Keys) && Enumerates(p, values.Keys) && Enumerates(q, values.Keys)
    ensures Replace(s, Pairs(p, values)) == Replace(s, Pairs(q, values))
  {
    assert Members(p) == values.Keys;
    PairsUnambiguous(p, values);
    forall slot ensures slot in Pairs(p, values) <==> slot in Pairs(q, values) {
      PairFrom(p, values, slot);
      PairFrom(q, values, slot);
    }
    ReplaceAgrees(s, Pairs(p, values), Pairs(q, values));
  }

  // ---- Where it does ----

  ghost predicate OrderNeverMatters(names: set<string>) {
    forall p, q, values: map<string, string>, s |
        values.Keys == names && (forall k | k in names :: values[k] != "") && Enumerates(p, names) && Enumerates(q, names) ::
      Replace(s, Pairs(p, values)) == Replace(s, Pairs(q, values))
  }

  lemma EnumerationFrom(first: string, names: set<string>) returns (keys: seq<string>)
    requires first in names
    ensures Enumerates(keys, names) && keys != [] && keys[0] == first
    decreases |names|
  {
    var rest := names - {first};
    if rest == {} {
      keys := [first];
    } else {
      var next :| next in rest;
      var tail := EnumerationFrom(next, rest);
      keys := [first] + tail;
      assert forall i | 0 < i < |keys| :: keys[i] == tail[i - 1] && tail[i - 1] in tail;
    }
  }

  lemma {:induction false} FirstPair(keys: seq<string>, values: map<string, string>)
    requires keys != [] && keys[0] in values
    ensures Pairs(keys, values) != [] && Pairs(keys, values)[0] == Slot(Placeholder(0, keys[0]), values[keys[0]])
  {
    FirstSlot(keys);
  }

  lemma {:induction false} FirstSlot(keys: seq<string>)
    requires keys != []
    ensures SlotsOf(keys) != [] && SlotsOf(keys)[0] == Slot(Placeholder(0, keys[0]), keys[0])
  {
    hide Placeholder;
    if |keys| > 1 {
      FirstSlot(keys[..|keys| - 1]);
    }
  }

  lemma {:induction false} NeverEmptied(s: string, slots: seq<Slot<string>>)
    requires s != "" && forall slot | slot in slots :: slot.value != ""
    ensures Replace(s, slots) != ""
  {
    MatchIff(s, slots);
  }

  /** A key first in the enumeration wins at its own placeholder. */
  lemma FirstKeyWins(keys: seq<string>, values: map<string, string>, s: string)
    requires keys != [] && keys[0] in values && Placeholder(0, keys[0]) <= s
    ensures Replace(s, Pairs(keys, values)) == values[keys[0]] + Replace(s[|Placeholder(0, keys[0])|..], Pairs(keys, values))
  {
    hide Placeholder, Pairs;
    FirstPair(keys, values);
  }

  lemma ClashShows(names: set<string>, k: string, l: string)
    requires k in names && l in names && k + "}" <= l
    ensures !OrderNeverMatters(names)
  {
    var values := map name | name in names :: "x";
    var p := EnumerationFrom(k, names);
    var q := EnumerationFrom(l, names);
    var s := Placeholder(0, l);
    hide *;
    LongerWithFirst(p, values, k, l);
    FirstKeyWins(q, values, s);
    assert s[|s|..] == "";
    EmptyStays(Pairs(q, values));
    assert Replace(s, Pairs(q, values)) == "x" + "" == "x";
    Differ(names, values, p, q, s);
  }

  /** With the shorter key first, something of the longer key's placeholder is left over. */
  lemma LongerWithFirst(keys: seq<string>, values: map<string, string>, k: string, l: string)
    requires keys != [] && keys[0] == k && k + "}" <= l && forall key | key in keys :: key in values && values[key] == "x"
    ensures |Replace(Placeholder(0, l), Pairs(keys, values))| > 1
  {
    var s := Placeholder(0, l);
    hide Placeholder, Pairs, Replace;
    ClashingPlaceholder(k, l);
    FirstKeyWins(keys, values, s);
    forall slot | slot in Pairs(keys, values) ensures slot.value != "" {
      PairFrom(keys, values, slot);
    }
    NeverEmptied(s[|Placeholder(0, k)|..], Pairs(keys, values));
  }

  lemma Differ(names: set<string>, values: map<string, string>, p: seq<string>, q: seq<string>, s: string)
    requires values.Keys == names && (forall k | k in names :: values[k] != "") && Enumerates(p, names) && Enumerates(q, names)
    requires Replace(s, Pairs(p, values)) != Replace(s, Pairs(q, values))
    ensures !OrderNeverMatters(names)
  {
  }

  lemma EmptyStays(slots: seq<Slot<string>>)
    ensures Replace("", slots) == ""
  {
  }

  lemma ClashingPlaceholder(k: string, l: string)
    requires k + "}" <= l
    ensures Placeholder(0, k) <= Placeholder(0, l) && |Placeholder(0, k)| < |Placeholder(0, l)|
  {
    var opening := OPENINGS[0];
    assert l == k + "}" + l[|k| + 1..];
    assert Placeholder(0, l) == opening + (k + "}" + l[|k| + 1..]) + "}" == Placeholder(0, k) + (l[|k| + 1..] + "}");
  }

  /** Every enumeration of the bindings gives the same text, for all values and all sources,
      exactly when no name followed by a closing brace begins another. */
  lemma OrderNeverMattersIff(names: set<string>)
    ensures OrderNeverMatters(names) <==> PrefixFree(names)
  {
    if PrefixFree(names) {
      forall p, q, values: map<string, string>, s | values.Keys == names && Enumerates(p, names) && Enumerates(q, names)
        ensures Replace(s, Pairs(p, values)) == Replace(s, Pairs(q, values))
      {
        OrderIrrelevant(p, q, values, s);
      }
    } else {
      var k, l :| k in names && l in names && k + "}" <= l;
      ClashShows(names, k, l);
    }
  }

  // ---- The providers ----

  function Resolve(reference: string, targets: map<string, string>, isDirect: string -> bool): string {
    var trimmed := TrimSpace(reference);
    if trimmed == "" || isDirect(trimmed) then trimmed
    else
      var target := if trimmed in targets then TrimSpace(targets[trimmed]) else "";
      if target != "" then target else trimmed
  }

  /** Cloud Workflows bindings may be URLs. */
  predicate IsUrl(reference: string) {
    "http://" <= reference || "https://" <= reference
  }

  /** Step Functions bindings may be ARNs. */
  predicate IsArn(reference: string) {
    "arn:" <= reference
  }

  /** The bindings that resolve to something, resolved. */
  function Resolved(bindings: map<string, string>, targets: map<string, string>, isDirect: string -> bool): map<string, string> {
    map key | key in bindings && Resolve(bindings[key], targets, isDirect) != "" :: Resolve(bindings[key], targets, isDirect)
  }

  function Bound(key: string, values: map<string, string>): Option<string> {
    if key in values then Some(values[key]) else None
  }

  /** A blank reference stands for nothing; one that is not direct but has a deployed target
      stands for that; any other for itself; all of this trimmed. */
  predicate ResolvesTo(reference: string, targets: map<string, string>, direct: bool, value: Option<string>) {
    var ref := TrimSpace(reference);
    && (ref == "" ==> value == None)
    && (ref != "" && !direct && ref in targets && TrimSpace(targets[ref]) != "" ==> value == Some(TrimSpace(targets[ref])))
    && (ref != "" && (direct || ref !in targets || TrimSpace(targets[ref]) == "") ==> value == Some(ref))
  }

  lemma ResolvedRight(bindings: map<string, string>, targets: map<string, string>, isDirect: string -> bool)
    ensures forall key | key in bindings :: ResolvesTo(bindings[key], targets, isDirect(TrimSpace(bindings[key])), Bound(key, Resolved(bindings, targets, isDirect)))
    ensures Resolved(bindings, targets, isDirect).Keys <= bindings.Keys
  {
    hide TrimSpace;
  }

  lemma {:induction false} SpacesHoldNoPlaceholder(s: string, slots: seq<Slot<string>>)
    requires (forall c | c in s :: IsSpace(c)) && forall slot | slot in slots :: slot.pattern != "" && !IsSpace(slot.pattern[0])
    ensures Replace(s, slots) == s
  {
    MatchIff(s, slots);
    if s != "" {
      SpacesHoldNoPlaceholder(s[1..], slots);
    }
  }

  lemma {:induction false} BlankIsSpaces(s: string)
    requires TrimSpace(s) == ""
    ensures forall c | c in s :: IsSpace(c)
    decreases |s|
  {
    if s != "" {
      if IsSpace(s[0]) {
        BlankIsSpaces(s[1..]);
        assert s == [s[0]] + s[1..];
      } else {
        TrimRightKeepsHead(s);
      }
    }
  }

  lemma BlankIsKept(s: string, keys: seq<string>, values: map<string, string>)
    requires TrimSpace(s) == ""
    ensures Replace(s, Pairs(keys, values)) == s
  {
    BlankIsSpaces(s);
    forall slot | slot in Pairs(keys, values) ensures slot.pattern != "" && !IsSpace(slot.pattern[0]) {
      PairFrom(keys, values, slot);
      var f, k :| 0 <= f < 4 && k in keys && slot == Slot(Placeholder(f, k), if k in values then values[k] else "");
      OpeningTells(f, k);
    }
    SpacesHoldNoPlaceholder(s, Pairs(keys, values));
  }

  lemma {:induction false} NoPairs(s: string)
    ensures Replace(s, []) == s
  {
    if s != "" {
      NoPairs(s[1..]);
    }
  }

  lemma NothingToReplace(s: string, bindings: map<string, string>, targets: map<string, string>, isDirect: string -> bool, keys: seq<string>)
    requires |bindings| == 0 || Pairs(keys, Resolved(bindings, targets, isDirect)) == []
    requires Enumerates(keys, Resolved(bindings, targets, isDirect).Keys)
    ensures Replace(s, Pairs(keys, Resolved(bindings, targets, isDirect))) == s
  {
    NoPairs(s);
    if |bindings| == 0 {
      assert bindings.Keys == {};
      assert forall i | 0 <= i < |keys| :: keys[i] in keys;
    }
  }

  lemma PairsAppended(keys: seq<string>, key: string, values: map<string, string>)
    requires key in values
    ensures Pairs(keys + [key], values) == Pairs(keys, values) + FormsOf(key, values[key])
  {
    hide Placeholder;
    assert (keys + [key])[..|keys|] == keys;
  }

  /** What substitution may yield: the text for some enumeration, or, for prefix-free names,
      for every one. */
  ghost predicate Substitutes(text: string, source: string, values: map<string, string>) {
    && (exists keys :: Enumerates(keys, values.Keys) && text == Replace(source, Pairs(keys, values)))
    && (PrefixFree(values.Keys) ==> forall keys | Enumerates(keys, values.Keys) :: text == Replace(source, Pairs(keys, values)))
  }

  lemma OneOrderIsEnough(text: string, source: string, keys: seq<string>, values: map<string, string>)
    requires Enumerates(keys, values.Keys) && text == Replace(source, Pairs(keys, values))
    ensures Substitutes(text, source, values)
  {
    hide Enumerates, Pairs, Replace, PrefixFree;
    forall other | PrefixFree(values.Keys) && Enumerates(other, values.Keys) ensures text == Replace(source, Pairs(other, values)) {
      OrderIrrelevant(keys, other, values, source);
    }
  }

  lemma NoneYet(values: map<string, string>)
    ensures Pairs([], values) == []
  {
  }

  /** The replacer's arguments, in map order. */
  method CollectPairs(bindings: map<string, string>, targets: map<string, string>, isDirect: string -> bool)
    returns (slots: seq<Slot<string>>, ghost keys: seq<string>)
    ensures Enumerates(keys, Resolved(bindings, targets, isDirect).Keys)
    ensures slots == Pairs(keys, Resolved(bindings, targets, isDirect))
  {
    hide Resolve, Placeholder, FormsOf, Pairs;
    assert Pairs([], Resolved(bindings, targets, isDirect)) == [] by {
      NoneYet(Resolved(bindings, targets, isDirect));
    }
    ghost var values := Resolved(bindings, targets, isDirect);
    slots, keys := [], [];
    var visited := KeysOf(bindings);
    for i := 0 to |visited|
      invariant slots == Pairs(keys, values)
      invariant Distinct(keys) && forall key :: key in keys <==> key in visited[..i] && key in values
    {
      var resolved := Resolve(bindings[visited[i]], targets, isDirect);
      if resolved != "" {
        PairsAppended(keys, visited[i], values);
        slots := slots + FormsOf(visited[i], resolved);
        keys := keys + [visited[i]];
      }
    }
  }

  /** Replace all placeholders at once; blank text and an empty argument list are returned as
      they are. */
  method ApplyBindings(source: string, bindings: map<string, string>, targets: map<string, string>, isDirect: string -> bool)
    returns (text: string)
    ensures Substitutes(text, source, Resolved(bindings, targets, isDirect))
    ensures forall key | key in bindings :: ResolvesTo(bindings[key], targets, isDirect(TrimSpace(bindings[key])), Bound(key, Resolved(bindings, targets, isDirect)))
  {
    ResolvedRight(bindings, targets, isDirect);
    var slots, keys := CollectPairs(bindings, targets, isDirect);
    ghost var values := Resolved(bindings, targets, isDirect);
    hide *;
    if TrimSpace(source) == "" || |bindings| == 0 || |slots| == 0 {
      text := source;
      if TrimSpace(source) == "" {
        BlankIsKept(source, keys, values);
      } else {
        NothingToReplace(source, bindings, targets, isDirect, keys);
      }
    } else {
      text := Replace(source, slots);
    }
    OneOrderIsEnough(text, source, keys, values);
  }

  /** Step Functions: references that are ARNs already are not looked up. */
  method ApplyStepFunctionBindings(definition: string, bindings: map<string, string>, lambdaArns: map<string, string>) returns (text: string)
    ensures exists values: map<string, string> ::
              && Substitutes(text, definition, values) && values.Keys <= bindings.Keys
              && forall key | key in bindings ::
                   ResolvesTo(bindings[key], lambdaArns, "arn:" <= TrimSpace(bindings[key]), Bound(key, values))
  {
    text := ApplyBindings(definition, bindings, lambdaArns, IsArn);
    ResolvedRight(bindings, lambdaArns, IsArn);
    hide Substitutes, Resolve, ResolvesTo, TrimSpace;
    assert Substitutes(text, definition, Resolved(bindings, lambdaArns, IsArn));
  }

  /** Cloud Workflows: references that are URLs already are not looked up. */
  method ApplyCloudWorkflowBindings(source: string, bindings: map<string, string>, resources: map<string, string>) returns (text: string)
    ensures exists values: map<string, string> ::
              && Substitutes(text, source, values) && values.Keys <= bindings.Keys
              && forall key | key in bindings ::
                   ResolvesTo(bindings[key], resources,
                              "http://" <= TrimSpace(bindings[key]) || "https://" <= TrimSpace(bindings[key]), Bound(key, values))
  {
    text := ApplyBindings(source, bindings, resources, IsUrl);
    ResolvedRight(bindings, resources, IsUrl);
    hide Substitutes, Resolve, ResolvesTo, TrimSpace;
    assert Substitutes(text, source, Resolved(bindings, resources, IsUrl));
  }

  // ---- What becomes of a placeholder ----

  /** The four spellings of a placeholder. */
  predicate Spells(placeholder: string, key: string) {
    || placeholder == "${bindings." + key + "}"
    || placeholder == "${binding." + key + "}"
    || placeholder == "{{bindings." + key + "}}"
    || placeholder == "{{binding." + key + "}}"
  }

  lemma SpellsIff(placeholder: string, key: string)
    ensures Spells(placeholder, key) <==> exists f :: 0 <= f < 4 && placeholder == Placeholder(f, key)
  {
    assert Placeholder(0, key) == "${bindings." + key + "}";
    assert Placeholder(1, key) == "${binding." + key + "}";
    assert Placeholder(2, key) == "{{bindings." + key + "}}";
    assert Placeholder(3, key) == "{{binding." + key + "}}";
    hide Placeholder;
  }

  /** With names that do not clash, the placeholder of a bound key gives way to its value, and
      substitution goes on behind it. */
  lemma BoundPlaceholderGivesWay(text: string, placeholder: string, key: string, rest: string, values: map<string, string>) returns (after: string)
    requires Substitutes(text, placeholder + rest, values) && Spells(placeholder, key) && key in values && PrefixFree(values.Keys)
    ensures text == values[key] + after && Substitutes(after, rest, values)
  {
    SpellsIff(placeholder, key);
    var f :| 0 <= f < 4 && placeholder == Placeholder(f, key);
    var keys :| Enumerates(keys, values.Keys) && text == Replace(placeholder + rest, Pairs(keys, values));
    hide Spells, Placeholder, Substitutes;
    var slots := Pairs(keys, values);
    var slot := Slot(placeholder, values[key]);
    PairFrom(keys, values, slot);
    MatchIff(placeholder + rest, slots);
    MatchIsOwn(placeholder, f, key, rest, keys, values);
    after := Replace(rest, slots);
    assert (placeholder + rest)[|placeholder|..] == rest;
    OneOrderIsEnough(after, rest, keys, values);
  }

  /** What matches where a key's placeholder begins is that placeholder. */
  lemma MatchIsOwn(placeholder: string, f: nat, key: string, rest: string, keys: seq<string>, values: map<string, string>)
    requires f < 4 && placeholder == Placeholder(f, key) && key in values && Enumerates(keys, values.Keys) && PrefixFree(values.Keys)
    ensures Match(placeholder + rest, Pairs(keys, values)) == Some(Slot(placeholder, values[key]))
  {
    var slots := Pairs(keys, values);
    PairFrom(keys, values, Slot(placeholder, values[key]));
    MatchIff(placeholder + rest, slots);
    var found := Match(placeholder + rest, slots).value;
    PairFrom(keys, values, found);
    var g, l :| 0 <= g < 4 && l in keys && found == Slot(Placeholder(g, l), if l in values then values[l] else "");
    hide Placeholder, Pairs, Match;
    PrefixesOfOne(Placeholder(g, l), placeholder, rest);
    if Placeholder(g, l) <= placeholder {
      PlaceholdersApart(g, l, f, key);
    } else {
      PlaceholdersApart(f, key, g, l);
    }
  }

  lemma PrefixesOfOne(p: string, q: string, rest: string)
    requires p <= q + rest
    ensures p <= q || q <= p
  {
    assert forall i | 0 <= i < |p| :: p[i] == (q + rest)[i];
  }

  // ---- Unbound keys ----

  predicate BraceFree(key: string) {
    '{' !in key && '}' !in key
  }

  /** Behind its second character a placeholder of such a key opens no brace, and it ends in one
      that closes. */
  lemma OpensOnce(f: nat, key: string)
    requires f < 4 && BraceFree(key)
    ensures var p := Placeholder(f, key);
            |p| > 10 && p[1] == '{' && p[|p| - 1] == '}' && forall j | 2 <= j < |p| :: p[j] != '{'
  {
    var opening, closing := OPENINGS[f], Closing(f);
    var p := Placeholder(f, key);
    OpeningBraces(f);
    forall j | 2 <= j < |p| ensures p[j] != '{' {
      if j < |opening| {
        assert p[j] == opening[j];
      } else if j < |opening| + |key| {
        assert p[j] == key[j - |opening|] && key[j - |opening|] in key;
      } else {
        assert p[j] == closing[j - |opening| - |key|];
      }
    }
  }

  lemma OpeningBraces(f: nat)
    requires f < 4
    ensures |OPENINGS[f]| > 2 && OPENINGS[f][1] == '{' && forall j | 2 <= j < |OPENINGS[f]| :: OPENINGS[f][j] != '{'
  {
    assert OPENINGS[f] == if f == 0 then "${bindings." else if f == 1 then "${binding." else if f == 2 then "{{bindings." else "{{binding.";
  }

  /** No placeholder of another such key matches anywhere in this one. */
  lemma NoneInside(f: nat, key: string, rest: string, g: nat, l: string, i: nat)
    requires f < 4 && g < 4 && BraceFree(key) && BraceFree(l) && l != key && i < |Placeholder(f, key)|
    ensures !(Placeholder(g, l) <= (Placeholder(f, key) + rest)[i..])
  {
    var p, q := Placeholder(f, key), Placeholder(g, l);
    var s := p + rest;
    OpensOnce(f, key);
    OpensOnce(g, l);
    assert s[i] == p[i] && (i + 1 < |p| ==> s[i + 1] == p[i + 1]);
    if q <= s[i..] {
      OpeningTells(f, key);
      OpeningTells(g, l);
      hide Placeholder;
      assert s[i] == q[0] && s[i + 1] == q[1];
      if i == 0 {
        PrefixesOfOne(q, p, rest);
        if q <= p {
          PlaceholdersApart(g, l, f, key);
          ClashHasBrace(l, key);
        } else {
          PlaceholdersApart(f, key, g, l);
          ClashHasBrace(key, l);
        }
      }
    }
  }

  lemma ClashHasBrace(k: string, l: string)
    ensures k + "}" <= l ==> '}' in l
  {
    if k + "}" <= l {
      assert l[|k|] == (k + "}")[|k|] && l[|k|] in l;
    }
  }

  lemma PassesOver(s: string, slots: seq<Slot<string>>)
    requires s != "" && forall slot | slot in slots :: !(slot.pattern <= s)
    ensures Replace(s, slots) == [s[0]] + Replace(s[1..], slots)
  {
    MatchIff(s, slots);
  }

  lemma {:induction false} NothingInFront(p: string, rest: string, slots: seq<Slot<string>>)
    requires forall i, slot | 0 <= i < |p| && slot in slots :: !(slot.pattern <= (p + rest)[i..])
    ensures Replace(p + rest, slots) == p + Replace(rest, slots)
  {
    hide Replace;
    if p == "" {
      assert p + rest == rest;
    } else {
      var c, tail := p[0], p[1..];
      assert (p + rest)[0..] == p + rest;
      PassesOver(p + rest, slots);
      assert (p + rest)[1..] == tail + rest;
      forall i, slot | 0 <= i < |tail| && slot in slots ensures !(slot.pattern <= (tail + rest)[i..]) {
        assert (tail + rest)[i..] == (p + rest)[i + 1..];
      }
      NothingInFront(tail, rest, slots);
      assert p == [c] + tail;
      assert [c] + (tail + Replace(rest, slots)) == ([c] + tail) + Replace(rest, slots);
    }
  }

  /** The placeholder of a key that is not bound stays, and substitution goes on behind it, if
      neither its name nor those bound have braces. */
  lemma UnboundPlaceholderStays(text: string, placeholder: string, key: string, rest: string, values: map<string, string>) returns (after: string)
    requires Substitutes(text, placeholder + rest, values) && Spells(placeholder, key) && key !in values
    requires BraceFree(key) && forall k | k in values :: BraceFree(k)
    ensures text == placeholder + after && Substitutes(after, rest, values)
  {
    SpellsIff(placeholder, key);
    var f :| 0 <= f < 4 && placeholder == Placeholder(f, key);
    var keys :| Enumerates(keys, values.Keys) && text == Replace(placeholder + rest, Pairs(keys, values));
    hide Spells, Placeholder, Substitutes, Pairs, Replace, BraceFree;
    var slots := Pairs(keys, values);
    forall i, slot | 0 <= i < |placeholder| && slot in slots ensures !(slot.pattern <= (placeholder + rest)[i..]) {
      PairFrom(keys, values, slot);
      var g, l :| 0 <= g < 4 && l in keys && slot == Slot(Placeholder(g, l), if l in values then values[l] else "");
      NoneInside(f, key, rest, g, l, i);
    }
    NothingInFront(placeholder, rest, slots);
    after := Replace(rest, slots);
    OneOrderIsEnough(after, rest, keys, values);
  }

  /** From the binding to the text: the placeholder of a key gives way to the deployed target of
      its reference, or to the reference if that is direct or unknown, and stays for a blank one. */
  lemma PlaceholderBecomes(text: string, placeholder: string, key: string, rest: string,
                           bindings: map<string, string>, targets: map<string, string>, isDirect: string -> bool, values: map<string, string>)
    returns (after: string)
    requires Substitutes(text, placeholder + rest, values) && Spells(placeholder, key) && key in bindings
    requires values.Keys <= bindings.Keys && forall k | k in bindings :: BraceFree(k)
    requires forall k | k in bindings :: ResolvesTo(bindings[k], targets, isDirect(TrimSpace(bindings[k])), Bound(k, values))
    ensures Substitutes(after, rest, values)
    ensures var ref := TrimSpace(bindings[key]);
            text == (if ref == "" then placeholder
                     else if !isDirect(ref) && ref in targets && TrimSpace(targets[ref]) != "" then TrimSpace(targets[ref])
                     else ref) + after
  {
    hide Substitutes, Spells, TrimSpace;
    assert ResolvesTo(bindings[key], targets, isDirect(TrimSpace(bindings[key])), Bound(key, values));
    if key in values {
      forall k | k in values.Keys ensures '}' !in k {
        assert BraceFree(k);
      }
      WithoutBracesPrefixFree(values.Keys);
      after := BoundPlaceholderGivesWay(text, placeholder, key, rest, values);
    } else {
      after := UnboundPlaceholderStays(text, placeholder, key, rest, values);
    }
  }
}
