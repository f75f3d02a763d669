/** Placeholders in workflow definitions and their single-pass replacement. The replacements
    are collected from a map, in whatever order its enumeration happens to produce. */
module Bindings {
  import opened Ordering
  import opened Permutations
  import opened Text
  import opened Wrappers

  /** A pattern, and what it stands for. */
  datatype Slot<V> = Slot(pattern: string, value: V)

  // ---- strings.Replacer ----

  /** Of the patterns that match here, the first in argument order. */
  function Match<V>(s: string, slots: seq<Slot<V>>): Option<Slot<V>> {
    if slots == [] then None
    else if slots[0].pattern <= s then Some(slots[0])
    else Match(s, slots[1..])
  }

  ghost predicate Nonempty<V>(slots: seq<Slot<V>>) {
    forall slot | slot in slots :: slot.pattern != ""
  }

  lemma {:induction false} MatchIff<V>(s: string, slots: seq<Slot<V>>)
    ensures Match(s, slots).None? <==> forall slot | slot in slots :: !(slot.pattern <= s)
    ensures Match(s, slots).Some? ==> Match(s, slots).value in slots && Match(s, slots).value.pattern <= s
  {
    if slots != [] {
      MatchIff(s, slots[1..]);
      assert slots == [slots[0]] + slots[1..];
    }
  }

  /** Left to right, without overlap; what was put in is not looked at again. */
  function Replace(s: string, slots: seq<Slot<string>>): string {
    if s == "" then ""
    else match Match(s, slots)
      case Some(slot) =>
        if 0 < |slot.pattern| <= |s| then slot.value + Replace(s[|slot.pattern|..], slots) else s
      case None => [s[0]] + Replace(s[1..], slots)
  }

  // ---- Placeholders ----

  const OPENINGS := ["${bindings.", "${binding.", "{{bindings.", "{{binding."]

  function Closing(form: nat): string {
    if form < 2 then "}" else "}}"
  }

  function Placeholder(form: nat, key: string): (p: string)
    requires form < 4
    ensures |p| > 10
  {
    OPENINGS[form] + key + Closing(form)
  }

  function FormsOf<V>(key: string, value: V): (slots: seq<Slot<V>>)
    ensures |slots| == 4 && forall f | 0 <= f < 4 :: slots[f] == Slot(Placeholder(f, key), value)
  {
    [Slot(Placeholder(0, key), value), Slot(Placeholder(1, key), value),
     Slot(Placeholder(2, key), value), Slot(Placeholder(3, key), value)]
  }

  /** The four placeholders of each key, in the order of the keys. */
  function SlotsOf(keys: seq<string>): seq<Slot<string>> {
    if keys == [] then [] else SlotsOf(keys[..|keys| - 1]) + FormsOf(keys[|keys| - 1], keys[|keys| - 1])
  }

  function Fill(values: map<string, string>): Slot<string> -> Slot<string> {
    (slot: Slot<string>) => Slot(slot.pattern, if slot.value in values then values[slot.value] else "")
  }

  function Pairs(keys: seq<string>, values: map<string, string>): seq<Slot<string>> {
    Map(SlotsOf(keys), Fill(values))
  }

  lemma {:induction false} SlotIff(keys: seq<string>, slot: Slot<string>)
    ensures slot in SlotsOf(keys) <==> exists f :: 0 <= f < 4 && slot.value in keys && slot.pattern == Placeholder(f, slot.value)
  {
    hide Placeholder;
    if keys != [] {
      var front, last := keys[..|keys| - 1], keys[|keys| - 1];
      SlotIff(front, slot);
      assert keys == front + [last];
      assert slot in SlotsOf(keys) <==> slot in SlotsOf(front) || slot in FormsOf(last, last);
      if slot.value == last && exists f :: 0 <= f < 4 && slot.pattern == Placeholder(f, last) {
        var f :| 0 <= f < 4 && slot.pattern == Placeholder(f, last);
        assert FormsOf(last, last)[f] == slot;
      }
    }
  }

  lemma SlotsNonempty(keys: seq<string>)
    ensures Nonempty(SlotsOf(keys))
  {
    forall slot | slot in SlotsOf(keys) ensures slot.pattern != "" {
      SlotIff(keys, slot);
    }
  }

  // ---- Values are not rescanned ----

  datatype Token = Char(c: char) | Hole(pattern: string, key: string)

  /** How the text reads, given the keys and nothing of their values. */
  function Tokens(s: string, slots: seq<Slot<string>>): seq<Token> {
    if s == "" then []
    else match Match(s, slots)
      case Some(slot) =>
        if 0 < |slot.pattern| <= |s| then [Hole(slot.pattern, slot.value)] + Tokens(s[|slot.pattern|..], slots) else []
      case None => [Char(s[0])] + Tokens(s[1..], slots)
  }

  function Written(t: Token): string {
    match t case Char(c) => [c] case Hole(pattern, _) => pattern
  }

  function Rendered(values: map<string, string>): Token -> string {
    (t: Token) => match t case Char(c) => [c] case Hole(_, key) => if key in values then values[key] else ""
  }

  function Join(tokens: seq<Token>, show: Token -> string): string {
    if tokens == [] then "" else show(tokens[0]) + Join(tokens[1..], show)
  }

  lemma {:induction false} MatchFilled(s: string, slots: seq<Slot<string>>, values: map<string, string>)
    ensures Match(s, Map(slots, Fill(values)))
         == if Match(s, slots).None? then None else Some(Fill(values)(Match(s, slots).value))
  {
    if slots != [] {
      MatchFilled(s, slots[1..], values);
      assert Map(slots, Fill(values))[1..] == Map(slots[1..], Fill(values));
    }
  }

  /** The source is cut into tokens without regard to the values, and each placeholder gives way
      to its value as it is: no inserted text is scanned again. */
  lemma {:induction false} ValuesAreNotRescanned(s: string, keys: seq<string>, values: map<string, string>)
    ensures Replace(s, Pairs(keys, values)) == Join(Tokens(s, SlotsOf(keys)), Rendered(values))
    decreases |s|
  {
    if s != "" {
      hide SlotsOf;
      var slots := SlotsOf(keys);
      MatchFilled(s, slots, values);
      MatchIff(s, slots);
      SlotsNonempty(keys);
      if Match(s, slots).Some? {
        var slot := Match(s, slots).value;
        var rest := s[|slot.pattern|..];
        ValuesAreNotRescanned(rest, keys, values);
        assert ([Hole(slot.pattern, slot.value)] + Tokens(rest, slots))[1..] == Tokens(rest, slots);
      } else {
        ValuesAreNotRescanned(s[1..], keys, values);
        assert ([Char(s[0])] + Tokens(s[1..], slots))[1..] == Tokens(s[1..], slots);
      }
    }
  }

  /** The tokens spell the source. */
  lemma {:induction false} TokensSpellSource(s: string, keys: seq<string>)
    ensures Join(Tokens(s, SlotsOf(keys)), Written) == s
    decreases |s|
  {
    if s != "" {
      hide SlotsOf;
      var slots := SlotsOf(keys);
      MatchIff(s, slots);
      SlotsNonempty(keys);
      if Match(s, slots).Some? {
        var slot := Match(s, slots).value;
        var rest := s[|slot.pattern|..];
        TokensSpellSource(rest, keys);
        assert ([Hole(slot.pattern, slot.value)] + Tokens(rest, slots))[1..] == Tokens(rest, slots);
      } else {
        TokensSpellSource(s[1..], keys);
        assert ([Char(s[0])] + Tokens(s[1..], slots))[1..] == Tokens(s[1..], slots);
      }
    }
  }

  ghost predicate Occurs(s: string, slots: seq<Slot<string>>) {
    exists i, slot :: 0 <= i <= |s| && slot in slots && slot.pattern <= s[i..]
  }

  /** Text in which no placeholder of a key occurs stays as it is. */
  lemma {:induction false} PlainTextIsKept(s: string, slots: seq<Slot<string>>)
    requires !Occurs(s, slots)
    ensures Replace(s, slots) == s
  {
    MatchIff(s, slots);
    if s != "" {
      assert s[0..] == s;
      forall i, slot | 0 <= i <= |s| - 1 && slot in slots ensures !(slot.pattern <= s[1..][i..]) {
        assert s[1..][i..] == s[i + 1..];
      }
      PlainTextIsKept(s[1..], slots);
    }
  }
}
