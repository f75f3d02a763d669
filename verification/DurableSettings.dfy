/** App settings that declare durable functions: four keys under a prefix made from each
    function's name, rewritten in place among settings of other origin. */
module DurableSettings {
  import opened DurableNames
  import opened Text
  import opened Wrappers

  datatype Decl = Decl(name: string, orchestrator: string, taskHub: string, storage: string)

  // ---- Keys ----

  const SUFFIXES := ["_MANAGED", "_ORCHESTRATOR", "_TASK_HUB", "_STORAGE_CONNECTION_SETTING"]

  function Key(prefix: string, k: nat): string
    requires k < 4
  {
    prefix + SUFFIXES[k]
  }

  /** A key tells its suffix by its last character, and then its prefix. */
  lemma KeyInjective(p: string, j: nat, q: string, k: nat)
    requires j < 4 && k < 4
    ensures Key(p, j) == Key(q, k) <==> p == q && j == k
  {
    LastTells(p, j);
    LastTells(q, k);
    if Key(p, j) == Key(q, k) {
      assert Key(p, j)[..|p|] == p && Key(q, k)[..|q|] == q;
    }
  }

  lemma LastTells(p: string, k: nat)
    requires k < 4
    ensures var key := Key(p, k); key != "" && key[|key| - 1] == if k == 0 then 'D' else if k == 1 then 'R' else if k == 2 then 'B' else 'G'
  {
    var suffix := SUFFIXES[k];
    if k == 0 {
      assert suffix == "_MANAGED";
    } else if k == 1 {
      assert suffix == "_ORCHESTRATOR";
    } else if k == 2 {
      assert suffix == "_TASK_HUB";
    } else {
      assert suffix == "_STORAGE_CONNECTION_SETTING";
    }
    assert Key(p, k)[|Key(p, k)| - 1] == suffix[|suffix| - 1];
  }

  function KeysOf(d: Decl): set<string> {
    var p := Prefix(d.name);
    {Key(p, 0), Key(p, 1), Key(p, 2), Key(p, 3)}
  }

  function AllKeys(decls: seq<Decl>): set<string> {
    if decls == [] then {} else AllKeys(decls[..|decls| - 1]) + KeysOf(decls[|decls| - 1])
  }

  // ---- Sync and remove ----

  /** The settings a declaration asks for; blank values ask for none. */
  function Wanted(d: Decl): map<string, string> {
    var p := Prefix(d.name);
    map[Key(p, 0) := "1", Key(p, 1) := d.orchestrator]
    + (if TrimSpace(d.taskHub) != "" then map[Key(p, 2) := d.taskHub] else map[])
    + (if TrimSpace(d.storage) != "" then map[Key(p, 3) := d.storage] else map[])
  }

  function SyncOne(settings: map<string, string>, d: Decl): map<string, string> {
    (settings - KeysOf(d)) + Wanted(d)
  }

  function SyncAll(settings: map<string, string>, decls: seq<Decl>): map<string, string> {
    if decls == [] then settings else SyncOne(SyncAll(settings, decls[..|decls| - 1]), decls[|decls| - 1])
  }

  predicate IsManaged(settings: map<string, string>, d: Decl) {
    var key := Key(Prefix(d.name), 0);
    key in settings && TrimSpace(settings[key]) == "1"
  }

  function Status(settings: map<string, string>, d: Decl): string {
    if IsManaged(settings, d) then "updated" else "created"
  }

  /** By name of the declaration; a later one of the same name wins. */
  function SyncReport(settings: map<string, string>, decls: seq<Decl>): map<string, string> {
    if decls == [] then map[]
    else
      var front, last := decls[..|decls| - 1], decls[|decls| - 1];
      SyncReport(settings, front)[last.name := Status(SyncAll(settings, front), last)]
  }

  function RemoveReport(settings: map<string, string>, decls: seq<Decl>): map<string, string> {
    if decls == [] then map[]
    else
      var front, last := decls[..|decls| - 1], decls[|decls| - 1];
      var present := Key(Prefix(last.name), 0) in settings - AllKeys(front);
      RemoveReport(settings, front)[last.name := if present then "deleted" else "absent"]
  }

  lemma WantedIsOwn(d: Decl)
    ensures Wanted(d).Keys <= KeysOf(d) && Key(Prefix(d.name), 0) in Wanted(d) && Wanted(d)[Key(Prefix(d.name), 0)] == "1"
  {
    var p := Prefix(d.name);
    hide Key, Prefix, TrimSpace;
    KeyInjective(p, 0, p, 1);
    KeyInjective(p, 0, p, 2);
    KeyInjective(p, 0, p, 3);
  }

  lemma {:induction false} OtherKeysKept(settings: map<string, string>, decls: seq<Decl>, key: string)
    requires key !in AllKeys(decls)
    ensures key in SyncAll(settings, decls) <==> key in settings
    ensures key in settings ==> SyncAll(settings, decls)[key] == settings[key]
  {
    if decls != [] {
      hide Wanted, KeysOf;
      OtherKeysKept(settings, decls[..|decls| - 1], key);
      WantedIsOwn(decls[|decls| - 1]);
    }
  }

  /** The value of a key that a declaration owns does not depend on what was there. */
  lemma {:induction false} OwnKeysDetermined(s: map<string, string>, t: map<string, string>, decls: seq<Decl>, key: string)
    requires key in AllKeys(decls)
    ensures key in SyncAll(s, decls) <==> key in SyncAll(t, decls)
    ensures key in SyncAll(s, decls) ==> SyncAll(s, decls)[key] == SyncAll(t, decls)[key]
  {
    hide Wanted, KeysOf;
    if key !in KeysOf(decls[|decls| - 1]) {
      OwnKeysDetermined(s, t, decls[..|decls| - 1], key);
    }
  }

  /** A second sync changes nothing, whatever the declarations. */
  lemma SyncIsIdempotent(settings: map<string, string>, decls: seq<Decl>)
    ensures SyncAll(SyncAll(settings, decls), decls) == SyncAll(settings, decls)
  {
    var once := SyncAll(settings, decls);
    var twice := SyncAll(once, decls);
    forall key ensures (key in twice <==> key in once) && (key in once ==> twice[key] == once[key]) {
      if key in AllKeys(decls) {
        OwnKeysDetermined(once, settings, decls, key);
      } else {
        OtherKeysKept(once, decls, key);
      }
    }
  }

  /** Removing what was synced leaves the original settings but for the declarations' keys. */
  lemma RemoveUndoesSync(settings: map<string, string>, decls: seq<Decl>)
    ensures SyncAll(settings, decls) - AllKeys(decls) == settings - AllKeys(decls)
  {
    forall key | key !in AllKeys(decls)
      ensures (key in SyncAll(settings, decls) <==> key in settings) && (key in settings ==> SyncAll(settings, decls)[key] == settings[key])
    {
      OtherKeysKept(settings, decls, key);
    }
  }

  // ---- Reports ----

  lemma TrimOne()
    ensures TrimSpace("1") == "1"
  {
  }

  lemma ManagedAfterOne(settings: map<string, string>, e: Decl, d: Decl)
    ensures IsManaged(SyncOne(settings, e), d) <==> Prefix(e.name) == Prefix(d.name) || IsManaged(settings, d)
  {
    var key := Key(Prefix(d.name), 0);
    WantedIsOwn(e);
    TrimOne();
    forall k | 0 <= k < 4 ensures key == Key(Prefix(e.name), k) <==> k == 0 && Prefix(e.name) == Prefix(d.name) {
      KeyInjective(Prefix(d.name), 0, Prefix(e.name), k);
    }
    hide Wanted, TrimSpace, Prefix, Key;
    assert key in KeysOf(e) <==> Prefix(e.name) == Prefix(d.name);
  }

  /** After a sync a declaration counts as managed if it was, or if one of its prefix was synced. */
  lemma {:induction false} ManagedAfterAll(settings: map<string, string>, decls: seq<Decl>, d: Decl)
    ensures IsManaged(SyncAll(settings, decls), d) <==>
              IsManaged(settings, d) || exists e :: e in decls && Prefix(e.name) == Prefix(d.name)
  {
    hide Prefix, IsManaged, SyncOne;
    if decls != [] {
      var front, last := decls[..|decls| - 1], decls[|decls| - 1];
      ManagedAfterAll(settings, front, d);
      ManagedAfterOne(SyncAll(settings, front), last, d);
      assert decls == front + [last];
    }
  }

  ghost predicate AllSay(report: map<string, string>, word: string) {
    forall name | name in report :: report[name] == word
  }

  lemma {:induction false} AllUpdated(settings: map<string, string>, decls: seq<Decl>)
    requires forall d | d in decls :: IsManaged(settings, d)
    ensures AllSay(SyncReport(settings, decls), "updated")
  {
    hide IsManaged;
    if decls != [] {
      AllUpdated(settings, decls[..|decls| - 1]);
      ManagedAfterAll(settings, decls[..|decls| - 1], decls[|decls| - 1]);
    }
  }

  /** A second sync reports every declaration as updated. */
  lemma SecondSyncUpdates(settings: map<string, string>, decls: seq<Decl>)
    ensures AllSay(SyncReport(SyncAll(settings, decls), decls), "updated")
  {
    forall d | d in decls ensures IsManaged(SyncAll(settings, decls), d) {
      ManagedAfterAll(settings, decls, d);
    }
    AllUpdated(SyncAll(settings, decls), decls);
  }

  ghost predicate DistinctPrefixes(decls: seq<Decl>) {
    forall i, j | 0 <= i < j < |decls| :: Prefix(decls[i].name) != Prefix(decls[j].name)
  }

  lemma RemovedNotManaged(settings: map<string, string>, decls: seq<Decl>, d: Decl)
    requires d in decls
    ensures !IsManaged(settings - AllKeys(decls), d)
  {
    OwnsKeys(decls, d);
  }

  lemma {:induction false} OwnsKeys(decls: seq<Decl>, d: Decl)
    requires d in decls
    ensures KeysOf(d) <= AllKeys(decls)
  {
    hide KeysOf;
    if d != decls[|decls| - 1] {
      OwnsKeys(decls[..|decls| - 1], d);
    }
  }

  lemma {:induction false} ReportedNames(settings: map<string, string>, decls: seq<Decl>)
    ensures forall name :: name in SyncReport(settings, decls) <==> exists d :: d in decls && d.name == name
  {
    hide Status, SyncAll;
    if decls != [] {
      var front, last := decls[..|decls| - 1], decls[|decls| - 1];
      ReportedNames(settings, front);
      assert decls == front + [last];
      forall name ensures name in SyncReport(settings, decls) <==> exists d :: d in decls && d.name == name {
        if name in SyncReport(settings, front) {
          var d :| d in front && d.name == name;
          assert d in decls;
        }
      }
    }
  }

  lemma DistinctFront(decls: seq<Decl>)
    requires decls != []
    ensures DistinctPrefixes(decls) <==>
              DistinctPrefixes(decls[..|decls| - 1]) && forall e | e in decls[..|decls| - 1] :: Prefix(e.name) != Prefix(decls[|decls| - 1].name)
  {
    hide Prefix;
    var front := decls[..|decls| - 1];
    assert forall i | 0 <= i < |front| :: front[i] in front && front[i] == decls[i];
  }

  lemma SayUpdated(report: map<string, string>, name: string, status: string, word: string)
    requires name in report ==> status != word
    ensures AllSay(report[name := status], word) <==> AllSay(report, word) && status == word
  {
    if AllSay(report[name := status], word) {
      assert report[name := status][name] == word;
      assert forall other | other in report :: report[name := status][other] == report[other];
    }
  }

  /** Starting unmanaged, a sync reports all created exactly when no two declarations share a
      prefix. */
  lemma {:induction false} AllCreatedIff(settings: map<string, string>, decls: seq<Decl>)
    requires forall d | d in decls :: !IsManaged(settings, d)
    ensures AllSay(SyncReport(settings, decls), "created") <==> DistinctPrefixes(decls)
  {
    if decls != [] {
      var front, last := decls[..|decls| - 1], decls[|decls| - 1];
      hide Prefix, IsManaged, SyncAll, DistinctPrefixes, AllSay;
      AllCreatedIff(settings, front);
      DistinctFront(decls);
      ManagedAfterAll(settings, front, last);
      ReportedNames(settings, front);
      SayUpdated(SyncReport(settings, front), last.name, Status(SyncAll(settings, front), last), "created");
    } else {
      assert SyncReport(settings, []) == map[];
    }
  }

  /** After sync and remove the next sync reports all created exactly for distinct prefixes. */
  lemma CreatedAgainIff(settings: map<string, string>, decls: seq<Decl>)
    ensures AllSay(SyncReport(SyncAll(settings, decls) - AllKeys(decls), decls), "created") <==> DistinctPrefixes(decls)
  {
    hide IsManaged, SyncAll, AllKeys, SyncReport, DistinctPrefixes;
    forall d | d in decls ensures !IsManaged(SyncAll(settings, decls) - AllKeys(decls), d) {
      RemovedNotManaged(SyncAll(settings, decls), decls, d);
    }
    AllCreatedIff(SyncAll(settings, decls) - AllKeys(decls), decls);
  }

  // ---- Declarations that share a prefix ----

  predicate Has(settings: map<string, string>, key: string, value: string) {
    key in settings && settings[key] == value
  }

  predicate HasUnlessBlank(settings: map<string, string>, key: string, value: string) {
    if TrimSpace(value) == "" then key !in settings else Has(settings, key, value)
  }

  /** The settings hold exactly what the declaration asks for, under the keys of its prefix. */
  predicate Stored(settings: map<string, string>, d: Decl) {
    && Has(settings, Prefix(d.name) + "_MANAGED", "1")
    && Has(settings, Prefix(d.name) + "_ORCHESTRATOR", d.orchestrator)
    && HasUnlessBlank(settings, Prefix(d.name) + "_TASK_HUB", d.taskHub)
    && HasUnlessBlank(settings, Prefix(d.name) + "_STORAGE_CONNECTION_SETTING", d.storage)
  }

  /** Of the declaration's keys just the wanted ones are set, as wanted. */
  ghost predicate AsWanted(settings: map<string, string>, d: Decl) {
    forall key | key in KeysOf(d) :: (key in settings <==> key in Wanted(d)) && (key in settings ==> settings[key] == Wanted(d)[key])
  }

  lemma KeysSpelled(p: string)
    ensures Key(p, 0) == p + "_MANAGED" && Key(p, 1) == p + "_ORCHESTRATOR"
    ensures Key(p, 2) == p + "_TASK_HUB" && Key(p, 3) == p + "_STORAGE_CONNECTION_SETTING"
  {
  }

  lemma AsWantedIsStored(settings: map<string, string>, d: Decl)
    ensures AsWanted(settings, d) ==> Stored(settings, d)
  {
    var p := Prefix(d.name);
    KeysSpelled(p);
    KeyInjective(p, 0, p, 1);
    KeyInjective(p, 0, p, 2);
    KeyInjective(p, 0, p, 3);
    KeyInjective(p, 1, p, 2);
    KeyInjective(p, 1, p, 3);
    KeyInjective(p, 2, p, 3);
    hide Prefix, Key, TrimSpace;
    if AsWanted(settings, d) {
      assert forall k | 0 <= k < 4 :: Key(p, k) in KeysOf(d);
    }
  }

  lemma AsWantedAfterOne(settings: map<string, string>, d: Decl, e: Decl)
    requires d == e || (AsWanted(settings, d) && Prefix(d.name) != Prefix(e.name))
    ensures AsWanted(SyncOne(settings, e), d)
  {
    WantedIsOwn(d);
    WantedIsOwn(e);
    if d != e {
      KeysDisjoint(d, e);
    }
    hide Prefix, Wanted, KeysOf;
  }

  lemma {:induction false} DistinctAreAsWanted(settings: map<string, string>, decls: seq<Decl>)
    requires DistinctPrefixes(decls)
    ensures forall d | d in decls :: AsWanted(SyncAll(settings, decls), d)
  {
    if decls != [] {
      var front, last := decls[..|decls| - 1], decls[|decls| - 1];
      DistinctFront(decls);
      DistinctAreAsWanted(settings, front);
      assert decls == front + [last];
      hide Prefix, AsWanted, SyncOne;
      forall d | d in decls ensures AsWanted(SyncAll(settings, decls), d) {
        AsWantedAfterOne(SyncAll(settings, front), d, last);
      }
    }
  }

  /** With distinct prefixes every declaration is stored. */
  lemma DistinctAreStored(settings: map<string, string>, decls: seq<Decl>)
    requires DistinctPrefixes(decls)
    ensures forall d | d in decls :: Stored(SyncAll(settings, decls), d)
  {
    hide *;
    DistinctAreAsWanted(settings, decls);
    forall d | d in decls ensures Stored(SyncAll(settings, decls), d) {
      AsWantedIsStored(SyncAll(settings, decls), d);
    }
  }

  /** Whether the declaration's settings are marked as managed, spaces around the mark aside. */
  predicate Marked(settings: map<string, string>, d: Decl) {
    Prefix(d.name) + "_MANAGED" in settings && TrimSpace(settings[Prefix(d.name) + "_MANAGED"]) == "1"
  }

  function SyncWord(settings: map<string, string>): Decl -> string {
    (d: Decl) => if Marked(settings, d) then "updated" else "created"
  }

  function RemoveWord(settings: map<string, string>): Decl -> string {
    (d: Decl) => if Prefix(d.name) + "_MANAGED" in settings then "deleted" else "absent"
  }

  ghost predicate SaysOfAll(report: map<string, string>, decls: seq<Decl>, word: Decl -> string) {
    forall d | d in decls :: d.name in report && report[d.name] == word(d)
  }

  lemma NothingSaid(report: map<string, string>, word: Decl -> string)
    ensures SaysOfAll(report, [], word)
  {
  }

  lemma ReportGrows(report: map<string, string>, front: seq<Decl>, last: Decl, word: Decl -> string)
    requires SaysOfAll(report, front, word) && forall d | d in front :: d.name != last.name
    ensures SaysOfAll(report[last.name := word(last)], front + [last], word)
  {
  }

  lemma OtherNames(decls: seq<Decl>)
    requires decls != [] && DistinctPrefixes(decls)
    ensures forall d | d in decls[..|decls| - 1] :: Prefix(d.name) != Prefix(decls[|decls| - 1].name) && d.name != decls[|decls| - 1].name
    ensures DistinctPrefixes(decls[..|decls| - 1])
  {
    hide Prefix, DistinctPrefixes;
    DistinctFront(decls);
  }

  /** With distinct prefixes each declaration is reported updated if it was marked, else created. */
  lemma {:induction false} SyncReportTells(settings: map<string, string>, decls: seq<Decl>)
    requires DistinctPrefixes(decls)
    ensures SaysOfAll(SyncReport(settings, decls), decls, SyncWord(settings))
  {
    hide DistinctPrefixes, SaysOfAll, Prefix, Marked, IsManaged, SyncAll;
    if decls == [] {
      NothingSaid(SyncReport(settings, decls), SyncWord(settings));
    } else {
      var front, last := decls[..|decls| - 1], decls[|decls| - 1];
      OtherNames(decls);
      SyncReportTells(settings, front);
      MarkedIsManaged(settings, last);
      ManagedAfterAll(settings, front, last);
      ReportGrows(SyncReport(settings, front), front, last, SyncWord(settings));
      assert decls == front + [last];
    }
  }

  lemma MarkedIsManaged(settings: map<string, string>, d: Decl)
    ensures Marked(settings, d) <==> IsManaged(settings, d)
  {
    KeysSpelled(Prefix(d.name));
    hide Prefix, TrimSpace;
  }

  /** And removing reports deleted exactly what had a mark, whatever its value. */
  lemma {:induction false} RemoveReportTells(settings: map<string, string>, decls: seq<Decl>)
    requires DistinctPrefixes(decls)
    ensures SaysOfAll(RemoveReport(settings, decls), decls, RemoveWord(settings))
  {
    hide DistinctPrefixes, SaysOfAll, Prefix, AllKeys, Key;
    if decls == [] {
      NothingSaid(RemoveReport(settings, decls), RemoveWord(settings));
    } else {
      var front, last := decls[..|decls| - 1], decls[|decls| - 1];
      OtherNames(decls);
      RemoveReportTells(settings, front);
      KeysSpelled(Prefix(last.name));
      NotOfOthers(front, last);
      ReportGrows(RemoveReport(settings, front), front, last, RemoveWord(settings));
      assert decls == front + [last];
    }
  }

  lemma {:induction false} NotOfOthers(decls: seq<Decl>, d: Decl)
    requires forall e | e in decls :: Prefix(e.name) != Prefix(d.name)
    ensures Key(Prefix(d.name), 0) !in AllKeys(decls)
  {
    if decls != [] {
      var front, last := decls[..|decls| - 1], decls[|decls| - 1];
      assert decls == front + [last];
      NotOfOthers(front, d);
      KeysDisjoint(d, last);
      hide Prefix, Key;
    }
  }

  lemma KeysDisjoint(d: Decl, e: Decl)
    requires Prefix(d.name) != Prefix(e.name)
    ensures KeysOf(d) !! KeysOf(e)
  {
    forall j, k | 0 <= j < 4 && 0 <= k < 4 ensures Key(Prefix(d.name), j) != Key(Prefix(e.name), k) {
      KeyInjective(Prefix(d.name), j, Prefix(e.name), k);
    }
    hide Prefix, Key;
  }

  // ---- The settings of an app ----

  lemma SyncAllPrefix(settings: map<string, string>, decls: seq<Decl>, i: nat)
    requires i < |decls|
    ensures var front := decls[..i];
            && SyncAll(settings, decls[..i + 1]) == SyncOne(SyncAll(settings, front), decls[i])
            && AllKeys(decls[..i + 1]) == AllKeys(front) + KeysOf(decls[i])
            && SyncReport(settings, decls[..i + 1]) == SyncReport(settings, front)[decls[i].name := Status(SyncAll(settings, front), decls[i])]
            && RemoveReport(settings, decls[..i + 1]) == RemoveReport(settings, front)
                 [decls[i].name := if Key(Prefix(decls[i].name), 0) in settings - AllKeys(front) then "deleted" else "absent"]
  {
    hide SyncOne, KeysOf, Status, Key, Prefix;
    assert decls[..i + 1][..i] == decls[..i];
  }

  function SetOrDelete(settings: map<string, string>, key: string, value: string): map<string, string> {
    if TrimSpace(value) != "" then settings[key := value] else settings - {key}
  }

  lemma OneByOne(settings: map<string, string>, a: string, b: string, c: string, e: string,
                 one: string, orchestrator: string, hub: string, storage: string)
    requires a != b && a != c && a != e && b != c && b != e && c != e
    ensures SetOrDelete(SetOrDelete(settings[a := one][b := orchestrator], c, hub), e, storage)
         == (settings - {a, b, c, e}) + (map[a := one, b := orchestrator]
            + (if TrimSpace(hub) != "" then map[c := hub] else map[]) + (if TrimSpace(storage) != "" then map[e := storage] else map[]))
  {
    hide TrimSpace, SetOrDelete;
    var hubs := if TrimSpace(hub) != "" then map[c := hub] else map[];
    var storages := if TrimSpace(storage) != "" then map[e := storage] else map[];
    var fixed := map[a := one, b := orchestrator];
    SetTwo(settings, a, b, one, orchestrator);
    SetApart((settings - {a, b}) + fixed, c, hub);
    Merged(settings, {a, b}, fixed, c, hubs);
    SetApart((settings - ({a, b} + {c})) + (fixed + hubs), e, storage);
    Merged(settings, {a, b} + {c}, fixed + hubs, e, storages);
    assert {a, b} + {c} + {e} == {a, b, c, e};
  }

  lemma SetTwo(m: map<string, string>, a: string, b: string, u: string, v: string)
    requires a != b
    ensures m[a := u][b := v] == (m - {a, b}) + map[a := u, b := v]
  {
  }

  lemma SetApart(m: map<string, string>, key: string, value: string)
    ensures SetOrDelete(m, key, value) == (m - {key}) + if TrimSpace(value) != "" then map[key := value] else map[]
  {
    hide TrimSpace;
  }

  lemma Merged(m: map<string, string>, keys: set<string>, added: map<string, string>, key: string, more: map<string, string>)
    requires key !in added
    ensures ((m - keys) + added - {key}) + more == (m - (keys + {key})) + (added + more)
  {
  }

  /** One declaration's four keys, set or deleted one after the other. */
  method SetKeys(settings: map<string, string>, d: Decl) returns (updated: map<string, string>)
    ensures updated == SyncOne(settings, d)
  {
    var p := Prefix(d.name);
    KeyInjective(p, 0, p, 1);
    KeyInjective(p, 0, p, 2);
    KeyInjective(p, 0, p, 3);
    KeyInjective(p, 1, p, 2);
    KeyInjective(p, 1, p, 3);
    KeyInjective(p, 2, p, 3);
    hide Prefix, Key, TrimSpace;
    OneByOne(settings, Key(p, 0), Key(p, 1), Key(p, 2), Key(p, 3), "1", d.orchestrator, d.taskHub, d.storage);
    updated := settings[Key(p, 0) := "1"][Key(p, 1) := d.orchestrator];
    if TrimSpace(d.taskHub) != "" {
      updated := updated[Key(p, 2) := d.taskHub];
    } else {
      updated := updated - {Key(p, 2)};
    }
    if TrimSpace(d.storage) != "" {
      updated := updated[Key(p, 3) := d.storage];
    } else {
      updated := updated - {Key(p, 3)};
    }
  }

  lemma KeysGone(settings: map<string, string>, gone: set<string>, d: Decl)
    ensures var p := Prefix(d.name);
            settings - gone - {Key(p, 0)} - {Key(p, 1)} - {Key(p, 2)} - {Key(p, 3)} == settings - (gone + KeysOf(d))
  {
    hide Prefix, Key;
  }

  /** Whether the server hands out the settings, and whether it takes them back rewritten. */
  datatype Server = Server(gives: bool, takes: bool)

  function Answer(server: Server, report: map<string, string>): Result<map<string, string>> {
    if !server.gives then Err("azure app settings list") else if !server.takes then Err("azure app settings update") else Ok(report)
  }

  class AppSettings {
    var settings: map<string, string>

    constructor (settings: map<string, string>)
      ensures this.settings == settings
    {
      this.settings := settings;
    }

    /** A sync that fails changes nothing. */
    method Sync(decls: seq<Decl>, server: Server) returns (result: Result<map<string, string>>)
      modifies this
      ensures result == Answer(server, SyncReport(old(settings), decls))
      ensures settings == if result.Ok? then SyncAll(old(settings), decls) else old(settings)
    {
      hide SyncOne, IsManaged, KeysOf;
      if !server.gives {
        return Err("azure app settings list");
      }
      var work := settings;
      var report := map[];
      for i := 0 to |decls|
        invariant settings == old(settings)
        invariant work == SyncAll(settings, decls[..i]) && report == SyncReport(settings, decls[..i])
      {
        SyncAllPrefix(settings, decls, i);
        report := report[decls[i].name := if IsManaged(work, decls[i]) then "updated" else "created"];
        work := SetKeys(work, decls[i]);
      }
      assert decls[..|decls|] == decls;
      if !server.takes {
        return Err("azure app settings update");
      }
      settings := work;
      result := Ok(report);
    }

    method Remove(decls: seq<Decl>, server: Server) returns (result: Result<map<string, string>>)
      modifies this
      ensures result == Answer(server, RemoveReport(old(settings), decls))
      ensures settings == if result.Ok? then old(settings) - AllKeys(decls) else old(settings)
    {
      if !server.gives {
        return Err("azure app settings list");
      }
      var work := settings;
      var report := map[];
      assert work == settings - AllKeys(decls[..0]) && RemoveReport(settings, decls[..0]) == map[];
      hide SyncOne, IsManaged, KeysOf, AllKeys, SyncAll, RemoveReport, SyncReport, Key, Prefix, Status;
      for i := 0 to |decls|
        invariant settings == old(settings)
        invariant work == settings - AllKeys(decls[..i]) && report == RemoveReport(settings, decls[..i])
      {
        SyncAllPrefix(settings, decls, i);
        var p := Prefix(decls[i].name);
        report := report[decls[i].name := if Key(p, 0) in work then "deleted" else "absent"];
        KeysGone(settings, AllKeys(decls[..i]), decls[i]);
        work := work - {Key(p, 0)} - {Key(p, 1)} - {Key(p, 2)} - {Key(p, 3)};
      }
      assert decls[..|decls|] == decls;
      if !server.takes {
        return Err("azure app settings update");
      }
      settings := work;
      result := Ok(report);
    }
  }
}
