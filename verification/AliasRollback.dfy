/** The `live` alias of a Lambda function and the published versions it can be rolled back to. */
module AliasRollback {
  import opened Decimal
  import opened Ordering
  import opened Permutations
  import opened Wrappers

  /** The published numbers of a listing; "$LATEST" is not one. */
  ghost function NumbersIn(pages: seq<seq<string>>): set<int> {
    set page, v | page in pages && v in page && Parse(v).Some? :: Parse(v).value
  }

  /** What a rollback from v may go to. */
  ghost function Below(published: set<int>, v: int): set<int> {
    set n | n in published && 0 < n < v
  }

  ghost predicate IsHighestBelow(n: int, published: set<int>, v: int) {
    n in Below(published, v) && forall m | m in Below(published, v) :: m <= n
  }

  // ---- Whole walks ----

  /** The targets of successive rollbacks, each the highest version below the one before. */
  ghost predicate IsWalk(walk: seq<int>, published: set<int>) {
    walk != [] && forall i | 0 < i < |walk| :: IsHighestBelow(walk[i], published, walk[i - 1])
  }

  /** The versions from n up to below v. */
  ghost function Between(published: set<int>, n: int, v: int): set<int> {
    set m | m in Below(published, v) && n <= m
  }

  /** k rollbacks from v land on the k-th highest version below v: exactly k versions are at
      least as high, and all the other ones below v remain. */
  lemma {:induction false} WalkLands(walk: seq<int>, published: set<int>)
    requires IsWalk(walk, published)
    ensures var last := walk[|walk| - 1];
            && |Between(published, last, walk[0])| == |walk| - 1
            && Below(published, last) == Below(published, walk[0]) - Between(published, last, walk[0])
            && last <= walk[0]
  {
    if |walk| == 1 {
      assert Between(published, walk[0], walk[0]) == {};
    } else {
      var front, last := walk[..|walk| - 1], walk[|walk| - 1];
      var before := front[|front| - 1];
      WalkLands(front, published);
      assert front[0] == walk[0] && walk[|walk| - 2] == before;
      assert IsHighestBelow(last, published, before);
      forall m ensures m in Between(published, last, walk[0]) <==> m in Between(published, before, walk[0]) || m == last {
        assert m in Below(published, before) ==> m <= last;
      }
      assert Between(published, last, walk[0]) == Between(published, before, walk[0]) + {last};
      assert last !in Between(published, before, walk[0]);
    }
  }

  lemma BelowSplits(published: set<int>, n: int, v: int)
    requires IsHighestBelow(n, published, v)
    ensures Below(published, v) == Below(published, n) + {n} && |Below(published, v)| == |Below(published, n)| + 1
  {
    assert Below(published, v) == Below(published, n) + {n};
  }

  lemma NoneLeft(published: set<int>, last: int, v: int)
    requires Below(published, last) == {} == Below(published, v) - Between(published, last, v)
    ensures Between(published, last, v) == Below(published, v)
  {
  }

  method NumericVersions(pages: seq<seq<string>>) returns (numbers: seq<int>)
    ensures forall n :: n in numbers <==> n in NumbersIn(pages)
    ensures SortedBy(numbers, (a: int, b: int) => a <= b)
  {
    var out: seq<int> := [];
    for i := 0 to |pages|
      invariant forall n :: n in out <==> n in NumbersIn(pages[..i])
    {
      assert forall page :: page in pages[..i + 1] <==> page in pages[..i] || page == pages[i];
      ghost var before := out;
      for j := 0 to |pages[i]|
        invariant forall n :: n in out <==> n in before || exists v :: v in pages[i][..j] && Parse(v) == Some(n)
      {
        assert forall v :: v in pages[i][..j + 1] <==> v in pages[i][..j] || v == pages[i][j];
        var parsed := Parse(pages[i][j]);
        if parsed.Some? {
          out := out + [parsed.value];
        }
      }
      assert pages[i][..|pages[i]|] == pages[i];
    }
    assert pages[..|pages|] == pages;
    numbers := SortWith(out, (a: int, b: int) => a <= b);
    assert forall n :: n in numbers <==> n in multiset(numbers);
    assert forall n :: n in out <==> n in multiset(out);
  }

  lemma NumbersAppended(pages: seq<seq<string>>, version: int)
    ensures NumbersIn(pages + [[Print(version)]]) == NumbersIn(pages) + {version}
  {
    PrintInverted(version);
    hide Parse, Print;
    var after := pages + [[Print(version)]];
    forall n ensures n in NumbersIn(after) <==> n in NumbersIn(pages) || n == version {
      if n in NumbersIn(pages) {
        var page, v :| page in pages && v in page && Parse(v) == Some(n);
        assert page in after;
      }
      if n == version {
        assert [Print(version)] in after && Print(version) in [Print(version)];
      }
    }
  }

  lemma WalkGrows(walk: seq<int>, published: set<int>, next: int)
    requires IsWalk(walk, published) && IsHighestBelow(next, published, walk[|walk| - 1])
    ensures IsWalk(walk + [next], published)
  {
    hide IsHighestBelow;
  }

  /** Whether the server publishes a version, answers for the alias, and takes its new target. */
  datatype Server = Server(publishes: bool, finds: bool, takes: bool)

  class LiveAlias {
    var pages: seq<seq<string>>
    var alias: Option<string>

    constructor (pages: seq<seq<string>>, alias: Option<string>)
      ensures this.pages == pages && this.alias == alias
    {
      this.pages, this.alias := pages, alias;
    }

    ghost function Published(): set<int>
      reads this
    {
      NumbersIn(pages)
    }

    /** The server publishes the new version, if it does; then the alias is created or moved to
        it, if the server finds and takes it. */
    method PublishAndAlias(version: int, server: Server) returns (ok: bool)
      modifies this
      ensures Published() == old(Published()) + if server.publishes then {version} else {}
      ensures ok <==> server.publishes && server.finds && server.takes
      ensures alias == if ok then Some(Print(version)) else old(alias)
    {
      ok := server.publishes;
      if !ok {
        return;
      }
      NumbersAppended(pages, version);
      pages := pages + [[Print(version)]];
      ok := server.finds && server.takes;
      if ok {
        alias := Some(Print(version));
      }
    }

    /** Nothing happens without an alias, with one that is no number, or with nothing below it. */
    method Rollback() returns (from: string, to: string, ok: bool)
      modifies this
      ensures pages == old(pages)
      ensures ok <==> old(alias).Some? && Parse(old(alias).value).Some? && Below(Published(), Parse(old(alias).value).value) != {}
      ensures !ok ==> alias == old(alias) && to == ""
      ensures from == if old(alias).Some? && Parse(old(alias).value).Some? then old(alias).value else ""
      ensures ok ==> alias == Some(to) && Parse(to).Some?
                     && IsHighestBelow(Parse(to).value, Published(), Parse(from).value)
    {
      if alias.None? {
        return "", "", false;
      }
      var current := alias.value;
      var currentN := Parse(current);
      if currentN.None? {
        return "", "", false;
      }
      var versions := NumericVersions(pages);
      var prev := 0;
      for i := 0 to |versions|
        invariant prev == 0 || prev in Below(Published(), currentN.value)
        invariant forall j | 0 <= j < i :: versions[j] in Below(Published(), currentN.value) ==> versions[j] <= prev
        invariant prev >= 0 && pages == old(pages) && alias == old(alias)
      {
        assert versions[i] in versions;
        if versions[i] < currentN.value && versions[i] > prev {
          prev := versions[i];
        }
      }
      forall m | m in Below(Published(), currentN.value) ensures m <= prev {
        assert m in versions;
      }
      if prev == 0 {
        return current, "", false;
      }
      PrintInverted(prev);
      alias := Some(Print(prev));
      return current, Print(prev), true;
    }

    /** Rolling back until nothing is left: every version below the starting one is visited,
        highest first, and exactly as many rollbacks succeed as there are such versions. */
    method RollbackAll() returns (ghost walk: seq<int>)
      requires alias.Some? && Parse(alias.value).Some?
      modifies this
      ensures pages == old(pages) && alias.Some? && IsWalk(walk, Published())
      ensures walk[0] == Parse(old(alias).value).value && Parse(alias.value) == Some(walk[|walk| - 1])
      ensures |walk| - 1 == |Below(Published(), walk[0])| && Below(Published(), walk[|walk| - 1]) == {}
    {
      hide Parse, NumbersIn, Below;
      walk := [Parse(alias.value).value];
      var ok := true;
      while ok
        invariant pages == old(pages) && alias.Some? && IsWalk(walk, Published())
        invariant walk[0] == Parse(old(alias).value).value && Parse(alias.value) == Some(walk[|walk| - 1])
        invariant !ok ==> Below(Published(), walk[|walk| - 1]) == {}
        decreases |Below(Published(), walk[|walk| - 1])|, ok
      {
        var from, to;
        from, to, ok := Rollback();
        if ok {
          BelowSplits(Published(), Parse(to).value, walk[|walk| - 1]);
          WalkGrows(walk, Published(), Parse(to).value);
          walk := walk + [Parse(to).value];
        }
      }
      WalkLands(walk, Published());
      NoneLeft(Published(), walk[|walk| - 1], walk[0]);
    }

    /** After publishing a new highest version one rollback reaches the highest one before it,
        wherever the alias had been. */
    method PublishThenRollback(version: int) returns (ok: bool)
      requires version > 0 && forall n | n in Published() :: n < version
      modifies this
      ensures ok <==> Below(old(Published()), version) != {}
      ensures ok ==> alias.Some? && Parse(alias.value).Some? && IsHighestBelow(Parse(alias.value).value, old(Published()), version)
    {
      var published := PublishAndAlias(version, Server(true, true, true));
      PrintInverted(version);
      assert Below(Published(), version) == Below(old(Published()), version);
      var from, to;
      from, to, ok := Rollback();
    }
  }
}
