/** The order of Go strings, and sorting by it. */
module Ordering {
  import opened Permutations

  predicate Leq(a: string, b: string) {
    a == "" || (b != "" && (a[0] < b[0] || (a[0] == b[0] && Leq(a[1..], b[1..]))))
  }

  lemma {:induction false} LeqTotal(a: string, b: string)
    ensures Leq(a, b) || Leq(b, a)
    ensures Leq(a, b) && Leq(b, a) ==> a == b
  {
    if a != "" && b != "" {
      LeqTotal(a[1..], b[1..]);
      assert a == [a[0]] + a[1..] && b == [b[0]] + b[1..];
    }
  }

  lemma {:induction false} LeqTransitive(a: string, b: string, c: string)
    requires Leq(a, b) && Leq(b, c)
    ensures Leq(a, c)
  {
    if a != "" && a[0] == b[0] == c[0] {
      LeqTransitive(a[1..], b[1..], c[1..]);
    }
  }

  ghost predicate Sorted(s: seq<string>) {
    forall i, j | 0 <= i < j < |s| :: Leq(s[i], s[j])
  }

  lemma HeadIsLeast(s: seq<string>, x: string)
    requires Sorted(s) && x in multiset(s)
    ensures s != [] && Leq(s[0], x)
  {
    var i :| 0 <= i < |s| && s[i] == x;
    LeqTotal(x, x);
  }

  lemma SortedTail(s: seq<string>)
    requires s != [] && Sorted(s)
    ensures Sorted(s[1..]) && multiset(s[1..]) == multiset(s) - multiset{s[0]}
  {
    assert s == [s[0]] + s[1..];
  }

  /** A multiset of strings has one sorted sequence. */
  lemma {:induction false} SortedUnique(s: seq<string>, t: seq<string>)
    requires Sorted(s) && Sorted(t) && multiset(s) == multiset(t)
    ensures s == t
    decreases |s|
  {
    hide *;
    SameSize(s, t);
    if s != [] {
      SameHead(s, t);
      SortedTail(s);
      SortedTail(t);
      SortedUnique(s[1..], t[1..]);
      assert s == [s[0]] + s[1..] && t == [t[0]] + t[1..];
    }
  }

  lemma SameHead(s: seq<string>, t: seq<string>)
    requires Sorted(s) && Sorted(t) && multiset(s) == multiset(t) && s != [] && t != []
    ensures s[0] == t[0]
  {
    hide Sorted, Leq;
    HeadIsLeast(t, s[0]);
    HeadIsLeast(s, t[0]);
    LeqTotal(s[0], t[0]);
  }

  ghost predicate TotalOrder<T(!new)>(leq: (T, T) -> bool) {
    && (forall a, b :: leq(a, b) || leq(b, a))
    && forall a, b, c | leq(a, b) && leq(b, c) :: leq(a, c)
  }

  ghost predicate SortedBy<T>(s: seq<T>, leq: (T, T) -> bool) {
    forall i, j | 0 <= i < j < |s| :: leq(s[i], s[j])
  }

  method PlaceFor<T>(sorted: seq<T>, x: T, leq: (T, T) -> bool) returns (at: nat)
    ensures at <= |sorted| && forall j | 0 <= j < at :: leq(sorted[j], x)
    ensures at < |sorted| ==> !leq(sorted[at], x)
  {
    at := 0;
    while at < |sorted| && leq(sorted[at], x)
      invariant at <= |sorted| && forall j | 0 <= j < at :: leq(sorted[j], x)
    {
      at := at + 1;
    }
  }

  function Inserted<T>(s: seq<T>, x: T, at: nat): seq<T>
    requires at <= |s|
  {
    s[..at] + [x] + s[at..]
  }

  /** Stands for sort.Slice: callers may rely on a sorted permutation, not on the order of
      elements that compare equal. */
  method SortWith<T(!new)>(s: seq<T>, leq: (T, T) -> bool) returns (sorted: seq<T>)
    requires TotalOrder(leq)
    ensures multiset(sorted) == multiset(s) && SortedBy(sorted, leq)
  {
    sorted := [];
    for i := 0 to |s|
      invariant multiset(sorted) == multiset(s[..i]) && SortedBy(sorted, leq)
    {
      hide *;
      var at := PlaceFor(sorted, s[i], leq);
      InsertionSorted(sorted, s[i], at, leq);
      InsertionAdds(sorted, s[i], at);
      PrefixGrows(s, i);
      sorted := Inserted(sorted, s[i], at);
    }
    assert s[..|s|] == s;
  }

  lemma InsertionAdds<T>(s: seq<T>, x: T, at: nat)
    requires at <= |s|
    ensures multiset(Inserted(s, x, at)) == multiset(s) + multiset{x}
  {
    assert s == s[..at] + s[at..];
  }

  lemma PrefixGrows<T>(s: seq<T>, i: nat)
    requires i < |s|
    ensures multiset(s[..i + 1]) == multiset(s[..i]) + multiset{s[i]}
  {
    assert s[..i + 1] == s[..i] + [s[i]];
  }

  lemma InsertionSorted<T(!new)>(s: seq<T>, x: T, at: nat, leq: (T, T) -> bool)
    requires TotalOrder(leq) && SortedBy(s, leq) && at <= |s|
    requires forall j | 0 <= j < at :: leq(s[j], x)
    requires at < |s| ==> !leq(s[at], x)
    ensures SortedBy(Inserted(s, x, at), leq)
  {
    var t := Inserted(s, x, at);
    forall k | at <= k < |s| ensures leq(x, s[k]) {
      assert leq(x, s[at]);
      if k > at {
        assert leq(s[at], s[k]);
      }
    }
    forall j, k | 0 <= j < k < |t| ensures leq(t[j], t[k]) {
      if j == at {
        assert t[k] == s[k - 1];
      } else if k == at {
      } else {
        var j', k' := if j < at then j else j - 1, if k < at then k else k - 1;
        assert t[j] == s[j'] && t[k] == s[k'];
      }
    }
  }

  lemma LeqIsTotalOrder<T(!new)>(key: T -> string)
    ensures TotalOrder((a: T, b: T) => Leq(key(a), key(b)))
  {
    forall a: T, b: T ensures Leq(key(a), key(b)) || Leq(key(b), key(a)) {
      LeqTotal(key(a), key(b));
    }
    forall a: T, b: T, c: T | Leq(key(a), key(b)) && Leq(key(b), key(c)) ensures Leq(key(a), key(c)) {
      LeqTransitive(key(a), key(b), key(c));
    }
  }

  /** Sorting by a string key. */
  method SortBy<T(!new)>(s: seq<T>, key: T -> string) returns (sorted: seq<T>)
    ensures multiset(sorted) == multiset(s) && Sorted(Map(sorted, key))
  {
    LeqIsTotalOrder(key);
    sorted := SortWith(s, (a: T, b: T) => Leq(key(a), key(b)));
  }

  function Itself(s: string): string {
    s
  }

  ghost function Members(keys: seq<string>): set<string> {
    set key | key in keys
  }

  /** The keys of a map in the order its enumeration happens to produce. */
  method KeysOf<V>(m: map<string, V>) returns (keys: seq<string>)
    ensures Distinct(keys) && forall key :: key in keys <==> key in m
  {
    keys := [];
    var rest := m.Keys;
    while rest != {}
      invariant Distinct(keys) && rest <= m.Keys
      invariant forall key :: key in keys <==> key in m && key !in rest
      decreases |rest|
    {
      var key :| key in rest;
      keys, rest := keys + [key], rest - {key};
    }
  }

  /** The keys of a map, sorted. */
  method SortedKeysOf<V>(m: map<string, V>) returns (keys: seq<string>)
    ensures Distinct(keys) && Sorted(keys) && Members(keys) == m.Keys
  {
    var enumerated := KeysOf(m);
    keys := SortBy(enumerated, Itself);
    SameKeys(enumerated, keys);
    assert Map(keys, Itself) == keys;
  }

  lemma SameKeys(enumerated: seq<string>, keys: seq<string>)
    requires multiset(enumerated) == multiset(keys) && Distinct(enumerated)
    ensures Distinct(keys) && forall k :: k in keys <==> k in enumerated
  {
    DistinctCounts(enumerated);
    forall i, j | 0 <= i < j < |keys| ensures keys[i] != keys[j] {
      assert keys == keys[..j] + keys[j..];
      assert keys[i] in keys[..j] && keys[j] in keys[j..];
      assert multiset(keys)[keys[j]] == 1;
    }
    assert forall k :: k in keys <==> k in multiset(keys);
    assert forall k :: k in enumerated <==> k in multiset(enumerated);
  }
}
