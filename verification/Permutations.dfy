/** Mapping over sequences that are equal up to order. */
module Permutations {

  function Map<A, B>(s: seq<A>, f: A -> B): (mapped: seq<B>)
    ensures |mapped| == |s|
    ensures forall i | 0 <= i < |s| :: mapped[i] == f(s[i])
  {
    seq(|s|, i requires 0 <= i < |s| => f(s[i]))
  }

  lemma MapPrefix<A, B>(s: seq<A>, i: nat, f: A -> B)
    requires i < |s|
    ensures Map(s[..i + 1], f) == Map(s[..i], f) + [f(s[i])]
  {
  }

  function Without<A>(s: seq<A>, k: nat): seq<A>
    requires k < |s|
  {
    s[..k] + s[k + 1..]
  }

  lemma WithoutSplits<A>(s: seq<A>, k: nat)
    requires k < |s|
    ensures multiset(s) == multiset(Without(s, k)) + multiset{s[k]}
  {
    assert s == s[..k] + [s[k]] + s[k + 1..];
  }

  lemma MapWithout<A, B>(s: seq<A>, k: nat, f: A -> B)
    requires k < |s|
    ensures Map(Without(s, k), f) == Without(Map(s, f), k)
    ensures multiset(Map(s, f)) == multiset(Map(Without(s, k), f)) + multiset{f(s[k])}
  {
    WithoutSplits(Map(s, f), k);
  }

  lemma SameSize<A>(s: seq<A>, t: seq<A>)
    requires multiset(s) == multiset(t)
    ensures |s| == |t|
  {
    assert |s| == |multiset(s)| == |multiset(t)| == |t|;
  }

  lemma {:induction false} MapPermutes<A, B>(s: seq<A>, t: seq<A>, f: A -> B)
    requires multiset(s) == multiset(t)
    ensures multiset(Map(s, f)) == multiset(Map(t, f))
    decreases |s|
  {
    SameSize(s, t);
    if s != [] {
      assert s[0] in multiset(t);
      var k :| 0 <= k < |t| && t[k] == s[0];
      WithoutSplits(s, 0);
      WithoutSplits(t, k);
      assert multiset(Without(s, 0)) == multiset(s) - multiset{s[0]} == multiset(Without(t, k));
      MapPermutes(Without(s, 0), Without(t, k), f);
      MapWithout(s, 0, f);
      MapWithout(t, k, f);
    }
  }

  lemma MapCons<A, B>(x: A, s: seq<A>, f: A -> B)
    ensures Map([x] + s, f) == [f(x)] + Map(s, f) && multiset([x] + s) == multiset{x} + multiset(s)
  {
  }

  lemma FirstImage<A, B>(s: seq<A>, f: A -> B, images: seq<B>) returns (k: nat)
    requires multiset(Map(s, f)) == multiset(images) && images != []
    ensures k < |s| && f(s[k]) == images[0]
    ensures multiset(Map(Without(s, k), f)) == multiset(Without(images, 0))
  {
    assert images[0] in multiset(Map(s, f));
    k :| 0 <= k < |s| && Map(s, f)[k] == images[0];
    MapWithout(s, k, f);
    WithoutSplits(images, 0);
    assert multiset(Map(Without(s, k), f)) == multiset(Map(s, f)) - multiset{f(s[k])};
    assert multiset(Without(images, 0)) == multiset(images) - multiset{images[0]};
  }

  /** If the f-images of a sequence are some sequence up to order, it can be put in that order. */
  lemma {:induction false} Reordered<A(!new), B>(s: seq<A>, f: A -> B, images: seq<B>) returns (p: seq<A>)
    requires multiset(Map(s, f)) == multiset(images)
    ensures multiset(p) == multiset(s) && Map(p, f) == images
    decreases |images|
  {
    SameSize(Map(s, f), images);
    if images == [] {
      p := [];
    } else {
      hide *;
      var k := FirstImage(s, f, images);
      WithoutLength(images, 0);
      var rest := Reordered(Without(s, k), f, Without(images, 0));
      WithoutSplits(s, k);
      MapCons(s[k], rest, f);
      p := [s[k]] + rest;
      FirstAndRest(images);
    }
  }

  lemma WithoutLength<A>(s: seq<A>, k: nat)
    requires k < |s|
    ensures |Without(s, k)| == |s| - 1
  {
  }

  lemma FirstAndRest<A>(s: seq<A>)
    requires s != []
    ensures s == [s[0]] + Without(s, 0)
  {
  }

  /** If g distinguishes no more than f does, permuted f-images have permuted g-images. */
  lemma {:induction false} ImagesFollow<A(!new), B, C>(s: seq<A>, t: seq<A>, f: A -> B, g: A -> C)
    requires multiset(Map(s, f)) == multiset(Map(t, f))
    requires forall x, y | f(x) == f(y) :: g(x) == g(y)
    ensures multiset(Map(s, g)) == multiset(Map(t, g))
    decreases |s|
  {
    SameSize(Map(s, f), Map(t, f));
    if s != [] {
      assert f(s[0]) == Map(s, f)[0] && Map(s, f)[0] in multiset(Map(t, f));
      var k :| 0 <= k < |t| && Map(t, f)[k] == f(s[0]);
      MapWithout(s, 0, f);
      MapWithout(t, k, f);
      assert multiset(Map(Without(s, 0), f)) == multiset(Map(s, f)) - multiset{f(s[0])};
      assert multiset(Map(Without(t, k), f)) == multiset(Map(t, f)) - multiset{f(t[k])};
      ImagesFollow(Without(s, 0), Without(t, k), f, g);
      MapWithout(s, 0, g);
      MapWithout(t, k, g);
    }
  }

  ghost predicate Distinct<A>(s: seq<A>) {
    forall i, j | 0 <= i < j < |s| :: s[i] != s[j]
  }

  /** As many distinct elements as another sequence has, all found in it: a permutation. */
  lemma {:induction false} Pigeonhole<A>(s: seq<A>, t: seq<A>)
    requires |s| == |t| && Distinct(s)
    requires forall x | x in s :: x in t
    ensures multiset(s) == multiset(t)
  {
    if s != [] {
      assert s[0] in s && s[0] in t;
      var k :| 0 <= k < |t| && t[k] == s[0];
      WithoutSplits(s, 0);
      WithoutSplits(t, k);
      forall x | x in Without(s, 0) ensures x in Without(t, k) {
        assert x in t && x != s[0];
      }
      Pigeonhole(Without(s, 0), Without(t, k));
    }
  }

  lemma {:induction false} DistinctCounts<A>(s: seq<A>)
    requires Distinct(s)
    ensures forall x :: multiset(s)[x] == if x in s then 1 else 0
  {
    if s != [] {
      DistinctCounts(s[1..]);
      assert s == [s[0]] + s[1..];
    }
  }

  lemma DistinctPermutes<A>(s: seq<A>, t: seq<A>)
    requires Distinct(s) && Distinct(t) && forall x :: x in s <==> x in t
    ensures multiset(s) == multiset(t)
  {
    DistinctCounts(s);
    DistinctCounts(t);
  }
}
