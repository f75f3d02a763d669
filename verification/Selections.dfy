/** Going through a sequence once and keeping what qualifies, in order. */
module Selections {

  /** The positions of all elements that qualify, in order. */
  ghost predicate Picked<A(!new)>(s: seq<A>, keep: A -> bool, at: seq<nat>) {
    && (forall j, k | 0 <= j < k < |at| :: at[j] < at[k])
    && (forall k | 0 <= k < |at| :: at[k] < |s| && keep(s[at[k]]))
    && (forall i: nat | i < |s| && keep(s[i]) :: i in at)
  }

  /** What is shown of the elements picked, one by one. */
  ghost predicate Shown<A(!new), B>(s: seq<A>, at: seq<nat>, show: A -> B, out: seq<B>) {
    |out| == |at| && forall k | 0 <= k < |at| :: at[k] < |s| && out[k] == show(s[at[k]])
  }

  ghost predicate Selects<A(!new), B(!new)>(s: seq<A>, keep: A -> bool, show: A -> B, out: seq<B>) {
    exists at: seq<nat> :: Picked(s, keep, at) && Shown(s, at, show, out)
  }

  lemma NoneSelected<A(!new), B(!new)>(keep: A -> bool, show: A -> B)
    ensures Selects([], keep, show, [])
  {
    var at: seq<nat> := [];
    assert Picked([], keep, at) && Shown([], at, show, []);
  }

  lemma PickedAppended<A(!new)>(front: seq<A>, last: A, keep: A -> bool, at: seq<nat>)
    requires Picked(front, keep, at)
    ensures Picked(front + [last], keep, if keep(last) then at + [|front|] else at)
  {
    var s := front + [last];
    var more: seq<nat> := if keep(last) then at + [|front|] else at;
    forall i: nat | i < |s| && keep(s[i]) ensures i in more {
      StaysPicked(front, last, keep, at, i);
    }
    forall k | 0 <= k < |more| ensures more[k] < |s| && keep(s[more[k]]) {
      if k < |at| {
        assert more[k] == at[k] && s[at[k]] == front[at[k]];
      }
    }
    forall j, k | 0 <= j < k < |more| ensures more[j] < more[k] {
      assert more[j] == at[j];
    }
  }

  lemma StaysPicked<A(!new)>(front: seq<A>, last: A, keep: A -> bool, at: seq<nat>, i: nat)
    requires Picked(front, keep, at) && i <= |front| && keep((front + [last])[i])
    ensures i in if keep(last) then at + [|front|] else at
  {
    if i < |front| {
      assert i in at;
    } else {
      assert (at + [|front|])[|at|] == i;
    }
  }

  lemma ShownAppended<A(!new), B(!new)>(front: seq<A>, last: A, at: seq<nat>, show: A -> B, out: seq<B>)
    requires Shown(front, at, show, out)
    ensures Shown(front + [last], at, show, out) && Shown(front + [last], at + [|front|], show, out + [show(last)])
  {
  }

  lemma SelectsAppended<A(!new), B(!new)>(front: seq<A>, last: A, keep: A -> bool, show: A -> B, out: seq<B>)
    requires Selects(front, keep, show, out)
    ensures Selects(front + [last], keep, show, if keep(last) then out + [show(last)] else out)
  {
    var at: seq<nat> :| Picked(front, keep, at) && Shown(front, at, show, out);
    PickedAppended(front, last, keep, at);
    ShownAppended(front, last, at, show, out);
    hide Picked, Shown;
  }

  /** An element is selected if it qualifies. */
  lemma IsSelected<A(!new), B(!new)>(s: seq<A>, keep: A -> bool, show: A -> B, out: seq<B>, x: A)
    requires Selects(s, keep, show, out) && x in s && keep(x)
    ensures show(x) in out
  {
    var at: seq<nat> :| Picked(s, keep, at) && Shown(s, at, show, out);
    var i: nat :| i < |s| && s[i] == x;
    var k :| 0 <= k < |at| && at[k] == i;
    assert out[k] == show(x);
  }

  /** Nothing else is. */
  lemma SelectedFrom<A(!new), B(!new)>(s: seq<A>, keep: A -> bool, show: A -> B, out: seq<B>, y: B) returns (x: A)
    requires Selects(s, keep, show, out) && y in out
    ensures x in s && keep(x) && show(x) == y
  {
    var at: seq<nat> :| Picked(s, keep, at) && Shown(s, at, show, out);
    var k: nat :| k < |out| && out[k] == y;
    x := s[at[k]];
  }
}
