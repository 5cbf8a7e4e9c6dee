/** Lists that keep the order of another one. */
module Sequences {

  ghost predicate Follows<T(!new)>(all: seq<T>, a: T, b: T) {
    exists m, n :: 0 <= m < n < |all| && all[m] == a && all[n] == b
  }

  /** What is kept stands in the order it has in the whole list. */
  ghost predicate InOrder<T(!new)>(all: seq<T>, kept: seq<T>) {
    forall i, j :: 0 <= i < j < |kept| ==> Follows(all, kept[i], kept[j])
  }

  lemma FollowsSnoc<T(!new)>(front: seq<T>, last: T, a: T, b: T)
    ensures Follows(front, a, b) ==> Follows(front + [last], a, b)
    ensures a in front ==> Follows(front + [last], a, last)
  {
    var all := front + [last];
    if Follows(front, a, b) {
      var m, n :| 0 <= m < n < |front| && front[m] == a && front[n] == b;
      assert all[m] == a && all[n] == b;
    }
    if a in front {
      var m :| 0 <= m < |front| && front[m] == a;
      assert all[m] == a && all[|front|] == last;
    }
  }

  lemma InOrderSnoc<T(!new)>(front: seq<T>, kept: seq<T>, last: T)
    requires InOrder(front, kept) && forall x :: x in kept ==> x in front
    ensures InOrder(front + [last], kept) && InOrder(front + [last], kept + [last])
  {
    hide Follows;
    forall a, b {
      FollowsSnoc(front, last, a, b);
    }
    assert forall i :: 0 <= i < |kept| ==> kept[i] in front;
  }
}
