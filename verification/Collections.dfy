/** What several modules share: optional values and facts about collections. */
module Collections {
  datatype Option<+T> = None | Some(value: T)

  lemma AtMostOneElement<T>(s: set<T>)
    requires forall x, y | x in s && y in s :: x == y
    ensures |s| <= 1
  {
    if s != {} { var x :| x in s; assert s == {x}; }
  }

  lemma HasElement<T>(s: set<T>)
    requires s != {}
    ensures exists x :: x in s
  {
  }

  /** The element of highest rank. */
  method Best(ids: set<nat>, rank: nat -> int) returns (best: nat)
    requires ids != {}
    ensures best in ids && forall id | id in ids :: rank(id) <= rank(best)
  {
    HasElement(ids);
    best :| best in ids;
    var left := ids - {best};
    while left != {}
      invariant best in ids && left <= ids && forall id | id in ids :: rank(id) <= rank(best) || id in left
      decreases left
    {
      HasElement(left);
      var id :| id in left;
      if rank(id) > rank(best) { best := id; }
      left := left - {id};
    }
  }

  /** As many distinct values as fit into a set. */
  lemma {:induction false} DistinctFit<T>(xs: seq<T>, s: set<T>)
    requires forall i | 0 <= i < |xs| :: xs[i] in s
    requires forall i, j | 0 <= i < j < |xs| :: xs[i] != xs[j]
    ensures |xs| <= |s|
  {
    if xs != [] {
      var last := |xs| - 1;
      DistinctFit(xs[..last], s - {xs[last]});
    }
  }
}
