/** Facts about sequences used as iteration orders. */
module Sequences {
  /** No element occurs twice. */
  ghost predicate Distinct<T>(s: seq<T>)
  {
    forall i, j :: 0 <= i < j < |s| ==> s[i] != s[j]
  }

  /** A sequence without repetitions enumerating a set is as long as the set is large. */
  lemma {:induction false} DistinctCount<T>(order: seq<T>, s: set<T>)
    requires Distinct(order)
    requires forall x :: x in order ==> x in s
    requires forall x :: x in s ==> x in order
    ensures |order| == |s|
  {
    if order != [] {
      var init, last := order[..|order| - 1], order[|order| - 1];
      forall x | x in s - {last} ensures x in init {
        assert x in order;
        var i :| 0 <= i < |order| && order[i] == x;
        assert init[i] == x;
      }
      DistinctCount(init, s - {last});
    }
  }

  lemma AppendAssociates<T>(a: seq<T>, b: seq<T>, c: seq<T>)
    ensures (a + b) + c == a + (b + c)
  {
  }
}
