/**
 * `OrderBy` / `OrderByDescending` / SQL `ORDER BY` as a stable insertion sort
 * over a total relation `leq` ("may come before").
 */
module Sorting {

  ghost predicate Total<T(!new)>(leq: (T, T) -> bool) {
    forall x, y :: leq(x, y) || leq(y, x)
  }

  ghost predicate Transitive<T(!new)>(leq: (T, T) -> bool) {
    forall x, y, z :: leq(x, y) && leq(y, z) ==> leq(x, z)
  }

  /** Every element may come before its successor. */
  ghost predicate SortedBy<T>(s: seq<T>, leq: (T, T) -> bool) {
    forall i :: 0 < i < |s| ==> leq(s[i - 1], s[i])
  }

  /** Places `x` before the first element it may precede; earlier inputs stay first among equals. */
  function Insert<T(!new)>(x: T, s: seq<T>, leq: (T, T) -> bool): (r: seq<T>)
    requires Total(leq)
    requires SortedBy(s, leq)
    ensures multiset(r) == multiset(s) + multiset{x}
    ensures |r| == |s| + 1
    ensures r[0] == x || (s != [] && r[0] == s[0])
    ensures SortedBy(r, leq)
  {
    if s == [] then [x]
    else if leq(x, s[0]) then [x] + s
    else
      var t := Insert(x, s[1..], leq);
      assert s == [s[0]] + s[1..];
      assert leq(s[0], x);
      assert leq(s[0], t[0]);
      var r := [s[0]] + t;
      assert forall i :: 0 <= i < |t| ==> r[i + 1] == t[i];
      r
  }

  /** The input reordered: the same elements, each as often, in `leq` order. */
  function Sort<T(!new)>(s: seq<T>, leq: (T, T) -> bool): (r: seq<T>)
    requires Total(leq)
    ensures multiset(r) == multiset(s)
    ensures SortedBy(r, leq)
  {
    if s == [] then []
    else
      assert s == [s[0]] + s[1..];
      Insert(s[0], Sort(s[1..], leq), leq)
  }

  /** Under a transitive relation, a sequence sorted pair by pair is ordered between any two positions. */
  lemma {:induction false} SortedPairwise<T(!new)>(s: seq<T>, leq: (T, T) -> bool)
    requires Transitive(leq)
    requires SortedBy(s, leq)
    ensures forall i, j :: 0 <= i < j < |s| ==> leq(s[i], s[j])
  {
    if |s| > 1 {
      var p := s[..|s| - 1];
      assert forall i :: 0 <= i < |p| ==> p[i] == s[i];
      SortedPairwise(p, leq);
      forall i, j | 0 <= i < j < |s| ensures leq(s[i], s[j]) {
        if j < |s| - 1 {
          assert leq(p[i], p[j]);
        } else if i < j - 1 {
          assert leq(p[i], p[j - 1]);
        }
      }
    }
  }
}
