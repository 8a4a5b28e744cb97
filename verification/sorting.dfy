/** Ordering of query results. An SQL `ORDER BY` fixes the order only up
    to ties, so the model sorts with an insertion sort and its contract
    promises only what the database promises: a permutation of the rows,
    sorted by the key. */
module Sorting {

  /** `leq` compares by a sort key: every two rows are comparable and the
      comparison chains. Rows with equal keys compare both ways. */
  ghost predicate TotalPreorder<T(!new)>(leq: (T, T) -> bool) {
    && (forall a, b :: leq(a, b) || leq(b, a))
    && (forall a, b, c :: leq(a, b) && leq(b, c) ==> leq(a, c))
  }

  predicate SortedBy<T>(s: seq<T>, leq: (T, T) -> bool) {
    forall i, j :: 0 <= i < j < |s| ==> leq(s[i], s[j])
  }

  /** `x` placed into the sorted sequence `s` before the first element it
      does not exceed. */
  function Insert<T(!new)>(x: T, s: seq<T>, leq: (T, T) -> bool): (r: seq<T>)
    requires TotalPreorder(leq)
    requires SortedBy(s, leq)
    ensures SortedBy(r, leq)
    ensures multiset(r) == multiset(s) + multiset{x}
    decreases |s|
  {
    if |s| == 0 then [x]
    else if leq(x, s[0]) then
      HeadBound(x, s, leq);
      [x] + s
    else
      var rest := Insert(x, s[1..], leq);
      assert s == [s[0]] + s[1..];
      HeadBound(s[0], rest, leq);
      [s[0]] + rest
  }

  /** Prepending a lower bound of a sorted sequence keeps it sorted. */
  lemma HeadBound<T(!new)>(h: T, s: seq<T>, leq: (T, T) -> bool)
    requires TotalPreorder(leq)
    requires SortedBy(s, leq)
    requires |s| == 0 || leq(h, s[0]) || (forall y :: y in multiset(s) ==> leq(h, y))
    ensures SortedBy([h] + s, leq)
  {
    var t := [h] + s;
    forall i, j | 0 <= i < j < |t| ensures leq(t[i], t[j]) {
      if i == 0 {
        assert t[j] == s[j - 1];
        assert t[j] in multiset(s);
        if !(forall y :: y in multiset(s) ==> leq(h, y)) {
          assert leq(h, s[0]);
          if j > 1 { assert leq(s[0], s[j - 1]); }
        }
      } else {
        assert t[i] == s[i - 1] && t[j] == s[j - 1];
      }
    }
  }

  /** The rows of `s` rearranged in `leq` order. */
  function InsertionSort<T(!new)>(s: seq<T>, leq: (T, T) -> bool): (r: seq<T>)
    requires TotalPreorder(leq)
    ensures SortedBy(r, leq)
    ensures multiset(r) == multiset(s)
    ensures |r| == |s|
    decreases |s|
  {
    if |s| == 0 then []
    else
      assert s == [s[0]] + s[1..];
      Insert(s[0], InsertionSort(s[1..], leq), leq)
  }
}
