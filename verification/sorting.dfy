/** sort.SliceStable: elements move left past strictly greater ones only. */
module Sorting {

  function Insert<T>(s: seq<T>, x: T, less: (T, T) -> bool): (r: seq<T>)
    ensures |r| == |s| + 1
  {
    if s == [] || !less(x, s[|s| - 1]) then s + [x]
    else Insert(s[..|s| - 1], x, less) + [s[|s| - 1]]
  }

  function SortStable<T>(s: seq<T>, less: (T, T) -> bool): (r: seq<T>)
    ensures |r| == |s|
  {
    if s == [] then [] else Insert(SortStable(s[..|s| - 1], less), s[|s| - 1], less)
  }

  /** No neighbour is out of order. */
  ghost predicate Ordered<T>(s: seq<T>, less: (T, T) -> bool) {
    forall i | 0 < i < |s| :: !less(s[i], s[i - 1])
  }

  ghost predicate Asymmetric<T(!new)>(less: (T, T) -> bool) {
    forall x, y :: less(x, y) ==> !less(y, x)
  }

  lemma {:induction false} InsertPermutes<T>(s: seq<T>, x: T, less: (T, T) -> bool)
    ensures multiset(Insert(s, x, less)) == multiset(s) + multiset{x}
  {
    if s != [] && less(x, s[|s| - 1]) {
      InsertPermutes(s[..|s| - 1], x, less);
      assert s == s[..|s| - 1] + [s[|s| - 1]];
    }
  }

  lemma {:induction false} InsertOrders<T(!new)>(s: seq<T>, x: T, less: (T, T) -> bool)
    requires Asymmetric(less) && Ordered(s, less)
    ensures Ordered(Insert(s, x, less), less)
    ensures var r := Insert(s, x, less); s != [] && less(x, s[|s| - 1]) ==> r[|r| - 1] == s[|s| - 1]
    ensures var r := Insert(s, x, less); !(s != [] && less(x, s[|s| - 1])) ==> r[|r| - 1] == x
  {
    if s != [] && less(x, s[|s| - 1]) {
      InsertOrders(s[..|s| - 1], x, less);
    }
  }

  lemma {:induction false} SortPermutes<T>(s: seq<T>, less: (T, T) -> bool)
    ensures multiset(SortStable(s, less)) == multiset(s)
  {
    if s != [] {
      SortPermutes(s[..|s| - 1], less);
      InsertPermutes(SortStable(s[..|s| - 1], less), s[|s| - 1], less);
      assert s == s[..|s| - 1] + [s[|s| - 1]];
    }
  }

  lemma {:induction false} SortOrders<T(!new)>(s: seq<T>, less: (T, T) -> bool)
    requires Asymmetric(less)
    ensures Ordered(SortStable(s, less), less)
  {
    if s != [] {
      SortOrders(s[..|s| - 1], less);
      InsertOrders(SortStable(s[..|s| - 1], less), s[|s| - 1], less);
    }
  }

  lemma {:induction false} SortKeepsOrdered<T>(s: seq<T>, less: (T, T) -> bool)
    requires Ordered(s, less)
    ensures SortStable(s, less) == s
  {
    if s != [] {
      SortKeepsOrdered(s[..|s| - 1], less);
    }
  }
}
