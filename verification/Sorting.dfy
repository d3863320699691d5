/** Sorting by a strict weak order; stands for the library sort the sources call. */
module Sorting {
  ghost predicate WeakOrder<T(!new)>(less: (T, T) -> bool) {
    && (forall a, b :: !(less(a, b) && less(b, a)))
    && (forall a, b, c :: less(a, b) && !less(c, b) ==> less(a, c))
  }

  ghost predicate Sorted<T>(less: (T, T) -> bool, s: seq<T>) {
    forall i, j :: 0 <= i < j < |s| ==> !less(s[j], s[i])
  }

  function Insert<T>(less: (T, T) -> bool, sorted: seq<T>, x: T): seq<T> {
    if sorted == [] || !less(x, sorted[|sorted| - 1]) then sorted + [x]
    else Insert(less, sorted[..|sorted| - 1], x) + [sorted[|sorted| - 1]]
  }

  function Sort<T>(less: (T, T) -> bool, s: seq<T>): seq<T> {
    if s == [] then [] else Insert(less, Sort(less, s[..|s| - 1]), s[|s| - 1])
  }

  lemma {:induction false} InsertPermutes<T>(less: (T, T) -> bool, sorted: seq<T>, x: T)
    ensures multiset(Insert(less, sorted, x)) == multiset(sorted) + multiset{x}
  {
    if sorted != [] && less(x, sorted[|sorted| - 1]) {
      InsertPermutes(less, sorted[..|sorted| - 1], x);
      assert sorted == sorted[..|sorted| - 1] + [sorted[|sorted| - 1]];
    }
  }

  lemma {:induction false} InsertSorts<T(!new)>(less: (T, T) -> bool, sorted: seq<T>, x: T)
    requires WeakOrder(less) && Sorted(less, sorted)
    ensures Sorted(less, Insert(less, sorted, x))
  {
    if sorted != [] && less(x, sorted[|sorted| - 1]) {
      var (front, last) := (sorted[..|sorted| - 1], sorted[|sorted| - 1]);
      InsertSorts(less, front, x);
      InsertPermutes(less, front, x);
      var head := Insert(less, front, x);
      forall i | 0 <= i < |head| ensures !less(last, head[i]) {
        assert head[i] in multiset(head);
        assert head[i] in front || head[i] == x;
      }
    } else if sorted != [] {
      forall i | 0 <= i < |sorted| ensures !less(x, sorted[i]) {
        assert !less(sorted[|sorted| - 1], sorted[i]);
      }
    }
  }

  /** A sorted permutation. */
  lemma {:induction false} SortSorts<T(!new)>(less: (T, T) -> bool, s: seq<T>)
    requires WeakOrder(less)
    ensures multiset(Sort(less, s)) == multiset(s) && Sorted(less, Sort(less, s))
  {
    if s != [] {
      var (front, last) := (s[..|s| - 1], s[|s| - 1]);
      SortSorts(less, front);
      InsertSorts(less, Sort(less, front), last);
      InsertPermutes(less, Sort(less, front), last);
      assert s == front + [last];
    }
  }

  lemma {:induction false} SortedStays<T>(less: (T, T) -> bool, s: seq<T>)
    requires Sorted(less, s)
    ensures Sort(less, s) == s
  {
    if s != [] {
      SortedStays(less, s[..|s| - 1]);
      assert s == s[..|s| - 1] + [s[|s| - 1]];
      assert |s| > 1 ==> !less(s[|s| - 1], s[|s| - 2]);
    }
  }

  /** Insertion puts the new element behind all that are not greater. */
  lemma {:induction false} InsertedAt<T(!new)>(less: (T, T) -> bool, sorted: seq<T>, x: T) returns (p: nat)
    requires WeakOrder(less) && Sorted(less, sorted)
    ensures p <= |sorted| && Insert(less, sorted, x) == sorted[..p] + [x] + sorted[p..]
    ensures (forall i :: 0 <= i < p ==> !less(x, sorted[i])) && (forall i :: p <= i < |sorted| ==> less(x, sorted[i]))
  {
    if sorted == [] || !less(x, sorted[|sorted| - 1]) {
      p := |sorted|;
      forall i | 0 <= i < p ensures !less(x, sorted[i]) { assert i < p - 1 ==> !less(sorted[p - 1], sorted[i]); }
    } else {
      var (front, last) := (sorted[..|sorted| - 1], sorted[|sorted| - 1]);
      p := InsertedAt(less, front, x);
      assert sorted == front + [last] && sorted[p..] == front[p..] + [last] && sorted[..p] == front[..p];
    }
  }
}
