/** The stable sort of the runtime, by a numeric key. */
module StableSort {
  function Insert<T>(key: T -> real, sorted: seq<T>, x: T): seq<T> {
    if sorted == [] then [x]
    else if key(x) < key(sorted[0]) then [x] + sorted
    else [sorted[0]] + Insert(key, sorted[1..], x)
  }

  function Sort<T>(key: T -> real, list: seq<T>): seq<T> {
    if list == [] then [] else Insert(key, Sort(key, list[..|list| - 1]), list[|list| - 1])
  }

  predicate Sorted<T>(key: T -> real, list: seq<T>) {
    forall i, j | 0 <= i < j < |list| :: key(list[i]) <= key(list[j])
  }

  lemma {:induction false} InsertAdds<T>(key: T -> real, sorted: seq<T>, x: T)
    ensures multiset(Insert(key, sorted, x)) == multiset(sorted) + multiset{x}
  {
    if sorted != [] {
      assert sorted == [sorted[0]] + sorted[1..];
      InsertAdds(key, sorted[1..], x);
    }
  }

  lemma SortedCons<T>(key: T -> real, first: T, rest: seq<T>)
    requires Sorted(key, rest) && forall x | x in rest :: key(first) <= key(x)
    ensures Sorted(key, [first] + rest)
  {}

  lemma {:induction false} InsertSorts<T>(key: T -> real, sorted: seq<T>, x: T)
    requires Sorted(key, sorted)
    ensures Sorted(key, Insert(key, sorted, x))
  {
    if sorted != [] {
      var first, rest := sorted[0], Insert(key, sorted[1..], x);
      forall y | y in sorted ensures key(first) <= key(y) {}
      if key(x) < key(first) {
        SortedCons(key, x, sorted);
      } else {
        InsertSorts(key, sorted[1..], x);
        InsertAdds(key, sorted[1..], x);
        forall y | y in rest ensures key(first) <= key(y) {
          assert y in multiset(rest);
          assert y in sorted[1..] || y == x;
        }
        SortedCons(key, first, rest);
      }
    }
  }

  /** Sorting gives the same elements, by ascending key. */
  lemma {:induction false} SortSorts<T>(key: T -> real, list: seq<T>)
    ensures Sorted(key, Sort(key, list)) && multiset(Sort(key, list)) == multiset(list)
  {
    if list != [] {
      var n := |list| - 1;
      assert list == list[..n] + [list[n]];
      SortSorts(key, list[..n]);
      InsertSorts(key, Sort(key, list[..n]), list[n]);
      InsertAdds(key, Sort(key, list[..n]), list[n]);
    }
  }

  /** The elements of one key, in order. */
  function WithKey<T>(key: T -> real, list: seq<T>, k: real): seq<T> {
    if list == [] then []
    else (if key(list[0]) == k then [list[0]] else []) + WithKey(key, list[1..], k)
  }

  lemma {:induction false} WithKeyAppend<T>(key: T -> real, a: seq<T>, b: seq<T>, k: real)
    ensures WithKey(key, a + b, k) == WithKey(key, a, k) + WithKey(key, b, k)
    decreases |a|
  {
    if a == [] {
      assert a + b == b;
    } else {
      var first := if key(a[0]) == k then [a[0]] else [];
      assert (a + b)[1..] == a[1..] + b;
      WithKeyAppend(key, a[1..], b, k);
      assert first + (WithKey(key, a[1..], k) + WithKey(key, b, k)) == WithKey(key, a, k) + WithKey(key, b, k);
    }
  }

  lemma {:induction false} NoneWithKey<T>(key: T -> real, list: seq<T>, k: real)
    requires forall x | x in list :: key(x) != k
    ensures WithKey(key, list, k) == []
  {
    if list != [] { NoneWithKey(key, list[1..], k); }
  }

  lemma {:induction false} InsertIsLast<T>(key: T -> real, sorted: seq<T>, x: T, k: real)
    requires Sorted(key, sorted)
    ensures WithKey(key, Insert(key, sorted, x), k) == WithKey(key, sorted, k) + WithKey(key, [x], k)
  {
    if sorted != [] {
      if key(x) < key(sorted[0]) {
        WithKeyAppend(key, [x], sorted, k);
        if key(x) == k { NoneWithKey(key, sorted, k); }
      } else {
        InsertIsLast(key, sorted[1..], x, k);
        assert sorted == [sorted[0]] + sorted[1..];
      }
    }
  }

  /** Elements with equal keys keep their order. */
  lemma {:induction false} SortIsStable<T>(key: T -> real, list: seq<T>, k: real)
    ensures WithKey(key, Sort(key, list), k) == WithKey(key, list, k)
  {
    if list != [] {
      var n := |list| - 1;
      assert list == list[..n] + [list[n]];
      WithKeyAppend(key, list[..n], [list[n]], k);
      SortIsStable(key, list[..n], k);
      SortSorts(key, list[..n]);
      InsertIsLast(key, Sort(key, list[..n]), list[n], k);
    }
  }
}
