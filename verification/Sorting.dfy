/** Python's stable `list.sort(key=..., reverse=True)`, as the function both linkers rely on. */
module Sorting {
  import opened Basics

  ghost predicate SortedDesc<T>(xs: seq<T>, key: T -> real) {
    forall i, j :: 0 <= i < j < |xs| ==> key(xs[i]) >= key(xs[j])
  }

  /** The elements carrying exactly this key, in their order of appearance. */
  function WithKey<T>(xs: seq<T>, key: T -> real, k: real): seq<T> {
    if xs == [] then []
    else if key(xs[0]) == k then [xs[0]] + WithKey(xs[1..], key, k)
    else WithKey(xs[1..], key, k)
  }

  /** Places `x` before the first element whose key does not exceed its own. */
  function InsertDesc<T>(x: T, xs: seq<T>, key: T -> real): seq<T> {
    if xs == [] || key(x) >= key(xs[0]) then [x] + xs
    else [xs[0]] + InsertDesc(x, xs[1..], key)
  }

  function SortDesc<T>(xs: seq<T>, key: T -> real): seq<T> {
    if xs == [] then [] else InsertDesc(xs[0], SortDesc(xs[1..], key), key)
  }

  lemma {:induction false} InsertDescElements<T>(x: T, xs: seq<T>, key: T -> real)
    ensures multiset(InsertDesc(x, xs, key)) == multiset{x} + multiset(xs)
  {
    if xs == [] || key(x) >= key(xs[0]) {
    } else {
      InsertDescElements(x, xs[1..], key);
      assert xs == [xs[0]] + xs[1..];
    }
  }

  lemma {:induction false} InsertDescSorts<T>(x: T, xs: seq<T>, key: T -> real)
    requires SortedDesc(xs, key)
    ensures SortedDesc(InsertDesc(x, xs, key), key)
  {
    if xs == [] || key(x) >= key(xs[0]) {
    } else {
      var rest := InsertDesc(x, xs[1..], key);
      InsertDescSorts(x, xs[1..], key);
      InsertDescElements(x, xs[1..], key);
      forall i | 0 <= i < |rest| ensures key(xs[0]) >= key(rest[i]) {
        assert rest[i] in multiset(rest);
        assert rest[i] == x || rest[i] in xs[1..];
      }
    }
  }

  lemma {:induction false} InsertDescTies<T>(x: T, xs: seq<T>, key: T -> real, k: real)
    ensures WithKey(InsertDesc(x, xs, key), key, k) == (if key(x) == k then [x] else []) + WithKey(xs, key, k)
  {
    var out := InsertDesc(x, xs, key);
    if xs == [] || key(x) >= key(xs[0]) {
      assert out[1..] == xs;
    } else {
      InsertDescTies(x, xs[1..], key, k);
      assert out[1..] == InsertDesc(x, xs[1..], key);
    }
  }

  /** The sort is a sorted permutation, and elements that tie keep their input order. */
  lemma {:induction false} SortDescIsStable<T>(xs: seq<T>, key: T -> real)
    ensures SortedDesc(SortDesc(xs, key), key)
    ensures multiset(SortDesc(xs, key)) == multiset(xs)
    ensures forall k :: WithKey(SortDesc(xs, key), key, k) == WithKey(xs, key, k)
  {
    if xs != [] {
      var rest := SortDesc(xs[1..], key);
      SortDescIsStable(xs[1..], key);
      InsertDescSorts(xs[0], rest, key);
      InsertDescElements(xs[0], rest, key);
      assert xs == [xs[0]] + xs[1..];
      forall k ensures WithKey(SortDesc(xs, key), key, k) == WithKey(xs, key, k) {
        InsertDescTies(xs[0], rest, key, k);
      }
    }
  }

  lemma SortDescKeepsElements<T>(xs: seq<T>, key: T -> real)
    ensures forall x :: x in SortDesc(xs, key) <==> x in xs
  {
    SortDescIsStable(xs, key);
    forall x ensures x in SortDesc(xs, key) <==> x in xs {
      assert x in SortDesc(xs, key) <==> x in multiset(SortDesc(xs, key));
      assert x in xs <==> x in multiset(xs);
    }
  }
}
