/** Python's `sorted(xs, key=key, reverse=True)`: descending, and stable as `sorted` always is. */
module StableSort {
  predicate Descending<T>(xs: seq<T>, key: T -> int) {
    forall i, j | 0 <= i < j < |xs| :: key(xs[i]) >= key(xs[j])
  }

  /** The elements of one key, in order. */
  function OfKey<T>(xs: seq<T>, key: T -> int, k: int): seq<T> {
    if xs == [] then []
    else OfKey(xs[..|xs| - 1], key, k) + if key(xs[|xs| - 1]) == k then [xs[|xs| - 1]] else []
  }

  /** Each element goes after the others of its key. */
  function Sort<T>(xs: seq<T>, key: T -> int): seq<T> {
    if xs == [] then [] else Insert(Sort(xs[..|xs| - 1], key), xs[|xs| - 1], key)
  }

  function Insert<T>(xs: seq<T>, x: T, key: T -> int): seq<T> {
    if xs == [] || key(xs[|xs| - 1]) >= key(x) then xs + [x]
    else Insert(xs[..|xs| - 1], x, key) + [xs[|xs| - 1]]
  }

  function Own<T>(x: T, key: T -> int, k: int): seq<T> {
    if key(x) == k then [x] else []
  }

  lemma OfKeySnoc<T>(xs: seq<T>, x: T, key: T -> int, k: int)
    ensures OfKey(xs + [x], key, k) == OfKey(xs, key, k) + Own(x, key, k)
  {
    assert (xs + [x])[..|xs|] == xs;
  }

  lemma Exchange<T>(xs: seq<T>, a: seq<T>, b: seq<T>)
    requires a == [] || b == []
    ensures xs + a + b == xs + b + a
  {
    if a == [] {
      assert xs + a + b == xs + b == xs + b + a;
    } else {
      assert xs + a + b == xs + a == xs + b + a;
    }
  }

  lemma {:induction false} InsertIsStable<T>(xs: seq<T>, x: T, key: T -> int, k: int)
    ensures OfKey(Insert(xs, x, key), key, k) == OfKey(xs, key, k) + Own(x, key, k)
    decreases |xs|
  {
    if xs == [] || key(xs[|xs| - 1]) >= key(x) {
      OfKeySnoc(xs, x, key, k);
    } else {
      var init, last := xs[..|xs| - 1], xs[|xs| - 1];
      InsertIsStable(init, x, key, k);
      OfKeySnoc(Insert(init, x, key), last, key, k);
      Exchange(OfKey(init, key, k), Own(x, key, k), Own(last, key, k));
    }
  }

  lemma {:induction false} InsertKeepsElements<T>(xs: seq<T>, x: T, key: T -> int)
    ensures multiset(Insert(xs, x, key)) == multiset(xs) + multiset{x}
    decreases |xs|
  {
    if xs != [] && key(xs[|xs| - 1]) < key(x) {
      InsertKeepsElements(xs[..|xs| - 1], x, key);
      assert xs == xs[..|xs| - 1] + [xs[|xs| - 1]];
    }
  }

  predicate AtLeast<T>(xs: seq<T>, key: T -> int, bound: int) {
    forall i | 0 <= i < |xs| :: key(xs[i]) >= bound
  }

  lemma {:induction false} InsertKeepsBound<T>(xs: seq<T>, x: T, key: T -> int, bound: int)
    requires AtLeast(xs, key, bound) && key(x) >= bound
    ensures AtLeast(Insert(xs, x, key), key, bound)
    decreases |xs|
  {
    if xs != [] && key(xs[|xs| - 1]) < key(x) {
      InsertKeepsBound(xs[..|xs| - 1], x, key, bound);
    }
  }

  lemma {:induction false} InsertKeepsDescending<T>(xs: seq<T>, x: T, key: T -> int)
    requires Descending(xs, key)
    ensures Descending(Insert(xs, x, key), key)
    decreases |xs|
  {
    if xs != [] && key(xs[|xs| - 1]) < key(x) {
      InsertKeepsDescending(xs[..|xs| - 1], x, key);
      InsertKeepsBound(xs[..|xs| - 1], x, key, key(xs[|xs| - 1]));
    }
  }

  /** Nothing is lost or added, and keys never rise. */
  lemma {:induction false} SortIsDescending<T>(xs: seq<T>, key: T -> int)
    ensures Descending(Sort(xs, key), key)
    ensures multiset(Sort(xs, key)) == multiset(xs)
    decreases |xs|
  {
    if xs != [] {
      SortIsDescending(xs[..|xs| - 1], key);
      InsertKeepsDescending(Sort(xs[..|xs| - 1], key), xs[|xs| - 1], key);
      InsertKeepsElements(Sort(xs[..|xs| - 1], key), xs[|xs| - 1], key);
      assert xs == xs[..|xs| - 1] + [xs[|xs| - 1]];
    }
  }

  /** Elements of one key keep their order. */
  lemma {:induction false} SortIsStable<T>(xs: seq<T>, key: T -> int, k: int)
    ensures OfKey(Sort(xs, key), key, k) == OfKey(xs, key, k)
    decreases |xs|
  {
    if xs != [] {
      SortIsStable(xs[..|xs| - 1], key, k);
      InsertIsStable(Sort(xs[..|xs| - 1], key), xs[|xs| - 1], key, k);
    }
  }
}
