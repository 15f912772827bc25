/** Stable sorting by a key, as Python's `sorted` does it. */
module Sorting {

  /** Inserts before the first element whose key is not smaller. */
  function Insert<T>(key: T -> real, x: T, s: seq<T>): (r: seq<T>)
    ensures |r| == |s| + 1
  {
    if s == [] || key(x) <= key(s[0]) then [x] + s else [s[0]] + Insert(key, x, s[1..])
  }

  function SortBy<T>(key: T -> real, s: seq<T>): (r: seq<T>)
    ensures |r| == |s|
  {
    if s == [] then [] else Insert(key, s[0], SortBy(key, s[1..]))
  }

  ghost predicate SortedBy<T>(key: T -> real, s: seq<T>) {
    forall i, j :: 0 <= i < j < |s| ==> key(s[i]) <= key(s[j])
  }

  lemma {:induction false} InsertElements<T>(key: T -> real, x: T, s: seq<T>)
    ensures multiset(Insert(key, x, s)) == multiset(s) + multiset{x}
  {
    if s != [] {
      assert s == [s[0]] + s[1..];
      InsertElements(key, x, s[1..]);
    }
  }

  lemma {:induction false} InsertSorted<T>(key: T -> real, x: T, s: seq<T>)
    requires SortedBy(key, s)
    ensures SortedBy(key, Insert(key, x, s))
  {
    if s != [] && key(x) > key(s[0]) {
      InsertSorted(key, x, s[1..]);
      InsertElements(key, x, s[1..]);
      var tail := Insert(key, x, s[1..]);
      forall y | y in tail ensures key(s[0]) <= key(y) {
        assert y in multiset(tail);
      }
    }
  }

  /** Sorting orders the elements and loses none. */
  lemma {:induction false} SortCorrect<T>(key: T -> real, s: seq<T>)
    ensures multiset(SortBy(key, s)) == multiset(s)
    ensures SortedBy(key, SortBy(key, s))
  {
    if s != [] {
      assert s == [s[0]] + s[1..];
      SortCorrect(key, s[1..]);
      InsertElements(key, s[0], SortBy(key, s[1..]));
      InsertSorted(key, s[0], SortBy(key, s[1..]));
    }
  }

  /** A list already in order, ties included, is left as it is. */
  lemma {:induction false} SortedIsFixed<T>(key: T -> real, s: seq<T>)
    requires SortedBy(key, s)
    ensures SortBy(key, s) == s
  {
    if s != [] {
      SortedIsFixed(key, s[1..]);
    }
  }

  /** The elements with one key, in order. */
  function WithKey<T>(key: T -> real, k: real, s: seq<T>): seq<T> {
    if s == [] then [] else (if key(s[0]) == k then [s[0]] else []) + WithKey(key, k, s[1..])
  }

  lemma {:induction false} InsertStable<T>(key: T -> real, x: T, s: seq<T>, k: real)
    ensures WithKey(key, k, Insert(key, x, s)) == WithKey(key, k, [x] + s)
  {
    assert ([x] + s)[1..] == s;
    if s != [] && key(x) > key(s[0]) {
      InsertStable(key, x, s[1..], k);
      var tail := Insert(key, x, s[1..]);
      assert ([s[0]] + tail)[1..] == tail;
      assert ([x] + s[1..])[1..] == s[1..];
    }
  }

  /** Stability: elements with the same key keep their order. */
  lemma {:induction false} SortStable<T>(key: T -> real, s: seq<T>, k: real)
    ensures WithKey(key, k, SortBy(key, s)) == WithKey(key, k, s)
  {
    if s != [] {
      SortStable(key, s[1..], k);
      var tail := SortBy(key, s[1..]);
      InsertStable(key, s[0], tail, k);
      assert ([s[0]] + tail)[1..] == tail;
    }
  }
}
