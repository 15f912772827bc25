/** Small shared vocabulary: optional values, results, and facts about sequences. */
module Common {

  datatype Option<+T> = None | Some(value: T)

  /** A value, or the error the source would raise. */
  datatype Result<+T, +E> = Ok(value: T) | Err(error: E)

  /** No value occurs at two positions. */
  ghost predicate NoDup<T>(s: seq<T>) {
    forall i, j :: 0 <= i < j < |s| ==> s[i] != s[j]
  }

  ghost function Elements<T>(s: seq<T>): set<T> {
    set x | x in s
  }

  lemma NoDupConcat<T>(s: seq<T>, t: seq<T>)
    requires NoDup(s) && NoDup(t)
    requires forall x :: x in s ==> x !in t
    ensures NoDup(s + t)
  {
    var u := s + t;
    forall i, j | 0 <= i < j < |u| ensures u[i] != u[j] {
      if i < |s| <= j {
        assert u[i] in s && u[j] in t;
      }
    }
  }

  /** Without repetitions, the set of elements is as large as the sequence. */
  lemma {:induction false} NoDupCardinality<T>(s: seq<T>)
    requires NoDup(s)
    ensures |Elements(s)| == |s|
  {
    if s == [] {
      assert Elements(s) == {};
    } else {
      var last := |s| - 1;
      var front := s[..last];
      assert s == front + [s[last]];
      NoDupCardinality(front);
      assert Elements(s) == Elements(front) + {s[last]};
      assert s[last] !in Elements(front);
    }
  }

  /** Two duplicate-free sequences with the same elements have the same multiset. */
  lemma NoDupSameElements<T>(s: seq<T>, t: seq<T>)
    requires NoDup(s) && NoDup(t) && Elements(s) == Elements(t)
    ensures multiset(s) == multiset(t)
    ensures |s| == |t|
  {
    NoDupCardinality(s);
    NoDupCardinality(t);
    forall x ensures multiset(s)[x] == multiset(t)[x] {
      NoDupMultiplicity(s, x);
      NoDupMultiplicity(t, x);
      assert x in s <==> x in Elements(s);
      assert x in t <==> x in Elements(t);
    }
  }

  lemma {:induction false} NoDupMultiplicity<T>(s: seq<T>, x: T)
    requires NoDup(s)
    ensures multiset(s)[x] == if x in s then 1 else 0
  {
    if s != [] {
      assert s == [s[0]] + s[1..];
      NoDupMultiplicity(s[1..], x);
    }
  }

  function Image<A, B>(f: A -> B, s: seq<A>): (r: seq<B>)
    ensures |r| == |s|
  {
    seq(|s|, i requires 0 <= i < |s| => f(s[i]))
  }

  function Without<T>(s: seq<T>, k: nat): (r: seq<T>)
    requires k < |s|
    ensures |r| == |s| - 1
  {
    s[..k] + s[k + 1..]
  }

  lemma TakeOut<T>(s: seq<T>, k: nat)
    requires k < |s|
    ensures multiset(s) == multiset(Without(s, k)) + multiset{s[k]}
  {
    assert s == s[..k] + [s[k]] + s[k + 1..];
  }

  lemma TakeOutOfImage<A, B>(f: A -> B, s: seq<A>, k: nat)
    requires k < |s|
    ensures multiset(Image(f, s)) == multiset(Image(f, Without(s, k))) + multiset{f(s[k])}
  {
    TakeOut(Image(f, s), k);
    assert Image(f, Without(s, k)) == Without(Image(f, s), k);
  }

  lemma FindIn<T>(s: seq<T>, x: T) returns (k: nat)
    requires x in multiset(s)
    ensures k < |s| && s[k] == x
  {
    k :| k < |s| && s[k] == x;
  }

  /** Reordering a sequence reorders its image. */
  lemma {:induction false} ImageKeepsMultiset<A, B>(f: A -> B, s: seq<A>, t: seq<A>)
    requires multiset(s) == multiset(t)
    ensures multiset(Image(f, s)) == multiset(Image(f, t))
    decreases |s|
  {
    assert |multiset(s)| == |s| && |multiset(t)| == |t|;
    if s != [] {
      assert s[0] in multiset(t);
      var k := FindIn(t, s[0]);
      TakeOut(s, 0);
      TakeOut(t, k);
      TakeOutOfImage(f, s, 0);
      TakeOutOfImage(f, t, k);
      hide Image, Without;
      SameRest(multiset(Without(s, 0)), multiset(Without(t, k)), s[0]);
      ImageKeepsMultiset(f, Without(s, 0), Without(t, k));
    }
  }

  lemma SameRest<T>(a: multiset<T>, b: multiset<T>, x: T)
    requires a + multiset{x} == b + multiset{x}
    ensures a == b
  {
    assert a == (a + multiset{x}) - multiset{x} && b == (b + multiset{x}) - multiset{x};
  }

  // ----- Where a predicate holds -----

  /** The positions that satisfy `p`. */
  function Where<T>(p: T -> bool, s: seq<T>): seq<nat> {
    if s == [] then []
    else Where(p, s[..|s| - 1]) + (if p(s[|s| - 1]) then [|s| - 1] else [])
  }

  ghost predicate IsAscending(w: seq<nat>) {
    forall i, j :: 0 <= i < j < |w| ==> w[i] < w[j]
  }

  /** They ascend, and they are exactly those. */
  lemma {:induction false} WhereExact<T>(p: T -> bool, s: seq<T>)
    ensures IsAscending(Where(p, s))
    ensures forall c :: 0 <= c < |Where(p, s)| ==> Where(p, s)[c] < |s| && p(s[Where(p, s)[c]])
    ensures forall i: nat :: i < |s| && p(s[i]) ==> i in Where(p, s)
  {
    if s != [] {
      var n := |s| - 1;
      var front := Where(p, s[..n]);
      WhereExact(p, s[..n]);
      forall c | 0 <= c < |front| ensures front[c] < n && p(s[front[c]]) {
        assert s[..n][front[c]] == s[front[c]];
      }
      forall i: nat | i < n && p(s[i]) ensures i in front {
        assert s[..n][i] == s[i];
      }
    }
  }
}
