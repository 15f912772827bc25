/** Interpolated percentiles over real samples. */
module Percentile {
  import opened Common
  import opened Sorting

  function Itself(x: real): real { x }

  function Sorted(s: seq<real>): (r: seq<real>)
    ensures |r| == |s|
  {
    SortBy(Itself, s)
  }

  predicate Ascending(s: seq<real>) {
    forall i, j :: 0 <= i < j < |s| ==> s[i] <= s[j]
  }

  function Rank(n: nat, p: real): real {
    (p / 100.0) * ((n - 1) as real)
  }

  function Upper(n: nat, low: int): int {
    if low + 1 < n - 1 then low + 1 else n - 1
  }

  /** A weighted mean of two neighbours. */
  function Mix(a: real, b: real, w: real): real {
    a * (1.0 - w) + b * w
  }

  /** The sweep's form, on sorted samples. */
  function OfSorted(s: seq<real>, p: real): real
    requires 0.0 <= p <= 100.0
  {
    if s == [] then 0.0
    else if |s| == 1 then s[0]
    else
      RankInside(|s|, p);
      var idx := Rank(|s|, p);
      var low := idx.Floor;
      var weight := idx - low as real;
      Mix(s[low], s[Upper(|s|, low)], weight)
  }

  /** The REST cohort's form: sorts its samples, and adds the weighted difference. */
  function OfSamples(samples: seq<real>, p: real): real
    requires 0.0 <= p <= 100.0
  {
    if samples == [] then 0.0
    else if |samples| == 1 then samples[0]
    else
      RankInside(|samples|, p);
      var s := Sorted(samples);
      var idx := Rank(|s|, p);
      var low := idx.Floor;
      var frac := idx - low as real;
      s[low] + (s[Upper(|s|, low)] - s[low]) * frac
  }

  /** The anchor trajectory's form: an empty sample set is an error. */
  function OfAnchors(samples: seq<real>, p: real): Option<real>
    requires 0.0 <= p <= 100.0
  {
    if samples == [] then None else Some(OfSorted(Sorted(samples), p))
  }

  lemma RankInside(n: nat, p: real)
    requires n >= 1 && 0.0 <= p <= 100.0
    ensures 0.0 <= Rank(n, p) <= (n - 1) as real
    ensures 0 <= Rank(n, p).Floor <= Upper(n, Rank(n, p).Floor) < n
  {
    var q, m := p / 100.0, (n - 1) as real;
    assert 0.0 <= q <= 1.0;
    NonNegative(q, m);
    Times(q, 1.0, m);
  }

  lemma MinusTimes(x: real, y: real, m: real)
    ensures (x - y) * m == x * m - y * m
  {
  }

  lemma NonNegative(x: real, m: real)
    requires 0.0 <= x && 0.0 <= m
    ensures 0.0 <= x * m
  {
  }

  lemma Times(x: real, y: real, m: real)
    requires x <= y && 0.0 <= m
    ensures x * m <= y * m
  {
    MinusTimes(y, x, m);
    NonNegative(y - x, m);
  }

  lemma Interpolations(a: real, b: real, w: real)
    ensures Mix(a, b, w) == a + (b - a) * w
  {
    MinusTimes(b, a, w);
    MinusTimes(1.0, w, a);
  }

  /** The point a fraction `w` of the way between two values lies between them. */
  lemma Between(a: real, b: real, w: real)
    requires a <= b && 0.0 <= w <= 1.0
    ensures a <= Mix(a, b, w) <= b
  {
    Interpolations(a, b, w);
    NonNegative(b - a, w);
    Times(w, 1.0, b - a);
  }

  // ----- Sorting reals -----

  lemma SortedAscends(s: seq<real>)
    ensures Ascending(Sorted(s))
    ensures multiset(Sorted(s)) == multiset(s)
  {
    SortCorrect(Itself, s);
    assert forall i, j :: 0 <= i < j < |s| ==> Itself(Sorted(s)[i]) <= Itself(Sorted(s)[j]);
  }

  lemma SortedMembers(s: seq<real>, x: real)
    ensures x in Sorted(s) <==> x in s
  {
    SortedAscends(s);
    assert x in Sorted(s) <==> x in multiset(Sorted(s));
    assert x in s <==> x in multiset(s);
  }

  lemma HeadIsLeast(s: seq<real>, x: real)
    requires Ascending(s) && x in s
    ensures s[0] <= x
  {
  }

  lemma SameMembers(s: seq<real>, t: seq<real>, x: real)
    requires multiset(s) == multiset(t) && x in s
    ensures x in t
  {
    assert x in multiset(s);
  }

  lemma SameTails(s: seq<real>, t: seq<real>)
    requires s != [] && t != [] && s[0] == t[0] && multiset(s) == multiset(t)
    ensures multiset(s[1..]) == multiset(t[1..])
  {
    assert s == [s[0]] + s[1..] && t == [t[0]] + t[1..];
    assert multiset(s[1..]) == multiset(s) - multiset{s[0]};
  }

  lemma {:induction false} AscendingUnique(s: seq<real>, t: seq<real>)
    requires Ascending(s) && Ascending(t) && multiset(s) == multiset(t)
    ensures s == t
  {
    assert |multiset(s)| == |s| && |multiset(t)| == |t|;
    if s != [] {
      SameMembers(s, t, s[0]);
      SameMembers(t, s, t[0]);
      HeadIsLeast(s, t[0]);
      HeadIsLeast(t, s[0]);
      SameTails(s, t);
      AscendingUnique(s[1..], t[1..]);
    }
  }

  /** The order the samples arrived in does not matter. */
  lemma OrderIrrelevant(s: seq<real>, t: seq<real>, p: real)
    requires multiset(s) == multiset(t) && 0.0 <= p <= 100.0
    ensures Sorted(s) == Sorted(t)
    ensures OfSamples(s, p) == OfSamples(t, p)
  {
    SortedAscends(s);
    SortedAscends(t);
    AscendingUnique(Sorted(s), Sorted(t));
    FormsAgree(s, p);
    FormsAgree(t, p);
  }

  /** The code's three percentiles agree, except that one of them refuses an empty sample set. */
  lemma FormsAgree(s: seq<real>, p: real)
    requires 0.0 <= p <= 100.0
    ensures OfSamples(s, p) == OfSorted(Sorted(s), p)
    ensures OfAnchors(s, p) == if s == [] then None else Some(OfSamples(s, p))
  {
    if |s| == 1 {
      SortedMembers(s, Sorted(s)[0]);
    } else if |s| > 1 {
      RankInside(|s|, p);
      var u, idx := Sorted(s), Rank(|s|, p);
      var low := idx.Floor;
      Interpolations(u[low], u[Upper(|s|, low)], idx - low as real);
    }
  }

  // ----- Laws -----

  /** A percentile lies between the samples around its rank. */
  lemma Bracketed(s: seq<real>, p: real)
    requires Ascending(s) && |s| >= 2 && 0.0 <= p <= 100.0
    ensures var low := Rank(|s|, p).Floor;
      0 <= low <= Upper(|s|, low) < |s| && s[low] <= OfSorted(s, p) <= s[Upper(|s|, low)]
  {
    RankInside(|s|, p);
    var idx := Rank(|s|, p);
    var low := idx.Floor;
    Between(s[low], s[Upper(|s|, low)], idx - low as real);
  }

  /** Between the minimum and the maximum. */
  lemma WithinRange(samples: seq<real>, p: real)
    requires samples != [] && 0.0 <= p <= 100.0
    ensures exists a, b :: a in samples && b in samples && a <= OfSamples(samples, p) <= b
  {
    FormsAgree(samples, p);
    SortedAscends(samples);
    var s := Sorted(samples);
    SortedMembers(samples, s[0]);
    SortedMembers(samples, s[|s| - 1]);
    if |s| >= 2 {
      Bracketed(s, p);
    }
    assert s[0] <= OfSorted(s, p) <= s[|s| - 1];
  }

  lemma Further(a: real, b: real, v: real, w: real)
    requires a <= b && v <= w
    ensures Mix(a, b, v) <= Mix(a, b, w)
  {
    Interpolations(a, b, v);
    Interpolations(a, b, w);
    Times(v, w, b - a);
  }

  lemma RankMonotone(n: nat, p: real, q: real)
    requires n >= 1 && p <= q
    ensures Rank(n, p) <= Rank(n, q)
  {
    Times(p / 100.0, q / 100.0, (n - 1) as real);
  }

  /** Monotone in the rank asked for. */
  lemma MonotoneInP(s: seq<real>, p: real, q: real)
    requires Ascending(s) && 0.0 <= p <= q <= 100.0
    ensures OfSorted(s, p) <= OfSorted(s, q)
  {
    hide Rank, Mix;
    if |s| >= 2 {
      RankInside(|s|, p);
      RankInside(|s|, q);
      RankMonotone(|s|, p, q);
      var i, j := Rank(|s|, p), Rank(|s|, q);
      var low, high := i.Floor, j.Floor;
      if low == high {
        Further(s[low], s[Upper(|s|, low)], i - low as real, j - low as real);
      } else {
        Bracketed(s, p);
        Bracketed(s, q);
        assert Upper(|s|, low) <= high;
      }
    }
  }

  /** What every block reports: the three percentiles of its sorted samples, in ascending order. */
  lemma P50P95P99(samples: seq<real>)
    ensures OfSorted(Sorted(samples), 50.0) <= OfSorted(Sorted(samples), 95.0) <= OfSorted(Sorted(samples), 99.0)
  {
    SortedAscends(samples);
    MonotoneInP(Sorted(samples), 50.0, 95.0);
    MonotoneInP(Sorted(samples), 95.0, 99.0);
  }

  // ----- Stability against measurement noise -----

  /** Each sample of `s` exceeds its counterpart by at most `d`. */
  predicate AtMostAbove(s: seq<real>, t: seq<real>, d: real) {
    |s| == |t| && forall i :: 0 <= i < |s| ==> s[i] <= t[i] + d
  }

  lemma InsertHead(s: seq<real>)
    requires Ascending(s) && s != []
    ensures Insert(Itself, s[0], s[1..]) == s
  {
    if |s| > 1 {
      assert s[1..][0] == s[1];
    }
  }

  lemma ConsAbove(x: real, s: seq<real>, y: real, t: seq<real>, d: real)
    requires AtMostAbove(s, t, d) && x <= y + d
    ensures AtMostAbove([x] + s, [y] + t, d)
  {
  }

  lemma {:induction false} InsertAbove(x: real, s: seq<real>, y: real, t: seq<real>, d: real)
    requires Ascending(s) && Ascending(t) && AtMostAbove(s, t, d) && x <= y + d
    ensures AtMostAbove(Insert(Itself, x, s), Insert(Itself, y, t), d)
    decreases |s|
  {
    if s == [] || (x <= s[0] && y <= t[0]) {
      ConsAbove(x, s, y, t, d);
    } else {
      var s', t' := s[1..], t[1..];
      assert s[0] <= t[0] + d;
      assert Ascending(s') && Ascending(t') && AtMostAbove(s', t', d);
      InsertHead(s);
      InsertHead(t);
      hide AtMostAbove, Ascending;
      if x <= s[0] {
        InsertAbove(s[0], s', y, t', d);
        ConsAbove(x, s, t[0], Insert(Itself, y, t'), d);
      } else if y <= t[0] {
        InsertAbove(x, s', t[0], t', d);
        ConsAbove(s[0], Insert(Itself, x, s'), y, t, d);
      } else {
        InsertAbove(x, s', y, t', d);
        ConsAbove(s[0], Insert(Itself, x, s'), t[0], Insert(Itself, y, t'), d);
      }
    }
  }

  lemma {:induction false} SortAbove(s: seq<real>, t: seq<real>, d: real)
    requires AtMostAbove(s, t, d)
    ensures AtMostAbove(Sorted(s), Sorted(t), d)
  {
    if s != [] {
      SortAbove(s[1..], t[1..], d);
      SortedAscends(s[1..]);
      SortedAscends(t[1..]);
      InsertAbove(s[0], Sorted(s[1..]), t[0], Sorted(t[1..]), d);
    }
  }

  lemma PercentileAbove(s: seq<real>, t: seq<real>, p: real, d: real)
    requires AtMostAbove(s, t, d) && 0.0 <= p <= 100.0 && s != []
    ensures OfSamples(s, p) <= OfSamples(t, p) + d
  {
    FormsAgree(s, p);
    FormsAgree(t, p);
    SortAbove(s, t, d);
    if |s| == 1 {
      assert OfSamples(s, p) == s[0] && OfSamples(t, p) == t[0];
    } else {
      RankInside(|s|, p);
      var idx := Rank(|s|, p);
      var low := idx.Floor;
      var high := Upper(|s|, low);
      var w := idx - low as real;
      MixAbove(Sorted(s)[low], Sorted(s)[high], Sorted(t)[low], Sorted(t)[high], w, d);
    }
  }

  lemma MixAbove(a: real, b: real, c: real, e: real, w: real, d: real)
    requires a <= c + d && b <= e + d && 0.0 <= w <= 1.0
    ensures Mix(a, b, w) <= Mix(c, e, w) + d
  {
    hide Mix;
    MixMonotone(a, b, c + d, e + d, w);
    MixShifted(c, e, w, d);
  }

  lemma MixMonotone(a: real, b: real, c: real, e: real, w: real)
    requires a <= c && b <= e && 0.0 <= w <= 1.0
    ensures Mix(a, b, w) <= Mix(c, e, w)
  {
    hide Mix, Product;
    MixIsSum(a, b, w);
    MixIsSum(c, e, w);
    ProductGrows(a, c, 1.0 - w);
    ProductGrows(b, e, w);
  }

  // The solver reasons more steadily about named products.
  function Product(x: real, m: real): real {
    x * m
  }

  lemma MixIsSum(a: real, b: real, w: real)
    ensures Mix(a, b, w) == Product(a, 1.0 - w) + Product(b, w)
  {
  }

  lemma ProductGrows(x: real, y: real, m: real)
    requires x <= y && 0.0 <= m
    ensures Product(x, m) <= Product(y, m)
  {
    Times(x, y, m);
  }

  lemma SameProduct(x: real, y: real, w: real)
    requires x == y
    ensures x * w == y * w
  {
  }

  lemma MixShifted(a: real, b: real, w: real, d: real)
    ensures Mix(a + d, b + d, w) == Mix(a, b, w) + d
  {
    hide Mix;
    Interpolations(a, b, w);
    Interpolations(a + d, b + d, w);
    SameProduct((b + d) - (a + d), b - a, w);
  }

  /** Moving every sample by at most `d`, whatever it does to their order, moves each percentile by at
      most `d`. */
  lemma MovesAtMost(s: seq<real>, t: seq<real>, p: real, d: real)
    requires |s| == |t| && s != [] && 0.0 <= p <= 100.0
    requires forall i :: 0 <= i < |s| ==> t[i] - d <= s[i] <= t[i] + d
    ensures OfSamples(t, p) - d <= OfSamples(s, p) <= OfSamples(t, p) + d
  {
    PercentileAbove(s, t, p, d);
    PercentileAbove(t, s, p, d);
  }

  // ----- Median -----

  /** The middle sample, or the mean of the two middle ones. */
  function Median(samples: seq<real>): real
    requires samples != []
  {
    var s := Sorted(samples);
    var n := |s|;
    if n % 2 == 1 then s[n / 2] else (s[n / 2 - 1] + s[n / 2]) / 2.0
  }

  /** The library's median, computed by another rule, is the 50th percentile. */
  lemma MedianIsP50(samples: seq<real>)
    requires samples != []
    ensures Median(samples) == OfSamples(samples, 50.0)
  {
    FormsAgree(samples, 50.0);
    var s := Sorted(samples);
    var n := |s|;
    if n >= 2 {
      RankInside(n, 50.0);
      var idx := Rank(n, 50.0);
      assert 50.0 / 100.0 == 0.5;
      if n % 2 == 1 {
        assert n - 1 == 2 * (n / 2);
        assert idx == (n / 2) as real;
      } else {
        assert n - 1 == 2 * (n / 2 - 1) + 1;
        assert idx == (n / 2 - 1) as real + 0.5;
        assert idx.Floor == n / 2 - 1;
      }
    }
  }

  // ----- Exact values -----

  /** At a whole rank the percentile is the sample of that rank; so 0 gives the least and 100 the greatest. */
  lemma AtWholeRank(s: seq<real>, p: real, k: nat)
    requires k < |s| && 0.0 <= p <= 100.0 && (|s| >= 2 ==> Rank(|s|, p) == k as real)
    ensures OfSorted(s, p) == s[k]
  {
    if |s| >= 2 {
      hide Rank;
      assert (k as real).Floor == k;
      MixOfNone(s[k], s[Upper(|s|, k)]);
    }
  }

  lemma MixOfNone(a: real, b: real)
    ensures Mix(a, b, 0.0) == a
  {
  }

  lemma EndsOfRange(samples: seq<real>)
    requires samples != []
    ensures forall x :: x in samples ==> OfSamples(samples, 0.0) <= x <= OfSamples(samples, 100.0)
    ensures OfSamples(samples, 0.0) in samples && OfSamples(samples, 100.0) in samples
  {
    var s := Sorted(samples);
    FormsAgree(samples, 0.0);
    FormsAgree(samples, 100.0);
    SortedAscends(samples);
    AtWholeRank(s, 0.0, 0);
    AtWholeRank(s, 100.0, |s| - 1);
    SortedMembers(samples, s[0]);
    SortedMembers(samples, s[|s| - 1]);
    forall x | x in samples ensures s[0] <= x <= s[|s| - 1] {
      SortedMembers(samples, x);
    }
  }

  /** Between two whole ranks it is linear: a fraction `f` of the way in rank is that fraction of the way in
      value. */
  lemma LinearBetweenRanks(s: seq<real>, p: real, k: nat, f: real)
    requires k + 1 < |s| && 0.0 <= p <= 100.0 && 0.0 <= f < 1.0 && Rank(|s|, p) == k as real + f
    ensures OfSorted(s, p) == s[k] + (s[k + 1] - s[k]) * f
  {
    hide Rank, Mix;
    assert (k as real + f).Floor == k;
    Interpolations(s[k], s[k + 1], f);
  }
}
