/**
 * The per-group reductions pandas applies: sum, mean, median, quantile,
 * max and min, each skipping missing values the way pandas skips NaN.
 */
module Stats {
  import opened Wrappers

  /** A measurement; `None` is a NaN. */
  type Value = Option<real>

  function Sum(xs: seq<real>): real {
    if xs == [] then 0.0 else xs[0] + Sum(xs[1..])
  }

  function Max(xs: seq<real>): (m: real)
    requires |xs| > 0
    ensures m in xs
    ensures forall x :: x in xs ==> x <= m
  {
    if |xs| == 1 then xs[0]
    else
      var rest := Max(xs[1..]);
      assert forall x :: x in xs ==> x == xs[0] || x in xs[1..];
      if xs[0] >= rest then xs[0] else rest
  }

  function Min(xs: seq<real>): (m: real)
    requires |xs| > 0
    ensures m in xs
    ensures forall x :: x in xs ==> m <= x
  {
    if |xs| == 1 then xs[0]
    else
      var rest := Min(xs[1..]);
      assert forall x :: x in xs ==> x == xs[0] || x in xs[1..];
      if xs[0] <= rest then xs[0] else rest
  }

  /** The arithmetic mean: the value that, taken once per element, adds up to the sum. */
  function Mean(xs: seq<real>): (m: real)
    requires |xs| > 0
    ensures |xs| as real * m == Sum(xs)
  {
    Sum(xs) / |xs| as real
  }

  /** A sum of non-negative values is non-negative. */
  lemma {:induction false} SumNonNegative(xs: seq<real>)
    requires forall x :: x in xs ==> x >= 0.0
    ensures Sum(xs) >= 0.0
  {
    if xs != [] {
      assert xs[0] in xs;
      assert forall x :: x in xs[1..] ==> x in xs;
      SumNonNegative(xs[1..]);
    }
  }

  /** One more value in [lo, hi] moves the bounds of a sum by lo and hi. */
  lemma BoundsGrow(n: real, x: real, rest: real, lo: real, hi: real)
    requires n * lo <= rest <= n * hi && lo <= x <= hi
    ensures (n + 1.0) * lo <= x + rest <= (n + 1.0) * hi
  {
    assert (n + 1.0) * lo == n * lo + lo && (n + 1.0) * hi == n * hi + hi;
  }

  /** A sum of values in [lo, hi] lies between n * lo and n * hi. */
  lemma {:induction false} SumBetween(xs: seq<real>, lo: real, hi: real)
    requires forall x :: x in xs ==> lo <= x <= hi
    ensures |xs| as real * lo <= Sum(xs) <= |xs| as real * hi
  {
    if xs != [] {
      var n := |xs[1..]| as real;
      var rest := Sum(xs[1..]);
      assert forall x :: x in xs[1..] ==> lo <= x <= hi by {
        assert forall x :: x in xs[1..] ==> x in xs;
      }
      SumBetween(xs[1..], lo, hi);
      assert lo <= xs[0] <= hi by {
        assert xs[0] in xs;
      }
      BoundsGrow(n, xs[0], rest, lo, hi);
      assert Sum(xs) == xs[0] + rest;
      assert |xs| as real == n + 1.0;
    }
  }

  /** The mean lies between the minimum and the maximum. */
  lemma MeanBetweenMinMax(xs: seq<real>)
    requires |xs| > 0
    ensures Min(xs) <= Mean(xs) <= Max(xs)
  {
    var lo, hi := Min(xs), Max(xs);
    assert lo <= Mean(xs) <= hi by {
      SumBetween(xs, lo, hi);
      MeanFromSumBounds(xs, lo, hi);
    }
  }

  lemma MeanFromSumBounds(xs: seq<real>, lo: real, hi: real)
    requires |xs| > 0
    requires |xs| as real * lo <= Sum(xs) <= |xs| as real * hi
    ensures lo <= Mean(xs) <= hi
  {
    QuotientBetween(Sum(xs), |xs| as real, lo, hi);
  }

  /** Dividing by a positive n keeps a total between n * lo and n * hi within lo and hi. */
  lemma QuotientBetween(s: real, n: real, lo: real, hi: real)
    requires n > 0.0 && n * lo <= s <= n * hi
    ensures lo <= s / n <= hi
  {
    assert n * (s / n) == s;
  }

  predicate Sorted(xs: seq<real>) {
    forall i, j :: 0 <= i < j < |xs| ==> xs[i] <= xs[j]
  }

  function Insert(x: real, xs: seq<real>): (r: seq<real>)
    requires Sorted(xs)
    ensures |r| == |xs| + 1
    ensures r[0] == x || (|xs| > 0 && r[0] == xs[0])
    ensures Sorted(r)
    ensures multiset(r) == multiset(xs) + multiset{x}
  {
    if xs == [] || x <= xs[0] then [x] + xs
    else
      var rest := Insert(x, xs[1..]);
      assert xs == [xs[0]] + xs[1..];
      [xs[0]] + rest
  }

  /** Ascending order, the order numpy sorts a group in before taking a quantile. */
  function Sort(xs: seq<real>): (r: seq<real>)
    ensures |r| == |xs|
    ensures Sorted(r)
    ensures multiset(r) == multiset(xs)
  {
    if xs == [] then []
    else
      assert xs == [xs[0]] + xs[1..];
      Insert(xs[0], Sort(xs[1..]))
  }

  /** The first and last of the sorted values are the minimum and the maximum. */
  lemma SortEnds(xs: seq<real>)
    requires |xs| > 0
    ensures |Sort(xs)| == |xs|
    ensures Sort(xs)[0] == Min(xs) && Sort(xs)[|xs| - 1] == Max(xs)
  {
    var s := Sort(xs);
    assert multiset(s) == multiset(xs);
    forall x
      ensures x in s <==> x in xs
    {
      assert x in s <==> x in multiset(s);
      assert x in xs <==> x in multiset(xs);
    }
    var lo, hi := Min(xs), Max(xs);
    assert lo in s && hi in s;
    assert s[0] in xs && s[|s| - 1] in xs;
    assert s[0] <= lo by {
      var j :| 0 <= j < |s| && s[j] == lo;
    }
    assert hi <= s[|s| - 1] by {
      var j :| 0 <= j < |s| && s[j] == hi;
    }
  }

  /**
   * The value at virtual position h of the sorted values `s`: s[h] for a
   * whole h, otherwise linear interpolation between its two neighbours.
   */
  function Interpolate(s: seq<real>, h: real): real
    requires 0.0 <= h <= (|s| - 1) as real
  {
    var f := h.Floor;
    if f == |s| - 1 then s[f] else s[f] + (h - f as real) * (s[f + 1] - s[f])
  }

  /** numpy's virtual position (n - 1) * q of the q-quantile among n sorted values. */
  function Position(n: int, q: real): (h: real)
    requires n > 0 && 0.0 <= q <= 1.0
    ensures 0.0 <= h <= (n - 1) as real
  {
    ProductNonNegative((n - 1) as real, q);
    ProductNonNegative((n - 1) as real, 1.0 - q);
    (n - 1) as real * q
  }

  lemma PositionMonotone(n: int, q1: real, q2: real)
    requires n > 0 && 0.0 <= q1 <= q2 <= 1.0
    ensures Position(n, q1) <= Position(n, q2)
  {
    ProductNonNegative((n - 1) as real, q2 - q1);
  }

  /** The q-quantile with numpy's default linear interpolation. */
  function Quantile(xs: seq<real>, q: real): (r: real)
    requires |xs| > 0 && 0.0 <= q <= 1.0
    ensures q == 0.0 ==> r == Min(xs)
    ensures q == 1.0 ==> r == Max(xs)
  {
    var s := Sort(xs);
    SortEnds(xs);
    InterpolateAtEnds(s, q);
    Interpolate(s, Position(|s|, q))
  }

  /** Position 0 interpolates to the first value, position 1 to the last. */
  lemma InterpolateAtEnds(s: seq<real>, q: real)
    requires |s| > 0 && 0.0 <= q <= 1.0
    ensures q == 0.0 ==> Interpolate(s, Position(|s|, q)) == s[0]
    ensures q == 1.0 ==> Interpolate(s, Position(|s|, q)) == s[|s| - 1]
  {
    InterpolateAtIndex(s, 0);
    InterpolateAtIndex(s, |s| - 1);
  }

  /** At a whole position k the interpolation is the k-th sorted value. */
  lemma InterpolateAtIndex(s: seq<real>, k: int)
    requires 0 <= k < |s|
    ensures Interpolate(s, k as real) == s[k]
  {
    assert (k as real).Floor == k;
  }

  /** A product of two non-negative reals is non-negative. */
  lemma ProductNonNegative(a: real, b: real)
    requires a >= 0.0 && b >= 0.0
    ensures a * b >= 0.0
  {
  }

  /** Interpolating between a and b with weight t in [0, 1] stays in [a, b]. */
  lemma Interpolation(a: real, b: real, t: real)
    requires a <= b && 0.0 <= t <= 1.0
    ensures a <= a + t * (b - a) <= b
  {
    ProductNonNegative(t, b - a);
    ProductNonNegative(1.0 - t, b - a);
  }

  lemma InterpolateBetweenEnds(s: seq<real>, h: real)
    requires Sorted(s) && 0.0 <= h <= (|s| - 1) as real
    ensures s[0] <= Interpolate(s, h) <= s[|s| - 1]
  {
    var n, f := |s|, h.Floor;
    InterpolateWithinStep(s, h);
    assert s[0] <= s[f];
    if f < n - 1 {
      assert s[f + 1] <= s[n - 1];
    }
  }

  lemma InterpolateMonotone(s: seq<real>, h1: real, h2: real)
    requires Sorted(s) && 0.0 <= h1 <= h2 <= (|s| - 1) as real
    ensures Interpolate(s, h1) <= Interpolate(s, h2)
  {
    var n := |s|;
    var f1, f2 := h1.Floor, h2.Floor;
    if f1 == f2 {
      InterpolateMonotoneSameStep(s, h1, h2);
    } else {
      assert Interpolate(s, h1) <= s[f1 + 1] by {
        InterpolateWithinStep(s, h1);
      }
      assert s[f2] <= Interpolate(s, h2) by {
        InterpolateWithinStep(s, h2);
      }
    }
  }

  /** Interpolate(s, h) lies between the two values either side of h. */
  lemma InterpolateWithinStep(s: seq<real>, h: real)
    requires Sorted(s) && 0.0 <= h <= (|s| - 1) as real
    ensures var f := h.Floor;
      0 <= f < |s| && s[f] <= Interpolate(s, h) && (f < |s| - 1 ==> Interpolate(s, h) <= s[f + 1])
  {
    var f := h.Floor;
    assert 0 <= f < |s|;
    if f < |s| - 1 {
      var t := h - f as real;
      assert 0.0 <= t <= 1.0;
      assert s[f] <= s[f + 1];
      assert Interpolate(s, h) == s[f] + t * (s[f + 1] - s[f]);
      Interpolation(s[f], s[f + 1], t);
    }
  }

  lemma InterpolateMonotoneSameStep(s: seq<real>, h1: real, h2: real)
    requires Sorted(s) && 0.0 <= h1 <= h2 <= (|s| - 1) as real
    requires h1.Floor == h2.Floor
    ensures Interpolate(s, h1) <= Interpolate(s, h2)
  {
    var f := h1.Floor;
    if f < |s| - 1 {
      var d := s[f + 1] - s[f];
      ProductNonNegative(h2 - h1, d);
      assert (h2 - f as real) * d == (h1 - f as real) * d + (h2 - h1) * d;
    }
  }

  /** A quantile lies between the group's minimum and maximum. */
  lemma QuantileBetweenMinMax(xs: seq<real>, q: real)
    requires |xs| > 0 && 0.0 <= q <= 1.0
    ensures Min(xs) <= Quantile(xs, q) <= Max(xs)
  {
    var s := Sort(xs);
    InterpolateBetweenEnds(s, Position(|s|, q));
    SortEnds(xs);
  }

  /** Quantiles grow with q: the Q10 <= Q25 <= ... <= Q90 envelope. */
  lemma QuantileMonotone(xs: seq<real>, q1: real, q2: real)
    requires |xs| > 0 && 0.0 <= q1 <= q2 <= 1.0
    ensures Quantile(xs, q1) <= Quantile(xs, q2)
  {
    var s := Sort(xs);
    PositionMonotone(|s|, q1, q2);
    InterpolateMonotone(s, Position(|s|, q1), Position(|s|, q2));
  }

  lemma PositionOfHalf(n: int)
    requires n > 0
    ensures Position(n, 0.5) == (n - 1) as real / 2.0
  {
  }

  /** pandas' median: the middle value, or the mean of the two middle values. */
  function Median(xs: seq<real>): (m: real)
    requires |xs| > 0
    ensures Min(xs) <= m <= Max(xs)
  {
    var s := Sort(xs);
    var n := |s|;
    SortEnds(xs);
    assert s[0] <= s[n / 2] <= s[n - 1];
    assert n % 2 == 0 ==> s[0] <= s[n / 2 - 1] <= s[n - 1];
    if n % 2 == 1 then s[n / 2] else (s[n / 2 - 1] + s[n / 2]) / 2.0
  }

  /** The median is the 0.5-quantile under linear interpolation. */
  lemma MedianIsHalfQuantile(xs: seq<real>)
    requires |xs| > 0
    ensures Median(xs) == Quantile(xs, 0.5)
  {
    var s := Sort(xs);
    PositionOfHalf(|s|);
    if |s| % 2 == 1 {
      MiddleOfOdd(s);
    } else {
      MiddleOfEven(s);
    }
  }

  lemma MiddleOfOdd(s: seq<real>)
    requires |s| % 2 == 1
    ensures Interpolate(s, (|s| - 1) as real / 2.0) == s[|s| / 2]
  {
    var k := |s| / 2;
    assert |s| - 1 == 2 * k;
    assert (|s| - 1) as real == 2.0 * k as real;
    var h := (|s| - 1) as real / 2.0;
    assert h == k as real;
    assert h.Floor == k;
    if k < |s| - 1 {
      assert h - k as real == 0.0;
      assert Interpolate(s, h) == s[k] + 0.0 * (s[k + 1] - s[k]);
    }
  }

  lemma MiddleOfEven(s: seq<real>)
    requires |s| > 0 && |s| % 2 == 0
    ensures Interpolate(s, (|s| - 1) as real / 2.0) == (s[|s| / 2 - 1] + s[|s| / 2]) / 2.0
  {
    var k := |s| / 2;
    var h := (|s| - 1) as real / 2.0;
    assert h == (k - 1) as real + 0.5;
    assert h.Floor == k - 1;
    assert h - (k - 1) as real == 0.5;
    var a, b := s[k - 1], s[k];
    assert Interpolate(s, h) == a + 0.5 * (b - a);
  }

  /** The values that are not NaN, in order. */
  function Present(vs: seq<Value>): (xs: seq<real>)
    ensures |xs| <= |vs|
    ensures forall x :: x in xs <==> Some(x) in vs
  {
    if vs == [] then []
    else
      var rest := Present(vs[1..]);
      assert forall v :: v in vs <==> v == vs[0] || v in vs[1..];
      if vs[0].Some? then [vs[0].value] + rest else rest
  }

  /**
   * Each present value is kept as often as it occurs, and each NaN removes
   * one entry.
   */
  lemma {:induction false} PresentCounts(vs: seq<Value>)
    ensures |Present(vs)| == |vs| - multiset(vs)[None]
    ensures forall x :: multiset(Present(vs))[x] == multiset(vs)[Some(x)]
  {
    if vs != [] {
      var rest := vs[1..];
      PresentCounts(rest);
      assert vs == [vs[0]] + rest;
      assert multiset(vs) == multiset{vs[0]} + multiset(rest);
      if vs[0].Some? {
        assert Present(vs) == [vs[0].value] + Present(rest);
        assert multiset(Present(vs)) == multiset{vs[0].value} + multiset(Present(rest));
      } else {
        assert Present(vs) == Present(rest);
      }
    }
  }

  /** Dropping NaN distributes over concatenation, so the present values keep their order. */
  lemma {:induction false} PresentConcat(a: seq<Value>, b: seq<Value>)
    ensures Present(a + b) == Present(a) + Present(b)
  {
    if a == [] {
      assert a + b == b;
    } else {
      assert (a + b)[1..] == a[1..] + b;
      PresentConcat(a[1..], b);
    }
  }

  /** The reductions applied per group or per resampling bin. */
  datatype Statistic = MeanOf | MedianOf | QuantileOf(q: real) | MaxOf | MinOf | SumOf {
    predicate Valid() {
      QuantileOf? ==> 0.0 <= q <= 1.0
    }
  }

  /**
   * A reduction that skips NaN: a sum of nothing is 0, any other statistic
   * of nothing is NaN.
   */
  function Reduce(stat: Statistic, vs: seq<Value>): (r: Value)
    requires stat.Valid()
    ensures stat.SumOf? ==> r == Some(Sum(Present(vs)))
    ensures !stat.SumOf? ==> (r.None? <==> Present(vs) == [])
    ensures !stat.SumOf? && r.Some? ==> Min(Present(vs)) <= r.value <= Max(Present(vs))
  {
    var xs := Present(vs);
    if stat.SumOf? then Some(Sum(xs))
    else if xs == [] then None
    else
      match stat
      case MeanOf => MeanBetweenMinMax(xs); Some(Mean(xs))
      case MedianOf => MedianIsHalfQuantile(xs); QuantileBetweenMinMax(xs, 0.5); Some(Median(xs))
      case QuantileOf(q) => QuantileBetweenMinMax(xs, q); Some(Quantile(xs, q))
      case MaxOf => Some(Max(xs))
      case MinOf => Some(Min(xs))
  }

  /** Of a single value every statistic but the sum gives back that value. */
  lemma ReduceSingleton(stat: Statistic, v: Value)
    requires stat.Valid() && !stat.SumOf?
    ensures Reduce(stat, [v]) == v
  {
    assert Present([v]) == if v.Some? then [v.value] else [];
  }
}
