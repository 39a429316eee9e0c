/** The `statistics` functions and the built-in folds the core uses (`sum`, `min`,
    `max`, `mean`, `median`, `stdev`, and the chunking engine's own variance), over
    exact reals. `math.sqrt` inside `statistics.stdev` is a parameter. */
module Stats {

  function SumNat(xs: seq<nat>): nat {
    if |xs| == 0 then 0 else xs[0] + SumNat(xs[1..])
  }

  function SumReal(xs: seq<real>): real {
    if |xs| == 0 then 0.0 else xs[0] + SumReal(xs[1..])
  }

  function Reals(xs: seq<nat>): (rs: seq<real>)
    ensures |rs| == |xs|
  {
    seq(|xs|, i requires 0 <= i < |xs| => xs[i] as real)
  }

  /** `min(xs)` */
  function MinOf(xs: seq<nat>): (m: nat)
    requires |xs| > 0
    ensures m in xs && forall x :: x in xs ==> m <= x
  {
    if |xs| == 1 then xs[0]
    else
      var rest := MinOf(xs[1..]);
      assert forall x :: x in xs ==> x == xs[0] || x in xs[1..];
      if xs[0] <= rest then xs[0] else rest
  }

  /** `max(xs)` */
  function MaxOf(xs: seq<nat>): (m: nat)
    requires |xs| > 0
    ensures m in xs && forall x :: x in xs ==> x <= m
  {
    if |xs| == 1 then xs[0]
    else
      var rest := MaxOf(xs[1..]);
      assert forall x :: x in xs ==> x == xs[0] || x in xs[1..];
      if xs[0] >= rest then xs[0] else rest
  }

  /** `min(xs)` over reals */
  function MinReal(xs: seq<real>): (m: real)
    requires |xs| > 0
    ensures m in xs && forall x :: x in xs ==> m <= x
  {
    if |xs| == 1 then xs[0]
    else
      var rest := MinReal(xs[1..]);
      assert forall x :: x in xs ==> x == xs[0] || x in xs[1..];
      if xs[0] <= rest then xs[0] else rest
  }

  /** `max(xs)` over reals */
  function MaxReal(xs: seq<real>): (m: real)
    requires |xs| > 0
    ensures m in xs && forall x :: x in xs ==> x <= m
  {
    if |xs| == 1 then xs[0]
    else
      var rest := MaxReal(xs[1..]);
      assert forall x :: x in xs ==> x == xs[0] || x in xs[1..];
      if xs[0] >= rest then xs[0] else rest
  }

  /** `statistics.mean(xs)` */
  function Mean(xs: seq<real>): real
    requires |xs| > 0
  {
    SumReal(xs) / (|xs| as real)
  }

  lemma {:induction false} SquareNonNegative(d: real)
    ensures d * d >= 0.0
  {
    if d < 0.0 {
      assert d * d == (-d) * (-d);
    }
  }

  /** The sum of squared deviations from `mean`. */
  function SquaredDeviations(xs: seq<real>, mean: real): (s: real)
    ensures s >= 0.0
  {
    if |xs| == 0 then 0.0
    else
      var d := xs[0] - mean;
      SquareNonNegative(d);
      d * d + SquaredDeviations(xs[1..], mean)
  }

  /** `ChunkingEngine._calculate_variance(values)`: the population variance, 0 for
      fewer than two values. */
  function Variance(xs: seq<real>): (v: real)
    ensures v >= 0.0
  {
    if |xs| <= 1 then 0.0
    else SquaredDeviations(xs, Mean(xs)) / (|xs| as real)
  }

  /** `statistics.variance(xs)`: the sample variance (divisor `n - 1`). */
  function SampleVariance(xs: seq<real>): (v: real)
    requires |xs| >= 2
    ensures v >= 0.0
  {
    SquaredDeviations(xs, Mean(xs)) / ((|xs| - 1) as real)
  }

  /** The sample standard deviation for two or more values, 0 otherwise; the square
      root is supplied. */
  function StdevOrZero(xs: seq<real>, sqrt: real -> real): real {
    if |xs| > 1 then sqrt(SampleVariance(xs)) else 0.0
  }

  /** A square root: defined and non-negative on non-negative arguments. */
  ghost predicate IsSqrt(sqrt: real -> real) {
    forall x :: x >= 0.0 ==> sqrt(x) >= 0.0 && sqrt(x) * sqrt(x) == x
  }

  // ---------------------------------------------------------------------------
  // `statistics.median`: sort, then take the middle (or the mean of the two middles)

  predicate Sorted(xs: seq<real>) {
    forall i, j :: 0 <= i < j < |xs| ==> xs[i] <= xs[j]
  }

  function Insert(x: real, xs: seq<real>): seq<real> {
    if |xs| == 0 then [x]
    else if x <= xs[0] then [x] + xs
    else [xs[0]] + Insert(x, xs[1..])
  }

  lemma {:induction false} InsertKeeps(x: real, xs: seq<real>)
    ensures multiset(Insert(x, xs)) == multiset(xs) + multiset{x}
  {
    if |xs| > 0 && x > xs[0] {
      InsertKeeps(x, xs[1..]);
      assert xs == [xs[0]] + xs[1..];
    }
  }

  /** A lower bound of `x` and of every element of `xs` bounds the insertion too. */
  lemma {:induction false} InsertAtLeast(x: real, xs: seq<real>, lo: real)
    requires lo <= x && forall k :: 0 <= k < |xs| ==> lo <= xs[k]
    ensures forall k :: 0 <= k < |Insert(x, xs)| ==> lo <= Insert(x, xs)[k]
  {
    if |xs| > 0 && x > xs[0] {
      InsertAtLeast(x, xs[1..], lo);
    }
  }

  /** A sorted list whose head bounds a sorted tail. */
  lemma {:induction false} SortedCons(h: real, t: seq<real>)
    requires Sorted(t) && forall k :: 0 <= k < |t| ==> h <= t[k]
    ensures Sorted([h] + t)
  {
    var r := [h] + t;
    forall i, j | 0 <= i < j < |r| ensures r[i] <= r[j] {
      assert r[j] == t[j - 1];
      if i > 0 {
        assert r[i] == t[i - 1];
      }
    }
  }

  lemma {:induction false} InsertSorted(x: real, xs: seq<real>)
    requires Sorted(xs)
    ensures Sorted(Insert(x, xs))
  {
    if |xs| == 0 {
    } else if x <= xs[0] {
      SortedCons(x, xs);
    } else {
      InsertSorted(x, xs[1..]);
      InsertAtLeast(x, xs[1..], xs[0]);
      SortedCons(xs[0], Insert(x, xs[1..]));
    }
  }

  /** `sorted(xs)` */
  function Sort(xs: seq<real>): seq<real> {
    if |xs| == 0 then [] else Insert(xs[0], Sort(xs[1..]))
  }

  /** Sorting orders the values and keeps each one as often as it occurs. */
  lemma {:induction false} SortSpec(xs: seq<real>)
    ensures Sorted(Sort(xs)) && multiset(Sort(xs)) == multiset(xs)
  {
    if |xs| > 0 {
      SortSpec(xs[1..]);
      InsertSorted(xs[0], Sort(xs[1..]));
      InsertKeeps(xs[0], Sort(xs[1..]));
      assert xs == [xs[0]] + xs[1..];
    }
  }

  /** `statistics.median(xs)` */
  function Median(xs: seq<real>): real
    requires |xs| > 0
  {
    var s := Sort(xs);
    SortSpec(xs);
    assert |s| == |multiset(s)| == |multiset(xs)| == |xs|;
    var n := |s|;
    if n % 2 == 1 then s[n / 2] else (s[n / 2 - 1] + s[n / 2]) / 2.0
  }

  /** How many of the values are at least `t`. */
  function CountAtLeast(xs: seq<real>, t: real): (c: nat)
    ensures c <= |xs|
  {
    if |xs| == 0 then 0 else (if xs[0] >= t then 1 else 0) + CountAtLeast(xs[1..], t)
  }

  function SuccessRate(xs: seq<real>): real
    requires |xs| > 0
  {
    CountAtLeast(xs, 7.0) as real / (|xs| as real)
  }

  // ---------------------------------------------------------------------------
  // Properties

  lemma {:induction false} DivAtLeast(s: real, n: real, lo: real)
    requires n > 0.0 && lo * n <= s
    ensures lo <= s / n
  {
  }

  lemma {:induction false} DivAtMost(s: real, n: real, hi: real)
    requires n > 0.0 && s <= hi * n
    ensures s / n <= hi
  {
  }

  lemma {:induction false} AddOneMore(c: real, k: real)
    ensures c * k + c == c * (k + 1.0)
  {
  }

  lemma {:induction false} SumAtLeast(xs: seq<real>, lo: real)
    requires forall x :: x in xs ==> lo <= x
    ensures lo * (|xs| as real) <= SumReal(xs)
  {
    if |xs| > 0 {
      assert xs[0] in xs;
      assert forall x :: x in xs[1..] ==> x in xs;
      SumAtLeast(xs[1..], lo);
      AddOneMore(lo, (|xs| - 1) as real);
    }
  }

  lemma {:induction false} SumAtMost(xs: seq<real>, hi: real)
    requires forall x :: x in xs ==> x <= hi
    ensures SumReal(xs) <= hi * (|xs| as real)
  {
    if |xs| > 0 {
      assert xs[0] in xs;
      assert forall x :: x in xs[1..] ==> x in xs;
      SumAtMost(xs[1..], hi);
      AddOneMore(hi, (|xs| - 1) as real);
    }
  }

  lemma {:induction false} MinScaledBelowSum(xs: seq<real>)
    requires |xs| > 0
    ensures MinReal(xs) * (|xs| as real) <= SumReal(xs)
  {
    SumAtLeast(xs, MinReal(xs));
  }

  lemma {:induction false} SumBelowMaxScaled(xs: seq<real>)
    requires |xs| > 0
    ensures SumReal(xs) <= MaxReal(xs) * (|xs| as real)
  {
    SumAtMost(xs, MaxReal(xs));
  }

  lemma {:induction false} MeanAtLeastMin(xs: seq<real>)
    requires |xs| > 0
    ensures MinReal(xs) <= Mean(xs)
  {
    MinScaledBelowSum(xs);
    DivAtLeast(SumReal(xs), |xs| as real, MinReal(xs));
  }

  lemma {:induction false} MeanAtMostMax(xs: seq<real>)
    requires |xs| > 0
    ensures Mean(xs) <= MaxReal(xs)
  {
    SumBelowMaxScaled(xs);
    DivAtMost(SumReal(xs), |xs| as real, MaxReal(xs));
  }

  /** The mean lies between the minimum and the maximum. */
  lemma {:induction false} MeanBetween(xs: seq<real>)
    requires |xs| > 0
    ensures MinReal(xs) <= Mean(xs) <= MaxReal(xs)
  {
    MeanAtLeastMin(xs);
    MeanAtMostMax(xs);
  }

  lemma {:induction false} SumNatAsReal(xs: seq<nat>)
    ensures SumNat(xs) as real == SumReal(Reals(xs))
  {
    if |xs| > 0 {
      SumNatAsReal(xs[1..]);
      assert Reals(xs)[1..] == Reals(xs[1..]);
    }
  }

  lemma {:induction false} MinAsReal(xs: seq<nat>)
    requires |xs| > 0
    ensures MinOf(xs) as real == MinReal(Reals(xs))
  {
    var rs := Reals(xs);
    var i :| 0 <= i < |xs| && xs[i] == MinOf(xs);
    assert rs[i] in rs;
    var j :| 0 <= j < |rs| && rs[j] == MinReal(rs);
    assert xs[j] in xs;
  }

  lemma {:induction false} MaxAsReal(xs: seq<nat>)
    requires |xs| > 0
    ensures MaxOf(xs) as real == MaxReal(Reals(xs))
  {
    var rs := Reals(xs);
    var i :| 0 <= i < |xs| && xs[i] == MaxOf(xs);
    assert rs[i] in rs;
    var j :| 0 <= j < |rs| && rs[j] == MaxReal(rs);
    assert xs[j] in xs;
  }

  /** The mean of whole numbers lies between their minimum and maximum. */
  lemma {:induction false} NatMeanBetween(xs: seq<nat>)
    requires |xs| > 0
    ensures MinOf(xs) as real <= SumNat(xs) as real / (|xs| as real) <= MaxOf(xs) as real
  {
    SumNatAsReal(xs);
    MinAsReal(xs);
    MaxAsReal(xs);
    MeanBetween(Reals(xs));
  }

  lemma {:induction false} SumOfConstant(xs: seq<real>, c: real)
    requires forall i :: 0 <= i < |xs| ==> xs[i] == c
    ensures SumReal(xs) == (|xs| as real) * c
  {
    if |xs| > 0 {
      SumOfConstant(xs[1..], c);
    }
  }

  lemma {:induction false} NoDeviationFromConstant(xs: seq<real>, c: real)
    requires forall i :: 0 <= i < |xs| ==> xs[i] == c
    ensures SquaredDeviations(xs, c) == 0.0
  {
    if |xs| > 0 {
      NoDeviationFromConstant(xs[1..], c);
    }
  }

  /** Equal values have zero variance, population or sample. */
  lemma {:induction false} VarianceOfConstant(xs: seq<real>)
    requires forall i, j :: 0 <= i < |xs| && 0 <= j < |xs| ==> xs[i] == xs[j]
    ensures Variance(xs) == 0.0
    ensures |xs| >= 2 ==> SampleVariance(xs) == 0.0
  {
    if |xs| > 0 {
      SumOfConstant(xs, xs[0]);
      assert Mean(xs) == xs[0];
      NoDeviationFromConstant(xs, xs[0]);
    }
  }

  /** With a square root, the sample standard deviation is never negative. */
  lemma {:induction false} StdevNonNegative(xs: seq<real>, sqrt: real -> real)
    requires IsSqrt(sqrt)
    ensures StdevOrZero(xs, sqrt) >= 0.0
  {
  }

  /** The median is one of the values or between two of them, hence between the
      minimum and the maximum. */
  lemma {:induction false} MedianBetween(xs: seq<real>)
    requires |xs| > 0
    ensures MinReal(xs) <= Median(xs) <= MaxReal(xs)
  {
    var s := Sort(xs);
    SortSpec(xs);
    assert |s| == |multiset(s)| == |multiset(xs)| == |xs|;
    var n := |s|;
    forall i | 0 <= i < n ensures MinReal(xs) <= s[i] <= MaxReal(xs) {
      assert s[i] in multiset(s);
      assert s[i] in xs;
    }
  }

  /** The success rate is a fraction. */
  lemma {:induction false} SuccessRateBounds(xs: seq<real>)
    requires |xs| > 0
    ensures 0.0 <= SuccessRate(xs) <= 1.0
  {
    var c := CountAtLeast(xs, 7.0) as real;
    var n := |xs| as real;
    DivAtLeast(c, n, 0.0);
    DivAtMost(c, n, 1.0);
  }

  lemma {:induction false} DivIsOne(c: real, n: real)
    requires n > 0.0
    ensures c / n == 1.0 <==> c == n
  {
  }

  /** The success rate is 1 exactly when every score is at least 7. */
  lemma {:induction false} SuccessRateOne(xs: seq<real>)
    requires |xs| > 0
    ensures SuccessRate(xs) == 1.0 <==> forall x :: x in xs ==> x >= 7.0
  {
    CountAtLeastAll(xs, 7.0);
    DivIsOne(CountAtLeast(xs, 7.0) as real, |xs| as real);
  }

  lemma {:induction false} CountAtLeastAll(xs: seq<real>, t: real)
    ensures CountAtLeast(xs, t) == |xs| <==> forall x :: x in xs ==> x >= t
  {
    if |xs| > 0 {
      CountAtLeastAll(xs[1..], t);
      assert forall x :: x in xs ==> x == xs[0] || x in xs[1..];
      assert forall x :: x in xs[1..] ==> x in xs;
      assert xs[0] in xs;
    }
  }
}
