/** `calculate_statistics`: the position measures (mean, median, mode,
    quartiles) and the dispersion measures (range, sample variance,
    standard deviation, coefficient of variation) of a numeric column. */
module Statistics {
  import opened Wrappers
  import opened Errors
  import opened Seqs
  import opened Ordering
  import opened Bins

  /** A float result that numpy may leave as NaN. */
  datatype Num = NaN | Fin(v: real)

  /** What the measures rely on of `math.sqrt`/numpy's square root: a
      non-negative square root of every non-negative number. */
  ghost predicate IsSqrt(sqrt: real -> real)
  {
    forall x :: 0.0 <= x ==> 0.0 <= sqrt(x) && sqrt(x) * sqrt(x) == x
  }

  /** Every cell holds the same value. */
  ghost predicate Constant(xs: seq<real>)
  {
    forall i, j :: 0 <= i < |xs| && 0 <= j < |xs| ==> xs[i] == xs[j]
  }

  // ---------------------------------------------------------------------
  // Mean
  // ---------------------------------------------------------------------

  /** Bounds on every cell bound the sum. */
  lemma {:induction false} SumRealBounds(xs: seq<real>, lo: real, hi: real)
    requires forall i :: 0 <= i < |xs| ==> lo <= xs[i] <= hi
    ensures |xs| as real * lo <= SumReal(xs) <= |xs| as real * hi
  {
    if |xs| > 0 {
      var n := |xs| - 1;
      SumRealBounds(xs[..n], lo, hi);
      assert (n + 1) as real * lo == n as real * lo + lo;
      assert (n + 1) as real * hi == n as real * hi + hi;
    }
  }

  /** Dividing by a positive count keeps the bounds. */
  lemma DivideBounds(s: real, n: real, lo: real, hi: real)
    requires n > 0.0 && n * lo <= s <= n * hi
    ensures lo <= s / n <= hi
  {
    assert s / n * n == s;
  }

  /** `statistics.mean`: the exact sum over the count; it lies between
      the smallest and the largest cell. */
  function Mean(xs: seq<real>): (m: real)
    requires |xs| > 0
    ensures Min(xs) <= m <= Max(xs)
  {
    SumRealBounds(xs, Min(xs), Max(xs));
    DivideBounds(SumReal(xs), |xs| as real, Min(xs), Max(xs));
    SumReal(xs) / |xs| as real
  }

  /** The mean of a constant column is its value. */
  lemma MeanOfConstant(xs: seq<real>, c: real)
    requires |xs| > 0
    requires forall i :: 0 <= i < |xs| ==> xs[i] == c
    ensures Mean(xs) == c
  {
    SumRealBounds(xs, c, c);
    DivideBounds(SumReal(xs), |xs| as real, c, c);
  }

  // ---------------------------------------------------------------------
  // Median and percentiles
  // ---------------------------------------------------------------------

  /** Every cell of the sorted column lies between the column's minimum and
      maximum, which are its first and last cells. */
  lemma SortedEnds(xs: seq<real>)
    requires |xs| > 0
    ensures var a := SortReals(xs);
      && a[0] == Min(xs) && a[|a| - 1] == Max(xs)
      && forall i :: 0 <= i < |a| ==> Min(xs) <= a[i] <= Max(xs)
  {
    var a := SortReals(xs);
    forall i | 0 <= i < |a|
      ensures Min(xs) <= a[i] <= Max(xs)
    {
      assert a[i] in multiset(xs);
    }
    assert Min(xs) in multiset(a);
    assert Max(xs) in multiset(a);
  }

  /** `statistics.median`: the middle cell of the sorted column, or the
      mean of the two middle cells when the count is even. */
  function Median(xs: seq<real>): (r: real)
    requires |xs| > 0
    ensures var a := SortReals(xs);
      var k := |xs| / 2;
      if |xs| % 2 == 1 then r == a[k] else a[k - 1] <= r <= a[k]
  {
    var a := SortReals(xs);
    var k := |a| / 2;
    if |a| % 2 == 1 then a[k] else (a[k - 1] + a[k]) / 2.0
  }

  /** One hundred times the sorted position `(n - 1) * p / 100` that
      numpy's linear percentile interpolates at, as the repeated sum
      `p + p + ...` of n - 1 terms; the recursion keeps the product out of
      the solver's arithmetic, and `PositionIsProduct` states it. */
  function Position(n: nat, p: nat): (h: nat)
    requires n > 0 && p <= 100
    ensures h <= (n - 1) * 100
  {
    if n == 1 then 0 else Position(n - 1, p) + p
  }

  lemma {:induction false} PositionIsProduct(n: nat, p: nat)
    requires n > 0 && p <= 100
    ensures Position(n, p) == (n - 1) * p
  {
    if n > 1 {
      PositionIsProduct(n - 1, p);
      assert (n - 2) * p + p == (n - 1) * p;
    }
  }

  /** A higher percentage gives a later position. */
  lemma {:induction false} PositionMonotone(n: nat, p: nat, q: nat)
    requires n > 0 && p <= q <= 100
    ensures Position(n, p) <= Position(n, q)
  {
    if n > 1 {
      PositionMonotone(n - 1, p, q);
    }
  }

  lemma MulNonNegative(x: real, y: real)
    requires 0.0 <= x && 0.0 <= y
    ensures 0.0 <= x * y
  {
  }

  // The sign facts about products below compare with non-strict
  // operators only (`!(x <= 0.0)` for "positive"), so that every zero
  // they mention is the same literal to the solver.

  lemma MulPositive(x: real, y: real)
    requires !(x <= 0.0) && !(y <= 0.0)
    ensures !(x * y <= 0.0)
  {
  }

  /** Linear interpolation between two ascending values stays between
      them. */
  lemma Lerp(a: real, b: real, w: real)
    requires 0.0 <= w <= 1.0
    ensures a <= b ==> a <= a + w * (b - a) <= b
  {
    if a <= b {
      MulNonNegative(w, b - a);
      MulNonNegative(1.0 - w, b - a);
      assert (1.0 - w) * (b - a) == (b - a) - w * (b - a);
    }
  }

  /** Interpolating further along never goes back. */
  lemma LerpMonotone(a: real, b: real, w1: real, w2: real)
    requires a <= b && w1 <= w2
    ensures a + w1 * (b - a) <= a + w2 * (b - a)
  {
    MulNonNegative(w2 - w1, b - a);
    assert (w2 - w1) * (b - a) == w2 * (b - a) - w1 * (b - a);
  }

  /** Scaled by 100, the interpolated value is the weighted average of
      its two neighbours, with weights 100 - f and f. */
  lemma LerpScaled(x: real, y: real, w: real, f: real)
    requires w * 100.0 == f
    ensures 100.0 * (x + w * (y - x)) == (100.0 - f) * x + f * y
  {
    assert 100.0 * (w * (y - x)) == (w * 100.0) * (y - x);
  }

  /** The point a fraction f / 100 of the way from x to y: x and y
      weighted by 100 - f and f, divided by 100. */
  function Blend(x: real, y: real, f: nat): (r: real)
    requires f <= 100
    ensures 100.0 * r == (100 - f) as real * x + f as real * y
    ensures x <= y ==> x <= r <= y
  {
    var w := f as real / 100.0;
    LerpScaled(x, y, w, f as real);
    Lerp(x, y, w);
    x + w * (y - x)
  }

  lemma BlendEnds(x: real, y: real)
    ensures Blend(x, y, 0) == x && Blend(x, y, 100) == y
  {
  }

  lemma BlendHalf(x: real, y: real)
    ensures Blend(x, y, 50) == (x + y) / 2.0
  {
  }

  lemma BlendMonotone(x: real, y: real, f: nat, g: nat)
    requires x <= y && f <= g <= 100
    ensures Blend(x, y, f) <= Blend(x, y, g)
  {
    LerpMonotone(x, y, f as real / 100.0, g as real / 100.0);
  }

  /** r is numpy's linear interpolation in a at the scaled position h:
      with whole part lo = h / 100 and fraction f = h % 100, the cell a[lo]
      when it is the last one, and otherwise the point f / 100 of the way
      from a[lo] to a[lo + 1]. */
  ghost predicate Interpolates(a: seq<real>, h: nat, r: real)
  {
    var lo := h / 100;
    && lo < |a|
    && (lo + 1 == |a| ==> r == a[lo])
    && (lo + 1 < |a| ==> r == Blend(a[lo], a[lo + 1], h % 100))
  }

  /** Linear interpolation in a sequence at the percentage p, at the
      scaled position (n - 1) * p. */
  function Interpolate(a: seq<real>, p: nat): (r: real)
    requires |a| > 0 && p <= 100
    ensures Interpolates(a, Position(|a|, p), r)
    ensures var lo := Position(|a|, p) / 100;
      lo + 1 < |a| && a[lo] <= a[lo + 1] ==> a[lo] <= r <= a[lo + 1]
  {
    var h := Position(|a|, p);
    var lo := h / 100;
    if lo + 1 < |a| then Blend(a[lo], a[lo + 1], h % 100) else a[lo]
  }

  /** In an ascending sequence a higher percentage never interpolates to a
      smaller value. */
  lemma InterpolateMonotone(a: seq<real>, p: nat, q: nat)
    requires |a| > 0 && p <= q <= 100 && Sorted(a)
    ensures Interpolate(a, p) <= Interpolate(a, q)
  {
    var n := |a|;
    var hp := Position(n, p);
    var hq := Position(n, q);
    PositionMonotone(n, p, q);
    var lp := hp / 100;
    var lq := hq / 100;
    assert lp <= lq;
    if lp < lq {
      assert a[lp + 1] <= a[lq];
      if lq + 1 < n {
        assert a[lq] <= a[lq + 1];
      }
    } else if lp + 1 < n {
      assert a[lp] <= a[lp + 1];
      assert hp % 100 <= hq % 100;
      BlendMonotone(a[lp], a[lp + 1], hp % 100, hq % 100);
    }
  }

  /** Percentage 0 gives the first cell and 100 the last. */
  lemma InterpolateEnds(a: seq<real>)
    requires |a| > 0
    ensures Interpolate(a, 0) == a[0]
    ensures Interpolate(a, 100) == a[|a| - 1]
  {
    var n := |a|;
    PositionIsProduct(n, 100);
    PositionIsProduct(n, 0);
    assert (n - 1) * 100 / 100 == n - 1;
    if n > 1 {
      BlendEnds(a[0], a[1]);
    }
  }

  /** `np.percentile(col, p)` with numpy's default linear method: at the
      scaled position h = (n - 1) * p, with whole part lo = h / 100 and
      fraction f = h % 100, the sorted cells a[lo] and a[lo + 1] weighted
      by 100 - f and f, divided by 100; that value lies between the two
      cells. */
  function Percentile(xs: seq<real>, p: nat): (r: real)
    requires |xs| > 0 && p <= 100
    ensures Interpolates(SortReals(xs), Position(|xs|, p), r)
    ensures var a := SortReals(xs);
      var lo := Position(|xs|, p) / 100;
      lo + 1 < |xs| ==> a[lo] <= r <= a[lo + 1]
  {
    var a := SortReals(xs);
    var lo := Position(|a|, p) / 100;
    assert lo + 1 < |a| ==> a[lo] <= a[lo + 1];
    Interpolate(a, p)
  }

  /** A higher percentage never gives a smaller percentile. */
  lemma PercentileMonotone(xs: seq<real>, p: nat, q: nat)
    requires |xs| > 0 && p <= q <= 100
    ensures Percentile(xs, p) <= Percentile(xs, q)
  {
    InterpolateMonotone(SortReals(xs), p, q);
  }

  /** The 0th percentile is the minimum and the 100th the maximum. */
  lemma PercentileEnds(xs: seq<real>)
    requires |xs| > 0
    ensures Percentile(xs, 0) == Min(xs)
    ensures Percentile(xs, 100) == Max(xs)
  {
    SortedEnds(xs);
    InterpolateEnds(SortReals(xs));
  }

  /** `statistics.median` agrees with `np.percentile(col, 50)`. */
  lemma MedianIsMiddlePercentile(xs: seq<real>)
    requires |xs| > 0
    ensures Median(xs) == Percentile(xs, 50)
  {
    var a := SortReals(xs);
    var n := |a|;
    var k := n / 2;
    var h := Position(n, 50);
    PositionIsProduct(n, 50);
    assert Interpolates(a, h, Percentile(xs, 50));
    if n % 2 == 1 {
      assert h == k * 100;
      assert h / 100 == k && h % 100 == 0;
      if k + 1 < n {
        BlendEnds(a[k], a[k + 1]);
      }
    } else {
      assert h == (k - 1) * 100 + 50;
      assert h / 100 == k - 1 && h % 100 == 50;
      BlendHalf(a[k - 1], a[k]);
    }
  }

  lemma SortPair(a: real, b: real)
    requires a <= b
    ensures SortReals([a, b]) == [a, b]
  {
    assert [a, b][..1] == [a];
    assert SortReals([a]) == [a];
  }

  /** For two cells a <= b the p-th percentile is the point p / 100 of
      the way from a to b. */
  lemma PercentileOfTwoCells(a: real, b: real, p: nat)
    requires a <= b && p <= 100
    ensures Percentile([a, b], p) == Blend(a, b, p)
  {
    var xs := [a, b];
    SortPair(a, b);
    PositionIsProduct(2, p);
    assert Interpolates(xs, p, Percentile(xs, p));
    if p < 100 {
      assert p / 100 == 0 && p % 100 == p;
    } else {
      BlendEnds(a, b);
    }
  }

  /** numpy's linear quartiles of two cells a <= b are (3a + b) / 4 and
      (a + 3b) / 4: for the cells 0 and 4 they are 1 and 3, where the
      lower cell would give 0 and 0 and the midpoint 2 and 2. */
  lemma QuartilesOfTwoCells(a: real, b: real)
    requires a <= b
    ensures 4.0 * Percentile([a, b], 25) == 3.0 * a + b
    ensures 4.0 * Percentile([a, b], 75) == a + 3.0 * b
  {
    PercentileOfTwoCells(a, b, 25);
    PercentileOfTwoCells(a, b, 75);
  }

  /** Min <= Q1 <= median <= Q3 <= Max. */
  lemma QuartilesOrdered(xs: seq<real>)
    requires |xs| > 0
    ensures Min(xs) <= Percentile(xs, 25) <= Median(xs) <= Percentile(xs, 75) <= Max(xs)
  {
    PercentileEnds(xs);
    MedianIsMiddlePercentile(xs);
    PercentileMonotone(xs, 0, 25);
    PercentileMonotone(xs, 25, 50);
    PercentileMonotone(xs, 50, 75);
    PercentileMonotone(xs, 75, 100);
  }

  // ---------------------------------------------------------------------
  // Mode
  // ---------------------------------------------------------------------

  /** The scan behind `statistics.mode`: `best` is the first position seen
      so far whose value occurs most often; a later value replaces it only
      when it occurs strictly more often. */
  function ModeScan(xs: seq<real>, i: nat, best: nat): (r: nat)
    requires best < i <= |xs|
    requires forall j :: 0 <= j < i ==> Count(xs, xs[j]) <= Count(xs, xs[best])
    requires forall j :: 0 <= j < best ==> Count(xs, xs[j]) < Count(xs, xs[best])
    ensures r < |xs|
    ensures forall j :: 0 <= j < |xs| ==> Count(xs, xs[j]) <= Count(xs, xs[r])
    ensures forall j :: 0 <= j < r ==> Count(xs, xs[j]) < Count(xs, xs[r])
    decreases |xs| - i
  {
    if i == |xs| then best
    else if Count(xs, xs[i]) > Count(xs, xs[best]) then ModeScan(xs, i + 1, i)
    else ModeScan(xs, i + 1, best)
  }

  /** The position of the mode: its value occurs at least as often as any
      other, and every earlier position holds a value that occurs strictly
      less often (so it is also the mode's first occurrence). */
  function ModeIndex(xs: seq<real>): (r: nat)
    requires |xs| > 0
    ensures r < |xs|
    ensures forall j :: 0 <= j < |xs| ==> Count(xs, xs[j]) <= Count(xs, xs[r])
    ensures forall j :: 0 <= j < r ==> Count(xs, xs[j]) < Count(xs, xs[r])
  {
    ModeScan(xs, 1, 0)
  }

  /** `statistics.mode`: the most frequent value, ties going to the one
      met first in the column. */
  function Mode(xs: seq<real>): (r: real)
    requires |xs| > 0
    ensures r in xs
    ensures forall v :: v in xs ==> Count(xs, v) <= Count(xs, r)
    ensures forall j :: 0 <= j < |xs| && Count(xs, xs[j]) == Count(xs, r) ==> xs[ModeIndex(xs)] == r && ModeIndex(xs) <= j
  {
    xs[ModeIndex(xs)]
  }

  // ---------------------------------------------------------------------
  // Dispersion
  // ---------------------------------------------------------------------

  /** `np.ptp`: the largest cell minus the smallest. */
  function Amplitude(xs: seq<real>): (r: real)
    requires |xs| > 0
    ensures r >= 0.0
  {
    Max(xs) - Min(xs)
  }

  /** The range is zero exactly when the column is constant. */
  lemma AmplitudeZeroIff(xs: seq<real>)
    requires |xs| > 0
    ensures Amplitude(xs) == 0.0 <==> Constant(xs)
  {
    var lo := Min(xs);
    var hi := Max(xs);
    if hi == lo {
      forall i, j | 0 <= i < |xs| && 0 <= j < |xs|
        ensures xs[i] == xs[j]
      {
      }
    }
    if Constant(xs) {
      var i :| 0 <= i < |xs| && xs[i] == lo;
      var j :| 0 <= j < |xs| && xs[j] == hi;
      assert xs[i] == xs[j];
    }
  }

  /** The sum of squared deviations from `m`. */
  function SquaredDeviations(xs: seq<real>, m: real): real
  {
    if |xs| == 0 then 0.0
    else SquaredDeviations(xs[..|xs| - 1], m) + (xs[|xs| - 1] - m) * (xs[|xs| - 1] - m)
  }

  /** A square is non-negative and zero only at zero. */
  lemma SquareSign(d: real)
    ensures d * d >= 0.0
    ensures d * d == 0.0 <==> d == 0.0
  {
    if !(d <= 0.0) {
      MulPositive(d, d);
    } else if !(d >= 0.0) {
      var e := 0.0 - d;
      MulPositive(e, e);
      assert d * d == e * e;
    }
  }

  /** The squared deviations add up to a non-negative number that is zero
      exactly when every cell equals `m`. */
  lemma {:induction false} SquaredDeviationsZero(xs: seq<real>, m: real)
    ensures SquaredDeviations(xs, m) >= 0.0
    ensures SquaredDeviations(xs, m) == 0.0 <==> forall i :: 0 <= i < |xs| ==> xs[i] == m
  {
    if |xs| > 0 {
      var n := |xs| - 1;
      var d := xs[n] - m;
      SquaredDeviationsZero(xs[..n], m);
      SquareSign(d);
      assert forall i :: 0 <= i < n ==> xs[..n][i] == xs[i];
    }
  }

  /** `np.var(col, ddof=1)`: the squared deviations from the mean over
      n - 1; NaN for a single cell, where that is 0/0. */
  function Variance(xs: seq<real>): (r: Num)
    requires |xs| > 0
    ensures r.Fin? <==> |xs| >= 2
    ensures r.Fin? ==> r.v >= 0.0 && r.v * (|xs| - 1) as real == SquaredDeviations(xs, Mean(xs))
  {
    if |xs| < 2 then NaN
    else
      SquaredDeviationsZero(xs, Mean(xs));
      Fin(SquaredDeviations(xs, Mean(xs)) / (|xs| - 1) as real)
  }

  /** The sample variance is zero exactly when the column is constant. */
  lemma VarianceZeroIff(xs: seq<real>)
    requires |xs| >= 2
    ensures Variance(xs).v == 0.0 <==> Constant(xs)
  {
    var m := Mean(xs);
    SquaredDeviationsZero(xs, m);
    if Constant(xs) {
      MeanOfConstant(xs, xs[0]);
    }
  }

  /** `np.std(col, ddof=1)`: the square root of the sample variance. */
  function Std(xs: seq<real>, sqrt: real -> real): (r: Num)
    requires |xs| > 0
    ensures r.Fin? <==> |xs| >= 2
  {
    match Variance(xs)
    case NaN => NaN
    case Fin(v) => Fin(sqrt(v))
  }

  /** The standard deviation is non-negative, squares to the variance, and
      is zero exactly when the column is constant. */
  lemma StdMeaning(xs: seq<real>, sqrt: real -> real)
    requires |xs| >= 2 && IsSqrt(sqrt)
    ensures Std(xs, sqrt).v >= 0.0
    ensures Std(xs, sqrt).v * Std(xs, sqrt).v == Variance(xs).v
    ensures Std(xs, sqrt).v == 0.0 <==> Constant(xs)
  {
    var v := Variance(xs).v;
    var s := Std(xs, sqrt).v;
    assert s == sqrt(v);
    VarianceZeroIff(xs);
    assert s * s == v;
    SquareSign(s);
  }

  /** The coefficient of variation: std / mean, or NaN when the mean is 0
      (or the standard deviation itself is NaN). */
  function CV(xs: seq<real>, sqrt: real -> real): (r: Num)
    requires |xs| > 0
    ensures r.Fin? <==> |xs| >= 2 && Mean(xs) != 0.0
    ensures r.Fin? ==> r.v * Mean(xs) == Std(xs, sqrt).v
  {
    var m := Mean(xs);
    if m != 0.0 then
      match Std(xs, sqrt)
      case NaN => NaN
      case Fin(s) => Fin(s / m)
    else NaN
  }

  // ---------------------------------------------------------------------
  // calculate_statistics
  // ---------------------------------------------------------------------

  /** The two groups of measures `calculate_statistics` returns. */
  datatype Stats = Stats(
    mean: real,
    median: real,
    mode: real,
    q1: real,
    q3: real,
    amplitude: real,
    variance: Num,
    std: Num,
    cv: Num)

  /** `calculate_statistics`; an empty column makes `statistics.mean`
      raise. */
  function CalculateStatistics(xs: seq<real>, sqrt: real -> real): (r: Result<Stats, Error>)
    ensures r.Success? <==> |xs| > 0
    ensures r.Failure? ==> r.error == EmptyData
    ensures r.Success? ==>
      && r.value.mean == Mean(xs) && r.value.median == Median(xs) && r.value.mode == Mode(xs)
      && r.value.q1 == Percentile(xs, 25) && r.value.q3 == Percentile(xs, 75)
      && r.value.amplitude == Max(xs) - Min(xs)
      && r.value.variance == Variance(xs) && r.value.std == Std(xs, sqrt) && r.value.cv == CV(xs, sqrt)
  {
    if |xs| == 0 then Failure(EmptyData)
    else Success(Stats(
      Mean(xs), Median(xs), Mode(xs), Percentile(xs, 25), Percentile(xs, 75),
      Amplitude(xs), Variance(xs), Std(xs, sqrt), CV(xs, sqrt)))
  }

  /** The position measures of any non-empty column are ordered: the mean
      and the quartiles lie within [min, max], Q1 <= median <= Q3, and the
      range is max - min. */
  lemma StatisticsOrdered(xs: seq<real>, sqrt: real -> real)
    requires |xs| > 0
    ensures var s := CalculateStatistics(xs, sqrt).value;
      && Min(xs) <= s.mean <= Max(xs)
      && Min(xs) <= s.q1 <= s.median <= s.q3 <= Max(xs)
      && s.amplitude >= 0.0
  {
    QuartilesOrdered(xs);
  }
}
