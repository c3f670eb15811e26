/** The interval binner of utils.py (`calculate_optimal_bins`): k = round(sqrt(n))
    equal-width bins from the column's minimum to just past its maximum. */
module Bins {
  import opened Wrappers
  import opened Errors

  /** The nudge added to the last boundary so that the maximum falls in
      the last left-closed, right-open bin. */
  const Epsilon: real := 0.000001

  /** Python's `round(math.sqrt(n))`, pinned without a square root: for
      n >= 1 it is the unique k >= 1 with k*k - k < n <= k*k + k (halves
      cannot arise, since (k + 1/2)^2 is never an integer). */
  function RoundSqrt(n: nat): (k: nat)
    ensures n == 0 ==> k == 0
    ensures n >= 1 ==> k >= 1 && k * k - k < n <= k * k + k
  {
    RoundSqrtFrom(n, 0)
  }

  function RoundSqrtFrom(n: nat, k: nat): (r: nat)
    requires k == 0 || k * k - k < n
    ensures n == 0 ==> r == 0
    ensures n >= 1 ==> r >= 1 && r * r - r < n <= r * r + r
    decreases n - k
  {
    if n <= k * k + k then k else RoundSqrtFrom(n, k + 1)
  }

  /** The characterisation admits a single k. */
  lemma RoundSqrtUnique(n: nat, j: nat, k: nat)
    requires j * j - j < n <= j * j + j
    requires k * k - k < n <= k * k + k
    ensures j == k
  {
    MonotoneSquareMinus(j + 1, k);
    MonotoneSquareMinus(k + 1, j);
  }

  lemma MonotoneSquareMinus(a: nat, b: nat)
    ensures a <= b ==> a * a - a <= b * b - b
  {
    assert b * b - b - (a * a - a) == (b - a) * (b + a - 1);
    if a <= b {
      assert (b - a) * (b + a - 1) >= 0;
    }
  }

  /** For every non-negative square root s of n, RoundSqrt(n) is the integer
      nearest to s: |s - k| < 1/2. */
  lemma RoundSqrtIsNearest(n: nat, s: real)
    requires n >= 1
    requires s >= 0.0 && s * s == n as real
    ensures RoundSqrt(n) as real - 0.5 < s < RoundSqrt(n) as real + 0.5
  {
    var ki := RoundSqrt(n);
    var k := ki as real;
    assert (k - 0.5) * (k - 0.5) == (ki * ki - ki) as real + 0.25;
    assert (k + 0.5) * (k + 0.5) == (ki * ki + ki) as real + 0.25;
    if s <= k - 0.5 {
      SquareMonotone(s, k - 0.5);
    }
    if s >= k + 0.5 {
      SquareMonotone(k + 0.5, s);
    }
  }

  lemma SquareMonotone(a: real, b: real)
    requires 0.0 <= a <= b
    ensures a * a <= b * b
  {
    assert b * b - a * a == (b - a) * (b + a);
  }

  /** `col_data.min()` */
  function Min(s: seq<real>): (m: real)
    requires |s| > 0
    ensures m in s
    ensures forall i :: 0 <= i < |s| ==> m <= s[i]
  {
    if |s| == 1 then s[0]
    else
      var m := Min(s[..|s| - 1]);
      assert forall i :: 0 <= i < |s| - 1 ==> s[..|s| - 1][i] == s[i];
      if s[|s| - 1] < m then s[|s| - 1] else m
  }

  /** `col_data.max()` */
  function Max(s: seq<real>): (m: real)
    requires |s| > 0
    ensures m in s
    ensures forall i :: 0 <= i < |s| ==> s[i] <= m
  {
    if |s| == 1 then s[0]
    else
      var m := Max(s[..|s| - 1]);
      assert forall i :: 0 <= i < |s| - 1 ==> s[..|s| - 1][i] == s[i];
      if s[|s| - 1] > m then s[|s| - 1] else m
  }

  /** The i-th boundary before the last one is overwritten. */
  function Boundary(lo: real, width: real, i: nat): real
  {
    lo + i as real * width
  }

  lemma BoundaryStrict(lo: real, width: real, i: nat, j: nat)
    requires i < j && width > 0.0
    ensures Boundary(lo, width, i) < Boundary(lo, width, j)
  {
    assert (j - i) as real * width > 0.0;
    assert j as real * width - i as real * width == (j - i) as real * width;
  }

  lemma BoundaryStep(lo: real, width: real, i: nat)
    ensures Boundary(lo, width, i + 1) - Boundary(lo, width, i) == width
  {
  }

  /** The boundary at i = k - 1 is one width short of the maximum. */
  lemma BoundaryBeforeLast(lo: real, hi: real, k: nat)
    requires k >= 1 && lo <= hi
    ensures Boundary(lo, (hi - lo) / k as real, k - 1) == hi - (hi - lo) / k as real
  {
    var w := (hi - lo) / k as real;
    assert k as real * w == hi - lo;
    assert (k - 1) as real * w == k as real * w - w;
  }

  /** The k + 1 boundaries lo + i*(hi - lo)/k, the last one replaced by
      hi + 1e-6. */
  function Boundaries(lo: real, hi: real, k: nat): (b: seq<real>)
    requires k >= 1
    ensures |b| == k + 1
    ensures b[0] == lo && b[k] == hi + Epsilon
  {
    var width := (hi - lo) / k as real;
    seq(k + 1, i requires 0 <= i <= k => if i == k then hi + Epsilon else Boundary(lo, width, i))
  }

  /** `calculate_optimal_bins`: the boundaries over [min, max] with
      k = round(sqrt(n)) bins. An empty column makes k = 0 and the width a
      division by zero. */
  function OptimalBins(xs: seq<real>): (r: Result<seq<real>, Error>)
    ensures |xs| == 0 <==> r == Failure(DivisionByZero)
    ensures r.Success? ==>
      && |r.value| == RoundSqrt(|xs|) + 1
      && r.value[0] == Min(xs)
      && r.value[|r.value| - 1] == Max(xs) + Epsilon
  {
    if |xs| == 0 then Failure(DivisionByZero)
    else Success(Boundaries(Min(xs), Max(xs), RoundSqrt(|xs|)))
  }

  ghost predicate StrictlyIncreasing(b: seq<real>)
  {
    forall i, j :: 0 <= i < j < |b| ==> b[i] < b[j]
  }

  /** When hi > lo the boundaries strictly increase, every bin but the last
      has width (hi - lo)/k, and the last is wider by the nudge. */
  lemma BoundariesShape(lo: real, hi: real, k: nat)
    requires k >= 1 && lo < hi
    ensures var b := Boundaries(lo, hi, k);
      && StrictlyIncreasing(b)
      && (forall i :: 0 <= i < k - 1 ==> b[i + 1] - b[i] == (hi - lo) / k as real)
      && b[k] - b[k - 1] == (hi - lo) / k as real + Epsilon
  {
    var b := Boundaries(lo, hi, k);
    var w := (hi - lo) / k as real;
    assert w > 0.0;
    assert forall i :: 0 <= i < k ==> b[i] == Boundary(lo, w, i);
    BoundaryBeforeLast(lo, hi, k);
    forall i | 0 <= i < k - 1
      ensures b[i + 1] - b[i] == w
    {
      BoundaryStep(lo, w, i);
    }
    forall i, j | 0 <= i < j < |b|
      ensures b[i] < b[j]
    {
      if j < k {
        BoundaryStrict(lo, w, i, j);
      } else if i < k - 1 {
        BoundaryStrict(lo, w, i, k - 1);
      }
    }
  }

  /** With hi == lo and k >= 2 the first two boundaries coincide. */
  lemma BoundariesRepeat(lo: real, k: nat)
    requires k >= 2
    ensures Boundaries(lo, lo, k)[0] == Boundaries(lo, lo, k)[1]
  {
    var b := Boundaries(lo, lo, k);
    assert b[1] == Boundary(lo, (lo - lo) / k as real, 1);
  }

  /** When the column is not constant the boundaries strictly increase,
      every bin but the last has width (max - min)/k, and the last is wider
      by the nudge. */
  lemma OptimalBinsShape(xs: seq<real>)
    requires |xs| > 0 && Min(xs) < Max(xs)
    ensures var b := OptimalBins(xs).value;
      && StrictlyIncreasing(b)
      && (forall i :: 0 <= i < |b| - 2 ==> b[i + 1] - b[i] == (Max(xs) - Min(xs)) / (|b| - 1) as real)
      && b[|b| - 1] - b[|b| - 2] == (Max(xs) - Min(xs)) / (|b| - 1) as real + Epsilon
  {
    BoundariesShape(Min(xs), Max(xs), RoundSqrt(|xs|));
  }

  /** Every cell lies in [bins[0], bins[k]): nothing falls outside the bins. */
  lemma OptimalBinsCover(xs: seq<real>)
    requires |xs| > 0
    ensures var b := OptimalBins(xs).value;
      forall j :: 0 <= j < |xs| ==> b[0] <= xs[j] < b[|b| - 1]
  {
  }

  lemma BoundariesIncreasingIff(lo: real, hi: real, k: nat)
    requires k >= 1 && lo <= hi
    ensures StrictlyIncreasing(Boundaries(lo, hi, k)) <==> lo < hi || k == 1
  {
    var b := Boundaries(lo, hi, k);
    if lo < hi {
      BoundariesShape(lo, hi, k);
    } else if k >= 2 {
      BoundariesRepeat(lo, k);
      assert !(b[0] < b[1]);
    } else {
      assert |b| == 2;
    }
  }

  /** A constant column with k >= 2 (n >= 3) yields repeated boundaries:
      the boundaries strictly increase exactly when the column is not
      constant or there is a single bin. */
  lemma OptimalBinsRepeatIffConstant(xs: seq<real>)
    requires |xs| > 0
    ensures StrictlyIncreasing(OptimalBins(xs).value) <==> Min(xs) < Max(xs) || RoundSqrt(|xs|) == 1
  {
    BoundariesIncreasingIff(Min(xs), Max(xs), RoundSqrt(|xs|));
  }
}
