/** numpy's `round(d)` on the table's ratios: scale by 10^d, round to the
    nearest integer with ties to even, scale back. Modelled on exact reals;
    the table itself is stated for any rounding with the same error bounds. */
module Rounding {

  /** The integer nearest to y, ties going to the even neighbour (numpy's
      `rint`). */
  function RoundToEven(y: real): (n: int)
    ensures -0.5 <= n as real - y <= 0.5
    ensures n as real - y == 0.5 ==> n % 2 == 0
    ensures n as real - y == -0.5 ==> n % 2 == 0
    ensures y == y.Floor as real ==> n == y.Floor
  {
    var f := y.Floor;
    var frac := y - f as real;
    if frac < 0.5 then f
    else if frac > 0.5 then f + 1
    else if f % 2 == 0 then f
    else f + 1
  }

  /** `x.round(4)` */
  function Round4(x: real): real
  {
    RoundToEven(x * 10000.0) as real / 10000.0
  }

  /** `x.round(2)` */
  function Round2(x: real): real
  {
    RoundToEven(x * 100.0) as real / 100.0
  }

  /** Rounding to 4 decimals moves a value by at most 0.00005. */
  lemma Round4Error(x: real)
    ensures -0.00005 <= Round4(x) - x <= 0.00005
  {
  }

  /** Rounding to 2 decimals moves a value by at most 0.005. */
  lemma Round2Error(x: real)
    ensures -0.005 <= Round2(x) - x <= 0.005
  {
  }

  /** Rounding to 2 decimals keeps whole numbers. */
  lemma Round2Whole(n: int)
    ensures Round2(n as real) == n as real
  {
    var y := n as real * 100.0;
    assert y == (n * 100) as real;
    assert y.Floor == n * 100;
  }

  /** The two roundings the frequency table applies. */
  datatype Rounding = Rounding(round4: real -> real, round2: real -> real)

  /** What the table relies on: each rounding stays within half a unit of
      its last place, and 100 stays 100. */
  ghost predicate Sound(r: Rounding)
  {
    && (forall x :: -0.00005 <= r.round4(x) - x <= 0.00005)
    && (forall x :: -0.005 <= r.round2(x) - x <= 0.005)
    && r.round2(100.0) == 100.0
  }

  /** numpy's rounding. */
  const Numpy: Rounding := Rounding(Round4, Round2)

  lemma NumpyIsSound()
    ensures Sound(Numpy)
  {
    forall x
      ensures -0.00005 <= Numpy.round4(x) - x <= 0.00005
    {
      Round4Error(x);
    }
    forall x
      ensures -0.005 <= Numpy.round2(x) - x <= 0.005
    {
      Round2Error(x);
    }
    Round2Whole(100);
  }
}
