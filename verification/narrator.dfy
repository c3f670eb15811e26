/** `interpret_statistics` of app.py: which remarks the statistics tab
    writes below the two tables, and in which order. The remarks are
    modelled by their kind; their wording and number formatting are not. */
module Narrator {
  import opened Wrappers
  import opened Statistics

  /** The five measures the remarks read, each looked up with `dict.get`
      (None when the key is missing). */
  datatype Measures = Measures(
    mean: Option<Num>,
    median: Option<Num>,
    mode: Option<Num>,
    std: Option<Num>,
    range: Option<Num>)

  /** Python truthiness of a looked-up float: None and 0.0 are false, NaN
      and every other number are true. */
  predicate Truthy(x: Option<Num>)
  {
    x.Some? && (x.value.NaN? || x.value.v != 0.0)
  }

  /** The kinds of remark, in the order they are written. */
  datatype Tag = Symmetric | RightSkew | LeftSkew | StdNote | RangeNote | ModeNote
  {
    /** The position of the remark's `if` block in the function. */
    function Rank(): nat
    {
      match this
      case Symmetric => 0
      case RightSkew => 0
      case LeftSkew => 0
      case StdNote => 1
      case RangeNote => 2
      case ModeNote => 3
    }

    predicate IsSkew()
    {
      Rank() == 0
    }
  }

  function Abs(x: real): real
  {
    if x < 0.0 then -x else x
  }

  /** Mean and median closer than a tenth of the mean. A NaN makes every
      comparison false. */
  predicate Close(mean: Num, median: Num)
  {
    mean.Fin? && median.Fin? && Abs(mean.v - median.v) < 0.1 * mean.v
  }

  predicate Above(mean: Num, median: Num)
  {
    mean.Fin? && median.Fin? && mean.v > median.v
  }

  /** The `if / elif / else` on mean and median. */
  function SkewTag(mean: Num, median: Num): (t: Tag)
    ensures t.IsSkew()
    ensures t == Symmetric <==> Close(mean, median)
    ensures t == RightSkew <==> !Close(mean, median) && Above(mean, median)
    ensures t == LeftSkew <==> !Close(mean, median) && !Above(mean, median)
  {
    if Close(mean, median) then Symmetric
    else if Above(mean, median) then RightSkew
    else LeftSkew
  }

  /** Remarks in strictly ascending rank: each kind at most once, in the
      order of the function's blocks. */
  ghost predicate Ordered(r: seq<Tag>)
  {
    forall i, j :: 0 <= i < j < |r| ==> r[i].Rank() < r[j].Rank()
  }

  /** Writes the remark t when b holds, ahead of the later remarks r. */
  function Before(b: bool, t: Tag, r: seq<Tag>): (q: seq<Tag>)
    requires Ordered(r) && forall x :: x in r ==> t.Rank() < x.Rank()
    ensures Ordered(q)
    ensures forall x :: x in q <==> x in r || (b && x == t)
    ensures |q| > 0 && q[0] == t <==> b
  {
    if b then
      assert forall i :: 0 < i < |r| + 1 ==> ([t] + r)[i] == r[i - 1];
      [t] + r
    else r
  }

  /** The remarks on the standard deviation, the range and the mode. */
  function OtherRemarks(m: Measures): (r: seq<Tag>)
    ensures forall x :: x in r ==> 1 <= x.Rank()
    ensures StdNote in r <==> Truthy(m.std)
    ensures RangeNote in r <==> Truthy(m.range)
    ensures ModeNote in r <==> m.mode.Some?
    ensures Ordered(r)
  {
    Before(Truthy(m.std), StdNote, Before(Truthy(m.range), RangeNote, Before(m.mode.Some?, ModeNote, [])))
  }

  /** The remarks written for the measures `m`: at most one remark on the
      shape, present exactly when mean and median are both truthy, then
      one remark per truthy dispersion measure and one on the mode. */
  function Interpret(m: Measures): (r: seq<Tag>)
    ensures (exists i :: 0 <= i < |r| && r[i].IsSkew()) <==> Truthy(m.mean) && Truthy(m.median)
    ensures Symmetric in r <==> Truthy(m.mean) && Truthy(m.median) && Close(m.mean.value, m.median.value)
    ensures RightSkew in r <==>
      Truthy(m.mean) && Truthy(m.median) && !Close(m.mean.value, m.median.value) && Above(m.mean.value, m.median.value)
    ensures LeftSkew in r <==>
      Truthy(m.mean) && Truthy(m.median) && !Close(m.mean.value, m.median.value) && !Above(m.mean.value, m.median.value)
    ensures StdNote in r <==> Truthy(m.std)
    ensures RangeNote in r <==> Truthy(m.range)
    ensures ModeNote in r <==> m.mode.Some?
    ensures Ordered(r)
  {
    var notes := OtherRemarks(m);
    assert forall x :: x in notes ==> !x.IsSkew();
    if Truthy(m.mean) && Truthy(m.median) then
      var t := SkewTag(m.mean.value, m.median.value);
      var r := Before(true, t, notes);
      assert forall x :: x in r && x.IsSkew() ==> x == t;
      r
    else notes
  }

  /** For finite mean a and median b: the shape remark is written exactly
      when both are non-zero, and "symmetric" exactly when they are
      moreover within a tenth of a. */
  lemma FiniteShape(m: Measures, a: real, b: real)
    requires m.mean == Some(Fin(a)) && m.median == Some(Fin(b))
    ensures var r := Interpret(m);
      && ((exists i :: 0 <= i < |r| && r[i].IsSkew()) <==> a != 0.0 && b != 0.0)
      && (Symmetric in r <==> a != 0.0 && b != 0.0 && Abs(a - b) < 0.1 * a)
      && (RightSkew in r <==> a != 0.0 && b != 0.0 && !(Abs(a - b) < 0.1 * a) && a > b)
  {
  }

  /** With a negative mean the tolerance 0.1 * mean is negative, so the
      distribution is never called symmetric, however close the median. */
  lemma NegativeMeanNeverSymmetric(m: Measures)
    requires m.mean.Some? && m.mean.value.Fin? && m.mean.value.v < 0.0
    ensures Symmetric !in Interpret(m)
  {
  }

  /** Equal mean and median are called symmetric exactly when the mean is
      positive. */
  lemma EqualCentresSymmetricIff(m: Measures)
    requires m.mean.Some? && m.median.Some? && m.mean.value.Fin? && m.mean == m.median
    ensures Symmetric in Interpret(m) <==> m.mean.value.v > 0.0
  {
  }
}
