/** Sums, occurrence counts, tallies and running totals over sequences:
    the arithmetic shared by the frequency table and the statistics. */
module Seqs {

  /** Sum of a sequence of naturals, accumulated from the right so that
      `Sum(s[..i+1]) == Sum(s[..i]) + s[i]` unfolds directly. */
  function Sum(s: seq<nat>): nat
  {
    if |s| == 0 then 0 else Sum(s[..|s| - 1]) + s[|s| - 1]
  }

  /** Sum of a sequence of reals, in the same shape as `Sum`. */
  function SumReal(s: seq<real>): real
  {
    if |s| == 0 then 0.0 else SumReal(s[..|s| - 1]) + s[|s| - 1]
  }

  /** Number of positions of `s` holding `v`. */
  function Count<T(==)>(s: seq<T>, v: T): nat
  {
    if |s| == 0 then 0
    else Count(s[..|s| - 1], v) + (if s[|s| - 1] == v then 1 else 0)
  }

  /** The count of every key, in key order (pandas' `value_counts` over a
      fixed key list). */
  function Tally<T(==)>(s: seq<T>, keys: seq<T>): (r: seq<nat>)
    ensures |r| == |keys|
    ensures forall i :: 0 <= i < |keys| ==> r[i] == Count(s, keys[i])
  {
    seq(|keys|, i requires 0 <= i < |keys| => Count(s, keys[i]))
  }

  /** The running (prefix) sums of `s`: pandas' `cumsum`. */
  function PrefixSums(s: seq<nat>): (r: seq<nat>)
    ensures |r| == |s|
  {
    seq(|s|, i requires 0 <= i < |s| => Sum(s[..i + 1]))
  }

  ghost predicate Distinct<T>(s: seq<T>)
  {
    forall i, j :: 0 <= i < j < |s| ==> s[i] != s[j]
  }

  lemma {:induction false} CountBounded<T>(s: seq<T>, v: T)
    ensures Count(s, v) <= |s|
    ensures v !in s ==> Count(s, v) == 0
    ensures v in s ==> Count(s, v) >= 1
  {
    if |s| > 0 {
      var p := s[..|s| - 1];
      CountBounded(p, v);
      if v in s && s[|s| - 1] != v {
        var i :| 0 <= i < |s| && s[i] == v;
        assert p[i] == v;
      }
    }
  }

  /** Summing the counts of distinct keys over one element gives 1 if the
      element is a key, 0 otherwise. */
  lemma {:induction false} TallyStep<T>(p: seq<T>, x: T, keys: seq<T>)
    requires Distinct(keys)
    ensures Sum(Tally(p + [x], keys)) == Sum(Tally(p, keys)) + (if x in keys then 1 else 0)
  {
    if |keys| > 0 {
      var ks := keys[..|keys| - 1];
      var last := keys[|keys| - 1];
      assert Distinct(ks);
      TallyStep(p, x, ks);
      assert Tally(p + [x], keys)[..|keys| - 1] == Tally(p + [x], ks);
      assert Tally(p, keys)[..|keys| - 1] == Tally(p, ks);
      assert (p + [x])[..|p + [x]| - 1] == p;
      if x == last {
        assert x !in ks;
      }
      assert x in keys <==> x in ks || x == last;
    }
  }

  /** The counts of a list of distinct keys covering every element of `s`
      add up to `|s|`: each element is counted exactly once. */
  lemma {:induction false} TallySum<T>(s: seq<T>, keys: seq<T>)
    requires Distinct(keys)
    requires forall i :: 0 <= i < |s| ==> s[i] in keys
    ensures Sum(Tally(s, keys)) == |s|
  {
    if |s| == 0 {
      TallyEmpty(s, keys);
    } else {
      var p := s[..|s| - 1];
      assert s == p + [s[|s| - 1]];
      TallySum(p, keys);
      TallyStep(p, s[|s| - 1], keys);
    }
  }

  lemma {:induction false} TallyEmpty<T>(s: seq<T>, keys: seq<T>)
    requires |s| == 0
    ensures Sum(Tally(s, keys)) == 0
  {
    if |keys| > 0 {
      assert Tally(s, keys)[..|keys| - 1] == Tally(s, keys[..|keys| - 1]);
      TallyEmpty(s, keys[..|keys| - 1]);
    }
  }

  /** The running sums start at the first element, grow by exactly the next
      element and end at the grand total. */
  lemma {:induction false} PrefixSumsSteps(s: seq<nat>)
    ensures |s| > 0 ==> PrefixSums(s)[0] == s[0]
    ensures forall i :: 0 < i < |s| ==> PrefixSums(s)[i] == PrefixSums(s)[i - 1] + s[i]
    ensures |s| > 0 ==> PrefixSums(s)[|s| - 1] == Sum(s)
  {
    var c := PrefixSums(s);
    if |s| > 0 {
      assert s[..1][..0] == [];
      assert Sum(s[..1]) == Sum(s[..1][..0]) + s[0];
      assert s[..|s|] == s;
    }
    forall i | 0 < i < |s|
      ensures c[i] == c[i - 1] + s[i]
    {
      assert s[..i + 1][..i] == s[..i];
    }
  }

  /** The running sums never decrease. */
  lemma {:induction false} PrefixSumsMonotone(s: seq<nat>)
    ensures forall i, j :: 0 <= i <= j < |s| ==> PrefixSums(s)[i] <= PrefixSums(s)[j]
  {
    forall i, j | 0 <= i <= j < |s|
      ensures PrefixSums(s)[i] <= PrefixSums(s)[j]
    {
      PrefixMonotone(s, i, j);
    }
  }

  lemma {:induction false} PrefixMonotone(s: seq<nat>, i: nat, j: nat)
    requires i <= j < |s|
    ensures Sum(s[..i + 1]) <= Sum(s[..j + 1])
    decreases j - i
  {
    if i < j {
      PrefixMonotone(s, i, j - 1);
      assert s[..j + 1][..j] == s[..j];
    }
  }

  /** A sequence without repetitions has as many distinct elements as
      positions. */
  lemma {:induction false} DistinctCardinality<T>(s: seq<T>)
    requires Distinct(s)
    ensures |set x | x in s| == |s|
  {
    if |s| > 0 {
      var p := s[..|s| - 1];
      var last := s[|s| - 1];
      assert Distinct(p);
      DistinctCardinality(p);
      assert (set x | x in s) == (set x | x in p) + {last};
      assert last !in (set x | x in p);
    }
  }
}
