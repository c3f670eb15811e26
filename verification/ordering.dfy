/** The orders the frequency table sorts by: Python's code-point
    lexicographic order on strings, the numeric order on reals, and the
    sorted list of distinct values that `value_counts().sort_index()`
    yields. Also the ascending sort that the statistics work on. */
module Ordering {
  import opened Seqs

  /** A scalar cell of a column: a number or a text. */
  datatype Value = Num(x: real) | Txt(s: string)

  /** Python's `<` on `str`: the first differing code point decides; a
      proper prefix comes first. */
  predicate StrLess(a: string, b: string)
    decreases |a|
  {
    if |b| == 0 then false
    else if |a| == 0 then true
    else if a[0] != b[0] then a[0] < b[0]
    else StrLess(a[1..], b[1..])
  }

  lemma {:induction false} StrLessIrreflexive(a: string)
    ensures !StrLess(a, a)
    decreases |a|
  {
    if |a| > 0 {
      StrLessIrreflexive(a[1..]);
    }
  }

  lemma {:induction false} StrLessTransitive(a: string, b: string, c: string)
    requires StrLess(a, b) && StrLess(b, c)
    ensures StrLess(a, c)
    decreases |a|
  {
    if |a| > 0 && a[0] == b[0] && b[0] == c[0] {
      StrLessTransitive(a[1..], b[1..], c[1..]);
    }
  }

  lemma {:induction false} StrLessTotal(a: string, b: string)
    requires a != b
    ensures StrLess(a, b) || StrLess(b, a)
    decreases |a|
  {
    if |a| > 0 && |b| > 0 && a[0] == b[0] {
      assert a == [a[0]] + a[1..] && b == [b[0]] + b[1..];
      StrLessTotal(a[1..], b[1..]);
    }
  }

  /** The order of `sort_index` on a column's values. A column is either
      all numbers or all texts; the cross-kind case only makes the order
      total. */
  predicate Less(a: Value, b: Value)
  {
    match (a, b)
    case (Num(x), Num(y)) => x < y
    case (Txt(s), Txt(t)) => StrLess(s, t)
    case (Num(_), Txt(_)) => true
    case (Txt(_), Num(_)) => false
  }

  lemma LessIrreflexive(a: Value)
    ensures !Less(a, a)
  {
    if a.Txt? {
      StrLessIrreflexive(a.s);
    }
  }

  lemma LessTransitive(a: Value, b: Value, c: Value)
    requires Less(a, b) && Less(b, c)
    ensures Less(a, c)
  {
    if a.Txt? && b.Txt? && c.Txt? {
      StrLessTransitive(a.s, b.s, c.s);
    }
  }

  lemma LessTotal(a: Value, b: Value)
    requires a != b
    ensures Less(a, b) || Less(b, a)
  {
    if a.Txt? && b.Txt? {
      StrLessTotal(a.s, b.s);
    }
  }

  ghost predicate Increasing(s: seq<Value>)
  {
    forall i, j :: 0 <= i < j < |s| ==> Less(s[i], s[j])
  }

  lemma IncreasingIsDistinct(s: seq<Value>)
    requires Increasing(s)
    ensures Distinct(s)
  {
    forall i, j | 0 <= i < j < |s|
      ensures s[i] != s[j]
    {
      LessIrreflexive(s[i]);
    }
  }

  /** Adds `v` to a strictly increasing key list, keeping it strictly
      increasing and without repetitions. */
  function Insert(keys: seq<Value>, v: Value): (r: seq<Value>)
    requires Increasing(keys)
    ensures Increasing(r)
    ensures forall w :: w in r <==> w in keys || w == v
  {
    if |keys| == 0 then [v]
    else if v == keys[0] then keys
    else if Less(v, keys[0]) then
      InsertFront(keys, v)
    else
      LessTotal(v, keys[0]);
      var rest := Insert(keys[1..], v);
      assert forall w :: w in keys[1..] ==> Less(keys[0], w);
      [keys[0]] + rest
  }

  function InsertFront(keys: seq<Value>, v: Value): (r: seq<Value>)
    requires Increasing(keys)
    requires |keys| > 0 && Less(v, keys[0])
    ensures Increasing(r)
    ensures r == [v] + keys
  {
    forall j | 0 < j < |keys|
      ensures Less(v, keys[j])
    {
      LessTransitive(v, keys[0], keys[j]);
    }
    [v] + keys
  }

  /** The distinct values of `s`, strictly ascending: the row index that
      `value_counts().sort_index()` produces. */
  function SortedDistinct(s: seq<Value>): (r: seq<Value>)
    ensures Increasing(r)
    ensures forall w :: w in r <==> w in s
  {
    if |s| == 0 then []
    else
      var p := s[..|s| - 1];
      assert s == p + [s[|s| - 1]];
      Insert(SortedDistinct(p), s[|s| - 1])
  }

  ghost predicate Sorted(s: seq<real>)
  {
    forall i, j :: 0 <= i <= j < |s| ==> s[i] <= s[j]
  }

  /** Inserts `x` into an ascending sequence of reals. */
  function InsertReal(s: seq<real>, x: real): (r: seq<real>)
    requires Sorted(s)
    ensures Sorted(r)
    ensures multiset(r) == multiset(s) + multiset{x}
    ensures |r| == |s| + 1
  {
    if |s| == 0 then [x]
    else if x <= s[0] then
      ConsSorted(x, s);
      [x] + s
    else
      var rest := InsertReal(s[1..], x);
      assert s == [s[0]] + s[1..];
      LowerBound(s[0], rest, s[1..], x);
      ConsSorted(s[0], rest);
      [s[0]] + rest
  }

  /** A lower bound of an ascending sequence can go in front of it. */
  lemma ConsSorted(a: real, s: seq<real>)
    requires Sorted(s)
    requires forall i :: 0 <= i < |s| ==> a <= s[i]
    ensures Sorted([a] + s)
  {
    var r := [a] + s;
    forall i, j | 0 <= i <= j < |r|
      ensures r[i] <= r[j]
    {
      if i > 0 {
        assert r[i] == s[i - 1] && r[j] == s[j - 1];
      }
    }
  }

  /** A bound of `t` and `x` bounds every rearrangement of `t + [x]`. */
  lemma LowerBound(a: real, r: seq<real>, t: seq<real>, x: real)
    requires multiset(r) == multiset(t) + multiset{x}
    requires Sorted([a] + t) && a <= x
    ensures forall i :: 0 <= i < |r| ==> a <= r[i]
  {
    forall i | 0 <= i < |r|
      ensures a <= r[i]
    {
      assert r[i] in multiset(r);
      if r[i] != x {
        assert r[i] in multiset(t);
        var k :| 0 <= k < |t| && t[k] == r[i];
        assert ([a] + t)[0] == a && ([a] + t)[k + 1] == t[k];
      }
    }
  }

  /** The ascending rearrangement of a numeric column (what `median` and
      `percentile` sort internally). */
  function SortReals(s: seq<real>): (r: seq<real>)
    ensures Sorted(r)
    ensures multiset(r) == multiset(s)
    ensures |r| == |s|
  {
    if |s| == 0 then []
    else
      var p := s[..|s| - 1];
      assert s == p + [s[|s| - 1]];
      InsertReal(SortReals(p), s[|s| - 1])
  }
}
