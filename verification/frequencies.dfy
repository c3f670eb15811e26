/** The frequency table builder of utils.py (`calculate_frequencies`):
    counts per bin (quantitative types) or per distinct value (qualitative
    types), then the relative, percent and cumulative columns and a final
    "Total" row. */
module Frequencies {
  import opened Wrappers
  import opened Errors
  import opened Seqs
  import opened Ordering
  import opened Classifier
  import opened Bins
  import opened Rounding

  /** A row label. An interval stands for the left-closed, right-open bin
      [left, right); its "left | - right" display text is not modelled. */
  datatype Label =
    | Interval(left: real, right: real)
    | Category(value: Value)
    | TotalLabel

  /** One line of the table. The cumulative cells are `None` on the Total
      row, where pandas stores NaN. */
  datatype Row = Row(
    index: Label,
    absolute: nat,
    relative: real,
    relativePct: real,
    cumulative: Option<nat>,
    cumulativePct: Option<real>)

  /** The dictionary `calculate_frequencies` returns, without its plotting
      entries: the table, the bin index of every cell (pandas' categorical
      from `pd.cut`, quantitative types only), the row labels, and the type. */
  datatype FrequencyInfo = FrequencyInfo(
    table: seq<Row>,
    categories: Option<seq<nat>>,
    labels: seq<Label>,
    varType: VarType)

  /** The keys of the dictionary `calculate_frequencies` returns: there is
      no "bins" entry. */
  const ReturnedKeys: set<string> :=
    {"freq_table", "categories", "formatted_labels", "plot_data", "x_label", "var_type"}

  // ---------------------------------------------------------------------
  // Binning the cells (pd.cut with right=False, include_lowest=True)
  // ---------------------------------------------------------------------

  /** The first bin at or after `i` that holds x. */
  function FindBin(bins: seq<real>, x: real, i: nat): (r: Option<nat>)
    ensures r.Some? ==> i <= r.value && r.value + 1 < |bins| && bins[r.value] <= x < bins[r.value + 1]
    ensures r.None? ==> forall j :: i <= j && j + 1 < |bins| ==> !(bins[j] <= x < bins[j + 1])
    decreases |bins| - i
  {
    if i + 1 >= |bins| then None
    else if bins[i] <= x < bins[i + 1] then Some(i)
    else FindBin(bins, x, i + 1)
  }

  /** A value in [bins[i], bins[last]) lies in some bin at or after i. */
  lemma {:induction false} BinExists(bins: seq<real>, x: real, i: nat)
    requires i + 1 < |bins|
    requires bins[i] <= x < bins[|bins| - 1]
    ensures FindBin(bins, x, i).Some?
    decreases |bins| - i
  {
    if x >= bins[i + 1] {
      BinExists(bins, x, i + 1);
    }
  }

  /** With strictly increasing boundaries no value lies in two bins. */
  lemma BinUnique(bins: seq<real>, x: real, i: nat, j: nat)
    requires StrictlyIncreasing(bins)
    requires i + 1 < |bins| && bins[i] <= x < bins[i + 1]
    requires j + 1 < |bins| && bins[j] <= x < bins[j + 1]
    ensures i == j
  {
  }

  ghost predicate Covered(bins: seq<real>, xs: seq<real>)
  {
    |bins| >= 2 && forall j :: 0 <= j < |xs| ==> bins[0] <= xs[j] < bins[|bins| - 1]
  }

  /** `ids` gives every cell the index of a bin that holds it. */
  ghost predicate Binning(bins: seq<real>, xs: seq<real>, ids: seq<nat>)
  {
    |ids| == |xs| && forall j :: 0 <= j < |xs| ==> ids[j] + 1 < |bins| && bins[ids[j]] <= xs[j] < bins[ids[j] + 1]
  }

  /** The bin index of every cell. */
  function Cut(bins: seq<real>, xs: seq<real>): (ids: seq<nat>)
    requires Covered(bins, xs)
    ensures Binning(bins, xs, ids)
  {
    if |xs| == 0 then []
    else
      var p := xs[..|xs| - 1];
      var x := xs[|xs| - 1];
      assert Covered(bins, p);
      BinExists(bins, x, 0);
      var ids := Cut(bins, p) + [FindBin(bins, x, 0).value];
      assert forall j :: 0 <= j < |p| ==> ids[j] == Cut(bins, p)[j] && xs[j] == p[j];
      ids
  }

  /** The number of cells in [lo, hi): the independent meaning of a bin's
      absolute frequency. */
  function CountIn(xs: seq<real>, lo: real, hi: real): nat
  {
    if |xs| == 0 then 0
    else CountIn(xs[..|xs| - 1], lo, hi) + (if lo <= xs[|xs| - 1] < hi then 1 else 0)
  }

  /** Under strictly increasing boundaries, counting bin indices is
      counting the cells inside each interval. */
  lemma BinningCount(bins: seq<real>, xs: seq<real>, ids: seq<nat>, i: nat)
    requires Binning(bins, xs, ids) && StrictlyIncreasing(bins)
    requires i + 1 < |bins|
    ensures Count(ids, i) == CountIn(xs, bins[i], bins[i + 1])
  {
    forall j | 0 <= j < |xs|
      ensures ids[j] == i <==> bins[i] <= xs[j] < bins[i + 1]
    {
      if bins[i] <= xs[j] < bins[i + 1] {
        BinUnique(bins, xs[j], i, ids[j]);
      }
    }
    CountMatches(ids, xs, i, bins[i], bins[i + 1]);
  }

  /** If position j holds `v` exactly when cell j lies in [lo, hi), then
      `v` occurs as often as cells lie in [lo, hi). */
  lemma {:induction false} CountMatches(ids: seq<nat>, xs: seq<real>, v: nat, lo: real, hi: real)
    requires |ids| == |xs|
    requires forall j :: 0 <= j < |xs| ==> (ids[j] == v <==> lo <= xs[j] < hi)
    ensures Count(ids, v) == CountIn(xs, lo, hi)
  {
    if |xs| > 0 {
      CountMatches(ids[..|ids| - 1], xs[..|xs| - 1], v, lo, hi);
    }
  }

  /** The indices 0, 1, ..., k - 1 of k bins. */
  function BinIndices(k: nat): (r: seq<nat>)
    ensures |r| == k
    ensures forall i :: 0 <= i < k ==> r[i] == i
  {
    seq(k, i requires 0 <= i < k => i)
  }

  /** `categorias.value_counts().sort_index()` on the bin indices of the
      cells: one count per bin, in bin order, empty bins included; they add
      up to the number of cells. */
  function BinCounts(ids: seq<nat>, k: nat): (counts: seq<nat>)
    requires forall j :: 0 <= j < |ids| ==> ids[j] < k
    ensures |counts| == k
    ensures Sum(counts) == |ids|
    ensures forall i: nat :: i < k ==> counts[i] == Count(ids, i)
  {
    var keys := BinIndices(k);
    forall j | 0 <= j < |ids|
      ensures ids[j] in keys
    {
      assert keys[ids[j]] == ids[j];
    }
    TallySum(ids, keys);
    var counts := Tally(ids, keys);
    assert forall i: nat :: i < k ==> counts[i] == Count(ids, keys[i]) && keys[i] == i;
    counts
  }

  /** The interval label of every bin. */
  function IntervalLabels(bins: seq<real>): (r: seq<Label>)
    requires |bins| >= 1
    ensures |r| == |bins| - 1
    ensures forall i :: 0 <= i < |r| ==> r[i] == Interval(bins[i], bins[i + 1])
  {
    seq(|bins| - 1, i requires 0 <= i < |bins| - 1 => Interval(bins[i], bins[i + 1]))
  }

  /** What each branch of `calculate_frequencies` hands to the shared
      aggregation: the row labels, their counts, and (quantitative types
      only) the bin index of every cell. */
  datatype Tabulation = Tabulation(labels: seq<Label>, counts: seq<nat>, categories: Option<seq<nat>>)

  /** Every bin's count is the number of cells inside its interval. */
  lemma BinCountsAreCountIn(bins: seq<real>, xs: seq<real>, ids: seq<nat>, counts: seq<nat>)
    requires Binning(bins, xs, ids) && StrictlyIncreasing(bins)
    requires |counts| == |bins| - 1
    requires forall i: nat :: i < |counts| ==> counts[i] == Count(ids, i)
    ensures forall i :: 0 <= i < |counts| ==> counts[i] == CountIn(xs, bins[i], bins[i + 1])
  {
    forall i | 0 <= i < |counts|
      ensures counts[i] == CountIn(xs, bins[i], bins[i + 1])
    {
      BinningCount(bins, xs, ids, i);
    }
  }

  /** The quantitative branch of `calculate_frequencies` (utils.py lines
      64-77): one row per bin, labelled by its interval and counting the
      cells inside it, and the bin of every cell. */
  function Binned(bins: seq<real>, xs: seq<real>): (r: Tabulation)
    requires Covered(bins, xs) && StrictlyIncreasing(bins)
    ensures |r.labels| == |bins| - 1 && |r.counts| == |bins| - 1
    ensures Sum(r.counts) == |xs|
    ensures forall i :: 0 <= i < |r.counts| ==>
      r.labels[i] == Interval(bins[i], bins[i + 1]) && r.counts[i] == CountIn(xs, bins[i], bins[i + 1])
    ensures r.categories.Some? && Binning(bins, xs, r.categories.value)
  {
    var ids := Cut(bins, xs);
    var counts := BinCounts(ids, |bins| - 1);
    BinCountsAreCountIn(bins, xs, ids, counts);
    Tabulation(IntervalLabels(bins), counts, Some(ids))
  }

  /** pandas' test that bin edges do not repeat (the edges here never
      decrease, so a repeat is two equal neighbours). */
  predicate EdgesUnique(bins: seq<real>)
  {
    forall i :: 0 <= i < |bins| - 1 ==> bins[i] < bins[i + 1]
  }

  lemma {:induction false} EdgesUniqueIsStrict(bins: seq<real>)
    ensures EdgesUnique(bins) <==> StrictlyIncreasing(bins)
  {
    if EdgesUnique(bins) {
      forall i, j | 0 <= i < j < |bins|
        ensures bins[i] < bins[j]
      {
        NeighboursChain(bins, i, j);
      }
    }
  }

  lemma {:induction false} NeighboursChain(bins: seq<real>, i: nat, j: nat)
    requires EdgesUnique(bins) && i < j < |bins|
    ensures bins[i] < bins[j]
    decreases j - i
  {
    if i + 1 < j {
      NeighboursChain(bins, i + 1, j);
    }
  }

  // ---------------------------------------------------------------------
  // Distinct values (value_counts().sort_index() on the raw column)
  // ---------------------------------------------------------------------

  /** The count of every distinct value, in ascending value order; each is
      at least 1 and they add up to the number of cells. */
  function CategoryCounts(vals: seq<Value>, keys: seq<Value>): (counts: seq<nat>)
    requires keys == SortedDistinct(vals)
    ensures |counts| == |keys|
    ensures Sum(counts) == |vals|
    ensures forall i :: 0 <= i < |keys| ==> counts[i] == Count(vals, keys[i]) && counts[i] >= 1
  {
    IncreasingIsDistinct(keys);
    TallySum(vals, keys);
    forall i | 0 <= i < |keys|
      ensures Count(vals, keys[i]) >= 1
    {
      CountBounded(vals, keys[i]);
    }
    Tally(vals, keys)
  }

  function CategoryLabels(keys: seq<Value>): (r: seq<Label>)
    ensures |r| == |keys|
    ensures forall i :: 0 <= i < |keys| ==> r[i] == Category(keys[i])
  {
    seq(|keys|, i requires 0 <= i < |keys| => Category(keys[i]))
  }

  // ---------------------------------------------------------------------
  // The shared aggregation (utils.py lines 86-108)
  // ---------------------------------------------------------------------

  /** `(freq / total).round(4)`: each count's share of the total, off by
      at most half of the fourth decimal under a sound rounding. */
  function Relatives(counts: seq<nat>, total: nat, rnd: Rounding): (r: seq<real>)
    requires total > 0
    ensures |r| == |counts|
    ensures forall i :: 0 <= i < |counts| ==> r[i] == rnd.round4(counts[i] as real / total as real)
    ensures Sound(rnd) ==>
      forall i :: 0 <= i < |r| ==> -0.00005 <= r[i] - counts[i] as real / total as real <= 0.00005
  {
    seq(|counts|, i requires 0 <= i < |counts| => rnd.round4(counts[i] as real / total as real))
  }

  /** `(rel_freq * 100).round(2)`: each ratio as a percentage, off by at
      most half of the second decimal under a sound rounding. */
  function Percents(rel: seq<real>, rnd: Rounding): (r: seq<real>)
    ensures |r| == |rel|
    ensures forall i :: 0 <= i < |rel| ==> r[i] == rnd.round2(rel[i] * 100.0)
    ensures Sound(rnd) ==> forall i :: 0 <= i < |r| ==> -0.005 <= r[i] - rel[i] * 100.0 <= 0.005
  {
    seq(|rel|, i requires 0 <= i < |rel| => rnd.round2(rel[i] * 100.0))
  }

  /** `(cum_freq / total * 100).round(2)`: each running total as a
      percentage of the total, off by at most half of the second decimal
      under a sound rounding, and exactly 100 where it reaches the total. */
  function CumulativePercents(cum: seq<nat>, total: nat, rnd: Rounding): (r: seq<real>)
    requires total > 0
    ensures |r| == |cum|
    ensures forall i :: 0 <= i < |cum| ==> r[i] == rnd.round2(cum[i] as real / total as real * 100.0)
    ensures Sound(rnd) ==>
      forall i :: 0 <= i < |r| ==> -0.005 <= r[i] - cum[i] as real / total as real * 100.0 <= 0.005
    ensures Sound(rnd) ==> forall i :: 0 <= i < |r| && cum[i] == total ==> r[i] == 100.0
  {
    OneShare(total, 100.0);
    seq(|cum|, i requires 0 <= i < |cum| => rnd.round2(cum[i] as real / total as real * 100.0))
  }

  /** The relative-frequency column of a list of rows. */
  function RelativeColumn(rows: seq<Row>): (r: seq<real>)
    ensures |r| == |rows|
    ensures forall i :: 0 <= i < |rows| ==> r[i] == rows[i].relative
  {
    seq(|rows|, i requires 0 <= i < |rows| => rows[i].relative)
  }

  /** The relative-percent column of a list of rows. */
  function PercentColumn(rows: seq<Row>): (r: seq<real>)
    ensures |r| == |rows|
    ensures forall i :: 0 <= i < |rows| ==> r[i] == rows[i].relativePct
  {
    seq(|rows|, i requires 0 <= i < |rows| => rows[i].relativePct)
  }

  /** The rows before the Total row: each label with its count, the
      rounded ratios, the running total and its rounded percentage. */
  function DataRows(labels: seq<Label>, counts: seq<nat>, rnd: Rounding): (rows: seq<Row>)
    requires |labels| == |counts|
    requires Sum(counts) > 0
    ensures |rows| == |counts|
    ensures var total := Sum(counts);
      var cum := PrefixSums(counts);
      forall i :: 0 <= i < |counts| ==>
        && rows[i].index == labels[i]
        && rows[i].absolute == counts[i]
        && rows[i].relative == Relatives(counts, total, rnd)[i]
        && rows[i].relativePct == Percents(Relatives(counts, total, rnd), rnd)[i]
        && rows[i].cumulative == Some(cum[i])
        && rows[i].cumulativePct == Some(CumulativePercents(cum, total, rnd)[i])
  {
    var total := Sum(counts);
    var rel := Relatives(counts, total, rnd);
    var pct := Percents(rel, rnd);
    var cum := PrefixSums(counts);
    var cumPct := CumulativePercents(cum, total, rnd);
    seq(|counts|, i requires 0 <= i < |counts| =>
      Row(labels[i], counts[i], rel[i], pct[i], Some(cum[i]), Some(cumPct[i])))
  }

  /** Each data row keeps its label and count. */
  lemma DataRowsKeepCounts(labels: seq<Label>, counts: seq<nat>, rnd: Rounding)
    requires |labels| == |counts|
    requires Sum(counts) > 0
    ensures var rows := DataRows(labels, counts, rnd);
      forall i :: 0 <= i < |rows| ==>
        rows[i].index == labels[i] && rows[i].absolute == counts[i]
        && rows[i].cumulative.Some? && rows[i].cumulativePct.Some?
  {
  }

  /** The cumulative column starts at the first count and grows by each
      row's count. */
  lemma DataRowsRunningTotal(labels: seq<Label>, counts: seq<nat>, rnd: Rounding)
    requires |labels| == |counts|
    requires Sum(counts) > 0
    ensures var rows := DataRows(labels, counts, rnd);
      && rows[0].cumulative == Some(counts[0])
      && forall i :: 0 < i < |rows| ==> rows[i].cumulative.value == rows[i - 1].cumulative.value + counts[i]
  {
    PrefixSumsSteps(counts);
  }

  /** The cumulative column ends at the total. */
  lemma DataRowsEndAtTotal(labels: seq<Label>, counts: seq<nat>, rnd: Rounding)
    requires |labels| == |counts|
    requires Sum(counts) > 0
    ensures var rows := DataRows(labels, counts, rnd);
      rows[|rows| - 1].cumulative == Some(Sum(counts))
  {
    PrefixSumsSteps(counts);
  }

  /** The cumulative percentage of the last data row is 100 before
      rounding. */
  lemma DataRowsEndAtHundred(labels: seq<Label>, counts: seq<nat>, rnd: Rounding)
    requires |labels| == |counts|
    requires Sum(counts) > 0
    ensures var rows := DataRows(labels, counts, rnd);
      rows[|rows| - 1].cumulativePct == Some(rnd.round2(100.0))
  {
    var total := Sum(counts);
    var cum := PrefixSums(counts);
    PrefixSumsSteps(counts);
    var last := |counts| - 1;
    assert cum[last] == total;
    OneShare(total, 100.0);
    var cp := CumulativePercents(cum, total, rnd);
    assert cp[last] == rnd.round2(100.0);
  }

  /** A count that is the whole total is 100% of it. */
  lemma OneShare(total: nat, f: real)
    requires total > 0
    ensures total as real / total as real * f == f
  {
  }

  /** `freq_table` with `total_row` appended: the data rows, then a Total
      row with the total count, the sums of the relative and percent
      columns, and no cumulative cells. */
  function BuildTable(labels: seq<Label>, counts: seq<nat>, rnd: Rounding): (t: seq<Row>)
    requires |labels| == |counts|
    requires |counts| > 0 ==> Sum(counts) > 0
    ensures |t| == |counts| + 1
    ensures t[|counts|].index == TotalLabel && t[|counts|].absolute == Sum(counts)
    ensures t[|counts|].cumulative.None? && t[|counts|].cumulativePct.None?
    ensures t[|counts|].relative == SumReal(RelativeColumn(t[..|counts|]))
    ensures t[|counts|].relativePct == SumReal(PercentColumn(t[..|counts|]))
  {
    var rows := if |counts| == 0 then [] else DataRows(labels, counts, rnd);
    var t := rows + [Row(TotalLabel, Sum(counts), SumReal(RelativeColumn(rows)), SumReal(PercentColumn(rows)), None, None)];
    assert t[..|counts|] == rows;
    t
  }

  /** The absolute-frequency column of a list of rows. */
  function AbsoluteColumn(rows: seq<Row>): (r: seq<nat>)
    ensures |r| == |rows|
    ensures forall i :: 0 <= i < |rows| ==> r[i] == rows[i].absolute
  {
    seq(|rows|, i requires 0 <= i < |rows| => rows[i].absolute)
  }

  lemma BuildTableData(labels: seq<Label>, counts: seq<nat>, rnd: Rounding)
    requires |labels| == |counts| && Sum(counts) > 0
    ensures BuildTable(labels, counts, rnd)[..|counts|] == DataRows(labels, counts, rnd)
    ensures forall i :: 0 <= i < |counts| ==> BuildTable(labels, counts, rnd)[i] == DataRows(labels, counts, rnd)[i]
  {
    var rows := DataRows(labels, counts, rnd);
    var total := Row(TotalLabel, Sum(counts), SumReal(RelativeColumn(rows)), SumReal(PercentColumn(rows)), None, None);
    assert BuildTable(labels, counts, rnd) == rows + [total];
  }

  /** The table keeps every label and count in order, and the counts add
      up to the Total row's count. */
  lemma BuildTableCounts(labels: seq<Label>, counts: seq<nat>, rnd: Rounding)
    requires |labels| == |counts|
    requires |counts| > 0 ==> Sum(counts) > 0
    ensures var t := BuildTable(labels, counts, rnd);
      && (forall i :: 0 <= i < |counts| ==>
            t[i].index == labels[i] && t[i].absolute == counts[i]
            && t[i].cumulative.Some? && t[i].cumulativePct.Some?)
      && Sum(AbsoluteColumn(t[..|counts|])) == t[|counts|].absolute
  {
    if |counts| > 0 {
      BuildTableRows(labels, counts, rnd);
    }
    BuildTableAbsolute(labels, counts, rnd);
  }

  /** The absolute column of the data rows is the counts. */
  lemma BuildTableAbsolute(labels: seq<Label>, counts: seq<nat>, rnd: Rounding)
    requires |labels| == |counts|
    requires |counts| > 0 ==> Sum(counts) > 0
    ensures AbsoluteColumn(BuildTable(labels, counts, rnd)[..|counts|]) == counts
  {
    if |counts| > 0 {
      var rows := DataRows(labels, counts, rnd);
      BuildTableData(labels, counts, rnd);
      var abs := AbsoluteColumn(rows);
      assert forall i :: 0 <= i < |counts| ==> abs[i] == counts[i];
      assert abs == counts;
    } else {
      assert BuildTable(labels, counts, rnd)[..0] == [];
    }
  }

  /** The data rows of the table keep their labels and counts. */
  lemma BuildTableRows(labels: seq<Label>, counts: seq<nat>, rnd: Rounding)
    requires |labels| == |counts| && Sum(counts) > 0
    ensures var t := BuildTable(labels, counts, rnd);
      forall i :: 0 <= i < |counts| ==>
        t[i].index == labels[i] && t[i].absolute == counts[i]
        && t[i].cumulative.Some? && t[i].cumulativePct.Some?
  {
    var t := BuildTable(labels, counts, rnd);
    var rows := DataRows(labels, counts, rnd);
    BuildTableData(labels, counts, rnd);
    DataRowsKeepCounts(labels, counts, rnd);
    assert forall i :: 0 <= i < |counts| ==> t[i] == rows[i];
  }

  /** The cumulative column is the running total of the counts: it starts
      at the first count and grows by each row's count. */
  lemma BuildTableRunningTotal(labels: seq<Label>, counts: seq<nat>, rnd: Rounding)
    requires |labels| == |counts|
    requires |counts| > 0 && Sum(counts) > 0
    ensures var t := BuildTable(labels, counts, rnd);
      && t[0].cumulative == Some(counts[0])
      && (forall i :: 0 < i < |counts| ==> t[i].cumulative.value == t[i - 1].cumulative.value + counts[i])
  {
    var t := BuildTable(labels, counts, rnd);
    BuildTableData(labels, counts, rnd);
    DataRowsRunningTotal(labels, counts, rnd);
  }

  /** The cumulative column never decreases. */
  lemma BuildTableMonotone(labels: seq<Label>, counts: seq<nat>, rnd: Rounding, i: nat, j: nat)
    requires |labels| == |counts| && Sum(counts) > 0
    requires i <= j < |counts|
    ensures var t := BuildTable(labels, counts, rnd);
      t[i].cumulative.Some? && t[j].cumulative.Some? && t[i].cumulative.value <= t[j].cumulative.value
  {
    var t := BuildTable(labels, counts, rnd);
    var rows := DataRows(labels, counts, rnd);
    BuildTableData(labels, counts, rnd);
    PrefixSumsMonotone(counts);
    assert t[i] == rows[i] && t[j] == rows[j];
  }

  /** The last data row's cumulative cells hold the total and 100% (before
      rounding). */
  lemma BuildTableEnd(labels: seq<Label>, counts: seq<nat>, rnd: Rounding)
    requires |labels| == |counts|
    requires |counts| > 0 && Sum(counts) > 0
    ensures var t := BuildTable(labels, counts, rnd);
      && t[|counts| - 1].cumulative == Some(Sum(counts))
      && t[|counts| - 1].cumulativePct == Some(rnd.round2(100.0))
  {
    var t := BuildTable(labels, counts, rnd);
    BuildTableData(labels, counts, rnd);
    DataRowsEndAtTotal(labels, counts, rnd);
    DataRowsEndAtHundred(labels, counts, rnd);
  }

  /** `SumReal` of the elementwise difference stays within the summed
      bound. */
  lemma {:induction false} SumWithin(a: seq<real>, b: seq<real>, e: real)
    requires |a| == |b|
    requires forall i :: 0 <= i < |a| ==> -e <= a[i] - b[i] <= e
    ensures -(|a| as real) * e <= SumReal(a) - SumReal(b) <= |a| as real * e
  {
    if |a| > 0 {
      var n := |a| - 1;
      SumWithin(a[..n], b[..n], e);
      var d := SumReal(a[..n]) - SumReal(b[..n]);
      assert SumReal(a) - SumReal(b) == d + (a[n] - b[n]);
      WithinStep(d, a[n] - b[n], n, e);
    }
  }

  /** One more term within `e` widens the bound by `e`. */
  lemma WithinStep(d: real, x: real, n: nat, e: real)
    requires -(n as real) * e <= d <= n as real * e
    requires -e <= x <= e
    ensures -((n + 1) as real) * e <= d + x <= (n + 1) as real * e
  {
    assert (n + 1) as real * e == n as real * e + e;
  }

  /** The exact shares `count / total * f`. */
  function Shares(counts: seq<nat>, total: nat, f: real): (r: seq<real>)
    requires total > 0
    ensures |r| == |counts|
    ensures forall i :: 0 <= i < |counts| ==> r[i] == counts[i] as real / total as real * f
  {
    seq(|counts|, i requires 0 <= i < |counts| => counts[i] as real / total as real * f)
  }

  /** The exact shares add up to `Sum(counts) / total * f`. */
  lemma {:induction false} SharesSum(counts: seq<nat>, total: nat, f: real)
    requires total > 0
    ensures SumReal(Shares(counts, total, f)) == Sum(counts) as real / total as real * f
  {
    if |counts| > 0 {
      var n := |counts| - 1;
      var all := Shares(counts, total, f);
      var front := Shares(counts[..n], total, f);
      SharesSum(counts[..n], total, f);
      SharesPrefix(counts, n, total, f);
      assert SumReal(all) == SumReal(front) + all[n];
      assert Sum(counts) == Sum(counts[..n]) + counts[n];
      ShareAdd(Sum(counts[..n]), counts[n], total, f);
    }
  }

  lemma SharesPrefix(counts: seq<nat>, n: nat, total: nat, f: real)
    requires total > 0 && n <= |counts|
    ensures Shares(counts, total, f)[..n] == Shares(counts[..n], total, f)
  {
    var all := Shares(counts, total, f);
    var front := Shares(counts[..n], total, f);
    forall i | 0 <= i < n
      ensures all[..n][i] == front[i]
    {
      assert counts[..n][i] == counts[i];
    }
  }

  /** Shares of the same total add up. */
  lemma ShareAdd(a: nat, c: nat, total: nat, f: real)
    requires total > 0
    ensures a as real / total as real * f + c as real / total as real * f == (a + c) as real / total as real * f
  {
    var tr := total as real;
    assert a as real / tr + c as real / tr == (a + c) as real / tr;
  }

  /** The data rows' relative columns are the rounded ratios. */
  lemma DataRowsRelativeColumn(labels: seq<Label>, counts: seq<nat>, rnd: Rounding)
    requires |labels| == |counts| && Sum(counts) > 0
    ensures RelativeColumn(DataRows(labels, counts, rnd)) == Relatives(counts, Sum(counts), rnd)
  {
    var rows := DataRows(labels, counts, rnd);
    var rel := Relatives(counts, Sum(counts), rnd);
    forall i | 0 <= i < |counts|
      ensures RelativeColumn(rows)[i] == rel[i]
    {
    }
  }

  lemma DataRowsPercentColumn(labels: seq<Label>, counts: seq<nat>, rnd: Rounding)
    requires |labels| == |counts| && Sum(counts) > 0
    ensures PercentColumn(DataRows(labels, counts, rnd)) == Percents(Relatives(counts, Sum(counts), rnd), rnd)
  {
    var rows := DataRows(labels, counts, rnd);
    var pct := Percents(Relatives(counts, Sum(counts), rnd), rnd);
    forall i | 0 <= i < |counts|
      ensures PercentColumn(rows)[i] == pct[i]
    {
    }
  }

  /** The exact shares of the whole add up to `f`. */
  lemma SharesOfWhole(counts: seq<nat>, f: real)
    requires Sum(counts) > 0
    ensures SumReal(Shares(counts, Sum(counts), f)) == f
  {
    SharesSum(counts, Sum(counts), f);
    OneShare(Sum(counts), f);
  }

  /** Each rounded ratio is within 0.00005 of its exact share. */
  lemma RelativesErrors(counts: seq<nat>, total: nat, rnd: Rounding)
    requires total > 0 && Sound(rnd)
    ensures forall i :: 0 <= i < |counts| ==>
      -0.00005 <= Relatives(counts, total, rnd)[i] - Shares(counts, total, 1.0)[i] <= 0.00005
  {
    var rel := Relatives(counts, total, rnd);
    var exact := Shares(counts, total, 1.0);
    forall i | 0 <= i < |counts|
      ensures -0.00005 <= rel[i] - exact[i] <= 0.00005
    {
      var x := counts[i] as real / total as real;
      assert rel[i] == rnd.round4(x);
      assert exact[i] == x * 1.0;
    }
  }

  /** Each rounded percentage is within 0.01 of its exact share: 0.005
      from its own rounding and 0.005 from the ratio's. */
  lemma PercentsErrors(counts: seq<nat>, total: nat, rnd: Rounding)
    requires total > 0 && Sound(rnd)
    ensures forall i :: 0 <= i < |counts| ==>
      -0.01 <= Percents(Relatives(counts, total, rnd), rnd)[i] - Shares(counts, total, 100.0)[i] <= 0.01
  {
    var rel := Relatives(counts, total, rnd);
    var pct := Percents(rel, rnd);
    var exact := Shares(counts, total, 100.0);
    forall i | 0 <= i < |counts|
      ensures -0.01 <= pct[i] - exact[i] <= 0.01
    {
      var x := counts[i] as real / total as real;
      var r := rel[i];
      assert -0.005 <= rnd.round2(r * 100.0) - r * 100.0 <= 0.005;
      assert -0.00005 <= r - x <= 0.00005;
      assert exact[i] == x * 100.0;
    }
  }

  /** The rounded ratios add up to within 0.00005 per row of the exact
      shares. */
  lemma RelativesSumWithin(counts: seq<nat>, total: nat, rnd: Rounding)
    requires total > 0 && Sound(rnd)
    ensures var m := |counts| as real;
      var d := SumReal(Relatives(counts, total, rnd)) - SumReal(Shares(counts, total, 1.0));
      -m * 0.00005 <= d <= m * 0.00005
  {
    RelativesErrors(counts, total, rnd);
    SumWithin(Relatives(counts, total, rnd), Shares(counts, total, 1.0), 0.00005);
  }

  /** The rounded percentages add up to within 0.01 per row of the exact
      shares of 100. */
  lemma PercentsSumWithin(counts: seq<nat>, total: nat, rnd: Rounding)
    requires total > 0 && Sound(rnd)
    ensures var m := |counts| as real;
      var d := SumReal(Percents(Relatives(counts, total, rnd), rnd)) - SumReal(Shares(counts, total, 100.0));
      -m * 0.01 <= d <= m * 0.01
  {
    PercentsErrors(counts, total, rnd);
    SumWithin(Percents(Relatives(counts, total, rnd), rnd), Shares(counts, total, 100.0), 0.01);
  }

  /** The Total row's relative frequency is within 0.00005 per row of 1:
      the per-row rounding errors are all that separates them. */
  lemma BuildTableRelativeSum(labels: seq<Label>, counts: seq<nat>, rnd: Rounding)
    requires |labels| == |counts| && |counts| > 0 && Sum(counts) > 0
    requires Sound(rnd)
    ensures var t := BuildTable(labels, counts, rnd);
      var m := |counts| as real;
      -m * 0.00005 <= t[|counts|].relative - 1.0 <= m * 0.00005
  {
    var t := BuildTable(labels, counts, rnd);
    var total := Sum(counts);
    var rel := Relatives(counts, total, rnd);
    BuildTableData(labels, counts, rnd);
    DataRowsRelativeColumn(labels, counts, rnd);
    assert RelativeColumn(t[..|counts|]) == rel;
    assert t[|counts|].relative == SumReal(rel);
    RelativesSumWithin(counts, total, rnd);
    SharesOfWhole(counts, 1.0);
  }

  /** The Total row's percent is within 0.01 per row of 100. */
  lemma BuildTablePercentSum(labels: seq<Label>, counts: seq<nat>, rnd: Rounding)
    requires |labels| == |counts| && |counts| > 0 && Sum(counts) > 0
    requires Sound(rnd)
    ensures var t := BuildTable(labels, counts, rnd);
      var m := |counts| as real;
      -m * 0.01 <= t[|counts|].relativePct - 100.0 <= m * 0.01
  {
    var t := BuildTable(labels, counts, rnd);
    var total := Sum(counts);
    var pct := Percents(Relatives(counts, total, rnd), rnd);
    BuildTableData(labels, counts, rnd);
    DataRowsPercentColumn(labels, counts, rnd);
    assert PercentColumn(t[..|counts|]) == pct;
    assert t[|counts|].relativePct == SumReal(pct);
    PercentsSumWithin(counts, total, rnd);
    SharesOfWhole(counts, 100.0);
  }

  // ---------------------------------------------------------------------
  // calculate_frequencies
  // ---------------------------------------------------------------------

  /** When `calculate_frequencies` returns a table: always for a
      qualitative type; for a quantitative one exactly when the column is
      numeric, not empty, and not constant unless it makes a single bin
      (otherwise the bin edges repeat). */
  predicate Tabulates(col: Column, t: VarType)
  {
    !t.IsQuantitative() || (col.Numeric? && |col.nums| > 0 && (Min(col.nums) < Max(col.nums) || RoundSqrt(|col.nums|) == 1))
  }

  /** The quantitative branch on a numeric column: its bins, then
      `pd.cut` and the per-bin counts, unless the column is empty
      (division by zero) or the bin edges repeat. */
  function BinnedColumn(xs: seq<real>): (r: Result<Tabulation, Error>)
    ensures r.Success? <==> |xs| > 0 && (Min(xs) < Max(xs) || RoundSqrt(|xs|) == 1)
    ensures |xs| == 0 ==> r == Failure(DivisionByZero)
    ensures r.Failure? && |xs| > 0 ==> r == Failure(DuplicateBinEdges)
    ensures r.Success? ==>
      && |r.value.labels| == |r.value.counts|
      && Sum(r.value.counts) == |xs|
      && (|r.value.counts| > 0 ==> Sum(r.value.counts) > 0)
      && r.value.categories.Some?
  {
    var bins :- OptimalBins(xs);
    EdgesUniqueIsStrict(bins);
    OptimalBinsRepeatIffConstant(xs);
    if !EdgesUnique(bins) then Failure(DuplicateBinEdges)
    else
      OptimalBinsCover(xs);
      Success(Binned(bins, xs))
  }

  /** The qualitative branch: one row per distinct value, in ascending
      order, counting its cells. */
  function Categorized(col: Column): (r: Tabulation)
    ensures |r.labels| == |r.counts|
    ensures Sum(r.counts) == col.Length()
    ensures |r.counts| > 0 ==> Sum(r.counts) > 0
    ensures r.categories.None?
  {
    var vals := Values(col);
    var keys := SortedDistinct(vals);
    assert |keys| > 0 ==> keys[0] in vals;
    Tabulation(CategoryLabels(keys), CategoryCounts(vals, keys), None)
  }

  /** The type-dependent half of `calculate_frequencies`: bins and their
      counts for a quantitative type, distinct values and their counts for
      a qualitative one. */
  function Tabulate(col: Column, t: VarType): (r: Result<Tabulation, Error>)
    ensures r.Success? <==> Tabulates(col, t)
    ensures t.IsQuantitative() && col.Text? && col.Length() > 0 ==> r == Failure(NotNumeric)
    ensures t.IsQuantitative() && col.Length() == 0 ==> r == Failure(DivisionByZero)
    ensures r.Failure? && col.Numeric? && |col.nums| > 0 ==> r == Failure(DuplicateBinEdges)
    ensures r.Success? ==>
      && |r.value.labels| == |r.value.counts|
      && Sum(r.value.counts) == col.Length()
      && (|r.value.counts| > 0 ==> Sum(r.value.counts) > 0)
      && (r.value.categories.Some? <==> t.IsQuantitative())
  {
    if t.IsQuantitative() then
      match col
      case Text(ts) => if |ts| == 0 then Failure(DivisionByZero) else Failure(NotNumeric)
      case Numeric(xs) => BinnedColumn(xs)
    else
      Success(Categorized(col))
  }

  /** `calculate_frequencies`: the branch's labels and counts turned into
      the table with its Total row. A quantitative type fails when the
      column is not numeric, when it is empty (division by zero) or when the
      bin edges repeat; a qualitative type tabulates any column, an empty
      one included. */
  function CalculateFrequencies(col: Column, t: VarType, rnd: Rounding): (r: Result<FrequencyInfo, Error>)
    ensures r.Success? <==> Tabulate(col, t).Success?
    ensures r.Failure? ==> r.error == Tabulate(col, t).error
    ensures r.Success? ==>
      && r.value.varType == t
      && r.value.labels == Tabulate(col, t).value.labels
      && r.value.categories == Tabulate(col, t).value.categories
      && |r.value.table| == |r.value.labels| + 1
  {
    var tab :- Tabulate(col, t);
    Success(FrequencyInfo(BuildTable(tab.labels, tab.counts, rnd), tab.categories, tab.labels, t))
  }

  /** A quantitative type: k = round(sqrt(n)) rows over bins that run
      from the minimum to the maximum plus the nudge and strictly increase. */
  lemma QuantitativeBins(xs: seq<real>, t: VarType)
    requires t.IsQuantitative() && Tabulates(Numeric(xs), t)
    ensures var tab := Tabulate(Numeric(xs), t).value;
      var bins := OptimalBins(xs).value;
      var k := |tab.counts|;
      && k == RoundSqrt(|xs|) && |bins| == k + 1
      && bins[0] == Min(xs) && bins[k] == Max(xs) + Epsilon
      && StrictlyIncreasing(bins)
  {
    OptimalBinsRepeatIffConstant(xs);
  }

  /** The optimal bins of a column that tabulates cover it and strictly
      increase. */
  lemma TabulatedBinsShape(xs: seq<real>)
    requires |xs| > 0 && (Min(xs) < Max(xs) || RoundSqrt(|xs|) == 1)
    ensures OptimalBins(xs).Success?
    ensures var bins := OptimalBins(xs).value;
      Covered(bins, xs) && StrictlyIncreasing(bins) && EdgesUnique(bins)
  {
    var bins := OptimalBins(xs).value;
    OptimalBinsRepeatIffConstant(xs);
    OptimalBinsCover(xs);
    EdgesUniqueIsStrict(bins);
  }

  /** A quantitative table of a numeric column is the binned tabulation
      over the column's optimal bins. */
  lemma TabulatedBins(xs: seq<real>, t: VarType)
    requires t.IsQuantitative() && Tabulates(Numeric(xs), t)
    ensures OptimalBins(xs).Success?
    ensures var bins := OptimalBins(xs).value;
      && Covered(bins, xs) && StrictlyIncreasing(bins)
      && Tabulate(Numeric(xs), t) == Success(Binned(bins, xs))
  {
    TabulatedBinsShape(xs);
  }

  /** Row i of a quantitative table is the interval [bins[i], bins[i + 1])
      and counts the cells inside it. */
  lemma QuantitativeCounts(xs: seq<real>, t: VarType)
    requires t.IsQuantitative() && Tabulates(Numeric(xs), t)
    ensures var tab := Tabulate(Numeric(xs), t).value;
      var bins := OptimalBins(xs).value;
      && |bins| == |tab.counts| + 1
      && forall i :: 0 <= i < |tab.counts| ==>
           tab.labels[i] == Interval(bins[i], bins[i + 1]) && tab.counts[i] == CountIn(xs, bins[i], bins[i + 1])
  {
    TabulatedBins(xs, t);
    var bins := OptimalBins(xs).value;
    var tab := Binned(bins, xs);
    assert Tabulate(Numeric(xs), t).value == tab;
  }

  /** Every cell's category is a row of the table, and the bin of that row
      holds the cell. */
  lemma QuantitativeCategories(xs: seq<real>, t: VarType)
    requires t.IsQuantitative() && Tabulates(Numeric(xs), t)
    ensures var tab := Tabulate(Numeric(xs), t).value;
      var bins := OptimalBins(xs).value;
      && |bins| == |tab.counts| + 1
      && tab.categories.Some? && Binning(bins, xs, tab.categories.value)
  {
    TabulatedBins(xs, t);
    var bins := OptimalBins(xs).value;
    var tab := Binned(bins, xs);
    assert Tabulate(Numeric(xs), t).value == tab;
  }

  /** A qualitative type never fails: one row per distinct value, in
      strictly ascending order, each counting that value's cells (at least
      one), and every value of the column has its row. */
  lemma QualitativeTabulation(col: Column, t: VarType)
    requires !t.IsQuantitative()
    ensures Tabulate(col, t).Success?
    ensures var tab := Tabulate(col, t).value;
      var vals := Values(col);
      && tab.categories.None?
      && (forall i :: 0 <= i < |tab.labels| ==> tab.labels[i].Category?)
      && (forall i, j :: 0 <= i < j < |tab.labels| ==> Less(tab.labels[i].value, tab.labels[j].value))
      && (forall i :: 0 <= i < |tab.labels| ==>
            tab.counts[i] == Count(vals, tab.labels[i].value) && tab.counts[i] >= 1)
      && (forall v :: v in vals <==> Category(v) in tab.labels)
  {
    var vals := Values(col);
    var keys := SortedDistinct(vals);
    var labels := CategoryLabels(keys);
    forall v
      ensures v in vals <==> Category(v) in labels
    {
      if v in vals {
        var i :| 0 <= i < |keys| && keys[i] == v;
        assert labels[i] == Category(v);
      }
      if Category(v) in labels {
        var i :| 0 <= i < |labels| && labels[i] == Category(v);
        assert keys[i] == v;
      }
    }
  }

  /** The table is built from the branch's labels and counts, which add
      up to the number of cells, and there is at least one row of them
      when the column has cells. */
  lemma TableIsBuilt(col: Column, t: VarType, rnd: Rounding)
    requires Tabulates(col, t)
    ensures Tabulate(col, t).Success? && CalculateFrequencies(col, t, rnd).Success?
    ensures var tab := Tabulate(col, t).value;
      var info := CalculateFrequencies(col, t, rnd).value;
      && info.table == BuildTable(tab.labels, tab.counts, rnd)
      && info.labels == tab.labels && |tab.labels| == |tab.counts|
      && Sum(tab.counts) == col.Length()
      && (|tab.counts| > 0 ==> Sum(tab.counts) > 0)
      && (col.Length() > 0 ==> |tab.counts| > 0)
  {
    var tab := Tabulate(col, t).value;
    assert CalculateFrequencies(col, t, rnd)
      == Success(FrequencyInfo(BuildTable(tab.labels, tab.counts, rnd), tab.categories, tab.labels, t));
  }

  /** The table keeps each branch's labels and counts, the cumulative cells
      are filled on every data row and empty on the Total row, and the Total
      row counts every cell of the column. */
  lemma TableTotals(col: Column, t: VarType, rnd: Rounding)
    requires Tabulates(col, t)
    ensures var info := CalculateFrequencies(col, t, rnd).value;
      var tab := Tabulate(col, t).value;
      var m := |info.labels|;
      && (forall i :: 0 <= i < m ==>
            info.table[i].index == info.labels[i] && info.table[i].absolute == tab.counts[i]
            && info.table[i].cumulative.Some? && info.table[i].cumulativePct.Some?)
      && info.table[m].index == TotalLabel
      && info.table[m].cumulative.None? && info.table[m].cumulativePct.None?
      && info.table[m].absolute == col.Length()
      && Sum(AbsoluteColumn(info.table[..m])) == col.Length()
  {
    TableIsBuilt(col, t, rnd);
    var tab := Tabulate(col, t).value;
    BuildTableCounts(tab.labels, tab.counts, rnd);
  }

  /** The cumulative column is the running total of the counts: it starts
      at the first count and grows by each row's count. */
  lemma TableRunningTotal(col: Column, t: VarType, rnd: Rounding)
    requires Tabulates(col, t)
    requires col.Length() > 0
    ensures var info := CalculateFrequencies(col, t, rnd).value;
      var m := |info.labels|;
      && m > 0
      && info.table[0].cumulative == Some(info.table[0].absolute)
      && (forall i :: 0 <= i < m ==> info.table[i].cumulative.Some?)
      && (forall i :: 0 < i < m ==>
            info.table[i].cumulative.value == info.table[i - 1].cumulative.value + info.table[i].absolute)
  {
    TableIsBuilt(col, t, rnd);
    var tab := Tabulate(col, t).value;
    BuildTableCounts(tab.labels, tab.counts, rnd);
    BuildTableRunningTotal(tab.labels, tab.counts, rnd);
  }

  /** The cumulative column never decreases. */
  lemma TableMonotone(col: Column, t: VarType, rnd: Rounding, i: nat, j: nat)
    requires Tabulates(col, t)
    requires i <= j < |Tabulate(col, t).value.labels|
    ensures var row := CalculateFrequencies(col, t, rnd).value.table;
      && row[i].cumulative.Some? && row[j].cumulative.Some?
      && row[i].cumulative.value <= row[j].cumulative.value
  {
    TableIsBuilt(col, t, rnd);
    var tab := Tabulate(col, t).value;
    BuildTableMonotone(tab.labels, tab.counts, rnd, i, j);
  }

  /** The last data row's cumulative cells hold the number of cells and
      (before rounding) 100%. */
  lemma TableCumulativeEnd(col: Column, t: VarType, rnd: Rounding)
    requires Tabulates(col, t)
    requires col.Length() > 0
    ensures var info := CalculateFrequencies(col, t, rnd).value;
      var m := |info.labels|;
      && m > 0
      && info.table[m - 1].cumulative == Some(col.Length())
      && info.table[m - 1].cumulativePct == Some(rnd.round2(100.0))
  {
    TableIsBuilt(col, t, rnd);
    var tab := Tabulate(col, t).value;
    BuildTableEnd(tab.labels, tab.counts, rnd);
  }

  /** With a rounding that errs by at most half a unit, the Total row's
      relative frequency is within 0.00005 per row of 1 and its percentage
      within 0.01 per row of 100. */
  lemma TableShares(col: Column, t: VarType, rnd: Rounding)
    requires Tabulates(col, t)
    requires col.Length() > 0 && Sound(rnd)
    ensures var info := CalculateFrequencies(col, t, rnd).value;
      var m := |info.labels|;
      && -(m as real) * 0.00005 <= info.table[m].relative - 1.0 <= m as real * 0.00005
      && -(m as real) * 0.01 <= info.table[m].relativePct - 100.0 <= m as real * 0.01
  {
    TableIsBuilt(col, t, rnd);
    var tab := Tabulate(col, t).value;
    BuildTableRelativeSum(tab.labels, tab.counts, rnd);
    BuildTablePercentSum(tab.labels, tab.counts, rnd);
  }

  /** An empty column under a qualitative type gives only the Total row,
      with a zero count and zero sums. */
  lemma EmptyQualitativeTable(col: Column, t: VarType, rnd: Rounding)
    requires !t.IsQuantitative() && col.Length() == 0
    ensures CalculateFrequencies(col, t, rnd).Success?
    ensures CalculateFrequencies(col, t, rnd).value.table == [Row(TotalLabel, 0, 0.0, 0.0, None, None)]
  {
    assert Values(col) == [];
  }
}
