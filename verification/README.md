# Descriptive statistics of a table column, in Dafny

This project models the computing core of a small Streamlit application for
descriptive statistics. The application loads a CSV file, and for every
column the user ticks it shows three tabs:

- a frequency table;
- the charts;
- the descriptive statistics, followed by a few sentences of interpretation.

The model covers everything those tabs compute, but none of the drawing:

- **Classifier** — the automatic variable type (`classify_variable`). Numeric columns are quantitative discrete or continuous. Other columns are qualitative nominal or ordinal.
- **Bins** — the equal-width bins of a quantitative column (`calculate_optimal_bins`): k = round(sqrt(n)) bins from the minimum to just past the maximum.
- **Frequencies** — the frequency table (`calculate_frequencies`). It has one row per bin or per distinct value, with these columns:
  - absolute, relative and percent frequencies;
  - cumulative count and cumulative percent;
  - a final Total row.
- **Statistics** — the measures (`calculate_statistics`):
  - position: mean, median, mode, Q1 and Q3;
  - dispersion: range, sample variance, standard deviation and coefficient of variation.
- **Narrator** — which interpretation remarks `interpret_statistics` writes, and in which order.
- **App** — the per-column dispatch of `main` and its loop over the ticked columns.
  - A column's type is the user's pick, preselected to the classification.
  - A column whose frequency table raises gets nothing more, and the exception ends the script: no later column is shown (`App.Run`). With a quantitative type the table raises for an empty column, for a text column, and for a constant numeric column with two or more bins, whose bin edges repeat.
  - A column whose table is built gets it. Only quantitative types then get the statistics and remarks; qualitative types get a warning instead.
  - The code as written never gets that far for most columns (see "## Findings"). A text column raises NameError in the classifier. The quantitative chart reads a "bins" entry that the frequency dictionary does not have, so every column whose table is built for a quantitative type raises KeyError at the chart, before its statistics tab. `App.AnalyzeAsWritten` and `App.AsWrittenStep` model this program: a column is shown only when it is numeric and the user picked a qualitative type.
  - `App.Analyze`, `App.AnalyzeWith` and `App.Run` with `App.CorrectedStep` model the program with both bugs corrected: the column name is passed to the classifier, and `calculate_frequencies` also returns its bins.

Supporting modules:

- `Wrappers` holds `Option`/`Result`, and `Errors` the error kinds.
- `Seqs` holds sums, counts, tallies and prefix sums.
- `Ordering` holds Python's string order, the sorted distinct keys of `value_counts().sort_index()`, and the ascending sort of reals.
- `Rounding` holds numpy's half-to-even rounding to 4 and 2 decimals.

The table is stated for any rounding whose error is within half a unit of the last place (`Rounding.Sound`). numpy's own rounding, modelled on exact reals, is proved to be one (`Rounding.NumpyIsSound`).

Some details of the code that the model keeps. The last two concern `interpret_statistics`, which the code as written never reaches, because of the KeyError described under "## Findings"; they hold in the corrected program:

- **Classification threshold.** A numeric column is continuous exactly when it has more than 10 distinct values (utils.py:22-23). The count of distinct values is the only test: whole and fractional values are treated alike.
- **Bins.** Discrete and continuous columns get the same bins: k equal-width bins with real-valued boundaries starting at the minimum, with the last one set to the maximum plus 1e-6 (utils.py:126-130). That nudge is exact only on reals (see `Bins.OptimalBinsCover` under "## Left out").
- **Symmetry test.** The test compares with `0.1 * mean`, using the signed mean (app.py:147). A column with a negative mean is therefore never called symmetric.
- **Single cell.** With a single cell, the standard deviation is NaN. NaN is truthy in Python, so the deviation remark is still written rather than omitted.

## Model

| member | source | states |
|---|---|---|
| Classifier.Classify | utils.py:19-43 | Gives a quantitative type exactly for numeric columns. A numeric column is continuous iff it has more than 10 distinct values. A text column is ordinal iff its lower-cased name contains one of the six keywords or a lower-cased cell is one of the six ordinal words; otherwise it is nominal. |
| Classifier.ClassifyAsWritten | utils.py:19-36 | As written: numeric columns get a quantitative type; every text column fails at the unbound `col_name`. |
| Classifier.ClassifyAgreesWhereSourceSucceeds | utils.py:19-43 | The corrected classifier agrees with the written one wherever the written one succeeds, and the written one fails exactly on text columns. |
| Classifier.RatingsColumnFailsAsWritten | utils.py:35-41 | The column ["Baixo", "Alto"] makes the written classifier fail, while the corrected one calls it ordinal. |
| Classifier.NUnique | utils.py:20 | `nunique` is the number of distinct values of the column. |
| Classifier.NameHasKeyword | utils.py:35 | True iff some ordinal keyword occurs somewhere in the lower-cased name. |
| Classifier.Contains | utils.py:35 | Python's substring test: true iff `w` occurs in `s` at some position. |
| Classifier.HasOrdinalValue | utils.py:39-40 | True iff some lower-cased cell is one of the ordinal words. |
| Classifier.LowerChar | utils.py:39 | `str.lower` maps the ASCII and Latin-1 capitals 32 code points up, to their small letters, and leaves every other character unchanged. |
| Classifier.Lower | utils.py:39 | The result has the same length and no capital letter left. Every non-capital is kept, and every capital is replaced by its small letter, 32 code points up. |
| Classifier.LowerIdempotent | utils.py:39 | Lower-casing twice is the same as lower-casing once. |
| Bins.RoundSqrt | utils.py:120-121 | k is 0 for n = 0. For n >= 1, k >= 1 and k*k - k < n <= k*k + k. |
| Bins.RoundSqrtUnique | utils.py:121 | At most one k satisfies that characterisation. |
| Bins.RoundSqrtIsNearest | utils.py:121 | k lies within 1/2 of every non-negative square root of n, so it is `round(sqrt(n))`. |
| Bins.Min | utils.py:123 | The minimum is a cell and no cell is below it. |
| Bins.Max | utils.py:124 | The maximum is a cell and no cell is above it. |
| Bins.Boundaries | utils.py:126-130 | k + 1 boundaries, starting at min, with the last one max + 1e-6. |
| Bins.OptimalBins | utils.py:119-132 | Fails with a division by zero exactly for an empty column. Otherwise it gives round(sqrt(n)) + 1 boundaries, starting at the minimum and ending at the maximum + 1e-6. |
| Bins.BoundariesShape | utils.py:126-130 | When hi > lo the boundaries strictly increase. Every bin but the last has width (hi - lo)/k; the last is wider by 1e-6. |
| Bins.BoundariesRepeat | utils.py:129 | With hi == lo and k >= 2, the first two boundaries coincide. |
| Bins.BoundariesIncreasingIff | utils.py:126-130 | The boundaries strictly increase iff hi > lo or k = 1. |
| Bins.OptimalBinsShape | utils.py:126-130 | For a non-constant column the bins strictly increase and have the constant width (max - min)/k; the last is wider by the nudge. |
| Bins.OptimalBinsCover | utils.py:123-130 | Every cell lies in [bins[0], bins[k]). |
| Bins.OptimalBinsRepeatIffConstant | utils.py:126-130 | The bins strictly increase iff the column is not constant or k = 1. |
| Rounding.RoundToEven | utils.py:87-90 | The result is within 1/2 of y, a tie goes to the even integer, and whole numbers stay put. |
| Rounding.Round4Error | utils.py:87 | `round(4)` moves a value by at most 0.00005. |
| Rounding.Round2Error | utils.py:88 | `round(2)` moves a value by at most 0.005. |
| Rounding.Round2Whole | utils.py:90 | `round(2)` keeps whole numbers. |
| Rounding.NumpyIsSound | utils.py:87-90 | numpy's rounding satisfies the error bounds the table relies on. |
| Seqs.TallySum | utils.py:71 | When every element is one of the distinct keys, the tally adds up to the length. |
| Seqs.CountBounded | utils.py:79 | A value's count is at most the length: 0 when absent, at least 1 when present. |
| Seqs.PrefixSumsSteps | utils.py:89 | `cumsum` starts at the first count, grows by each count, and ends at the sum. |
| Seqs.PrefixSumsMonotone | utils.py:89 | `cumsum` of counts never decreases. |
| Ordering.StrLessIrreflexive | utils.py:79 | Python's string order is irreflexive. |
| Ordering.StrLessTransitive | utils.py:79 | Python's string order is transitive. |
| Ordering.StrLessTotal | utils.py:79 | Python's string order relates any two different strings. |
| Ordering.Insert | utils.py:79 | Inserting into a strictly ascending key list keeps it strictly ascending, with exactly the old keys plus the new one. |
| Ordering.SortedDistinct | utils.py:79 | The keys of `value_counts().sort_index()` are strictly ascending and are exactly the column's values. |
| Ordering.InsertReal | utils.py:154 | Inserting into an ascending list keeps it ascending and adds exactly that one element. |
| Ordering.SortReals | utils.py:154 | The sort is ascending and a permutation of the column. |
| Frequencies.FindBin | utils.py:64-69 | A found bin holds x in [bins[i], bins[i+1]); when none is found, no bin from the start index on holds x. |
| Frequencies.BinExists | utils.py:64-69 | A value in [bins[i], last boundary) lies in some bin. |
| Frequencies.BinUnique | utils.py:64-69 | With strictly increasing boundaries no value lies in two bins. |
| Frequencies.Cut | utils.py:64-69 | `pd.cut` gives every cell a bin that holds it. |
| Frequencies.BinningCount | utils.py:64-71 | A bin's index occurs as often as cells lie in the bin's interval. |
| Frequencies.BinCounts | utils.py:71 | One count per bin, empty bins included, each the occurrences of that index; they add up to the number of cells. |
| Frequencies.BinCountsAreCountIn | utils.py:64-71 | Every bin's count is the number of cells in its interval. |
| Frequencies.Binned | utils.py:61-77 | The quantitative branch gives one row per bin, labelled by its interval and counting the cells inside it, adding up to n. It also gives every cell its bin. |
| Frequencies.EdgesUniqueIsStrict | utils.py:64-69 | pandas' no-repeated-edges test on non-decreasing edges is strict increase. |
| Frequencies.CategoryCounts | utils.py:79 | One count per distinct value, in ascending value order, each at least 1, adding up to n. |
| Frequencies.Relatives | utils.py:87 | One relative frequency per count. With a sound rounding, each is within 0.00005 of count/total. |
| Frequencies.Percents | utils.py:88 | One percent per relative frequency. With a sound rounding, each is within 0.005 of that relative frequency times 100. |
| Frequencies.CumulativePercents | utils.py:90 | One cumulative percent per running total. With a sound rounding, each is within 0.005 of cum/total * 100, and exactly 100 where the running total reaches the total. |
| Frequencies.DataRowsKeepCounts | utils.py:92-98 | Each data row keeps its label and count and has both cumulative cells. |
| Frequencies.DataRowsRunningTotal | utils.py:89 | The cumulative column starts at the first count and grows by each count. |
| Frequencies.DataRowsEndAtTotal | utils.py:89 | The last cumulative cell is the total. |
| Frequencies.DataRowsEndAtHundred | utils.py:90 | The last cumulative percent is round(100). |
| Frequencies.BuildTable | utils.py:100-108 | The data rows are followed by one Total row. It carries the total count and the sums of the relative and percent columns, with no cumulative cells. |
| Frequencies.BuildTableCounts | utils.py:92-108 | The table keeps every label and count, in order, and the counts add up to the Total row's count. |
| Frequencies.BuildTableRunningTotal | utils.py:89-96 | In the table, the cumulative column is the running total of the counts. |
| Frequencies.BuildTableMonotone | utils.py:89 | In the table, the cumulative column never decreases. |
| Frequencies.BuildTableEnd | utils.py:89-90 | The last data row holds the total and round(100). |
| Frequencies.SharesSum | utils.py:87 | The exact shares count/total * f add up to Sum/total * f. |
| Frequencies.SharesOfWhole | utils.py:87 | The exact shares of the whole add up to f. |
| Frequencies.RelativesErrors | utils.py:87 | With a sound rounding, each relative frequency is within 0.00005 of its exact share. |
| Frequencies.PercentsErrors | utils.py:88 | With a sound rounding, each percent is within 0.01 of its exact share of 100. |
| Frequencies.RelativesSumWithin | utils.py:102 | The rounded ratios add up to within 0.00005 per row of the exact shares. |
| Frequencies.PercentsSumWithin | utils.py:103 | The rounded percents add up to within 0.01 per row of the exact shares. |
| Frequencies.BuildTableRelativeSum | utils.py:102 | The Total row's relative frequency is within 0.00005 per row of 1. |
| Frequencies.BuildTablePercentSum | utils.py:103 | The Total row's percent is within 0.01 per row of 100. |
| Frequencies.BinnedColumn | utils.py:61-77 | The quantitative branch on a numeric column succeeds iff the column is non-empty and not constant, or has a single bin. An empty column fails with a division by zero and a repeating one with pandas' error. On success the counts add up to the number of cells. |
| Frequencies.Categorized | utils.py:78-80 | The qualitative branch: one label per count, adding up to the number of cells, and no categories. |
| Frequencies.Tabulate | utils.py:61-84 | A quantitative type needs a non-empty numeric column whose bins do not repeat. For a quantitative type, an empty column of either kind fails as a division by zero (`k` is 0 at utils.py:127), a non-empty text column as not numeric, and repeated edges with pandas' error. A qualitative type always succeeds. On success the counts add up to the number of cells, and only quantitative types carry categories. |
| Frequencies.CalculateFrequencies | utils.py:45-117 | Succeeds and fails with its branch. It keeps the branch's labels and categories and the type, and the table has one row more than there are labels. |
| Frequencies.QuantitativeBins | utils.py:62 | A quantitative table has round(sqrt(n)) rows. Its bins run from min to max + 1e-6 and strictly increase. |
| Frequencies.QuantitativeCounts | utils.py:64-73 | Row i of a quantitative table is the interval [bins[i], bins[i+1]) and counts exactly the cells inside it. |
| Frequencies.QuantitativeCategories | utils.py:64-69 | Every cell's category is a row of the table, and that row's bin holds the cell. |
| Frequencies.QualitativeTabulation | utils.py:78-80 | A qualitative type never fails. It gives one row per distinct value, in strictly ascending order, each counting that value's cells (at least one), and every value has its row. |
| Frequencies.TableTotals | utils.py:86-108 | The table keeps the branch's labels and counts. Data rows have both cumulative cells and the Total row has none. The Total row, and the sum of the absolute column, equal the number of cells. |
| Frequencies.TableRunningTotal | utils.py:89 | For a non-empty column, the cumulative column starts at the first count and grows by each row's count. |
| Frequencies.TableIsBuilt | utils.py:86-108 | The table is built from the branch's labels and counts, and is non-empty when the column has cells. |
| Frequencies.TableMonotone | utils.py:89 | The cumulative column never decreases. |
| Frequencies.TableCumulativeEnd | utils.py:89-90 | The last data row holds the number of cells and round(100). |
| Frequencies.TableShares | utils.py:100-103 | With a sound rounding, the Total row's relative frequency is within 0.00005 per row of 1, and its percent within 0.01 per row of 100. |
| Frequencies.EmptyQualitativeTable | utils.py:79-108 | An empty column with a qualitative type gives only a zero Total row. |
| Statistics.Mean | utils.py:153 | The mean lies between the minimum and the maximum. |
| Statistics.MeanOfConstant | utils.py:153 | The mean of a constant column is its value. |
| Statistics.SortedEnds | utils.py:154 | The sorted column starts at the minimum and ends at the maximum. |
| Statistics.Median | utils.py:154 | For odd n, the middle cell of the sorted column. For even n, between the two middle cells. |
| Statistics.Position | utils.py:156-157 | The interpolation position (n - 1) * p / 100, scaled by 100, lies within the sorted column; `Statistics.PositionIsProduct` states its value. |
| Statistics.PositionIsProduct | utils.py:156-157 | The scaled position is (n - 1) * p. |
| Statistics.PositionMonotone | utils.py:156-157 | A higher percentage has a later position. |
| Statistics.Interpolate | utils.py:156-157 | numpy's linear method. With h = (n - 1) * p and lo = h / 100: at the last index it is that cell; otherwise r = ((100 - f) * a[lo] + f * a[lo + 1]) / 100 with f = h % 100, which lies between the two cells. |
| Statistics.InterpolateMonotone | utils.py:156-157 | In an ascending sequence, a higher percentage never interpolates lower. |
| Statistics.InterpolateEnds | utils.py:156-157 | Percentage 0 gives the first cell and 100 the last. |
| Statistics.Percentile | utils.py:156-157 | numpy's linear percentile: the value of `Statistics.Interpolate` in the sorted column, so between the sorted cells around the position. |
| Statistics.PercentileOfTwoCells | utils.py:156-157 | For two cells a <= b, the p-th percentile is ((100 - p) * a + p * b) / 100. |
| Statistics.QuartilesOfTwoCells | utils.py:156-157 | For two cells a <= b, Q1 = (3a + b)/4 and Q3 = (a + 3b)/4: the linear method, not the lower cell nor the midpoint. |
| Statistics.PercentileMonotone | utils.py:156-157 | Percentiles are monotone in p. |
| Statistics.PercentileEnds | utils.py:156-157 | The 0th percentile is the minimum and the 100th is the maximum. |
| Statistics.MedianIsMiddlePercentile | utils.py:154-157 | `statistics.median` equals the linear 50th percentile. |
| Statistics.QuartilesOrdered | utils.py:154-157 | min <= Q1 <= median <= Q3 <= max. |
| Statistics.ModeScan | utils.py:155 | The scan ends at a position whose value is most frequent, with every earlier value strictly less frequent. |
| Statistics.ModeIndex | utils.py:155 | Its value is most frequent, and it is the first position holding a most frequent value. |
| Statistics.Mode | utils.py:155 | The mode is a cell occurring at least as often as every value. Among equally frequent values it is the one met first. |
| Statistics.Amplitude | utils.py:161 | The range is non-negative. |
| Statistics.AmplitudeZeroIff | utils.py:161 | The range is zero iff the column is constant. |
| Statistics.SquareSign | utils.py:162 | A square is non-negative and zero only at zero. |
| Statistics.SquaredDeviationsZero | utils.py:162 | The squared deviations from m are non-negative, and zero iff every cell equals m. |
| Statistics.Variance | utils.py:162 | The variance is NaN iff there is one cell. Otherwise it is non-negative and times (n - 1) gives the squared deviations from the mean. |
| Statistics.VarianceZeroIff | utils.py:162 | The sample variance is zero iff the column is constant. |
| Statistics.Std | utils.py:163 | The std is NaN iff there is one cell. |
| Statistics.StdMeaning | utils.py:163 | The std is non-negative, squares to the variance, and is zero iff the column is constant. |
| Statistics.CV | utils.py:164-165 | The CV is defined iff n >= 2 and the mean is non-zero. Then CV * mean = std. |
| Statistics.CalculateStatistics | utils.py:146-169 | Succeeds iff the column is non-empty; an empty one raises in `statistics.mean`. On success it holds the nine measures. |
| Statistics.StatisticsOrdered | utils.py:151-167 | The mean and the quartiles lie in [min, max], Q1 <= median <= Q3, and the range is non-negative. |
| Narrator.SkewTag | app.py:147-152 | Symmetric iff mean and median are within 0.1 * mean. Otherwise right skew iff mean > median, and left skew in the remaining case. |
| Narrator.Before | app.py:146-161 | Writing a remark ahead of later-ranked ones keeps the order, puts it first exactly when written, and adds nothing else. |
| Narrator.OtherRemarks | app.py:154-161 | The std remark is written iff std is truthy, the range remark iff the range is truthy, and the mode remark iff the mode is not None; in that order. |
| Narrator.Interpret | app.py:137-161 | A shape remark is written iff mean and median are both truthy, and it is the one SkewTag picks. The std, range and mode remarks follow as in OtherRemarks. The remarks are in block order, each at most once. |
| Narrator.FiniteShape | app.py:146-152 | For finite mean a and median b: a shape remark iff both are non-zero; symmetric iff also abs(a - b) < 0.1 * a; right skew iff not symmetric and a > b. |
| Narrator.NegativeMeanNeverSymmetric | app.py:147 | A negative mean is never called symmetric. |
| Narrator.EqualCentresSymmetricIff | app.py:146-148 | Equal mean and median are called symmetric iff the mean is positive. |
| App.ChosenType | app.py:74 | The type is the user's pick, or else the classification. Without a pick the type is quantitative iff the column is numeric. |
| App.AnalyzeWith | app.py:79-95 | Fails exactly when the frequency table does, with its error. On success the table is built for the given type. Statistics and remarks appear iff the type is quantitative, and then the column is numeric and non-empty. |
| App.Tabs | app.py:79-88 | With the given dictionary keys: the table's exception ends the script first; then the chart raises KeyError iff it reads a missing key; otherwise the tabs are those of `App.AnalyzeWith`. |
| App.ChartFindsKeysIff | components.py:269-297 | The returned dictionary has every key the chart reads iff the type is qualitative; with the bins added, every chart finds its keys. |
| App.TabsWithBins | app.py:79-95 | With the bins returned as well, the tabs are exactly `App.AnalyzeWith`'s, with its exceptions raised. |
| App.AnalyzeAsWritten | app.py:71-95 | As written, a text column ends the script with NameError whatever the pick. A numeric column analysed as quantitative whose table is built raises KeyError at the chart. A column is shown iff it is numeric and picked as qualitative, and then it gets the warning, never statistics. |
| App.PairColumnStopsAsWritten | app.py:74-88 | The column [1.0, 2.0] with no pick raises KeyError as written, while the corrected program shows its statistics. |
| App.AsWrittenAgainstCorrected | app.py:71-95 | On a numeric column, the program as written raises every exception the corrected one raises. It shows the same tabs for a qualitative type, and raises KeyError where the corrected program shows a quantitative analysis. |
| App.Run | app.py:68-95 | The ticked columns are shown in order, each as its step gives it, up to the first that raises. That exception ends the page, and no later column is shown. With no exception, every column is shown. |
| App.AsWrittenStopsAt | app.py:68-88 | As written, the page stops with an exception at or before the first ticked column that is not a numeric column picked as qualitative. |
| App.AsWrittenNeverShowsStatistics | app.py:68-95 | As written, every column shown is numeric, picked as qualitative, and shows the warning: no page ever shows statistics. |
| App.CorrectedShowsAll | app.py:68-95 | In the program with both bugs corrected, a page whose columns all build their tables shows every column. |
| App.Analyze | app.py:68-95 | In the program with both bugs corrected: fails exactly when the frequency table does, with its error. On success the table is built for the chosen type. Statistics and remarks appear iff the type is quantitative, and then the column is numeric and non-empty. |
| App.QualitativeNeverFails | app.py:91-95 | In the corrected program, a qualitative type always gives the table and the warning. |
| App.DefaultAnalysis | app.py:74-95 | In the program with both bugs corrected and no pick, a text column gets its table and the warning. A numeric column succeeds iff it is non-empty and not constant, or has a single bin, and then it gets statistics. |
| App.TextAsQuantitativeFails | app.py:81 | A text column analysed as quantitative fails: as not numeric when it has cells, and as a division by zero when it is empty. |
| App.ColumnRemarks | app.py:135 | A column's remarks are in block order and always include the mode remark. |
| App.ShapeRemarkOfColumn | app.py:146-152 | A shape remark iff mean and median are non-zero; symmetric iff also within 0.1 * mean. |
| App.RangeRemarkOfColumn | app.py:157-158 | The range remark is written iff the column is not constant. |
| App.StdRemarkOfColumn | app.py:154-155 | The std remark is written iff the column has one cell (NaN std) or is not constant. |
| App.AnalysisRemarks | app.py:91-93 | In the corrected program, a quantitative analysis of a numeric column carries exactly that column's remarks. |

## Left out

- The user interface is not modelled: components.py, page setup, tabs, CSS, the sidebar checkboxes and the charts. Of `plot_distribution`, only the dictionary keys it reads are modelled (`App.ChartKeys`). The type selector is modelled as an optional user pick (`App.ChosenType`).
- Reading the CSV file, dropping its first column and `dropna` are not modelled. A column arrives already cleaned, tagged numeric or text as pandas' dtype inference would have it.
- `format_interval` is not modelled: an interval label is its pair of boundaries, without the "a | - b" text with two decimals.
- The wording and number formatting of the remarks are not modelled: a remark is its kind.
- Floating point is not modelled: the measures are exact reals, and `round` is decimal half-to-even on exact reals, not on binary doubles.
- Bins.OptimalBinsCover: holds on exact reals only. In float64, `max + 1e-6` (utils.py:130) rounds back to the maximum once it is at least 2^34 (about 1.7e10), because half a unit in the last place then exceeds 1e-6. `pd.cut` with `right=False` then leaves the cells equal to the maximum outside every bin.
- Frequencies.QuantitativeCounts: counts on exact reals. In float64, for a maximum of 2^34 or more, the cells equal to the maximum are in no bin and `value_counts` does not count them.
- Frequencies.TableTotals: the Total row is the number of cells on exact reals. In float64, for [0.0, 2e10] it is 1 rather than 2, and the last cumulative percent is 50.
- Frequencies.BinnedColumn: on exact reals a non-constant column never repeats its bin edges. In float64, a column of huge values with a tiny spread can round two edges together, and pandas then raises where the model succeeds.
- NaN arithmetic is modelled only where a NaN is produced, through the `Num` datatype.
- The square root is a parameter constrained by `Statistics.IsSqrt`.
- `str.lower` is modelled for ASCII and Latin-1 capitals only, the letters Portuguese uses; the rest of Unicode case mapping is left out.
- The unused `scipy` import and the unused `known_ordinal_values` dictionary are not modelled.
- pandas internals (`pd.cut`, `value_counts`, `nunique`) are modelled by what they return, not how.
- A non-empty non-numeric column given a quantitative type makes `float(col_data.min())` raise; this is modelled as the `NotNumeric` error without the exception's text. A text column whose smallest and largest cells both parse as numbers (such as "1" and "9") would get past that call in Python; the model does not parse text cells and treats every non-empty text column alike.
- An empty column given a quantitative type raises at the division by `k = 0`, modelled as `DivisionByZero`.
- When a column raises, the model records the exception and nothing of that column; the column's header and the tabs drawn before the exception are not modelled.
- Interval labels are the exact bin boundaries. `pd.cut` builds its labels from boundaries rounded at its default `precision=3`; that rounding is not modelled.
- Qualitative labels are the column's values, not their `astype(str)` text, so a numeric value 1.0 is not shown as the string "1.0" (utils.py:80).
- Statistics.Median: for an even count the contract states bounds. The exact value is tied down by `Statistics.MedianIsMiddlePercentile` together with the linear value `Statistics.Percentile` states.
- Statistics.Mean: the contract states the bounds of the mean, not its value. `Statistics.MeanOfConstant` pins its value for constant columns.
- Statistics.CalculateStatistics: beyond when it fails, the contract only names the measures it holds. Their meaning is in the contracts of the single measures.

## Findings

| source | as written | input that shows it | evidently intended | confidence | as-written member | corrected member |
|---|---|---|---|---|---|---|
| utils.py:35 | the name test reads `col_name`, which `classify_variable` never binds, so every non-numeric column raises NameError | any text column, e.g. the cells ["Baixo", "Alto"] | test the column's name, passed in by the caller, for the ordinal keywords | not executed | Classifier.ClassifyAsWritten | Classifier.Classify |
| components.py:296 | for a quantitative type, `plot_distribution` (called at app.py:86) reads `plot_info['bins']`, but the dictionary `calculate_frequencies` returns (utils.py:110-117) has no "bins" entry, so it raises KeyError before the statistics tab, and the loop stops | the numeric column [1.0, 2.0] with no pick | `calculate_frequencies` also returns its bins, as `plot_distribution`'s docstring lists them (components.py:246) | not executed | App.PairColumnStopsAsWritten | App.TabsWithBins |
