/** The per-column analysis of app.py's `main`: the column's type (the
    classification, unless the user picks another in the selector), its
    frequency table, and then either the statistics with their remarks
    (quantitative types) or the warning that statistics are for
    quantitative variables only. */
module App {
  import opened Wrappers
  import opened Errors
  import opened Ordering
  import opened Classifier
  import opened Bins
  import opened Rounding
  import opened Frequencies
  import opened Statistics
  import opened Narrator

  /** What the statistics tab shows. */
  datatype Report =
    | StatisticalAnalysis(stats: Stats, remarks: seq<Tag>)
    | QualitativeWarning

  /** Everything the three tabs show for one column. */
  datatype Analysis = Analysis(varType: VarType, freq: FrequencyInfo, report: Report)

  /** The measures `interpret_statistics` looks up in the dictionary that
      `calculate_statistics` returns: every key is present, so each lookup
      is `Some`. */
  function MeasuresOf(s: Stats): (m: Measures)
    ensures m.mean.Some? && m.median.Some? && m.mode.Some? && m.std.Some? && m.range.Some?
    ensures m.mean.value == Fin(s.mean) && m.median.value == Fin(s.median)
    ensures m.std.value == s.std && m.range.value == Fin(s.amplitude)
  {
    Measures(Some(Fin(s.mean)), Some(Fin(s.median)), Some(Fin(s.mode)), Some(s.std), Some(Fin(s.amplitude)))
  }

  /** The type the analysis uses: the user's pick in the selector, whose
      preselected entry is the (corrected) classification, so that without
      a pick a column is analysed as quantitative exactly when it is
      numeric. */
  function ChosenType(col: Column, name: string, choice: Option<VarType>): (t: VarType)
    ensures choice.Some? ==> t == choice.value
    ensures choice.None? ==> t == Classify(col, name)
    ensures choice.None? ==> (t.IsQuantitative() <==> col.Numeric?)
  {
    choice.GetOr(Classify(col, name))
  }

  /** The tabs for one column analysed with the type t. An exception in
      `calculate_frequencies` stops the column's analysis;
      `calculate_statistics` cannot fail once the table was built for a
      quantitative type, since the column is then numeric and non-empty. */
  function AnalyzeWith(col: Column, t: VarType, rnd: Rounding, sqrt: real -> real): (r: Result<Analysis, Error>)
    ensures r.Success? <==> Tabulates(col, t)
    ensures r.Failure? ==> r.error == Tabulate(col, t).error
    ensures r.Success? ==>
      && r.value.varType == t
      && r.value.freq == CalculateFrequencies(col, t, rnd).value
      && (r.value.report.StatisticalAnalysis? <==> t.IsQuantitative())
      && (r.value.report.StatisticalAnalysis? ==>
            && col.Numeric? && |col.nums| > 0
            && r.value.report.stats == CalculateStatistics(col.nums, sqrt).value
            && r.value.report.remarks == Interpret(MeasuresOf(r.value.report.stats)))
  {
    var freq :- CalculateFrequencies(col, t, rnd);
    if t.IsQuantitative() then
      var stats := CalculateStatistics(col.nums, sqrt).value;
      Success(Analysis(t, freq, StatisticalAnalysis(stats, Interpret(MeasuresOf(stats)))))
    else
      Success(Analysis(t, freq, QualitativeWarning))
  }

  /** The tabs for one column of the program with the column name passed
      to the classifier (the corrected `classify_variable`): the type is the
      user's pick, preselected to the classification. */
  function Analyze(col: Column, name: string, choice: Option<VarType>, rnd: Rounding, sqrt: real -> real)
    : (r: Result<Analysis, Error>)
    ensures r.Success? <==> Tabulates(col, ChosenType(col, name, choice))
    ensures r.Failure? ==> r.error == Tabulate(col, ChosenType(col, name, choice)).error
    ensures r.Success? ==>
      && r.value.varType == ChosenType(col, name, choice)
      && r.value.freq == CalculateFrequencies(col, r.value.varType, rnd).value
      && (r.value.report.StatisticalAnalysis? <==> r.value.varType.IsQuantitative())
      && (r.value.report.StatisticalAnalysis? ==>
            && col.Numeric? && |col.nums| > 0
            && r.value.report.stats == CalculateStatistics(col.nums, sqrt).value
            && r.value.report.remarks == Interpret(MeasuresOf(r.value.report.stats)))
  {
    AnalyzeWith(col, ChosenType(col, name, choice), rnd, sqrt)
  }

  /** The keys of the frequency dictionary that `plot_distribution` reads:
      the qualitative chart reads the type and the plotted data, the
      quantitative one also the table and the bin boundaries. */
  function ChartKeys(t: VarType): (ks: set<string>)
  {
    if t.IsQuantitative() then {"var_type", "freq_table", "bins", "plot_data"}
    else {"var_type", "plot_data"}
  }

  /** The dictionary `calculate_frequencies` returns has every key the
      qualitative chart reads, but lacks the bins the quantitative chart
      reads; once the bins are returned as well, every chart finds its keys. */
  lemma ChartFindsKeysIff(t: VarType)
    ensures ChartKeys(t) <= ReturnedKeys <==> !t.IsQuantitative()
    ensures ChartKeys(t) <= ReturnedKeys + {"bins"}
  {
    if t.IsQuantitative() {
      assert "bins" in ChartKeys(t) && "bins" !in ReturnedKeys;
    }
  }

  /** What ends the script while a column is analysed: the NameError of
      `classify_variable` as written, the KeyError of a chart that reads a
      key the frequency dictionary lacks, or an exception of
      `calculate_frequencies`. */
  datatype Stop = NameError | KeyError | Raised(error: Error)

  /** The three tabs of one column with the type t, when the frequency
      dictionary has the given keys: the table's exception ends the
      script, then the chart raises KeyError if it reads a missing key, and
      otherwise the tabs are those of `AnalyzeWith`. */
  function Tabs(col: Column, t: VarType, keys: set<string>, rnd: Rounding, sqrt: real -> real)
    : (r: Result<Analysis, Stop>)
    ensures !Tabulates(col, t) ==> r == Failure(Raised(Tabulate(col, t).error))
    ensures Tabulates(col, t) && !(ChartKeys(t) <= keys) ==> r == Failure(KeyError)
    ensures Tabulates(col, t) && ChartKeys(t) <= keys ==> r == Success(AnalyzeWith(col, t, rnd, sqrt).value)
  {
    match AnalyzeWith(col, t, rnd, sqrt)
    case Failure(e) => Failure(Raised(e))
    case Success(a) => if ChartKeys(t) <= keys then Success(a) else Failure(KeyError)
  }

  /** With the bins returned as well, the tabs are exactly those of
      `AnalyzeWith`, its exceptions raised. */
  lemma TabsWithBins(col: Column, t: VarType, rnd: Rounding, sqrt: real -> real)
    ensures var r := Tabs(col, t, ReturnedKeys + {"bins"}, rnd, sqrt);
      var c := AnalyzeWith(col, t, rnd, sqrt);
      && (c.Success? ==> r == Success(c.value))
      && (c.Failure? ==> r == Failure(Raised(c.error)))
  {
    ChartFindsKeysIff(t);
  }

  /** The tabs for one column as app.py runs them, with `classify_variable`
      as written and the frequency dictionary without bins. A text column
      raises NameError before the selector is drawn; a column analysed as
      quantitative raises in `calculate_frequencies` or, at the chart,
      KeyError. So a column is shown only when it is numeric and the user
      picked a qualitative type, and then it gets the warning, never the
      statistics. */
  function AnalyzeAsWritten(col: Column, choice: Option<VarType>, rnd: Rounding, sqrt: real -> real)
    : (r: Result<Analysis, Stop>)
    ensures col.Text? ==> r == Failure(NameError)
    ensures r.Success? <==> col.Numeric? && choice.Some? && !choice.value.IsQuantitative()
    ensures r.Success? ==> r.value.report == QualitativeWarning
    ensures col.Numeric? ==>
      var t := choice.GetOr(ClassifyAsWritten(col).value);
      t.IsQuantitative() && Tabulates(col, t) ==> r == Failure(KeyError)
  {
    match ClassifyAsWritten(col)
    case Failure(_) => Failure(NameError)
    case Success(auto) =>
      ChartFindsKeysIff(choice.GetOr(auto));
      Tabs(col, choice.GetOr(auto), ReturnedKeys, rnd, sqrt)
  }

  /** The column [1.0, 2.0] without a pick: as written it is classified as
      quantitative, its table is built, and the chart raises KeyError; the
      corrected program shows its statistics. */
  lemma PairColumnStopsAsWritten(name: string, rnd: Rounding, sqrt: real -> real)
    ensures AnalyzeAsWritten(Numeric([1.0, 2.0]), None, rnd, sqrt) == Failure(KeyError)
    ensures Analyze(Numeric([1.0, 2.0]), name, None, rnd, sqrt).Success?
    ensures Analyze(Numeric([1.0, 2.0]), name, None, rnd, sqrt).value.report.StatisticalAnalysis?
  {
    var xs := [1.0, 2.0];
    assert Min(xs) == 1.0 && Max(xs) == 2.0;
  }

  /** On a numeric column, the program as written raises every exception
      the corrected one raises, shows the same tabs for a qualitative type,
      and raises KeyError where the corrected one shows a quantitative
      analysis. */
  lemma AsWrittenAgainstCorrected(xs: seq<real>, name: string, choice: Option<VarType>, rnd: Rounding, sqrt: real -> real)
    ensures var w := AnalyzeAsWritten(Numeric(xs), choice, rnd, sqrt);
      var c := Analyze(Numeric(xs), name, choice, rnd, sqrt);
      && (c.Failure? ==> w == Failure(Raised(c.error)))
      && (c.Success? && !c.value.varType.IsQuantitative() ==> w == Success(c.value))
      && (c.Success? && c.value.varType.IsQuantitative() ==> w == Failure(KeyError))
  {
    ClassifyAgreesWhereSourceSucceeds(Numeric(xs), name);
    ChartFindsKeysIff(ChosenType(Numeric(xs), name, choice));
  }

  /** A ticked column with the user's pick in its type selector. */
  datatype Selected = Selected(col: Column, name: string, choice: Option<VarType>)

  /** The page once the loop over the ticked columns ends: the analyses
      shown, and the exception that ended the script, if one did. */
  datatype Page<E> = Page(shown: seq<Analysis>, stop: Option<E>)

  /** The loop of `main` over the ticked columns, each analysed by step:
      the columns are shown in order until one raises, which ends the
      script, so no later column is shown. */
  function Run<E>(step: Selected -> Result<Analysis, E>, sel: seq<Selected>): (p: Page<E>)
    ensures |p.shown| <= |sel|
    ensures forall i :: 0 <= i < |p.shown| ==> step(sel[i]) == Success(p.shown[i])
    ensures p.stop.None? <==> |p.shown| == |sel|
    ensures p.stop.Some? ==> step(sel[|p.shown|]) == Failure(p.stop.value)
  {
    if |sel| == 0 then Page([], None)
    else
      match step(sel[0])
      case Failure(e) => Page([], Some(e))
      case Success(a) =>
        var rest := Run(step, sel[1..]);
        assert forall i :: 0 < i < |sel| ==> sel[1..][i - 1] == sel[i];
        Page([a] + rest.shown, rest.stop)
  }

  /** One column of the program as written. */
  function AsWrittenStep(rnd: Rounding, sqrt: real -> real): (step: Selected -> Result<Analysis, Stop>)
    ensures forall s: Selected :: step(s) == AnalyzeAsWritten(s.col, s.choice, rnd, sqrt)
  {
    (s: Selected) => AnalyzeAsWritten(s.col, s.choice, rnd, sqrt)
  }

  /** One column of the corrected program. */
  function CorrectedStep(rnd: Rounding, sqrt: real -> real): (step: Selected -> Result<Analysis, Error>)
    ensures forall s: Selected :: step(s) == Analyze(s.col, s.name, s.choice, rnd, sqrt)
  {
    (s: Selected) => Analyze(s.col, s.name, s.choice, rnd, sqrt)
  }

  /** As written, the page ends at or before the first ticked column that
      is not a numeric column picked as qualitative: a text column raises
      NameError, and a numeric one analysed as quantitative raises in its
      table or its chart. */
  lemma AsWrittenStopsAt(sel: seq<Selected>, j: nat, rnd: Rounding, sqrt: real -> real)
    requires j < |sel|
    requires !(sel[j].col.Numeric? && sel[j].choice.Some? && !sel[j].choice.value.IsQuantitative())
    ensures var p := Run(AsWrittenStep(rnd, sqrt), sel);
      |p.shown| <= j && p.stop.Some?
  {
  }

  /** As written, every column shown is numeric, picked as qualitative,
      and shows the warning: no page ever shows statistics. */
  lemma AsWrittenNeverShowsStatistics(sel: seq<Selected>, rnd: Rounding, sqrt: real -> real)
    ensures var p := Run(AsWrittenStep(rnd, sqrt), sel);
      forall i :: 0 <= i < |p.shown| ==>
        && sel[i].col.Numeric? && sel[i].choice.Some? && !sel[i].choice.value.IsQuantitative()
        && p.shown[i].report == QualitativeWarning
  {
  }

  /** In the corrected program, a page of columns that each build their
      table shows every one of them. */
  lemma CorrectedShowsAll(sel: seq<Selected>, rnd: Rounding, sqrt: real -> real)
    requires forall i :: 0 <= i < |sel| ==> Tabulates(sel[i].col, ChosenType(sel[i].col, sel[i].name, sel[i].choice))
    ensures var p := Run(CorrectedStep(rnd, sqrt), sel);
      p.stop.None? && |p.shown| == |sel|
  {
  }

  /** A qualitative type never fails: any column, empty or not, numeric or
      not, gets its table and the warning. */
  lemma QualitativeNeverFails(col: Column, name: string, choice: Option<VarType>, rnd: Rounding, sqrt: real -> real)
    requires !ChosenType(col, name, choice).IsQuantitative()
    ensures Analyze(col, name, choice, rnd, sqrt).Success?
    ensures Analyze(col, name, choice, rnd, sqrt).value.report == QualitativeWarning
  {
  }

  /** Without a choice by the user, a text column is analysed as
      qualitative and a numeric one as quantitative; the numeric one fails
      exactly when it is empty or its bin edges repeat. */
  lemma DefaultAnalysis(col: Column, name: string, rnd: Rounding, sqrt: real -> real)
    ensures col.Text? ==> Analyze(col, name, None, rnd, sqrt) == Success(Analysis(
      Classify(col, name), CalculateFrequencies(col, Classify(col, name), rnd).value, QualitativeWarning))
    ensures col.Numeric? ==>
      (Analyze(col, name, None, rnd, sqrt).Success? <==>
        |col.nums| > 0 && (Min(col.nums) < Max(col.nums) || RoundSqrt(|col.nums|) == 1))
    ensures col.Numeric? && Analyze(col, name, None, rnd, sqrt).Success? ==>
      Analyze(col, name, None, rnd, sqrt).value.report.StatisticalAnalysis?
  {
  }

  /** A text column analysed with a quantitative type fails: as not
      numeric when it has cells, and with the division by zero of the
      empty bin count when it has none. */
  lemma TextAsQuantitativeFails(ts: seq<string>, name: string, t: VarType, rnd: Rounding, sqrt: real -> real)
    requires t.IsQuantitative()
    ensures |ts| > 0 ==> Analyze(Text(ts), name, Some(t), rnd, sqrt) == Failure(NotNumeric)
    ensures |ts| == 0 ==> Analyze(Text(ts), name, Some(t), rnd, sqrt) == Failure(DivisionByZero)
  {
  }

  /** The measures of a non-empty numeric column as the remarks read
      them. */
  function ColumnMeasures(xs: seq<real>, sqrt: real -> real): (m: Measures)
    requires |xs| > 0
    ensures m == Measures(Some(Fin(Mean(xs))), Some(Fin(Median(xs))), Some(Fin(Mode(xs))),
      Some(Std(xs, sqrt)), Some(Fin(Amplitude(xs))))
  {
    MeasuresOf(CalculateStatistics(xs, sqrt).value)
  }

  /** The remarks on a non-empty numeric column, from its measures. */
  function ColumnRemarks(xs: seq<real>, sqrt: real -> real): (r: seq<Tag>)
    requires |xs| > 0
    ensures Ordered(r)
    ensures ModeNote in r
  {
    Interpret(ColumnMeasures(xs, sqrt))
  }

  /** The shape remark is written exactly when mean and median are both
      non-zero, and "symmetric" exactly when they are moreover within a
      tenth of the mean. */
  lemma ShapeRemarkOfColumn(xs: seq<real>, sqrt: real -> real)
    requires |xs| > 0
    ensures var r := ColumnRemarks(xs, sqrt);
      && ((exists i :: 0 <= i < |r| && r[i].IsSkew()) <==> Mean(xs) != 0.0 && Median(xs) != 0.0)
      && (Symmetric in r <==> Mean(xs) != 0.0 && Median(xs) != 0.0 && Abs(Mean(xs) - Median(xs)) < 0.1 * Mean(xs))
  {
    var m := ColumnMeasures(xs, sqrt);
    FiniteShape(m, Mean(xs), Median(xs));
    assert ColumnRemarks(xs, sqrt) == Interpret(m);
  }

  /** The range remark is written exactly when the column is not
      constant. */
  lemma RangeRemarkOfColumn(xs: seq<real>, sqrt: real -> real)
    requires |xs| > 0
    ensures RangeNote in ColumnRemarks(xs, sqrt) <==> !Constant(xs)
  {
    AmplitudeZeroIff(xs);
  }

  /** The deviation remark is written unless the column is constant with
      two or more cells: a single cell gives NaN, which is truthy. */
  lemma StdRemarkOfColumn(xs: seq<real>, sqrt: real -> real)
    requires |xs| > 0 && IsSqrt(sqrt)
    ensures StdNote in ColumnRemarks(xs, sqrt) <==> |xs| == 1 || !Constant(xs)
  {
    if |xs| >= 2 {
      StdMeaning(xs, sqrt);
    }
  }

  /** The statistics tab of a column analysed as quantitative carries
      exactly the remarks of its measures. */
  lemma AnalysisRemarks(xs: seq<real>, name: string, choice: Option<VarType>, rnd: Rounding, sqrt: real -> real)
    requires ChosenType(Numeric(xs), name, choice).IsQuantitative()
    requires Tabulates(Numeric(xs), ChosenType(Numeric(xs), name, choice))
    ensures |xs| > 0
    ensures Analyze(Numeric(xs), name, choice, rnd, sqrt).value.report.remarks == ColumnRemarks(xs, sqrt)
  {
  }
}
