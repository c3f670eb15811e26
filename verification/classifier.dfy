/** The variable classifier of utils.py (`classify_variable`): decides which
    of the four statistical variable types a column belongs to. */
module Classifier {
  import opened Wrappers
  import opened Seqs
  import opened Ordering

  /** The four statistical variable types, in place of the source's
      Portuguese labels ("Quantitativa Discreta", ...). */
  datatype VarType =
    | QuantitativeDiscrete
    | QuantitativeContinuous
    | QualitativeNominal
    | QualitativeOrdinal
  {
    /** The source's `var_type.startswith("Quantitativa")`. */
    predicate IsQuantitative() {
      QuantitativeDiscrete? || QuantitativeContinuous?
    }
  }

  /** A column after missing values were dropped, already tagged by the
      dtype pandas inferred: numeric or not. */
  datatype Column = Numeric(nums: seq<real>) | Text(texts: seq<string>)
  {
    function Length(): nat {
      match this
      case Numeric(xs) => |xs|
      case Text(ts) => |ts|
    }
  }

  /** The cells of a column as ordered scalar values. */
  function Values(c: Column): (r: seq<Value>)
    ensures |r| == c.Length()
    ensures c.Numeric? ==> forall i :: 0 <= i < |r| ==> r[i] == Num(c.nums[i])
    ensures c.Text? ==> forall i :: 0 <= i < |r| ==> r[i] == Txt(c.texts[i])
  {
    match c
    case Numeric(xs) => seq(|xs|, i requires 0 <= i < |xs| => Num(xs[i]))
    case Text(ts) => seq(|ts|, i requires 0 <= i < |ts| => Txt(ts[i]))
  }

  /** A numeric column with more distinct values than this is continuous. */
  const DistinctThreshold: nat := 10

  /** Words which, inside a column name, mark the column as ordinal. */
  const OrdinalKeywords: seq<string> := ["nível", "grau", "satisfação", "avaliação", "classificação", "etapa"]

  /** Cell values (after lower-casing) that mark a column as ordinal. */
  const OrdinalValues: seq<string> := ["baixo", "médio", "alto", "insatisfeito", "neutro", "satisfeito"]

  /** The capitals `str.lower` changes here: ASCII A-Z and the Latin-1
      capitals U+00C0..U+00DE except the sign U+00D7. */
  predicate IsUpper(c: char)
  {
    'A' <= c <= 'Z' || ('\U{00C0}' <= c <= '\U{00DE}' && c != '\U{00D7}')
  }

  /** Python's `str.lower` on the letters Portuguese text uses: a capital
      becomes its small letter 32 code points up, anything else is kept,
      and no capital is left. */
  function LowerChar(c: char): (r: char)
    ensures IsUpper(c) ==> r as int == c as int + 32
    ensures !IsUpper(c) ==> r == c
    ensures !IsUpper(r)
  {
    if IsUpper(c) then (c as int + 32) as char else c
  }

  /** `str.lower` on a whole string, character by character. */
  function Lower(s: string): (r: string)
    ensures |r| == |s|
    ensures forall i :: 0 <= i < |s| ==> r[i] == LowerChar(s[i])
    ensures forall i :: 0 <= i < |r| ==> !IsUpper(r[i])
    ensures forall i :: 0 <= i < |s| && !IsUpper(s[i]) ==> r[i] == s[i]
  {
    seq(|s|, i requires 0 <= i < |s| => LowerChar(s[i]))
  }

  /** Lower-casing twice is lower-casing once. */
  lemma LowerIdempotent(s: string)
    ensures Lower(Lower(s)) == Lower(s)
  {
    var l := Lower(s);
    assert forall i :: 0 <= i < |l| ==> Lower(l)[i] == l[i];
  }

  /** `w` occurs in `s` starting at position `i`. */
  ghost predicate OccursAt(s: string, w: string, i: int)
  {
    0 <= i && i + |w| <= |s| && s[i..i + |w|] == w
  }

  /** Python's `w in s` for strings: a scan for the first position at
      which `w` starts. */
  function Contains(s: string, w: string): (r: bool)
    ensures r <==> exists i :: OccursAt(s, w, i)
    decreases |s|
  {
    if |w| <= |s| && s[..|w|] == w then
      assert OccursAt(s, w, 0);
      true
    else if |s| == 0 then
      assert forall i :: !OccursAt(s, w, i);
      false
    else
      OccursInTail(s, w);
      Contains(s[1..], w)
  }

  /** An occurrence in `s[1..]` is one in `s`, one place further on, and
      every occurrence in `s` but at 0 is one in `s[1..]`. */
  lemma OccursInTail(s: string, w: string)
    requires |s| > 0
    ensures forall i :: OccursAt(s[1..], w, i) ==> OccursAt(s, w, i + 1)
    ensures forall i :: OccursAt(s, w, i) ==> i == 0 || OccursAt(s[1..], w, i - 1)
  {
    forall i | OccursAt(s[1..], w, i)
      ensures OccursAt(s, w, i + 1)
    {
      assert s[i + 1..i + 1 + |w|] == s[1..][i..i + |w|];
    }
    forall i | OccursAt(s, w, i) && i != 0
      ensures OccursAt(s[1..], w, i - 1)
    {
      var t := s[1..][i - 1..i - 1 + |w|];
      var u := s[i..i + |w|];
      assert forall k :: 0 <= k < |w| ==> t[k] == u[k];
      assert u == t;
    }
  }

  /** The column-name test: does the lower-cased name contain a keyword? */
  function NameHasKeyword(name: string): (r: bool)
    ensures r <==> exists k, i :: 0 <= k < |OrdinalKeywords| && OccursAt(Lower(name), OrdinalKeywords[k], i)
  {
    var low := Lower(name);
    exists k :: 0 <= k < |OrdinalKeywords| && Contains(low, OrdinalKeywords[k])
  }

  /** The value test: is some lower-cased cell one of the ordinal words?
      The source lower-cases the distinct values only, which has the same
      outcome as looking at every cell. */
  function HasOrdinalValue(ts: seq<string>): (r: bool)
    ensures r <==> exists j :: 0 <= j < |ts| && Lower(ts[j]) in OrdinalValues
  {
    if |ts| == 0 then false
    else HasOrdinalValue(ts[..|ts| - 1]) || Lower(ts[|ts| - 1]) in OrdinalValues
  }

  /** pandas' `nunique`: the length of the distinct-value list. */
  function NUnique(c: Column): (r: nat)
    ensures r == |set v | v in Values(c)|
  {
    var d := SortedDistinct(Values(c));
    IncreasingIsDistinct(d);
    DistinctCardinality(d);
    assert (set v | v in d) == (set v | v in Values(c));
    |d|
  }

  /** Why a classification can fail. */
  datatype ClassifyError = UnboundColumnName

  /** `classify_variable` as written: its text branch reads `col_name`,
      a name the function never binds, so every non-numeric column raises
      NameError before any test is made. */
  function ClassifyAsWritten(c: Column): (r: Result<VarType, ClassifyError>)
    ensures c.Numeric? ==> r.Success? && r.value.IsQuantitative()
    ensures c.Text? ==> r == Failure(UnboundColumnName)
  {
    match c
    case Numeric(_) =>
      Success(if NUnique(c) > DistinctThreshold then QuantitativeContinuous else QuantitativeDiscrete)
    case Text(_) => Failure(UnboundColumnName)
  }

  /** `classify_variable` with the column name passed in, as the text
      branch evidently intends. A numeric column is continuous exactly when
      it has more than 10 distinct values (there is no integrality test); a
      text column is ordinal exactly when its name contains an ordinal
      keyword or one of its cells is an ordinal word, and nominal otherwise. */
  function Classify(c: Column, name: string): (r: VarType)
    ensures r.IsQuantitative() <==> c.Numeric?
    ensures c.Numeric? ==> (r == QuantitativeContinuous <==> |set v | v in Values(c)| > DistinctThreshold)
    ensures c.Text? ==>
      (r == QualitativeOrdinal <==>
        (exists k, i :: 0 <= k < |OrdinalKeywords| && OccursAt(Lower(name), OrdinalKeywords[k], i))
        || (exists j :: 0 <= j < |c.texts| && Lower(c.texts[j]) in OrdinalValues))
  {
    match c
    case Numeric(_) =>
      if NUnique(c) > DistinctThreshold then QuantitativeContinuous else QuantitativeDiscrete
    case Text(ts) =>
      if NameHasKeyword(name) then QualitativeOrdinal
      else if HasOrdinalValue(ts) then QualitativeOrdinal
      else QualitativeNominal
  }

  /** The two agree wherever the source does not fail, so the correction
      changes nothing but the failing branch. */
  lemma ClassifyAgreesWhereSourceSucceeds(c: Column, name: string)
    ensures ClassifyAsWritten(c).Success? ==> ClassifyAsWritten(c).value == Classify(c, name)
    ensures ClassifyAsWritten(c).Failure? <==> c.Text?
  {
  }

  /** A column of ratings: the source fails on it, where the corrected
      classifier finds the ordinal word "baixo" among its cells. */
  lemma RatingsColumnFailsAsWritten(name: string)
    ensures ClassifyAsWritten(Text(["Baixo", "Alto"])) == Failure(UnboundColumnName)
    ensures Classify(Text(["Baixo", "Alto"]), name) == QualitativeOrdinal
  {
    assert Lower("Baixo") == "baixo";
    assert Lower("Baixo") in OrdinalValues;
  }
}
