/**
 * The drift detector: it compares every numeric column of the reference
 * dataset with the same column of a simulated "current" dataset (the last
 * 50 rows with two columns altered) by a two-sample Kolmogorov-Smirnov
 * test, and assembles a report of per-column statistics, the columns
 * whose p-value is below 0.05, and an overall flag.
 *
 * The test itself is an input function `ks`; the CSV file becomes an
 * optional table (None when the file is missing).
 */
module Drift {
  import opened Wrappers

  /** A column drifts when its p-value is strictly below this. */
  const Threshold: real := 0.05

  /** The current data is this many rows from the end of the reference. */
  const TailRows: nat := 50

  const SepalLength := "sepal length (cm)"
  const PetalWidth := "petal width (cm)"
  const SepalScale: real := 1.5
  const PetalShift: real := 0.2

  /** A column of the table; `numeric` says whether it is among the columns selected as numbers. */
  datatype Column = Column(name: string, numeric: bool, values: seq<real>)

  datatype Table = Table(rows: nat, columns: seq<Column>)

  /** Every column has one value per row, and column names are unique. */
  ghost predicate WellFormed(t: Table) {
    && (forall i :: 0 <= i < |t.columns| ==> |t.columns[i].values| == t.rows)
    && (forall i, j :: 0 <= i < j < |t.columns| ==> t.columns[i].name != t.columns[j].name)
  }

  predicate HasColumn(t: Table, name: string) {
    exists i :: 0 <= i < |t.columns| && t.columns[i].name == name
  }

  /** The result of the two-sample test on one column. */
  datatype KsResult = KsResult(statistic: real, pValue: real)

  /** One entry of the report's "metrics": {ks_stat, p_value, drift_detected}. */
  datatype ColumnMetrics = ColumnMetrics(ksStat: real, pValue: real, driftDetected: bool)

  /** The report: {drift_detected, drifted_features, metrics}. */
  datatype DriftReport = DriftReport(driftDetected: bool, driftedFeatures: map<string, real>, metrics: map<string, ColumnMetrics>)

  datatype DriftError =
    | MissingReference               // the reference CSV does not exist
    | MissingColumn(column: string)  // a column the simulation alters is absent
    | EmptySample(column: string)    // the test was asked to compare empty samples

  function Min(a: nat, b: nat): nat {
    if a < b then a else b
  }

  /** The alteration the simulation applies to a value of the named column. */
  function Alter(name: string, x: real): real {
    if name == SepalLength then x * SepalScale
    else if name == PetalWidth then x + PetalShift
    else x
  }

  /**
   * The simulated current data: the last min(50, n) rows of the reference,
   * with "sepal length (cm)" scaled by 1.5 and "petal width (cm)" shifted by
   * 0.2; every other column is copied unchanged.
   */
  function SimulateCurrent(t: Table): (r: Result<Table, DriftError>)
    requires WellFormed(t)
    ensures !HasColumn(t, SepalLength) ==> r == Failure(MissingColumn(SepalLength))
    ensures HasColumn(t, SepalLength) && !HasColumn(t, PetalWidth) ==> r == Failure(MissingColumn(PetalWidth))
    ensures r.Success? <==> HasColumn(t, SepalLength) && HasColumn(t, PetalWidth)
    ensures r.Success? ==>
              && WellFormed(r.value)
              && r.value.rows == Min(TailRows, t.rows)
              && |r.value.columns| == |t.columns|
              && forall i :: 0 <= i < |t.columns| ==>
                   && r.value.columns[i].name == t.columns[i].name
                   && r.value.columns[i].numeric == t.columns[i].numeric
                   && forall j :: 0 <= j < r.value.rows ==>
                        var x := t.columns[i].values[t.rows - r.value.rows + j];
                        r.value.columns[i].values[j] ==
                          if t.columns[i].name == SepalLength then 1.5 * x
                          else if t.columns[i].name == PetalWidth then x + 0.2
                          else x
  {
    if !HasColumn(t, SepalLength) then Failure(MissingColumn(SepalLength))
    else if !HasColumn(t, PetalWidth) then Failure(MissingColumn(PetalWidth))
    else
      var m := Min(TailRows, t.rows);
      var cols := seq(|t.columns|, i requires 0 <= i < |t.columns| =>
                    var c := t.columns[i];
                    Column(c.name, c.numeric, seq(m, j requires 0 <= j < m => Alter(c.name, c.values[t.rows - m + j]))));
      assert forall i, j :: 0 <= i < |t.columns| && 0 <= j < m ==>
               cols[i].values[j] == Alter(t.columns[i].name, t.columns[i].values[t.rows - m + j]);
      Success(Table(m, cols))
  }

  /** The names of the numeric columns among the first `i` columns. */
  ghost function NumericNames(t: Table, i: nat): set<string>
    requires i <= |t.columns|
  {
    if i == 0 then {}
    else NumericNames(t, i - 1) + if t.columns[i - 1].numeric then {t.columns[i - 1].name} else {}
  }

  /** A name is among the first `i` numeric names exactly when one of the first `i` columns is numeric and has it. */
  lemma {:induction false} NumericNamesBefore(t: Table, i: nat)
    requires i <= |t.columns|
    ensures forall n :: n in NumericNames(t, i) <==> exists j :: 0 <= j < i && t.columns[j].numeric && t.columns[j].name == n
  {
    if i > 0 {
      NumericNamesBefore(t, i - 1);
    }
  }

  /**
   * `metrics` holds one entry per numeric column among the first `i`
   * columns of `ref`, and no other: that column's test result, flagged
   * exactly when p < 0.05.
   */
  ghost predicate MetricsUpTo(ref: Table, cur: Table, ks: (seq<real>, seq<real>) -> KsResult, i: nat, metrics: map<string, ColumnMetrics>)
    requires i <= |ref.columns| == |cur.columns|
  {
    && metrics.Keys == NumericNames(ref, i)
    && (forall j :: 0 <= j < i && ref.columns[j].numeric ==>
          && ref.columns[j].name in metrics
          && metrics[ref.columns[j].name].ksStat == ks(ref.columns[j].values, cur.columns[j].values).statistic
          && metrics[ref.columns[j].name].pValue == ks(ref.columns[j].values, cur.columns[j].values).pValue
          && (metrics[ref.columns[j].name].driftDetected <==> ks(ref.columns[j].values, cur.columns[j].values).pValue < 0.05))
  }

  /** The drifted features are exactly the flagged entries, with their p-values, and the flag says whether there is one. */
  ghost predicate Summarises(metrics: map<string, ColumnMetrics>, drifted: map<string, real>, detected: bool) {
    && (forall n :: n in drifted <==> n in metrics && metrics[n].driftDetected)
    && (forall n :: n in drifted ==> drifted[n] == metrics[n].pValue)
    && (detected <==> exists n :: n in metrics && metrics[n].driftDetected)
  }

  /** `rep` is the report for reference `ref`, current data `cur` and test `ks`. */
  ghost predicate Describes(ref: Table, cur: Table, ks: (seq<real>, seq<real>) -> KsResult, rep: DriftReport)
    requires |cur.columns| == |ref.columns|
  {
    MetricsUpTo(ref, cur, ks, |ref.columns|, rep.metrics) && Summarises(rep.metrics, rep.driftedFeatures, rep.driftDetected)
  }

  /** Processing column i extends the entries to the first i + 1 columns. */
  lemma MetricsStep(ref: Table, cur: Table, ks: (seq<real>, seq<real>) -> KsResult, i: nat, metrics: map<string, ColumnMetrics>)
    requires WellFormed(ref) && i < |ref.columns| == |cur.columns|
    requires MetricsUpTo(ref, cur, ks, i, metrics)
    ensures ref.columns[i].numeric ==> ref.columns[i].name !in metrics
    ensures var res := ks(ref.columns[i].values, cur.columns[i].values);
            MetricsUpTo(ref, cur, ks, i + 1,
              if ref.columns[i].numeric
              then metrics[ref.columns[i].name := ColumnMetrics(res.statistic, res.pValue, res.pValue < Threshold)]
              else metrics)
  {
    var name := ref.columns[i].name;
    forall j | 0 <= j < i ensures ref.columns[j].name != name {
    }
    NumericNamesBefore(ref, i);
  }

  /** Adding an entry for a new column keeps the summary in step. */
  lemma SummaryStep(metrics: map<string, ColumnMetrics>, drifted: map<string, real>, detected: bool, n: string, e: ColumnMetrics)
    requires Summarises(metrics, drifted, detected) && n !in metrics
    ensures Summarises(metrics[n := e], if e.driftDetected then drifted[n := e.pValue] else drifted, detected || e.driftDetected)
  {
    var m := metrics[n := e];
    if e.driftDetected {
      assert n in m && m[n].driftDetected;
    }
  }

  predicate HasNumericColumn(t: Table) {
    exists i :: 0 <= i < |t.columns| && t.columns[i].numeric
  }

  /**
   * The comparison loop of detect_drift: every numeric column of the
   * reference against the same column of the current data, with the test
   * raising on empty samples.
   */
  method CompareColumns(ref: Table, cur: Table, ks: (seq<real>, seq<real>) -> KsResult)
    returns (r: Result<DriftReport, DriftError>)
    requires WellFormed(ref) && |cur.columns| == |ref.columns|
    ensures r.Success? <==> ref.rows > 0 || !HasNumericColumn(ref)
    ensures r.Failure? ==>
              && r.error.EmptySample?
              && exists i :: 0 <= i < |ref.columns| && ref.columns[i].numeric && ref.columns[i].name == r.error.column
    ensures r.Success? ==> Describes(ref, cur, ks, r.value)
  {
    var detected := false;
    var drifted: map<string, real> := map[];
    var metrics: map<string, ColumnMetrics> := map[];
    assert MetricsUpTo(ref, cur, ks, 0, metrics);
    var i := 0;
    while i < |ref.columns|
      invariant 0 <= i <= |ref.columns|
      invariant ref.rows == 0 ==> forall j :: 0 <= j < i ==> !ref.columns[j].numeric
      invariant MetricsUpTo(ref, cur, ks, i, metrics)
      invariant Summarises(metrics, drifted, detected)
    {
      var column := ref.columns[i];
      MetricsStep(ref, cur, ks, i, metrics);
      if column.numeric {
        if ref.rows == 0 {
          assert HasNumericColumn(ref) by { assert ref.columns[i].numeric; }
          return Failure(EmptySample(column.name));
        }
        var result := ks(column.values, cur.columns[i].values);
        var isDrifted := result.pValue < Threshold;
        var entry := ColumnMetrics(result.statistic, result.pValue, isDrifted);
        SummaryStep(metrics, drifted, detected, column.name, entry);
        metrics := metrics[column.name := entry];
        if isDrifted {
          drifted := drifted[column.name := result.pValue];
          detected := true;
        }
      }
      i := i + 1;
    }
    return Success(DriftReport(detected, drifted, metrics));
  }

  /**
   * detect_drift: fails when the reference is missing, when a column the
   * simulation alters is missing, or when the test would compare empty
   * samples; otherwise returns the report for the reference and the
   * simulated current data.
   */
  method DetectDrift(reference: Option<Table>, ks: (seq<real>, seq<real>) -> KsResult)
    returns (r: Result<DriftReport, DriftError>)
    requires reference.Some? ==> WellFormed(reference.value)
    ensures reference.None? ==> r == Failure(MissingReference)
    ensures reference.Some? && SimulateCurrent(reference.value).Failure? ==> r == Failure(SimulateCurrent(reference.value).error)
    ensures r.Success? <==> && reference.Some? && SimulateCurrent(reference.value).Success?
                            && (reference.value.rows > 0 || !HasNumericColumn(reference.value))
    ensures r.Failure? && r.error.EmptySample? ==>
              && reference.Some? && reference.value.rows == 0
              && exists i :: 0 <= i < |reference.value.columns| && reference.value.columns[i].numeric
                             && reference.value.columns[i].name == r.error.column
    ensures r.Success? ==> Describes(reference.value, SimulateCurrent(reference.value).value, ks, r.value)
  {
    if reference.None? {
      return Failure(MissingReference);
    }
    var ref := reference.value;
    var simulated := SimulateCurrent(ref);
    if simulated.Failure? {
      return Failure(simulated.error);
    }
    r := CompareColumns(ref, simulated.value, ks);
  }

  /** The report is fully determined by the data and the test: two reports that both describe them are equal. */
  lemma ReportDetermined(ref: Table, cur: Table, ks: (seq<real>, seq<real>) -> KsResult, a: DriftReport, b: DriftReport)
    requires |cur.columns| == |ref.columns|
    requires Describes(ref, cur, ks, a) && Describes(ref, cur, ks, b)
    ensures a == b
  {
    assert a.metrics.Keys == b.metrics.Keys;
    NumericNamesBefore(ref, |ref.columns|);
    forall n | n in a.metrics ensures a.metrics[n] == b.metrics[n] {
      var i :| 0 <= i < |ref.columns| && ref.columns[i].numeric && ref.columns[i].name == n;
      var res := ks(ref.columns[i].values, cur.columns[i].values);
      assert a.metrics[n].pValue == res.pValue == b.metrics[n].pValue;
    }
    assert a.metrics == b.metrics;
    assert a.driftedFeatures.Keys == b.driftedFeatures.Keys;
    assert a.driftedFeatures == b.driftedFeatures;
  }

  /** Drift is reported exactly when some feature is listed as drifted. */
  lemma DetectedIffSomeFeatureDrifted(ref: Table, cur: Table, ks: (seq<real>, seq<real>) -> KsResult, rep: DriftReport)
    requires |cur.columns| == |ref.columns| && Describes(ref, cur, ks, rep)
    ensures rep.driftDetected <==> rep.driftedFeatures != map[]
  {
    if rep.driftedFeatures != map[] {
      var n :| n in rep.driftedFeatures;
      assert n in rep.metrics && rep.metrics[n].driftDetected;
    }
  }
}
