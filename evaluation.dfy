/**
 * The batch evaluation job: the test table is split into features and
 * target, the trained model predicts the features, and the four metrics
 * are collected into the report written as JSON.
 */
module Evaluation {
  import opened Wrappers
  import opened Tables
  import opened Regressor
  import Metrics
  import Preprocessing
  import FeatureContract

  /** The target label the job reads. */
  const TargetName: string := "target"

  /** A metric as the report holds it; `r2_score` is NaN for a single sample. */
  datatype Metric = Value(x: real) | NaN

  datatype Report = Report(mse: real, rmse: real, mae: real, r2: Metric)

  /** The exceptions that end the job. */
  datatype EvalError =
    | MissingTarget(name: string)                          // KeyError from drop / indexing
    | ModelFailed(msg: string)                             // raised by model.predict
    | InconsistentSamples(targets: nat, predictions: nat)  // ValueError from the metrics
    | NoSamples                                            // ValueError: an empty target

  /** `names` without `name`, order kept. */
  function Dropped(names: seq<string>, name: string): (r: seq<string>)
    ensures forall n :: n in r <==> n in names && n != name
    ensures |r| <= |names|
  {
    if names == [] then []
    else (if names[0] == name then [] else [names[0]]) + Dropped(names[1..], name)
  }

  lemma {:induction false} DroppedLength(names: seq<string>, name: string)
    requires FeatureContract.Distinct(names) && name in names
    ensures |Dropped(names, name)| == |names| - 1
  {
    if names[0] != name {
      assert FeatureContract.Distinct(names[1..]);
      assert name in names[1..];
      DroppedLength(names[1..], name);
    } else {
      assert name !in names[1..];
      DroppedAbsent(names[1..], name);
    }
  }

  lemma {:induction false} DroppedAbsent(names: seq<string>, name: string)
    requires name !in names
    ensures Dropped(names, name) == names
  {
    if names != [] {
      DroppedAbsent(names[1..], name);
    }
  }

  lemma {:induction false} DroppedLast(names: seq<string>, name: string)
    requires name !in names
    ensures Dropped(names + [name], name) == names
  {
    if names == [] {
      assert [] + [name] == [name];
    } else {
      assert (names + [name])[1..] == names[1..] + [name];
      DroppedLast(names[1..], name);
    }
  }

  lemma {:induction false} DroppedDistinct(names: seq<string>, name: string)
    requires FeatureContract.Distinct(names)
    ensures FeatureContract.Distinct(Dropped(names, name))
  {
    if names != [] {
      DroppedDistinct(names[1..], name);
      assert names[0] !in names[1..];
    }
  }

  function FeatureColumns(t: Table, names: seq<string>): (r: seq<seq<real>>)
    requires WellFormed(t) && forall n :: n in names ==> n in t.names
    ensures |r| == |names|
    ensures forall j :: 0 <= j < |names| ==> ColumnNamed(t, names[j]) == Some(r[j]) && |r[j]| == t.rows
  {
    seq(|names|, j requires 0 <= j < |names| => ColumnNamed(t, names[j]).value)
  }

  /** `X = df.drop(name, axis=1)` and `y = df[name]`. */
  function SplitTarget(t: Table, name: string): (r: Result<(Table, seq<real>), EvalError>)
    requires WellFormed(t)
    ensures r.Success? <==> name in t.names
    ensures r.Failure? ==> r.error == MissingTarget(name)
    ensures r.Success? ==>
      var (x, y) := r.value;
      && WellFormed(x) && x.rows == t.rows && |y| == t.rows
      && x.names == Dropped(t.names, name) && |x.names| == |t.names| - 1
      && (forall j :: 0 <= j < |x.names| ==> ColumnNamed(t, x.names[j]) == Some(x.columns[j]))
      && ColumnNamed(t, name) == Some(y)
  {
    if name !in t.names then Failure(MissingTarget(name))
    else
      var names := Dropped(t.names, name);
      DroppedLength(t.names, name);
      DroppedDistinct(t.names, name);
      Success((Table(names, FeatureColumns(t, names), t.rows), ColumnNamed(t, name).value))
  }

  /**
   * The job on a test table, with the target read from column `name`: the
   * predictions are paired by position with the target, and the report
   * holds their mean squared error, its root, the mean absolute error and
   * the coefficient of determination.
   */
  function EvaluateOn(test: Table, name: string, predict: Table -> Prediction, sqrt: real -> real): (r: Result<Report, EvalError>)
    requires WellFormed(test) && Metrics.IsSquareRoot(sqrt)
    ensures name !in test.names ==> r == Failure(MissingTarget(name))
    ensures name in test.names && predict(SplitTarget(test, name).value.0).Raised? ==>
      r == Failure(ModelFailed(predict(SplitTarget(test, name).value.0).msg))
    ensures r.Success? ==>
      var (x, y) := SplitTarget(test, name).value;
      var p := predict(x).values;
      && predict(x).Predicted? && |p| == |y| == test.rows > 0
      && r.value.mse == Metrics.MeanSquaredError(y, p) && r.value.mae == Metrics.MeanAbsoluteError(y, p)
      && r.value.mse >= 0.0 && (r.value.mse == 0.0 <==> p == y)
      && r.value.mae >= 0.0 && (r.value.mae == 0.0 <==> p == y)
      && r.value.rmse >= 0.0 && r.value.rmse * r.value.rmse == r.value.mse
      && r.value.r2 == (var score := Metrics.R2Score(y, p); if score.Some? then Value(score.value) else NaN)
      && (r.value.r2.NaN? <==> test.rows == 1)
      && (r.value.r2.Value? ==> r.value.r2.x <= 1.0)
    ensures name in test.names && test.rows > 0 ==>
      var prediction := predict(SplitTarget(test, name).value.0);
      prediction.Predicted? && |prediction.values| == test.rows ==> r.Success?
    ensures r.Failure? && r.error.ModelFailed? ==>
      name in test.names && predict(SplitTarget(test, name).value.0) == Raised(r.error.msg)
    ensures name in test.names && predict(SplitTarget(test, name).value.0).Predicted? ==>
      var count := |predict(SplitTarget(test, name).value.0).values|;
      && (count != test.rows ==> r == Failure(InconsistentSamples(test.rows, count)))
      && (count == test.rows == 0 ==> r == Failure(NoSamples))
    ensures r.Failure? && r.error.InconsistentSamples? ==>
      r.error == InconsistentSamples(test.rows, |predict(SplitTarget(test, name).value.0).values|)
    ensures r.Failure? ==>
      || r.error == MissingTarget(name) || r.error.ModelFailed?
      || (r.error.InconsistentSamples? && r.error.targets != r.error.predictions)
      || (r.error == NoSamples && test.rows == 0)
  {
    var split := SplitTarget(test, name);
    if split.Failure? then Failure(split.error)
    else
      var (x, y) := split.value;
      match predict(x)
      case Raised(msg) => Failure(ModelFailed(msg))
      case Predicted(p) =>
        if |y| != |p| then Failure(InconsistentSamples(|y|, |p|))
        else if |y| == 0 then Failure(NoSamples)
        else
          var mse := Metrics.MeanSquaredError(y, p);
          var r2 := Metrics.R2Score(y, p);
          Success(Report(mse, sqrt(mse), Metrics.MeanAbsoluteError(y, p),
                         if r2.Some? then Value(r2.value) else NaN))
  }

  /** The job as written: the target is the column `target`. */
  function Evaluate(test: Table, predict: Table -> Prediction, sqrt: real -> real): (r: Result<Report, EvalError>)
    requires WellFormed(test) && Metrics.IsSquareRoot(sqrt)
    ensures TargetName !in test.names ==> r == Failure(MissingTarget(TargetName))
    ensures r.Success? ==> TargetName in test.names && test.rows > 0
  {
    EvaluateOn(test, TargetName, predict, sqrt)
  }

  /** The job reading the target under the name the preprocessing job writes it. */
  function EvaluateCorrected(test: Table, predict: Table -> Prediction, sqrt: real -> real): (r: Result<Report, EvalError>)
    requires WellFormed(test) && Metrics.IsSquareRoot(sqrt)
    ensures Preprocessing.TargetColumn !in test.names ==> r == Failure(MissingTarget(Preprocessing.TargetColumn))
    ensures r.Success? ==> Preprocessing.TargetColumn in test.names && test.rows > 0
  {
    EvaluateOn(test, Preprocessing.TargetColumn, predict, sqrt)
  }

  const ReportKey: string := "regression_metrics"

  /** `evaluation_report`: one key holding the four named metrics. */
  function ReportDocument(report: Report): (doc: map<string, map<string, Metric>>)
    ensures doc.Keys == {ReportKey}
    ensures doc[ReportKey].Keys == {"mse", "rmse", "mae", "r2_score"}
    ensures doc[ReportKey]["mse"] == Value(report.mse) && doc[ReportKey]["rmse"] == Value(report.rmse)
    ensures doc[ReportKey]["mae"] == Value(report.mae) && doc[ReportKey]["r2_score"] == report.r2
  {
    map[ReportKey := map["mse" := Value(report.mse), "rmse" := Value(report.rmse),
                         "mae" := Value(report.mae), "r2_score" := report.r2]]
  }
}
