/**
 * The regression metrics the evaluation job reports, over exact reals:
 * mean squared error, mean absolute error and the coefficient of
 * determination, each over a target and a prediction sequence paired by
 * position.
 */
module Metrics {
  import opened Wrappers
  import opened Reals

  function Square(x: real): real
  {
    x * x
  }

  lemma ProductPositive(a: real, b: real, product: real)
    requires a > 0.0 && b > 0.0 && product == a * b
    ensures product > 0.0
  {
  }

  lemma DivideBySelf(t: real)
    requires t != 0.0
    ensures t / t == 1.0
  {
  }

  /** A square is non-negative and vanishes only at zero. */
  lemma SquareSign(x: real)
    ensures Square(x) >= 0.0 && (Square(x) == 0.0 <==> x == 0.0)
  {
    if x > 0.0 {
      ProductPositive(x, x, Square(x));
    } else if x < 0.0 {
      assert Square(x) == Square(-x);
      ProductPositive(-x, -x, Square(-x));
    }
  }

  /** The sum of squared residuals, SS_res. */
  function SumSquares(y: seq<real>, p: seq<real>): real
    requires |y| == |p|
  {
    if y == [] then 0.0 else Square(y[0] - p[0]) + SumSquares(y[1..], p[1..])
  }

  function SumAbsolute(y: seq<real>, p: seq<real>): real
    requires |y| == |p|
  {
    if y == [] then 0.0 else Abs(y[0] - p[0]) + SumAbsolute(y[1..], p[1..])
  }

  function Sum(y: seq<real>): real
  {
    if y == [] then 0.0 else y[0] + Sum(y[1..])
  }

  /** The sum of squared deviations from a fixed centre. */
  function SumDeviations(y: seq<real>, centre: real): real
  {
    if y == [] then 0.0 else Square(y[0] - centre) + SumDeviations(y[1..], centre)
  }

  function Mean(y: seq<real>): real
    requires |y| > 0
  {
    Sum(y) / |y| as real
  }

  /** SS_tot: the squared deviations of the target from its mean. */
  function TotalSquares(y: seq<real>): real
    requires |y| > 0
  {
    SumDeviations(y, Mean(y))
  }

  /** Sums of non-negative terms vanish exactly when every term does. */
  lemma {:induction false} SumSquaresZero(y: seq<real>, p: seq<real>)
    requires |y| == |p|
    ensures SumSquares(y, p) >= 0.0
    ensures SumSquares(y, p) == 0.0 <==> y == p
  {
    if y != [] {
      SumSquaresZero(y[1..], p[1..]);
      SquareSign(y[0] - p[0]);
      assert y == [y[0]] + y[1..] && p == [p[0]] + p[1..];
    }
  }

  lemma {:induction false} SumAbsoluteZero(y: seq<real>, p: seq<real>)
    requires |y| == |p|
    ensures SumAbsolute(y, p) >= 0.0
    ensures SumAbsolute(y, p) == 0.0 <==> y == p
  {
    if y != [] {
      SumAbsoluteZero(y[1..], p[1..]);
      assert y == [y[0]] + y[1..] && p == [p[0]] + p[1..];
    }
  }

  lemma {:induction false} SumDeviationsZero(y: seq<real>, centre: real)
    ensures SumDeviations(y, centre) >= 0.0
    ensures SumDeviations(y, centre) == 0.0 <==> forall i :: 0 <= i < |y| ==> y[i] == centre
  {
    if y != [] {
      SumDeviationsZero(y[1..], centre);
      SquareSign(y[0] - centre);
      assert forall i :: 1 <= i < |y| ==> y[i] == y[1..][i - 1];
    }
  }

  /** The prediction that is `c` for each of n rows. */
  function Repeat(c: real, n: nat): (r: seq<real>)
    ensures |r| == n && forall i :: 0 <= i < n ==> r[i] == c
  {
    if n == 0 then [] else [c] + Repeat(c, n - 1)
  }

  /** Measuring SS_res against the constant prediction `centre` is measuring deviations from it. */
  lemma {:induction false} ConstantPrediction(y: seq<real>, centre: real)
    ensures SumSquares(y, Repeat(centre, |y|)) == SumDeviations(y, centre)
  {
    if y != [] {
      ConstantPrediction(y[1..], centre);
      assert Repeat(centre, |y|)[1..] == Repeat(centre, |y| - 1);
    }
  }

  lemma {:induction false} SumOfConstant(y: seq<real>, c: real)
    requires forall i :: 0 <= i < |y| ==> y[i] == c
    ensures Sum(y) == |y| as real * c
  {
    if y != [] {
      SumOfConstant(y[1..], c);
    }
  }

  /** SS_tot is zero exactly when the target is constant. */
  lemma TotalSquaresZero(y: seq<real>)
    requires |y| > 0
    ensures TotalSquares(y) >= 0.0
    ensures TotalSquares(y) == 0.0 <==> forall i :: 0 <= i < |y| ==> y[i] == y[0]
  {
    SumDeviationsZero(y, Mean(y));
    if forall i :: 0 <= i < |y| ==> y[i] == y[0] {
      SumOfConstant(y, y[0]);
      assert Mean(y) == y[0];
    }
  }

  /** `mean_squared_error`: the mean of the squared residuals. */
  function MeanSquaredError(y: seq<real>, p: seq<real>): (r: real)
    requires |y| == |p| > 0
    ensures r >= 0.0
    ensures r == 0.0 <==> y == p
  {
    SumSquaresZero(y, p);
    SumSquares(y, p) / |y| as real
  }

  /** `mean_absolute_error`: the mean of the absolute residuals. */
  function MeanAbsoluteError(y: seq<real>, p: seq<real>): (r: real)
    requires |y| == |p| > 0
    ensures r >= 0.0
    ensures r == 0.0 <==> y == p
  {
    SumAbsoluteZero(y, p);
    SumAbsolute(y, p) / |y| as real
  }

  /**
   * `r2_score`: 1 - SS_res / SS_tot. With fewer than two samples it is
   * undefined (None). A constant target scores 1 when it is predicted
   * exactly and 0 otherwise.
   */
  function R2Score(y: seq<real>, p: seq<real>): (r: Option<real>)
    requires |y| == |p| > 0
    ensures r.None? <==> |y| < 2
    ensures r.Some? ==> r.value <= 1.0
    ensures r.Some? && TotalSquares(y) == 0.0 ==> r.value == (if y == p then 1.0 else 0.0)
  {
    SumSquaresZero(y, p);
    TotalSquaresZero(y);
    if |y| < 2 then None
    else
      var residual := SumSquares(y, p);
      var total := TotalSquares(y);
      if total == 0.0 then Some(if residual == 0.0 then 1.0 else 0.0)
      else
        assert residual / total >= 0.0;
        Some(1.0 - residual / total)
  }

  /** An exact prediction of a non-constant target scores 1. */
  lemma PerfectPredictionScoresOne(y: seq<real>)
    requires |y| >= 2
    ensures R2Score(y, y) == Some(1.0)
  {
    SumSquaresZero(y, y);
  }

  /** Predicting the target's mean everywhere scores 0 on a non-constant target. */
  lemma MeanPredictionScoresZero(y: seq<real>)
    requires |y| >= 2 && TotalSquares(y) != 0.0
    ensures R2Score(y, Repeat(Mean(y), |y|)) == Some(0.0)
  {
    var p := Repeat(Mean(y), |y|);
    ConstantPrediction(y, Mean(y));
    assert SumSquares(y, p) == TotalSquares(y);
    DivideBySelf(TotalSquares(y));
  }

  /** Dividing numerator and denominator by the same count keeps the ratio. */
  lemma ScaledRatio(a: real, b: real, n: real)
    requires b != 0.0 && n > 0.0
    ensures (a / n) / (b / n) == a / b
  {
  }

  /**
   * On a non-constant target, r2 compares the prediction's mean squared
   * error with that of always predicting the target's mean.
   */
  lemma R2AgainstMeanPrediction(y: seq<real>, p: seq<real>)
    requires |y| == |p| && |y| >= 2 && TotalSquares(y) != 0.0
    ensures MeanSquaredError(y, Repeat(Mean(y), |y|)) > 0.0
    ensures R2Score(y, p) ==
      Some(1.0 - MeanSquaredError(y, p) / MeanSquaredError(y, Repeat(Mean(y), |y|)))
  {
    var m := Repeat(Mean(y), |y|);
    ConstantPrediction(y, Mean(y));
    assert SumSquares(y, m) == TotalSquares(y);
    TotalSquaresZero(y);
    ScaledRatio(SumSquares(y, p), TotalSquares(y), |y| as real);
  }

  /** For targets [1, 2] and predictions [1, 2.5], r2 is 0.5: strictly between the two extremes. */
  lemma PartialFitExample()
    ensures R2Score([1.0, 2.0], [1.0, 2.5]) == Some(0.5)
  {
  }

  /** A square-root function on the non-negative reals. */
  ghost predicate IsSquareRoot(sqrt: real -> real)
  {
    forall x :: x >= 0.0 ==> sqrt(x) >= 0.0 && sqrt(x) * sqrt(x) == x
  }

  /** The non-negative square root is unique. */
  lemma RootUnique(r: real, s: real)
    requires r >= 0.0 && s >= 0.0 && r * r == s * s
    ensures r == s
  {
    var d := r - s;
    var t := r + s;
    assert d * t == r * r - s * s;
    if t != 0.0 {
      assert d == (d * t) / t;
    }
  }

  /** For targets [1, 2] and predictions [1.5, 2.5]: mse 0.25, rmse 0.5, mae 0.5, r2 0. */
  lemma WorkedExample(sqrt: real -> real)
    requires IsSquareRoot(sqrt)
    ensures MeanSquaredError([1.0, 2.0], [1.5, 2.5]) == 0.25
    ensures sqrt(MeanSquaredError([1.0, 2.0], [1.5, 2.5])) == 0.5
    ensures MeanAbsoluteError([1.0, 2.0], [1.5, 2.5]) == 0.5
    ensures R2Score([1.0, 2.0], [1.5, 2.5]) == Some(0.0)
  {
    var y: seq<real> := [1.0, 2.0];
    var p: seq<real> := [1.5, 2.5];
    assert y[1..] == [2.0] && p[1..] == [2.5] && y[1..][1..] == [];
    assert SumSquares(y, p) == 0.5;
    assert SumAbsolute(y, p) == 1.0;
    assert Sum(y) == 3.0;
    assert TotalSquares(y) == 0.5;
    RootUnique(sqrt(0.25), 0.5);
  }
}
