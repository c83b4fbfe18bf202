/** swarm/intelligence/learning_tracker.py: the least-squares trend of a learning curve. Floats are reals here. */
module LearningCurves {
  import opened Prelude

  datatype Trend = Improving | Stable | Declining | Volatile

  datatype Point = Point(timestamp: string, value: real, taskId: string)

  function Values(points: seq<Point>): seq<real> {
    seq(|points|, i requires 0 <= i < |points| => points[i].value)
  }

  function Square(x: real): real {
    x * x
  }

  function Cross(x: real, y: real): real {
    x * y
  }

  function Times(n: nat, k: real): real {
    n as real * k
  }

  /** How far the value v at abscissa i is above the line a + b * x. */
  function Residual(v: real, a: real, b: real, i: nat): real {
    v - (a + b * i as real)
  }

  // The sums of the code, over the abscissas 0, 1, ..., n - 1.

  function SumX(n: nat): real {
    if n == 0 then 0.0 else SumX(n - 1) + (n - 1) as real
  }

  function SumY(y: seq<real>): real {
    if y == [] then 0.0 else SumY(y[..|y| - 1]) + y[|y| - 1]
  }

  function MeanX(n: nat): real
    requires n > 0
  {
    SumX(n) / n as real
  }

  function MeanY(y: seq<real>): real
    requires y != []
  {
    SumY(y) / |y| as real
  }

  function Numerator(y: seq<real>, xm: real, ym: real): real {
    if y == [] then 0.0
    else Numerator(y[..|y| - 1], xm, ym) + Cross((|y| - 1) as real - xm, y[|y| - 1] - ym)
  }

  function Denominator(n: nat, xm: real): real {
    if n == 0 then 0.0 else Denominator(n - 1, xm) + Square((n - 1) as real - xm)
  }

  function SsTot(y: seq<real>, ym: real): real {
    if y == [] then 0.0 else SsTot(y[..|y| - 1], ym) + Square(y[|y| - 1] - ym)
  }

  /** The squared error of the line a + b * x. */
  function SquaredError(y: seq<real>, a: real, b: real): real {
    if y == [] then 0.0
    else SquaredError(y[..|y| - 1], a, b) + Square(Residual(y[|y| - 1], a, b, |y| - 1))
  }

  function Slope(y: seq<real>): real
    requires |y| >= 2
  {
    DenominatorPositive(|y|, MeanX(|y|));
    Numerator(y, MeanX(|y|), MeanY(y)) / Denominator(|y|, MeanX(|y|))
  }

  /** The fitted line written as intercept and slope. */
  function Intercept(y: seq<real>): real
    requires |y| >= 2
  {
    MeanY(y) - Slope(y) * MeanX(|y|)
  }

  function RSquared(y: seq<real>): real
    requires |y| >= 2
  {
    var tot := SsTot(y, MeanY(y));
    if tot > 0.0 then 1.0 - SquaredError(y, Intercept(y), Slope(y)) / tot else 0.0
  }

  function TrendOf(slope: real): Trend {
    if -0.01 < slope < 0.01 then Stable else if slope > 0.0 then Improving else Declining
  }

  // ---- arithmetic --------------------------------------------------------------------------------

  lemma CrossSign(a: real, b: real)
    ensures a >= 0.0 && b >= 0.0 ==> Cross(a, b) >= 0.0
    ensures a > 0.0 && b > 0.0 ==> Cross(a, b) > 0.0
    ensures b == 0.0 ==> Cross(a, b) == 0.0
  {
  }

  lemma SquareSign(x: real)
    ensures Square(x) >= 0.0 && (Square(x) == 0.0 <==> x == 0.0)
  {
    CrossSign(x, x);
    CrossSign(-x, -x);
    assert Square(x) == Cross(x, x) == Cross(-x, -x);
  }

  lemma ScaledSquareSign(k: real, x: real)
    requires k > 0.0
    ensures Cross(k, Square(x)) >= 0.0 && (Cross(k, Square(x)) == 0.0 <==> x == 0.0)
  {
    hide Square, Cross;
    SquareSign(x);
    CrossSign(k, Square(x));
  }

  // ---- the denominator ---------------------------------------------------------------------------

  lemma {:induction false} DenominatorGrows(n: nat, xm: real)
    requires n >= 2
    ensures Denominator(n, xm) >= Square(0.0 - xm) + Square(1.0 - xm)
  {
    hide Square;
    if n == 2 {
      assert Denominator(1, xm) == Denominator(0, xm) + Square(0.0 - xm);
    } else {
      DenominatorGrows(n - 1, xm);
      SquareSign((n - 1) as real - xm);
    }
  }

  /** Two points already have different abscissas, so the division is safe and the VOLATILE branch is dead. */
  lemma DenominatorPositive(n: nat, xm: real)
    requires n >= 2
    ensures Denominator(n, xm) > 0.0
  {
    hide Square;
    DenominatorGrows(n, xm);
    SquareSign(0.0 - xm);
    SquareSign(1.0 - xm);
  }

  // ---- the algebra of the fit --------------------------------------------------------------------

  function DeviationX(n: nat, xm: real): real {
    if n == 0 then 0.0 else DeviationX(n - 1, xm) + ((n - 1) as real - xm)
  }

  function DeviationY(y: seq<real>, ym: real): real {
    if y == [] then 0.0 else DeviationY(y[..|y| - 1], ym) + (y[|y| - 1] - ym)
  }

  lemma {:induction false} DeviationXSum(n: nat, xm: real)
    ensures DeviationX(n, xm) == SumX(n) - Times(n, xm)
  {
    hide Times;
    OneMore(n, xm);
    if n > 0 {
      DeviationXSum(n - 1, xm);
    }
  }

  lemma {:induction false} DeviationYSum(y: seq<real>, ym: real)
    ensures DeviationY(y, ym) == SumY(y) - Times(|y|, ym)
  {
    hide Times;
    OneMore(|y|, ym);
    if y != [] {
      DeviationYSum(y[..|y| - 1], ym);
    }
  }

  lemma OneMore(n: nat, k: real)
    ensures Times(n, k) == if n == 0 then 0.0 else Times(n - 1, k) + k
  {
    if n > 0 {
      var m := (n - 1) as real;
      assert n as real == m + 1.0;
      assert (m + 1.0) * k == m * k + k;
    }
  }

  /** Deviations from the mean cancel. */
  lemma DeviationsCancel(y: seq<real>)
    requires y != []
    ensures DeviationX(|y|, MeanX(|y|)) == 0.0 && DeviationY(y, MeanY(y)) == 0.0
  {
    DeviationXSum(|y|, MeanX(|y|));
    DeviationYSum(y, MeanY(y));
  }

  /** A sum of squares of v - b * u - c, given the sums of v * v, u * v, u * u, v and u over n terms. */
  function Form(vv: real, uv: real, uu: real, v: real, u: real, n: real, b: real, c: real): real {
    vv - 2.0 * b * uv + b * b * uu - 2.0 * c * v + 2.0 * b * c * u + n * c * c
  }

  lemma FormStep(vv: real, uv: real, uu: real, v: real, u: real, n: real, b: real, c: real, y: real, x: real, r: real)
    requires r == y - b * x - c
    ensures Form(vv + Square(y), uv + Cross(x, y), uu + Square(x), v + y, u + x, n + 1.0, b, c)
            == Form(vv, uv, uu, v, u, n, b, c) + Square(r)
  {
    assert 2.0 * b * (uv + x * y) == 2.0 * b * uv + 2.0 * b * (x * y);
    assert b * b * (uu + x * x) == b * b * uu + b * b * (x * x);
    assert 2.0 * c * (v + y) == 2.0 * c * v + 2.0 * c * y;
    assert 2.0 * b * c * (u + x) == 2.0 * b * c * u + 2.0 * b * c * x;
    assert (n + 1.0) * c * c == n * c * c + c * c;
    assert Square(r) == y * y - 2.0 * b * (x * y) + b * b * (x * x) - 2.0 * c * y + 2.0 * b * c * x + c * c;
  }

  /** The height of a line above the mean value at the mean abscissa. */
  function Height(a: real, b: real, xm: real, ym: real): real {
    a + b * xm - ym
  }

  /** Expanding the error around the means. */
  lemma {:induction false} Expansion(y: seq<real>, a: real, b: real, xm: real, ym: real)
    ensures SquaredError(y, a, b)
            == Form(SsTot(y, ym), Numerator(y, xm, ym), Denominator(|y|, xm), DeviationY(y, ym),
                    DeviationX(|y|, xm), |y| as real, b, Height(a, b, xm, ym))
  {
    hide Square, Form, Cross, Residual, Height;
    var c := Height(a, b, xm, ym);
    if y == [] {
      EmptyForm(b, c);
    } else {
      var front, n := y[..|y| - 1], |y| - 1;
      Expansion(front, a, b, xm, ym);
      SameResidual(y[n], a, b, n, xm, ym);
      FormStep(SsTot(front, ym), Numerator(front, xm, ym), Denominator(n, xm), DeviationY(front, ym),
               DeviationX(n, xm), n as real, b, c, y[n] - ym, n as real - xm, Residual(y[n], a, b, n));
    }
  }

  lemma EmptyForm(b: real, c: real)
    ensures Form(0.0, 0.0, 0.0, 0.0, 0.0, 0.0, b, c) == 0.0
  {
  }

  lemma SameResidual(v: real, a: real, b: real, n: nat, xm: real, ym: real)
    ensures Residual(v, a, b, n) == (v - ym) - b * (n as real - xm) - Height(a, b, xm, ym)
  {
  }

  lemma CompleteSquare(tot: real, b: real, s: real, d: real, n: real, c: real)
    ensures Form(tot, Cross(s, d), d, 0.0, 0.0, n, b, c)
            == tot - Cross(Square(s), d) + Cross(d, Square(b - s)) + Cross(n, Square(c))
  {
    assert d * ((b - s) * (b - s)) == b * b * d - 2.0 * b * (s * d) + (s * s) * d;
    assert n * c * c == n * (c * c);
  }

  /** The error of any line: that of the fit, plus what its slope and its height at the mean are off by. */
  lemma ErrorOfLine(y: seq<real>, a: real, b: real)
    requires |y| >= 2
    ensures var s, d := Slope(y), Denominator(|y|, MeanX(|y|));
            SquaredError(y, a, b)
            == SsTot(y, MeanY(y)) - Cross(Square(s), d) + Cross(d, Square(b - s))
               + Cross(|y| as real, Square(Height(a, b, MeanX(|y|), MeanY(y))))
  {
    hide Square, Form, MeanX, MeanY, Slope, Cross, Height;
    var n, xm, ym := |y|, MeanX(|y|), MeanY(y);
    Expansion(y, a, b, xm, ym);
    DeviationsCancel(y);
    SlopeTimesDenominator(y);
    CompleteSquare(SsTot(y, ym), b, Slope(y), Denominator(n, xm), n as real, Height(a, b, xm, ym));
  }

  lemma SlopeTimesDenominator(y: seq<real>)
    requires |y| >= 2
    ensures Numerator(y, MeanX(|y|), MeanY(y)) == Cross(Slope(y), Denominator(|y|, MeanX(|y|)))
  {
    hide MeanX, MeanY, Numerator, Denominator;
    DenominatorPositive(|y|, MeanX(|y|));
  }

  lemma FitHeight(y: seq<real>)
    requires |y| >= 2
    ensures Height(Intercept(y), Slope(y), MeanX(|y|), MeanY(y)) == 0.0
  {
    hide Slope, MeanX, MeanY;
  }

  lemma FitError(y: seq<real>)
    requires |y| >= 2
    ensures SquaredError(y, Intercept(y), Slope(y))
            == SsTot(y, MeanY(y)) - Cross(Square(Slope(y)), Denominator(|y|, MeanX(|y|)))
  {
    hide Square, Slope, MeanX, MeanY, Cross, Intercept, Height;
    ErrorOfLine(y, Intercept(y), Slope(y));
    FitHeight(y);
    DenominatorPositive(|y|, MeanX(|y|));
    ScaledSquareSign(Denominator(|y|, MeanX(|y|)), 0.0);
    ScaledSquareSign(|y| as real, 0.0);
    assert Slope(y) - Slope(y) == 0.0;
  }

  /** A line is the fit exactly if its slope and its height at the mean are right. */
  lemma LineIsFit(y: seq<real>, a: real, b: real)
    requires |y| >= 2
    ensures b == Slope(y) ==> (Height(a, b, MeanX(|y|), MeanY(y)) == 0.0 <==> a == Intercept(y))
  {
    hide Slope, MeanX, MeanY;
  }

  /** The fitted line minimises the squared error among all lines, and it is the only one that does. */
  lemma FitIsLeastSquares(y: seq<real>, a: real, b: real)
    requires |y| >= 2
    ensures SquaredError(y, Intercept(y), Slope(y)) <= SquaredError(y, a, b)
    ensures SquaredError(y, Intercept(y), Slope(y)) == SquaredError(y, a, b) <==> a == Intercept(y) && b == Slope(y)
  {
    hide Square, Slope, MeanX, MeanY, SquaredError, SsTot, Denominator, Cross, Height, Intercept;
    FitError(y);
    ErrorOfLine(y, a, b);
    DenominatorPositive(|y|, MeanX(|y|));
    ScaledSquareSign(Denominator(|y|, MeanX(|y|)), b - Slope(y));
    ScaledSquareSign(|y| as real, Height(a, b, MeanX(|y|), MeanY(y)));
    LineIsFit(y, a, b);
  }

  lemma {:induction false} ErrorNonNegative(y: seq<real>, a: real, b: real)
    ensures SquaredError(y, a, b) >= 0.0
    ensures SquaredError(y, a, b) == 0.0 <==> OnLine(y, a, b)
  {
    hide Square, Residual;
    if y != [] {
      var front, last := y[..|y| - 1], |y| - 1;
      ErrorNonNegative(front, a, b);
      SquareSign(Residual(y[last], a, b, last));
      assert forall i :: 0 <= i < last ==> front[i] == y[i];
    }
  }

  /** All points lie on the line a + b * x. */
  ghost predicate OnLine(y: seq<real>, a: real, b: real) {
    forall i :: 0 <= i < |y| ==> Residual(y[i], a, b, i) == 0.0
  }

  /** R squared lies in [0, 1]; when the values are not all equal it is 1 exactly if they lie on one line. */
  lemma RSquaredRange(y: seq<real>)
    requires |y| >= 2
    ensures 0.0 <= RSquared(y) <= 1.0
    ensures SsTot(y, MeanY(y)) > 0.0 ==> (RSquared(y) == 1.0 <==> exists a, b :: OnLine(y, a, b))
  {
    hide Square, Slope, Intercept, MeanX, MeanY, SquaredError, SsTot, Denominator, OnLine;
    var tot, res, d := SsTot(y, MeanY(y)), SquaredError(y, Intercept(y), Slope(y)), Denominator(|y|, MeanX(|y|));
    FitError(y);
    ErrorNonNegative(y, Intercept(y), Slope(y));
    DenominatorPositive(|y|, MeanX(|y|));
    SquareSign(Slope(y));
    CrossSign(Square(Slope(y)), d);
    if tot > 0.0 {
      RatioRange(res, tot);
      forall a, b | OnLine(y, a, b) ensures res == 0.0 {
        ErrorNonNegative(y, a, b);
        FitIsLeastSquares(y, a, b);
      }
    }
  }

  lemma RatioRange(res: real, tot: real)
    requires 0.0 <= res <= tot && tot > 0.0
    ensures 0.0 <= res / tot <= 1.0 && (res / tot == 0.0 <==> res == 0.0)
  {
    assert res / tot * tot == res;
  }

  /** R squared is the square of the correlation: what the line explains of the variation, as a share of it. */
  lemma RSquaredIsExplained(y: seq<real>)
    requires |y| >= 2
    ensures var n, xm, ym := |y|, MeanX(|y|), MeanY(y);
      && Cross(RSquared(y), SsTot(y, ym)) == Cross(Square(Slope(y)), Denominator(n, xm))
      && (SsTot(y, ym) <= 0.0 ==> RSquared(y) == 0.0)
  {
    hide Square, Slope, Intercept, MeanX, MeanY, SquaredError, SsTot, Denominator;
    var tot, res, d := SsTot(y, MeanY(y)), SquaredError(y, Intercept(y), Slope(y)), Denominator(|y|, MeanX(|y|));
    FitError(y);
    ErrorNonNegative(y, Intercept(y), Slope(y));
    DenominatorPositive(|y|, MeanX(|y|));
    SquareSign(Slope(y));
    CrossSign(Square(Slope(y)), d);
    if tot > 0.0 {
      Share(res, tot);
    }
  }

  lemma Share(res: real, tot: real)
    requires tot > 0.0
    ensures Cross(1.0 - res / tot, tot) == tot - res
  {
    assert res / tot * tot == res;
  }

  /** Values that lie on a line are fitted by that line, so the trend is read off its slope. */
  lemma LineIsRecovered(y: seq<real>, a: real, b: real)
    requires |y| >= 2 && OnLine(y, a, b)
    ensures Slope(y) == b && Intercept(y) == a
    ensures TrendOf(Slope(y)) == Improving <==> b >= 0.01
    ensures TrendOf(Slope(y)) == Declining <==> b <= -0.01
    ensures TrendOf(Slope(y)) == Stable <==> -0.01 < b < 0.01
  {
    hide Slope, Intercept, OnLine, SquaredError;
    ErrorNonNegative(y, a, b);
    ErrorNonNegative(y, Intercept(y), Slope(y));
    FitIsLeastSquares(y, a, b);
  }

  lemma InterceptAgain(y: seq<real>, intercept: real, slope: real, xMean: real, yMean: real)
    requires intercept == yMean - slope * xMean
    requires |y| >= 2 && slope == Slope(y) && xMean == MeanX(|y|) && yMean == MeanY(y)
    ensures intercept == Intercept(y)
  {
    hide Slope, MeanX, MeanY;
  }

  const MAX_POINTS := 100

  class LearningCurve {
    var dataPoints: seq<Point>
    var trend: Trend
    var slope: real
    var rSquared: real
    var projectedValue: Option<real>

    constructor ()
      ensures dataPoints == [] && trend == Stable && slope == 0.0 && rSquared == 0.0 && projectedValue == None
    {
      dataPoints, trend, slope, rSquared, projectedValue := [], Stable, 0.0, 0.0, None;
    }

    /** The fields say what the points say. */
    ghost predicate Fitted()
      reads this
    {
      var y := Values(dataPoints);
      if |y| < 3 then trend == Stable && slope == 0.0 && rSquared == 0.0
      else slope == Slope(y) && rSquared == RSquared(y) && trend == TrendOf(slope)
    }

    method RecalculateTrend()
      modifies this`trend, this`slope, this`rSquared, this`projectedValue
      ensures Fitted()
      ensures projectedValue == if |dataPoints| < 3 then old(projectedValue)
                                else Some(dataPoints[|dataPoints| - 1].value + slope)
      ensures |dataPoints| >= 3 ==>
        && (trend == Improving <==> slope >= 0.01) && (trend == Declining <==> slope <= -0.01)
        && trend != Volatile
    {
      hide MeanX, MeanY, Numerator, SquaredError, SsTot, Denominator, Intercept;
      if |dataPoints| < 3 {
        trend, slope, rSquared := Stable, 0.0, 0.0;
        return;
      }
      var n, y := |dataPoints|, Values(dataPoints);
      var xMean, yMean := MeanX(n), MeanY(y);
      var denominator := Denominator(n, xMean);
      DenominatorPositive(n, xMean);
      var fitted, fit, direction := 0.0, rSquared, Volatile;
      if denominator > 0.0 {
        fitted := Numerator(y, xMean, yMean) / denominator;
        var intercept := yMean - fitted * xMean;
        InterceptAgain(y, intercept, fitted, xMean, yMean);
        var ssRes := SquaredError(y, intercept, fitted);
        var ssTot := SsTot(y, yMean);
        fit := if ssTot > 0.0 then 1.0 - ssRes / ssTot else 0.0;
        if -0.01 < fitted < 0.01 {
          direction := Stable;
        } else if fitted > 0.0 {
          direction := Improving;
        } else {
          direction := Declining;
        }
      }
      slope, rSquared, trend := fitted, fit, direction;
      projectedValue := Some(dataPoints[n - 1].value + slope);
    }

    /** Appends a point, keeps the last hundred and refits. */
    method UpdateLearningCurve(p: Point)
      modifies this
      ensures var all := old(dataPoints) + [p];
              dataPoints == if |all| > 100 then all[|all| - 100..] else all
      ensures Fitted()
      ensures projectedValue == if |dataPoints| < 3 then old(projectedValue) else Some(p.value + slope)
    {
      dataPoints := dataPoints + [p];
      if |dataPoints| > MAX_POINTS {
        dataPoints := dataPoints[|dataPoints| - MAX_POINTS..];
      }
      RecalculateTrend();
    }
  }
}
