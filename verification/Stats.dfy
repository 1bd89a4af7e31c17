/** Mean, standard deviation and least-squares regression, over exact reals. */
module Stats {
  import opened Sums

  // ----- mean and deviation

  function MeanOf(values: seq<real>): real {
    if |values| == 0 then 0.0 else Sum(values, |values|) / |values| as real
  }

  lemma MeanTimesLength(values: seq<real>)
    ensures Product(MeanOf(values), |values| as real) == Sum(values, |values|)
  {
    if |values| > 0 { DivideBack(Sum(values, |values|), |values| as real); }
  }

  method Mean(values: seq<real>) returns (mean: real)
    ensures mean * |values| as real == Sum(values, |values|)
    ensures mean == MeanOf(values) && (values == [] ==> mean == 0.0)
  {
    if |values| == 0 {
      return 0.0;
    }
    var sum := 0.0;
    for i := 0 to |values|
      invariant sum == Sum(values, i)
    {
      sum := sum + values[i];
    }
    DivideBack(sum, |values| as real);
    return sum / |values| as real;
  }

  /** What the square root of the library is relied on for. */
  ghost predicate IsSquareRoot(sqrt: real -> real) {
    forall v :: 0.0 <= v ==> 0.0 <= sqrt(v) && Sq(sqrt(v)) == v
  }

  /** The variance with the divisor n (population) or n - 1 (sample); 0 where that is not defined. */
  function Variance(values: seq<real>, population: bool): (v: real)
    ensures v >= 0.0
  {
    var n := |values|;
    if n == 0 || (!population && n < 2) then 0.0
    else Quotient(SquaredDeviations(values, MeanOf(values), n), if population then n as real else (n - 1) as real)
  }

  function Quotient(x: real, y: real): (q: real)
    requires y > 0.0
    ensures q * y == x
    ensures x >= 0.0 ==> q >= 0.0
    ensures x == 0.0 <==> q == 0.0
  {
    DivideBack(x, y);
    DivideSign(x, y);
    x / y
  }

  lemma DivideBack(x: real, y: real)
    requires y != 0.0
    ensures x / y * y == x
  {
  }

  lemma DivideSign(x: real, y: real)
    requires y > 0.0
    ensures x >= 0.0 ==> x / y >= 0.0
    ensures x == 0.0 <==> x / y == 0.0
  {
    DivideBack(x, y);
  }

  method StdDev(values: seq<real>, population: bool, sqrt: real -> real) returns (deviation: real)
    requires IsSquareRoot(sqrt)
    ensures deviation >= 0.0 && Sq(deviation) == Variance(values, population)
    ensures deviation == sqrt(Variance(values, population))
  {
    if |values| == 0 {
      return 0.0;
    }
    var mean := Mean(values);
    var sum := 0.0;
    for i := 0 to |values|
      invariant sum == SquaredDeviations(values, mean, i)
    {
      var diff := values[i] - mean;
      sum := sum + Sq(diff);
    }
    var denom := |values| as real;
    if !population {
      if |values| < 2 {
        return 0.0;
      }
      denom := (|values| - 1) as real;
    }
    assert sum / denom == Quotient(sum, denom);
    return sqrt(sum / denom);
  }

  /** The mean is the centre of least squared deviation, and the deviation about any other centre
      exceeds it by n times the squared distance. */
  lemma DeviationAbout(values: seq<real>, c: real)
    ensures SquaredDeviations(values, c, |values|)
         == SquaredDeviations(values, MeanOf(values), |values|) + Product(|values| as real, Sq(MeanOf(values) - c))
  {
    var n, m := |values|, MeanOf(values);
    MeanTimesLength(values);
    hide Sum, Sq, SquaredDeviations, MeanOf, RecentringTerm;
    ProductIsTimes(m, n as real);
    Recentre(values, m, c, n);
    NoCrossTerm(Sum(values, n), n as real, m, m - c);
  }

  lemma NoCrossTerm(sum: real, k: real, m: real, d: real)
    requires sum - k * m == 0.0
    ensures RecentringTerm(sum, k, m, d) == Product(k, Sq(d))
  {
    hide Sq;
    ProductIsTimes(k, Sq(d));
  }

  /** The divisor is the number of values for the population and one less for a sample; with fewer values than that
      takes, the variance is 0. */
  lemma VarianceExactly(values: seq<real>, population: bool)
    ensures |values| < (if population then 1 else 2) ==> Variance(values, population) == 0.0
    ensures |values| >= (if population then 1 else 2) ==>
              Variance(values, population) * (if population then |values| as real else |values| as real - 1.0)
              == SquaredDeviations(values, MeanOf(values), |values|)
  {
  }

  /** A deviation of 0 means that all the values are equal, where there are enough of them. */
  lemma ZeroVarianceIffConstant(values: seq<real>, population: bool)
    requires |values| >= (if population then 1 else 2)
    ensures Variance(values, population) == 0.0 <==> forall i :: 0 <= i < |values| ==> values[i] == MeanOf(values)
  {
    NoDeviationIffConstant(values, MeanOf(values), |values|);
  }

  // ----- regression

  datatype Regression = Regression(slope: real, intercept: real, r2: real, ok: bool)

  const NO_REGRESSION := Regression(0.0, 0.0, 0.0, false)

  function Denominator(xs: seq<real>): real {
    SpreadOf(|xs| as real, Dot(xs, xs, |xs|), Sum(xs, |xs|))
  }

  function SpreadOf(n: real, sumX2: real, sumX: real): real {
    n * sumX2 - sumX * sumX
  }

  function SlopeOf(n: real, sumX: real, sumY: real, sumXY: real, denom: real): real
    requires denom != 0.0
  {
    (n * sumXY - sumX * sumY) / denom
  }

  function InterceptOf(n: real, sumX: real, sumY: real, slope: real): real
    requires n != 0.0
  {
    (sumY - slope * sumX) / n
  }

  /** The regression as a function of its inputs; what it means is stated by the lemmas below. */
  function Regress(xs: seq<real>, ys: seq<real>): Regression {
    if |xs| != |ys| || |xs| < 2 || Denominator(xs) == 0.0 then NO_REGRESSION
    else
      var n := |xs|;
      var slope := SlopeOf(n as real, Sum(xs, n), Sum(ys, n), Dot(xs, ys, n), Denominator(xs));
      var intercept := InterceptOf(n as real, Sum(xs, n), Sum(ys, n), slope);
      var total := SquaredDeviations(ys, MeanOf(ys), n);
      var r2 := if total == 0.0 then 1.0 else 1.0 - Residuals(xs, ys, slope, intercept, n) / total;
      Regression(slope, intercept, r2, true)
  }

  lemma SpreadFormula(n: real, sumX2: real, sumX: real)
    ensures SpreadOf(n, sumX2, sumX) == n * sumX2 - sumX * sumX
  {
  }

  lemma SlopeFormula(n: real, sumX: real, sumY: real, sumXY: real, denom: real)
    requires denom != 0.0
    ensures SlopeOf(n, sumX, sumY, sumXY, denom) == (n * sumXY - sumX * sumY) / denom
  {
  }

  lemma InterceptFormula(n: real, sumX: real, sumY: real, slope: real)
    requires n != 0.0
    ensures InterceptOf(n, sumX, sumY, slope) == (sumY - slope * sumX) / n
  {
  }

  method LinearRegression(xVals: seq<real>, yVals: seq<real>) returns (slope: real, intercept: real, r2: real, ok: bool)
    ensures Regression(slope, intercept, r2, ok) == Regress(xVals, yVals)
  {
    hide Product, Sq, LineAt, SpreadOf, SlopeOf, InterceptOf;
    if |xVals| != |yVals| || |xVals| < 2 {
      return 0.0, 0.0, 0.0, false;
    }
    var n := |xVals| as real;
    var sumX, sumY, sumXY, sumX2 := 0.0, 0.0, 0.0, 0.0;
    for i := 0 to |xVals|
      invariant sumX == Sum(xVals, i) && sumY == Sum(yVals, i)
      invariant sumXY == Dot(xVals, yVals, i) && sumX2 == Dot(xVals, xVals, i)
    {
      sumX := sumX + xVals[i];
      sumY := sumY + yVals[i];
      ProductIsTimes(xVals[i], yVals[i]);
      ProductIsTimes(xVals[i], xVals[i]);
      sumXY := sumXY + xVals[i] * yVals[i];
      sumX2 := sumX2 + xVals[i] * xVals[i];
    }
    var denom := n * sumX2 - sumX * sumX;
    SpreadFormula(n, sumX2, sumX);
    if denom == 0.0 {
      return 0.0, 0.0, 0.0, false;
    }
    slope := (n * sumXY - sumX * sumY) / denom;
    SlopeFormula(n, sumX, sumY, sumXY, denom);
    intercept := (sumY - slope * sumX) / n;
    InterceptFormula(n, sumX, sumY, slope);
    var meanY := sumY / n;
    assert meanY == MeanOf(yVals);
    var ssTot, ssRes := 0.0, 0.0;
    for i := 0 to |xVals|
      invariant ssTot == SquaredDeviations(yVals, meanY, i)
      invariant ssRes == Residuals(xVals, yVals, slope, intercept, i)
    {
      var est := LineAt(xVals[i], slope, intercept);
      var diff := yVals[i] - meanY;
      ssTot := ssTot + Sq(diff);
      var res := yVals[i] - est;
      ssRes := ssRes + Sq(res);
    }
    if ssTot == 0.0 {
      return slope, intercept, 1.0, true;
    }
    r2 := 1.0 - ssRes / ssTot;
    return slope, intercept, r2, true;
  }

  /** The denominator is n times the squared deviation of the x values. */
  lemma DenominatorIsDeviation(xs: seq<real>)
    ensures Denominator(xs) == Product(|xs| as real, SquaredDeviations(xs, MeanOf(xs), |xs|))
  {
    hide Sq, Product, SpreadOf, MeanOf;
    var n, m := |xs|, MeanOf(xs);
    var dev := SquaredDeviations(xs, m, n);
    SquaresAreDeviationsFromZero(xs, n);
    DeviationAbout(xs, 0.0);
    MeanTimesLength(xs);
    assert m - 0.0 == m;
    assert Dot(xs, xs, n) == dev + Product(n as real, Sq(m));
    SpreadFromDeviation(n as real, dev, m);
  }

  lemma SpreadFromDeviation(k: real, d: real, m: real)
    ensures SpreadOf(k, d + Product(k, Sq(m)), Product(m, k)) == Product(k, d)
  {
    SqIsProduct(m);
    assert (m * k) * (m * k) == k * (k * (m * m));
  }

  /** The denominator is never negative, and it is 0 exactly when all the x values are equal. */
  lemma DenominatorZeroIffConstant(xs: seq<real>)
    ensures Denominator(xs) >= 0.0
    ensures Denominator(xs) == 0.0 <==> forall i, j :: 0 <= i < j < |xs| ==> xs[i] == xs[j]
  {
    var n, m := |xs|, MeanOf(xs);
    var dev := SquaredDeviations(xs, m, n);
    DenominatorIsDeviation(xs);
    NoDeviationIffConstant(xs, m, n);
    if n > 0 && forall i, j :: 0 <= i < j < n ==> xs[i] == xs[j] {
      ConstantSum(xs, xs[0], n);
      assert m == xs[0] by { CancelFactor(n as real, xs[0]); }
    }
  }

  lemma CancelFactor(k: real, c: real)
    requires k != 0.0
    ensures k * c / k == c
  {
  }

  /** A regression exists exactly for two equally long lists with two different x values. */
  lemma RegressionExistsIff(xs: seq<real>, ys: seq<real>)
    ensures Regress(xs, ys).ok
       <==> |xs| == |ys| && exists i, j :: 0 <= i < j < |xs| && xs[i] != xs[j]
  {
    DenominatorZeroIffConstant(xs);
  }

  /** The two normal equations. */
  lemma NormalEquations(xs: seq<real>, ys: seq<real>)
    requires Regress(xs, ys).ok
    ensures var r, n := Regress(xs, ys), |xs|;
            && InterceptGap(Sum(ys, n), Sum(xs, n), n as real, r.slope, r.intercept) == 0.0
            && SlopeGap(Dot(xs, ys, n), Dot(xs, xs, n), Sum(xs, n), r.slope, r.intercept) == 0.0
  {
    var n := |xs|;
    SolveNormal(n as real, Sum(xs, n), Sum(ys, n), Dot(xs, ys, n), Dot(xs, xs, n));
  }

  lemma SolveNormal(n: real, sx: real, sy: real, sxy: real, sxx: real)
    requires n > 0.0 && SpreadOf(n, sxx, sx) != 0.0
    ensures var slope := SlopeOf(n, sx, sy, sxy, SpreadOf(n, sxx, sx));
            var intercept := InterceptOf(n, sx, sy, slope);
            InterceptGap(sy, sx, n, slope, intercept) == 0.0 && SlopeGap(sxy, sxx, sx, slope, intercept) == 0.0
  {
    var denom := n * sxx - sx * sx;
    var slope := (n * sxy - sx * sy) / denom;
    var intercept := (sy - slope * sx) / n;
    DivideBack(n * sxy - sx * sy, denom);
    DivideBack(sy - slope * sx, n);
    SolveSecond(n, sx, sy, sxy, sxx, slope, intercept);
  }

  lemma SolveSecond(n: real, sx: real, sy: real, sxy: real, sxx: real, slope: real, intercept: real)
    requires n > 0.0
    requires slope * (n * sxx - sx * sx) == n * sxy - sx * sy
    requires intercept * n == sy - slope * sx
    ensures SlopeGap(sxy, sxx, sx, slope, intercept) == 0.0
  {
    var gap := sxy - slope * sxx - intercept * sx;
    assert n * gap == n * sxy - slope * (n * sxx) - (intercept * n) * sx;
    assert (sy - slope * sx) * sx == sx * sy - slope * (sx * sx);
    assert slope * (n * sxx - sx * sx) == slope * (n * sxx) - slope * (sx * sx);
    assert Product(n, gap) == 0.0;
  }

  /** Every other line misses the points by the regression line's residuals plus the size of the
      line between the two. */
  lemma ResidualsDecompose(xs: seq<real>, ys: seq<real>, a: real, b: real)
    requires Regress(xs, ys).ok
    ensures var r, n := Regress(xs, ys), |xs|;
            && Residuals(xs, ys, a, b, n)
            == Residuals(xs, ys, r.slope, r.intercept, n) + SquaredLine(xs, r.slope - a, r.intercept - b, n)
  {
    var r, n := Regress(xs, ys), |xs|;
    NormalEquations(xs, ys);
    ResidualsOfAnotherLine(xs, ys, r.slope, r.intercept, r.slope - a, r.intercept - b, n);
    assert r.slope - (r.slope - a) == a && r.intercept - (r.intercept - b) == b;
    NoCrossTerms(Dot(xs, ys, n), Dot(xs, xs, n), Sum(xs, n), Sum(ys, n), n as real,
                 r.slope, r.intercept, r.slope - a, r.intercept - b);
  }

  lemma NoCrossTerms(sxy: real, sxx: real, sx: real, sy: real, k: real, a: real, b: real, u: real, v: real)
    requires SlopeGap(sxy, sxx, sx, a, b) == 0.0 && InterceptGap(sy, sx, k, a, b) == 0.0
    ensures CrossTerms(sxy, sxx, sx, sy, k, a, b, u, v) == 0.0
  {
    assert 2.0 * u * 0.0 == 0.0 && 2.0 * v * 0.0 == 0.0;
  }

  lemma {:induction false} ZeroLineVanishes(xs: seq<real>, u: real, v: real, n: nat)
    requires n <= |xs|
    ensures SquaredLine(xs, u, v, n) == 0.0 <==> forall i :: 0 <= i < n ==> LineAt(xs[i], u, v) == 0.0
  {
    if n > 0 { ZeroLineVanishes(xs, u, v, n - 1); }
  }

  /** Least-squares optimality: no line has a smaller residual sum, and no other line an equal one. */
  lemma LeastSquares(xs: seq<real>, ys: seq<real>, a: real, b: real)
    requires Regress(xs, ys).ok
    ensures var r, n := Regress(xs, ys), |xs|;
            Residuals(xs, ys, r.slope, r.intercept, n) <= Residuals(xs, ys, a, b, n)
    ensures var r, n := Regress(xs, ys), |xs|;
            Residuals(xs, ys, r.slope, r.intercept, n) == Residuals(xs, ys, a, b, n)
            <==> a == r.slope && b == r.intercept
  {
    var r, n := Regress(xs, ys), |xs|;
    ResidualsDecompose(xs, ys, a, b);
    var u, v := r.slope - a, r.intercept - b;
    ZeroLineVanishes(xs, u, v, n);
    RegressionExistsIff(xs, ys);
    var i, j :| 0 <= i < j < n && xs[i] != xs[j];
    if SquaredLine(xs, u, v, n) == 0.0 {
      assert LineAt(xs[i], u, v) == 0.0 && LineAt(xs[j], u, v) == 0.0;
      assert Product(u, xs[i] - xs[j]) == 0.0;
    }
    if a == r.slope && b == r.intercept {
      forall k | 0 <= k < n ensures LineAt(xs[k], u, v) == 0.0 { assert 0.0 * xs[k] == 0.0; }
    }
  }

  lemma {:induction false} FlatLineResiduals(xs: seq<real>, ys: seq<real>, c: real, n: nat)
    requires n <= |xs| && n <= |ys|
    ensures Residuals(xs, ys, 0.0, c, n) == SquaredDeviations(ys, c, n)
  {
    if n > 0 {
      FlatLineResiduals(xs, ys, c, n - 1);
      assert LineAt(xs[n - 1], 0.0, c) == c;
    }
  }

  /** The coefficient of determination is a share of the total deviation: between 0 and 1, and 1
      exactly when every point is on the regression line. */
  lemma DeterminationInUnitRange(xs: seq<real>, ys: seq<real>)
    requires Regress(xs, ys).ok
    ensures var r, n := Regress(xs, ys), |xs|;
            var total := SquaredDeviations(ys, MeanOf(ys), n);
            0.0 <= r.r2 <= 1.0 && r.r2 * total == total - Residuals(xs, ys, r.slope, r.intercept, n)
    ensures var r, n := Regress(xs, ys), |xs|;
            r.r2 == 1.0 <==> Residuals(xs, ys, r.slope, r.intercept, n) == 0.0
  {
    var r, n := Regress(xs, ys), |xs|;
    var m := MeanOf(ys);
    var total, rest := SquaredDeviations(ys, m, n), Residuals(xs, ys, r.slope, r.intercept, n);
    LeastSquares(xs, ys, 0.0, m);
    FlatLineResiduals(xs, ys, m, n);
    if total > 0.0 {
      var share := rest / total;
      assert share == Quotient(rest, total);
      assert Product(share - 1.0, total) == rest - total;
      assert (1.0 - share) * total == total - share * total;
    }
  }
}
