/** The Shewhart chart: the newest sample against mean plus or minus a multiple of sigma, where the
    mean and sigma are those of all the samples, the newest included. */
module Shewhart {
  import opened Common
  import opened DetectorTypes
  import opened Stats
  import opened Sums

  const DEFAULT_MIN_BASELINE := 20

  function MinBaseline(spec: ShewhartSpec): int {
    if spec.minBaselineN == 0 then DEFAULT_MIN_BASELINE else spec.minBaselineN
  }

  function Sigma(values: seq<real>, population: bool, sqrt: real -> real): real {
    sqrt(Variance(values, population))
  }

  /** The newest value is reported once for each control limit it is strictly outside of. */
  function ControlViolations(values: seq<real>, ts: int, margin: real): seq<Violation>
    requires values != []
  {
    var latest, mean := values[|values| - 1], MeanOf(values);
    (if latest > mean + margin then
       [Violation(TimeOrNone(ts), None, latest, AboveUcl, UCL, mean + margin, latest - (mean + margin))]
     else [])
    + (if latest < mean - margin then
         [Violation(TimeOrNone(ts), None, latest, BelowLcl, LCL, mean - margin, latest - (mean - margin))]
       else [])
  }

  /** What EvaluateShewhart reports for a large enough baseline. */
  function NewestViolations(values: seq<real>, ts: int, population: bool, multiplier: real, sqrt: real -> real): seq<Violation>
    requires values != []
  {
    ControlViolations(values, ts, Product(multiplier, Sigma(values, population, sqrt)))
  }

  function ShewhartResult(samples: seq<Sample>, spec: ShewhartSpec, sigmaMultiplier: real, sqrt: real -> real): DetectorResult
    requires spec.minBaselineN < 0 ==> samples != []
  {
    if |samples| < MinBaseline(spec) then INSUFFICIENT_DATA
    else Found(NewestViolations(Values(samples), samples[|samples| - 1].ts, spec.populationSigma, sigmaMultiplier, sqrt))
  }

  method ExtractValues(samples: seq<Sample>) returns (values: seq<real>)
    ensures values == Values(samples)
  {
    values := [];
    for i := 0 to |samples|
      invariant values == Values(samples)[..i]
    {
      values := values + [samples[i].value];
    }
  }

  /** The mean_shift branch of the body cannot be taken in exact arithmetic: with sigma 0 the newest
      value is the mean, so the two control limits alone say what is reported. */
  method EvaluateShewhart(samples: seq<Sample>, spec: ShewhartSpec, sigmaMultiplier: real, sqrt: real -> real)
    returns (result: DetectorResult)
    requires IsSquareRoot(sqrt)
    requires spec.minBaselineN < 0 ==> samples != []
    ensures result == ShewhartResult(samples, spec, sigmaMultiplier, sqrt)
  {
    var values := ExtractValues(samples);
    var minBaseline := spec.minBaselineN;
    if minBaseline == 0 {
      minBaseline := DEFAULT_MIN_BASELINE;
    }
    if |values| < minBaseline {
      return INSUFFICIENT_DATA;
    }
    var lastSample := samples[|samples| - 1];
    var mean := Mean(values);
    var sigma := StdDev(values, spec.populationSigma, sqrt);
    var margin := sigmaMultiplier * sigma;
    assert margin == Product(sigmaMultiplier, Sigma(values, spec.populationSigma, sqrt));
    var ucl, lcl := mean + margin, mean - margin;
    var latest := lastSample.value;
    result := Verdict(Fine, High, []);
    if sigma == 0.0 {
      ZeroSigmaMeansNoDeviation(values, spec.populationSigma);
      assert margin == 0.0;
      if latest != mean {
        result := result.(hit := true, status := Violated, violations := result.violations
          + [Violation(TimeOrNone(lastSample.ts), None, latest, MeanShift, MeanLimit, mean, latest - mean)]);
      }
      assert ControlViolations(values, lastSample.ts, margin) == [];
      return;
    }
    if latest > ucl {
      result := result.(hit := true, status := Violated, violations := result.violations
        + [Violation(TimeOrNone(lastSample.ts), None, latest, AboveUcl, UCL, ucl, latest - ucl)]);
    }
    if latest < lcl {
      result := result.(hit := true, status := Violated, violations := result.violations
        + [Violation(TimeOrNone(lastSample.ts), None, latest, BelowLcl, LCL, lcl, latest - lcl)]);
    }
    assert result.violations == ControlViolations(values, lastSample.ts, margin);
  }

  /** With no variance, every value is the mean: one sample is its own mean, and more are all equal. */
  lemma ZeroSigmaMeansNoDeviation(values: seq<real>, population: bool)
    requires values != [] && Variance(values, population) == 0.0
    ensures forall i :: 0 <= i < |values| ==> values[i] == MeanOf(values)
  {
    if |values| == 1 {
      assert Sum(values, 1) == Sum(values, 0) + values[0];
    } else {
      ZeroVarianceIffConstant(values, population);
    }
  }

  // ----- masking: the tested value is part of its own baseline

  /** Only the k-th of the values differs from c exactly when its square is the whole deviation. */
  lemma {:induction false} OneTermIsAllDeviation(s: seq<real>, c: real, n: nat, k: nat)
    requires k < n <= |s|
    ensures SquaredDeviations(s, c, n) == Sq(s[k] - c) <==> forall i :: 0 <= i < n && i != k ==> s[i] == c
  {
    if k == n - 1 {
      NoDeviationIffConstant(s, c, n - 1);
    } else {
      OneTermIsAllDeviation(s, c, n - 1, k);
      TermWithinDeviations(s, c, n - 1, k);
    }
  }

  lemma {:induction false} SumWithOneOutlier(s: seq<real>, w: real, n: nat, k: nat)
    requires k < n <= |s|
    requires forall i :: 0 <= i < n && i != k ==> s[i] == w
    ensures Sum(s, n) == Product(n as real - 1.0, w) + s[k]
  {
    if k == n - 1 {
      ConstantSum(s, w, n - 1);
    } else {
      SumWithOneOutlier(s, w, n - 1, k);
      assert (n - 2) as real * w + w == (n - 1) as real * w;
    }
  }

  /** The mean of all values but the k-th. */
  function MeanOfOthers(values: seq<real>, k: nat): real
    requires k < |values| && |values| >= 2
  {
    MeanOf(values) - (values[k] - MeanOf(values)) / (|values| - 1) as real
  }

  lemma OthersGap(values: seq<real>, k: nat)
    requires k < |values| && |values| >= 2
    ensures values[k] - MeanOf(values) == Product(MeanOf(values) - MeanOfOthers(values, k), |values| as real - 1.0)
  {
    DivideBack(values[k] - MeanOf(values), (|values| - 1) as real);
  }

  /** Samuelson's inequality: n times the squared distance of any value from the mean is at most n - 1 times
      the squared deviation of all of them, with equality exactly when all the other values are equal. */
  lemma Samuelson(values: seq<real>, k: nat)
    requires k < |values| && |values| >= 2
    ensures var n := |values|;
            Product(n as real, Sq(values[k] - MeanOf(values)))
            <= Product((n - 1) as real, SquaredDeviations(values, MeanOf(values), n))
    ensures var n := |values|;
            Product(n as real, Sq(values[k] - MeanOf(values)))
            == Product((n - 1) as real, SquaredDeviations(values, MeanOf(values), n))
            <==> forall i, j :: 0 <= i < j < n && i != k && j != k ==> values[i] == values[j]
  {
    var n, m := |values|, MeanOf(values);
    var d, c := values[k] - m, MeanOfOthers(values, k);
    var e := m - c;
    OthersGap(values, k);
    hide MeanOf, MeanOfOthers, Product, Sq;
    assert (n - 1) as real == n as real - 1.0;
    DeviationAbout(values, c);
    assert values[k] - c == d + e;
    TermWithinDeviations(values, c, n, k);
    OneTermIsAllDeviation(values, c, n, k);
    var dev := SquaredDeviations(values, m, n);
    SamuelsonAlgebra(n as real, d, e, dev);
    if forall i, j :: 0 <= i < j < n && i != k && j != k ==> values[i] == values[j] {
      var w := if k == 0 then values[1] else values[0];
      SumWithOneOutlier(values, w, n, k);
      MeanTimesLength(values);
      OthersAgree(n as real, m, values[k], w, e);
    }
  }

  lemma SamuelsonAlgebra(n: real, d: real, e: real, dev: real)
    requires n > 1.0 && d == Product(e, n - 1.0)
    ensures Sq(d + e) <= dev + Product(n, Sq(e)) <==> Product(n, Sq(d)) <= Product(n - 1.0, dev)
    ensures Sq(d + e) == dev + Product(n, Sq(e)) <==> Product(n, Sq(d)) == Product(n - 1.0, dev)
  {
    var q := e * e;
    SqIsProduct(e);
    SqIsProduct(d);
    SqIsProduct(d + e);
    assert d + e == n * e;
    assert (n * e) * (n * e) == n * (n * q);
    assert (e * (n - 1.0)) * (e * (n - 1.0)) == (n - 1.0) * ((n - 1.0) * q);
    var gap := dev + n * q - n * (n * q);
    assert gap == dev + Product(n, Sq(e)) - Sq(d + e);
    assert (n - 1.0) * gap == (n - 1.0) * dev - n * ((n - 1.0) * ((n - 1.0) * q));
    assert Product(n - 1.0, gap) == Product(n - 1.0, dev) - Product(n, Sq(d));
  }

  lemma OthersAgree(n: real, m: real, v: real, w: real, e: real)
    requires n > 1.0 && Product(m, n) == Product(n - 1.0, w) + v && v - m == Product(e, n - 1.0)
    ensures m - e == w
  {
    assert Product(n - 1.0, m - e - w) == 0.0;
  }

  /** The largest multiple of sigma that a value can be away from the mean is at most the multiplier. */
  predicate Masks(n: nat, population: bool, multiplier: real) {
    if population then n as real - 1.0 <= Sq(multiplier)
    else Sq(n as real - 1.0) <= Product(Sq(multiplier), n as real)
  }

  lemma SquaresCompare(x: real, y: real)
    requires y >= 0.0
    ensures Sq(x) <= Sq(y) <==> Abs(x) <= y
  {
    SqIsProduct(x);
    SqIsProduct(y);
    var a := Abs(x);
    assert a * a == x * x;
    assert Product(y - a, y + a) == y * y - a * a;
  }

  /** Distance from the mean against the deviation, rewritten as distance against sigma. */
  lemma DistanceAgainstSigma(values: seq<real>, k: nat, population: bool, multiplier: real, sigma: real)
    requires k < |values| && |values| >= 2 && multiplier >= 0.0
    requires sigma >= 0.0 && Sq(sigma) == Variance(values, population)
    ensures Masks(|values|, population, multiplier) ==> Abs(values[k] - MeanOf(values)) <= Product(multiplier, sigma)
    ensures !Masks(|values|, population, multiplier) && sigma > 0.0
            && (forall i, j :: 0 <= i < j < |values| && i != k && j != k ==> values[i] == values[j])
            ==> Abs(values[k] - MeanOf(values)) > Product(multiplier, sigma)
  {
    var n, d := |values|, values[k] - MeanOf(values);
    var dev := SquaredDeviations(values, MeanOf(values), n);
    VarianceTimesDivisor(values, population);
    hide MeanOf, Product, Sq, Variance;
    Samuelson(values, k);
    SquareOfProduct(multiplier, sigma);
    SquaresCompare(d, Product(multiplier, sigma));
    assert (n - 1) as real == n as real - 1.0;
    MaskingAlgebra(n as real, population, Sq(d), dev, Sq(sigma), Sq(multiplier));
  }

  lemma SquareOfProduct(x: real, y: real)
    requires x >= 0.0 && y >= 0.0
    ensures Product(x, y) >= 0.0 && Sq(Product(x, y)) == Product(Sq(x), Sq(y))
  {
    SqIsProduct(x);
    SqIsProduct(y);
    SqIsProduct(x * y);
    assert (x * y) * (x * y) == (x * x) * (y * y);
  }

  lemma VarianceTimesDivisor(values: seq<real>, population: bool)
    requires |values| >= 2
    ensures Product(Variance(values, population), if population then |values| as real else |values| as real - 1.0)
         == SquaredDeviations(values, MeanOf(values), |values|)
  {
  }

  lemma MaskingAlgebra(n: real, population: bool, d2: real, dev: real, s2: real, m2: real)
    requires n >= 2.0 && s2 >= 0.0 && m2 >= 0.0
    requires Product(s2, if population then n else n - 1.0) == dev
    requires Product(n, d2) <= Product(n - 1.0, dev)
    ensures (if population then n - 1.0 <= m2 else Sq(n - 1.0) <= Product(m2, n)) ==> d2 <= Product(m2, s2)
    ensures !(if population then n - 1.0 <= m2 else Sq(n - 1.0) <= Product(m2, n)) ==>
              s2 > 0.0 && Product(n, d2) == Product(n - 1.0, dev) ==> d2 > Product(m2, s2)
  {
    if population {
      assert Product(n, (n - 1.0) * s2 - d2) == (n - 1.0) * dev - n * d2;
      assert Product(m2 - (n - 1.0), s2) == m2 * s2 - (n - 1.0) * s2;
    } else {
      SqIsProduct(n - 1.0);
      var bound := (n - 1.0) * (n - 1.0);
      assert (n - 1.0) * dev == bound * s2;
      assert Product(m2 * n - bound, s2) == n * (m2 * s2) - bound * s2;
      assert Product(n, m2 * s2 - d2) == n * (m2 * s2) - n * d2;
    }
  }

  /** n - 1 zeros followed by a 1. */
  function Outlier(n: nat): (values: seq<real>)
    requires n >= 1
    ensures |values| == n && values[n - 1] == 1.0 && forall i :: 0 <= i < n - 1 ==> values[i] == 0.0
  {
    seq(n - 1, _ => 0.0) + [1.0]
  }

  /** Masking, exactly: no baseline of n samples lets its newest value violate a control limit if and
      only if n is small for the multiplier. */
  lemma MaskedExactlyWhenSmall(n: nat, population: bool, multiplier: real, sqrt: real -> real)
    requires n >= 2 && multiplier >= 0.0 && IsSquareRoot(sqrt)
    ensures Masks(n, population, multiplier)
       <==> forall values: seq<real>, ts: int :: |values| == n ==>
              NewestViolations(values, ts, population, multiplier, sqrt) == []
  {
    if Masks(n, population, multiplier) {
      forall values: seq<real>, ts: int | |values| == n
        ensures NewestViolations(values, ts, population, multiplier, sqrt) == []
      {
        DistanceAgainstSigma(values, n - 1, population, multiplier, Sigma(values, population, sqrt));
      }
    } else {
      var values := Outlier(n);
      var sigma := Sigma(values, population, sqrt);
      ZeroVarianceIffConstant(values, population);
      assert values[0] != values[n - 1];
      assert sigma != 0.0;
      DistanceAgainstSigma(values, n - 1, population, multiplier, sigma);
      assert NewestViolations(values, 0, population, multiplier, sqrt) != [];
    }
  }

  /** At three sigma no baseline of ten or fewer samples can report a violation, whichever sigma is used, and
      every larger size can. */
  lemma ThreeSigmaNeedsElevenSamples(n: nat, population: bool)
    requires n >= 2
    ensures Masks(n, population, 3.0) <==> n <= 10
  {
    SqIsProduct(3.0);
    SqIsProduct(n as real - 1.0);
    if n >= 11 {
      var g := (n - 11) as real;
      assert n as real - 1.0 == g + 10.0;
      assert (g + 10.0) * (g + 10.0) == g * g + 20.0 * g + 100.0;
      assert g * g == Product(g, g);
    } else {
      assert Product(10.0 - n as real, n as real - 1.0) >= 0.0;
      var x := n as real;
      assert (10.0 - x) * (x - 1.0) == 11.0 * x - x * x - 10.0;
      assert (x - 1.0) * (x - 1.0) == x * x - 2.0 * x + 1.0;
    }
  }

  // ----- what is reported, exactly

  /** The newest value is outside the limits by a margin on either side of the mean exactly when its squared
      distance from the mean is above that of the margin; then it is reported against the limit on its side. */
  predicate Reported(all: seq<Violation>, latest: real, ts: int, mean: real, margin: real, out: bool) {
    if !out then all == []
    else
      latest != mean
      && all == [if latest > mean
                 then Violation(TimeOrNone(ts), None, latest, AboveUcl, UCL, mean + margin, latest - (mean + margin))
                 else Violation(TimeOrNone(ts), None, latest, BelowLcl, LCL, mean - margin, latest - (mean - margin))]
  }

  /** Below the minimum baseline, which is 20 unless it is set, there is not enough data. Otherwise the newest
      value is reported if and only if its squared distance from the mean is above the squared multiplier times
      the variance, and then once: against the upper limit when it is above the mean, and the lower one when it
      is below. */
  lemma ReportedExactly(samples: seq<Sample>, spec: ShewhartSpec, multiplier: real, sqrt: real -> real)
    requires IsSquareRoot(sqrt) && multiplier >= 0.0 && samples != []
    ensures var enough := if spec.minBaselineN == 0 then |samples| >= 20 else |samples| >= spec.minBaselineN;
            var r := ShewhartResult(samples, spec, multiplier, sqrt);
            var values, last := Values(samples), samples[|samples| - 1];
            var mean, variance := MeanOf(values), Variance(values, spec.populationSigma);
            && r.status == (if !enough then InsufficientData else if r.hit then Violated else Fine)
            && (r.hit <==> enough && Sq(last.value - mean) > Product(Sq(multiplier), variance))
            && (r.hit ==> r.severity == High)
            && Reported(r.violations, last.value, last.ts, mean, Product(multiplier, sqrt(variance)), r.hit)
  {
    var values, last := Values(samples), samples[|samples| - 1];
    var variance := Variance(values, spec.populationSigma);
    assert values[|values| - 1] == last.value;
    assert variance >= 0.0;
    MarginReported(values, last.ts, multiplier, sqrt(variance), variance);
    ResultReported(samples, spec, multiplier, sqrt, Sq(last.value - MeanOf(values)) > Product(Sq(multiplier), variance));
  }

  lemma ResultReported(samples: seq<Sample>, spec: ShewhartSpec, multiplier: real, sqrt: real -> real, out: bool)
    requires samples != []
    requires var values, last := Values(samples), samples[|samples| - 1];
             Reported(NewestViolations(values, last.ts, spec.populationSigma, multiplier, sqrt), last.value, last.ts, MeanOf(values),
                      Product(multiplier, sqrt(Variance(values, spec.populationSigma))), out)
    ensures var enough := if spec.minBaselineN == 0 then |samples| >= 20 else |samples| >= spec.minBaselineN;
            var r := ShewhartResult(samples, spec, multiplier, sqrt);
            var values, last := Values(samples), samples[|samples| - 1];
            && r.status == (if !enough then InsufficientData else if r.hit then Violated else Fine)
            && (r.hit <==> enough && out) && (r.hit ==> r.severity == High)
            && Reported(r.violations, last.value, last.ts, MeanOf(values),
                        Product(multiplier, sqrt(Variance(values, spec.populationSigma))), r.hit)
  {
    hide NewestViolations, MeanOf, Variance, Product, Values;
  }

  lemma MarginReported(values: seq<real>, ts: int, multiplier: real, sigma: real, variance: real)
    requires values != [] && multiplier >= 0.0 && sigma >= 0.0 && Sq(sigma) == variance
    ensures Reported(ControlViolations(values, ts, Product(multiplier, sigma)), values[|values| - 1], ts, MeanOf(values),
                     Product(multiplier, sigma),
                     Sq(values[|values| - 1] - MeanOf(values)) > Product(Sq(multiplier), variance))
  {
    SquareOfProduct(multiplier, sigma);
    SquaresCompare(values[|values| - 1] - MeanOf(values), Product(multiplier, sigma));
    LimitsReported(values, ts, Product(multiplier, sigma));
    hide MeanOf, Product, Sq, ControlViolations, Reported;
  }

  lemma LimitsReported(values: seq<real>, ts: int, margin: real)
    requires values != [] && margin >= 0.0
    ensures Reported(ControlViolations(values, ts, margin), values[|values| - 1], ts, MeanOf(values), margin,
                     Abs(values[|values| - 1] - MeanOf(values)) > margin)
  {
    hide MeanOf;
  }

  function Negated(samples: seq<Sample>): (negated: seq<Sample>)
    ensures |negated| == |samples|
  {
    seq(|samples|, i requires 0 <= i < |samples| => samples[i].(value := -samples[i].value))
  }

  lemma {:induction false} NegatedSums(s: seq<real>, t: seq<real>, c: real, n: nat)
    requires |t| == |s| && n <= |s| && forall i :: 0 <= i < |s| ==> t[i] == -s[i]
    ensures Sum(t, n) == -Sum(s, n) && SquaredDeviations(t, -c, n) == SquaredDeviations(s, c, n)
  {
    if n > 0 {
      NegatedSums(s, t, c, n - 1);
      var d := s[n - 1] - c;
      assert t[n - 1] - -c == -d;
      SqIsProduct(d);
      SqIsProduct(-d);
    }
  }

  lemma NegatedMoments(samples: seq<Sample>, population: bool)
    requires samples != []
    ensures MeanOf(Values(Negated(samples))) == -MeanOf(Values(samples))
    ensures Variance(Values(Negated(samples)), population) == Variance(Values(samples), population)
  {
    var s, t, n := Values(samples), Values(Negated(samples)), |samples|;
    NegatedSums(s, t, MeanOf(s), n);
    NegatedQuotient(Sum(s, n), n as real);
  }

  lemma NegatedQuotient(x: real, n: real)
    requires n != 0.0
    ensures -x / n == -(x / n)
  {
  }

  /** Negating every value exchanges the two limits, and changes nothing else in what is reported. */
  lemma NegationExchangesLimits(samples: seq<Sample>, spec: ShewhartSpec, multiplier: real, sqrt: real -> real)
    requires IsSquareRoot(sqrt) && multiplier >= 0.0 && samples != []
    ensures var r := ShewhartResult(samples, spec, multiplier, sqrt);
            var q := ShewhartResult(Negated(samples), spec, multiplier, sqrt);
            && q.hit == r.hit && q.status == r.status && |q.violations| == |r.violations|
            && (r.hit ==>
                  (q.violations[0].reason == BelowLcl <==> r.violations[0].reason == AboveUcl)
                  && q.violations[0].limitValue == -r.violations[0].limitValue
                  && q.violations[0].delta == -r.violations[0].delta)
  {
    var values, last := Values(samples), samples[|samples| - 1];
    ReportedExactly(samples, spec, multiplier, sqrt);
    ReportedExactly(Negated(samples), spec, multiplier, sqrt);
    NegatedMoments(samples, spec.populationSigma);
    var d := last.value - MeanOf(values);
    SqIsProduct(d);
    SqIsProduct(-d);
    assert -last.value - -MeanOf(values) == -d;
    hide Variance, MeanOf, Product, Sq, ShewhartResult, Values;
    assert Negated(samples)[|samples| - 1].value == -last.value;
  }
}
