/** The robust z-score detector: the newest value's distance from the median, in units of the median
    absolute deviation. */
module RobustZ {
  import opened Common
  import opened DetectorTypes
  import opened Medians
  import opened Sums

  const EPSILON := 0.000_000_001
  const NORMAL_SCALE := 0.6745

  /** The score of a distance from the median. */
  function ZScore(distance: real, mad: real): (z: real)
    requires mad != 0.0
    ensures Product(z, mad) == Product(NORMAL_SCALE, distance)
  {
    NORMAL_SCALE * distance / mad
  }

  function Grade(absScore: real, zWarn: real, zCrit: real): Severity {
    if absScore >= zCrit then High else if absScore >= zWarn then Medium else NoSeverity
  }

  /** The result for a median and a deviation; severity NoSeverity is no hit. */
  function Graded(severity: Severity, score: Option<Score>, median: real, mad: real): DetectorResult {
    Verdict(if severity == NoSeverity then Fine else Violated, severity, []).(
      anomalyScore := score, baselineMedian := Some(median), baselineMad := Some(mad))
  }

  /** The verdict on a value at a distance from the median. */
  function VerdictAt(distance: real, median: real, mad: real, zWarn: real, zCrit: real): DetectorResult {
    if mad == 0.0 then
      if Abs(distance) <= EPSILON then Graded(NoSeverity, None, median, mad)
      else Graded(High, Some(PositiveInfinity), median, mad)
    else
      var score := ZScore(distance, mad);
      Graded(Grade(Abs(score), zWarn, zCrit), Some(Finite(score)), median, mad)
  }

  function RobustZResult(samples: seq<real>, latest: real, zWarn: real, zCrit: real): DetectorResult {
    var median := MedianOf(samples);
    VerdictAt(latest - median, median, MadOf(samples, median), zWarn, zCrit)
  }

  method EvaluateRobustZ(samples: seq<real>, latest: real, zWarn: real, zCrit: real) returns (result: DetectorResult)
    ensures result == RobustZResult(samples, latest, zWarn, zCrit)
  {
    hide MedianOf, MadOf, ZScore;
    var median := Median(samples);
    var mad := MAD(samples, median);
    result := Verdict(Fine, NoSeverity, []).(baselineMedian := Some(median), baselineMad := Some(mad));
    if mad == 0.0 {
      if Abs(latest - median) <= EPSILON {
        return;
      }
      result := result.(anomalyScore := Some(PositiveInfinity), hit := true, status := Violated, severity := High);
      return;
    }
    var score := ZScore(latest - median, mad);
    var absScore := Abs(score);
    result := result.(anomalyScore := Some(Finite(score)));
    if absScore >= zCrit {
      result := result.(hit := true, status := Violated, severity := High);
    } else if absScore >= zWarn {
      result := result.(hit := true, status := Violated, severity := Medium);
    }
  }

  /** The verdict, exactly: the scaled distance from the median against the two multiples of the deviation; and
      without deviation, any distance above the smallest counts as critical. */
  lemma GradedExactly(samples: seq<real>, latest: real, zWarn: real, zCrit: real)
    ensures var r := RobustZResult(samples, latest, zWarn, zCrit);
            var median := MedianOf(samples);
            var mad := MadOf(samples, median);
            var distance := Abs(latest - median);
            && r.baselineMedian == Some(median) && r.baselineMad == Some(mad) && r.violations == []
            && (r.hit <==> r.severity != NoSeverity) && r.status == (if r.hit then Violated else Fine)
            && (mad != 0.0 ==>
                  mad > 0.0
                  && (r.severity == High <==> 0.6745 * distance >= zCrit * mad)
                  && (r.severity == Medium <==> 0.6745 * distance < zCrit * mad && 0.6745 * distance >= zWarn * mad)
                  && exists z :: r.anomalyScore == Some(Finite(z)) && z * mad == 0.6745 * (latest - median))
            && (mad == 0.0 ==>
                  (r.severity == High <==> distance > 0.000000001) && r.severity != Medium
                  && r.anomalyScore == if distance > 0.000000001 then Some(PositiveInfinity) else None)
  {
    var median := MedianOf(samples);
    var mad := MadOf(samples, median);
    MadNotNegative(samples, median);
    hide MedianOf, MadOf, VerdictAt;
    if mad == 0.0 {
      WithoutDeviation(latest - median, median, zWarn, zCrit);
    } else {
      WithDeviation(latest - median, median, mad, zWarn, zCrit);
    }
  }

  lemma WithoutDeviation(distance: real, median: real, zWarn: real, zCrit: real)
    ensures var r := VerdictAt(distance, median, 0.0, zWarn, zCrit);
            && r.baselineMedian == Some(median) && r.baselineMad == Some(0.0) && r.violations == []
            && (r.hit <==> r.severity != NoSeverity) && r.status == (if r.hit then Violated else Fine)
            && r.severity != Medium && (r.severity == High <==> Abs(distance) > 0.000000001)
            && r.anomalyScore == if Abs(distance) > 0.000000001 then Some(PositiveInfinity) else None
  {
  }

  lemma WithDeviation(distance: real, median: real, mad: real, zWarn: real, zCrit: real)
    requires mad > 0.0
    ensures var r := VerdictAt(distance, median, mad, zWarn, zCrit);
            && r.baselineMedian == Some(median) && r.baselineMad == Some(mad) && r.violations == []
            && (r.hit <==> r.severity != NoSeverity) && r.status == (if r.hit then Violated else Fine)
            && (r.severity == High <==> 0.6745 * Abs(distance) >= zCrit * mad)
            && (r.severity == Medium <==> 0.6745 * Abs(distance) < zCrit * mad && 0.6745 * Abs(distance) >= zWarn * mad)
            && exists z :: r.anomalyScore == Some(Finite(z)) && z * mad == 0.6745 * distance
  {
    GradedAt(distance, mad, zWarn, zCrit);
    var z := ZScore(distance, mad);
    ProductIsTimes(z, mad);
    ProductIsTimes(NORMAL_SCALE, distance);
    hide ZScore, Product, Grade, Abs;
    assert VerdictAt(distance, median, mad, zWarn, zCrit).anomalyScore == Some(Finite(z));
  }

  lemma MadNotNegative(samples: seq<real>, median: real)
    ensures MadOf(samples, median) >= 0.0
  {
    if samples == [] {
      assert Deviations(samples, median) == [];
    } else {
      MadZeroIffMajority(samples, median);
    }
  }

  lemma GradedAt(distance: real, mad: real, zWarn: real, zCrit: real)
    requires mad > 0.0
    ensures var g := Grade(Abs(ZScore(distance, mad)), zWarn, zCrit);
            && (g == High <==> 0.6745 * Abs(distance) >= zCrit * mad)
            && (g == Medium <==> 0.6745 * Abs(distance) < zCrit * mad && 0.6745 * Abs(distance) >= zWarn * mad)
  {
    var z := Abs(ZScore(distance, mad));
    ScoreOfSize(distance, mad);
    ProductIsTimes(NORMAL_SCALE, Abs(distance));
    hide ZScore;
    AtLeast(z, zCrit, mad);
    AtLeast(z, zWarn, mad);
  }

  lemma AtLeast(z: real, bound: real, mad: real)
    requires mad > 0.0
    ensures z >= bound <==> Product(z, mad) >= bound * mad
  {
    ProductIsTimes(z, mad);
    assert Product(z - bound, mad) == z * mad - bound * mad;
  }

  function Sign(a: real): real {
    if a < 0.0 then -1.0 else 1.0
  }

  lemma ScoreOfAffine(distance: real, mad: real, a: real)
    requires mad != 0.0 && a != 0.0
    ensures Product(Abs(a), mad) != 0.0
    ensures ZScore(Product(a, distance), Product(Abs(a), mad)) == Product(Sign(a), ZScore(distance, mad))
  {
    var z, w := ZScore(distance, mad), Product(Abs(a), mad);
    var z' := ZScore(Product(a, distance), w);
    var s := Product(Sign(a), z);
    assert z' * w == NORMAL_SCALE * (a * distance);
    assert s * w == (Sign(a) * Abs(a)) * (z * mad) by {
      assert w == Abs(a) * mad && s == Sign(a) * z;
    }
    assert Sign(a) * Abs(a) == a;
    assert a * (NORMAL_SCALE * distance) == NORMAL_SCALE * (a * distance);
    assert Product(z' - s, w) == z' * w - s * w;
  }

  lemma DifferenceOfProducts(a: real, x: real, y: real, c: real)
    ensures Product(a, x) + c - (Product(a, y) + c) == Product(a, x - y)
  {
  }

  lemma TurnedScore(a: real, z: real)
    ensures Abs(Product(Sign(a), z)) == Abs(z)
  {
  }

  lemma VerdictOfAffine(distance: real, median: real, mad: real, zWarn: real, zCrit: real, a: real, median': real)
    requires mad != 0.0 && a != 0.0
    ensures var r := VerdictAt(distance, median, mad, zWarn, zCrit);
            var r' := VerdictAt(Product(a, distance), median', Product(Abs(a), mad), zWarn, zCrit);
            && r'.hit == r.hit && r'.severity == r.severity && r'.status == r.status
            && r.anomalyScore.Some? && r.anomalyScore.value.Finite?
            && r'.anomalyScore == Some(Finite(Product(Sign(a), r.anomalyScore.value.value)))
            && r'.baselineMedian == Some(median') && r'.baselineMad == Some(Product(Abs(a), mad))
  {
    ScoreOfAffine(distance, mad, a);
    TurnedScore(a, ZScore(distance, mad));
    hide Product, ZScore, Sign;
  }

  lemma RobustZAt(samples: seq<real>, latest: real, distance: real, zWarn: real, zCrit: real)
    requires distance == latest - MedianOf(samples)
    ensures RobustZResult(samples, latest, zWarn, zCrit)
         == VerdictAt(distance, MedianOf(samples), MadOf(samples, MedianOf(samples)), zWarn, zCrit)
  {
  }

  /** Changing the unit and origin of all the values leaves the verdict and its severity as they were; the
      score keeps its size and turns with the sign of the factor. */
  lemma RobustZEquivariant(samples: seq<real>, latest: real, zWarn: real, zCrit: real, a: real, c: real)
    requires a != 0.0 && samples != []
    ensures MadOf(samples, MedianOf(samples)) != 0.0 ==>
            var r := RobustZResult(samples, latest, zWarn, zCrit);
            var r' := RobustZResult(Affine(samples, a, c), Product(a, latest) + c, zWarn, zCrit);
            && r'.hit == r.hit && r'.severity == r.severity && r'.status == r.status
            && r.anomalyScore.Some? && r.anomalyScore.value.Finite?
            && r'.anomalyScore == Some(Finite(Product(Sign(a), r.anomalyScore.value.value)))
            && r'.baselineMedian == Some(Product(a, MedianOf(samples)) + c)
            && r'.baselineMad == Some(Product(Abs(a), MadOf(samples, MedianOf(samples))))
  {
    hide *;
    var median := MedianOf(samples);
    var mad := MadOf(samples, median);
    MedianEquivariant(samples, a, c);
    MadEquivariant(samples, median, a, c);
    DifferenceOfProducts(a, latest, median, c);
    if mad != 0.0 {
      VerdictOfAffine(latest - median, median, mad, zWarn, zCrit, a, Product(a, median) + c);
    }
    RobustZAt(samples, latest, latest - median, zWarn, zCrit);
    RobustZAt(Affine(samples, a, c), Product(a, latest) + c, Product(a, latest - median), zWarn, zCrit);
  }

  /** However extreme the other samples are: once a strict majority lie in [lo, hi], a value far enough
      outside that range is reported as critical. */
  lemma MinorityCannotHide(samples: seq<real>, latest: real, zWarn: real, zCrit: real, lo: real, hi: real, gap: real)
    requires 2 * CountIn(samples, lo, hi) > |samples|
    requires gap > EPSILON && (latest >= hi + gap || latest <= lo - gap)
    requires zCrit >= 0.0 && Product(NORMAL_SCALE, gap) >= Product(zCrit, hi - lo)
    ensures var r := RobustZResult(samples, latest, zWarn, zCrit);
            r.hit && r.severity == High
  {
    var median := MedianOf(samples);
    var mad := MadOf(samples, median);
    MajorityHoldsMedian(samples, lo, hi);
    MajorityBoundsMad(samples, lo, hi);
    hide MedianOf, MadOf, CountIn, Product, ZScore;
    if mad != 0.0 {
      FarScore(latest - median, mad, gap, hi - lo, zCrit);
    }
  }

  lemma FarScore(distance: real, mad: real, gap: real, width: real, zCrit: real)
    requires 0.0 < mad <= width && Abs(distance) >= gap > 0.0 && zCrit >= 0.0
    requires Product(NORMAL_SCALE, gap) >= Product(zCrit, width)
    ensures Abs(ZScore(distance, mad)) >= zCrit
  {
    var z := Abs(ZScore(distance, mad));
    ScoreOfSize(distance, mad);
    assert Product(zCrit, width - mad) == Product(zCrit, width) - Product(zCrit, mad);
    assert Product(NORMAL_SCALE, Abs(distance)) >= Product(NORMAL_SCALE, gap);
    assert Product(z - zCrit, mad) == Product(z, mad) - Product(zCrit, mad);
  }

  lemma ScoreOfSize(distance: real, mad: real)
    requires mad > 0.0
    ensures Product(Abs(ZScore(distance, mad)), mad) == Product(NORMAL_SCALE, Abs(distance))
  {
    AbsOfProduct(ZScore(distance, mad), mad);
    AbsOfProduct(NORMAL_SCALE, distance);
  }
}
