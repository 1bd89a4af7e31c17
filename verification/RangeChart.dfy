/** The range chart: the range of the newest subgroup against limits derived from the mean of all the
    ranges, the newest included. */
module RangeChart {
  import opened Common
  import opened DetectorTypes
  import opened Stats
  import opened Sums

  const DEFAULT_MIN_SUBGROUPS := 10

  datatype Factors = Factors(d3: real, d4: real)

  function RangeChartConstants(): map<int, Factors> {
    map[
      2 := Factors(0.0, 3.267),
      3 := Factors(0.0, 2.574),
      4 := Factors(0.0, 2.282),
      5 := Factors(0.0, 2.114),
      6 := Factors(0.0, 2.004),
      7 := Factors(0.076, 1.924),
      8 := Factors(0.136, 1.864),
      9 := Factors(0.184, 1.816),
      10 := Factors(0.223, 1.777)]
  }

  /** What the limits rely on in the table; the lower factor is positive from size 7 on. */
  lemma FactorsTable(size: int)
    ensures size in RangeChartConstants() <==> 2 <= size <= 10
    ensures size in RangeChartConstants() ==>
              var f := RangeChartConstants()[size];
              0.0 <= f.d3 < 1.0 < f.d4 < 4.0 && (f.d3 > 0.0 <==> size >= 7)
  {
  }

  // ----- the range of a subgroup

  function RangeOf(values: seq<real>): (r: real)
    ensures r >= 0.0
    ensures r == 0.0 <==> forall v, w :: v in values && w in values ==> v == w
  {
    if values == [] then 0.0 else Largest(values) - Smallest(values)
  }

  /** The range is the largest difference between two of the values. */
  lemma RangeIsWidest(values: seq<real>)
    requires values != []
    ensures forall v, w :: v in values && w in values ==> v - w <= RangeOf(values)
    ensures exists v, w :: v in values && w in values && v - w == RangeOf(values)
  {
    assert Largest(values) in values && Smallest(values) in values;
  }

  /** The loop starts from plus and minus infinity, which None stands for. */
  method SubgroupRange(group: seq<Sample>) returns (range: real)
    ensures range == RangeOf(Values(group))
  {
    var min: Option<real>, max: Option<real> := None, None;
    ghost var values := Values(group);
    for i := 0 to |group|
      invariant min.Some? == max.Some? == (i > 0)
      invariant i > 0 ==> min.value == Smallest(values[..i]) && max.value == Largest(values[..i])
    {
      assert values[..i + 1][..i] == values[..i];
      if min.None? || group[i].value < min.value {
        min := Some(group[i].value);
      }
      if max.None? || group[i].value > max.value {
        max := Some(group[i].value);
      }
    }
    assert values[..|group|] == values;
    if min.None? || max.None? {
      return 0.0;
    }
    return max.value - min.value;
  }

  // ----- the chart

  function MinSubgroups(spec: RangeChartSpec): int {
    if spec.minBaselineSubgroups == 0 then DEFAULT_MIN_SUBGROUPS else spec.minBaselineSubgroups
  }

  function Ranges(groups: seq<seq<Sample>>): (ranges: seq<real>)
    ensures |ranges| == |groups|
    ensures forall i :: 0 <= i < |ranges| ==> ranges[i] >= 0.0
  {
    seq(|groups|, i requires 0 <= i < |groups| => RangeOf(Values(groups[i])))
  }

  lemma RangesAre(groups: seq<seq<Sample>>, i: nat)
    requires i < |groups|
    ensures Ranges(groups)[i] == RangeOf(Values(groups[i]))
  {
  }

  /** The newest range is strictly above factor times the mean of all the ranges. */
  predicate Above(ranges: seq<real>, factor: real)
    requires ranges != []
  {
    ranges[|ranges| - 1] > Product(factor, MeanOf(ranges))
  }

  predicate Below(ranges: seq<real>, factor: real)
    requires ranges != []
  {
    ranges[|ranges| - 1] < Product(factor, MeanOf(ranges))
  }

  function RangeViolations(ranges: seq<real>, factors: Factors, ts: int): seq<Violation>
    requires ranges != []
  {
    var latest, mean := ranges[|ranges| - 1], MeanOf(ranges);
    if Above(ranges, factors.d4) then
      var ucl := Product(factors.d4, mean);
      [Violation(TimeOrNone(ts), None, latest, AboveUclR, RangeLimit, ucl, latest - ucl)]
    else if Below(ranges, factors.d3) then
      var lcl := Product(factors.d3, mean);
      [Violation(TimeOrNone(ts), None, latest, BelowLclR, RangeLimit, lcl, latest - lcl)]
    else []
  }

  /** A chart is drawn when there are enough subgroups and their size has factors. */
  predicate Drawn(groups: seq<seq<Sample>>, spec: RangeChartSpec) {
    groups != [] && |groups| >= MinSubgroups(spec) && spec.subgroupSize in RangeChartConstants()
  }

  method CollectRanges(groups: seq<seq<Sample>>) returns (ranges: seq<real>)
    ensures ranges == Ranges(groups)
  {
    ranges := [];
    for i := 0 to |groups|
      invariant ranges == Ranges(groups)[..i]
    {
      var range := SubgroupRange(groups[i]);
      ranges := ranges + [range];
    }
  }

  method EvaluateRangeChart(groups: seq<seq<Sample>>, spec: RangeChartSpec) returns (result: DetectorResult)
    requires Drawn(groups, spec) ==> groups[|groups| - 1] != []
    ensures result.status == InsufficientData
       <==> groups == [] || |groups| < if spec.minBaselineSubgroups == 0 then 10 else spec.minBaselineSubgroups
    ensures result.status == InvalidConfig
       <==> result.status != InsufficientData && !(2 <= spec.subgroupSize <= 10)
    ensures result.status in {InsufficientData, InvalidConfig} ==> !result.hit && result.violations == []
    ensures Drawn(groups, spec) ==>
              var lastGroup := groups[|groups| - 1];
              result == Found(RangeViolations(Ranges(groups), RangeChartConstants()[spec.subgroupSize],
                                              lastGroup[|lastGroup| - 1].ts))
  {
    hide Product, MeanOf, RangeOf, RangeChartConstants;
    if |groups| == 0 {
      return INSUFFICIENT_DATA;
    }
    var minGroups := spec.minBaselineSubgroups;
    if minGroups == 0 {
      minGroups := DEFAULT_MIN_SUBGROUPS;
    }
    if |groups| < minGroups {
      return INSUFFICIENT_DATA;
    }
    FactorsTable(spec.subgroupSize);
    if spec.subgroupSize !in RangeChartConstants() {
      return INVALID_CONFIG;
    }
    var consts := RangeChartConstants()[spec.subgroupSize];
    var ranges := CollectRanges(groups);
    var lastGroup := groups[|groups| - 1];
    var lastSample := lastGroup[|lastGroup| - 1];
    result := CompareNewest(ranges, consts, lastSample.ts);
  }

  /** The second half of the evaluation: the newest range against the two limits. */
  method CompareNewest(ranges: seq<real>, consts: Factors, ts: int) returns (result: DetectorResult)
    requires ranges != [] && NonNegative(ranges) && consts.d3 <= consts.d4
    ensures result == Found(RangeViolations(ranges, consts, ts))
  {
    hide Product, MeanOf;
    NeverAboveAndBelow(ranges, consts.d3, consts.d4);
    var avg := Mean(ranges);
    var ucl, lcl := consts.d4 * avg, consts.d3 * avg;
    ProductIsTimes(consts.d4, avg);
    ProductIsTimes(consts.d3, avg);
    assert ucl == Product(consts.d4, MeanOf(ranges)) && lcl == Product(consts.d3, MeanOf(ranges));
    var latestRange := ranges[|ranges| - 1];
    result := Verdict(Fine, High, []);
    if latestRange > ucl || latestRange < lcl {
      var reason, limit := AboveUclR, ucl;
      if latestRange < lcl {
        reason, limit := BelowLclR, lcl;
      }
      result := result.(hit := true, status := Violated, violations :=
        [Violation(TimeOrNone(ts), None, latestRange, reason, RangeLimit, limit, latestRange - limit)]);
    }
    assert result.violations == RangeViolations(ranges, consts, ts);
  }

  // ----- what the chart can and cannot report

  predicate NonNegative(s: seq<real>) {
    forall i :: 0 <= i < |s| ==> s[i] >= 0.0
  }

  lemma {:induction false} TermsWithinSum(s: seq<real>, n: nat, k: nat)
    requires NonNegative(s) && n <= |s|
    ensures Sum(s, n) >= 0.0
    ensures k < n ==> s[k] <= Sum(s, n)
    ensures k < n && Sum(s, n) == s[k] ==> forall i :: 0 <= i < n && i != k ==> s[i] == 0.0
  {
    if n > 0 {
      TermsWithinSum(s, n - 1, if k < n - 1 then k else 0);
      if n >= 2 {
        TermsWithinSum(s, n - 1, 0);
      }
    }
  }

  lemma MeanNonNegative(s: seq<real>)
    requires NonNegative(s) && s != []
    ensures MeanOf(s) >= 0.0
  {
    TermsWithinSum(s, |s|, 0);
    DivideSign(Sum(s, |s|), |s| as real);
  }

  lemma NeverAboveAndBelow(ranges: seq<real>, d3: real, d4: real)
    requires NonNegative(ranges) && ranges != [] && d3 <= d4
    ensures !(Above(ranges, d4) && Below(ranges, d3))
  {
    MeanNonNegative(ranges);
    assert Product(d4 - d3, MeanOf(ranges)) == Product(d4, MeanOf(ranges)) - Product(d3, MeanOf(ranges));
  }

  /** The newest range is part of the mean it is compared with. */
  lemma NewestWithinMean(ranges: seq<real>)
    requires NonNegative(ranges) && ranges != []
    ensures ranges[|ranges| - 1] <= Product(|ranges| as real, MeanOf(ranges))
  {
    MeanTimesLength(ranges);
    TermsWithinSum(ranges, |ranges|, |ranges| - 1);
  }

  // ----- what some subgroups do report

  /** Subgroups of this many samples each. */
  predicate Sized(groups: seq<seq<Sample>>, m: nat, size: nat) {
    |groups| == m && forall i :: 0 <= i < m ==> |groups[i]| == size
  }

  /** A subgroup of samples with this range: one of them at it and the others at 0. */
  function Spread(size: nat, range: real): (group: seq<Sample>)
    requires size >= 2
    ensures |group| == size
  {
    seq(size - 1, _ => Sample(0, 0.0, "")) + [Sample(0, range, "")]
  }

  lemma RangeOfSpread(size: nat, range: real)
    requires size >= 2 && range >= 0.0
    ensures RangeOf(Values(Spread(size, range))) == range
  {
    var values := Values(Spread(size, range));
    assert values[0] == 0.0 && values[size - 1] == range;
    assert forall v :: v in values ==> v == 0.0 || v == range;
  }

  /** m - 1 subgroups with one range and a newest one with another. */
  function Unlike(m: nat, size: nat, others: real, newest: real): (groups: seq<seq<Sample>>)
    requires m >= 1 && size >= 2
    ensures Sized(groups, m, size)
  {
    seq(m - 1, _ => Spread(size, others)) + [Spread(size, newest)]
  }

  function TwoRanges(m: nat, others: real, newest: real): (ranges: seq<real>)
    requires m >= 1
    ensures |ranges| == m && ranges[m - 1] == newest && forall i :: 0 <= i < m - 1 ==> ranges[i] == others
  {
    seq(m - 1, _ => others) + [newest]
  }

  lemma RangesOfUnlike(m: nat, size: nat, others: real, newest: real)
    requires m >= 1 && size >= 2 && others >= 0.0 && newest >= 0.0
    ensures Ranges(Unlike(m, size, others, newest)) == TwoRanges(m, others, newest)
  {
    RangeOfSpread(size, others);
    RangeOfSpread(size, newest);
    hide RangeOf, Values, Spread;
  }

  lemma MeanOfTwoRanges(m: nat, others: real, newest: real)
    requires m >= 1
    ensures var ranges := TwoRanges(m, others, newest);
            Product(MeanOf(ranges), m as real) == (m - 1) as real * others + newest
  {
    var ranges := TwoRanges(m, others, newest);
    MeanTimesLength(ranges);
    ConstantSum(ranges, others, m - 1);
  }

  /** Masking on the range chart, exactly: m subgroups can put the range of the newest one above the upper
      limit if and only if m exceeds the upper factor. */
  lemma AboveExactlyWhenEnough(m: nat, size: nat, factor: real)
    requires m >= 1 && size >= 2 && factor >= 0.0
    ensures (exists groups :: Sized(groups, m, size) && Above(Ranges(groups), factor)) <==> m as real > factor
  {
    hide Ranges, MeanOf, Unlike, TwoRanges;
    if m as real > factor {
      var ranges := TwoRanges(m, 0.0, 1.0);
      RangesOfUnlike(m, size, 0.0, 1.0);
      MeanOfTwoRanges(m, 0.0, 1.0);
      OneIsAbove(MeanOf(ranges), m as real, factor);
      assert Above(Ranges(Unlike(m, size, 0.0, 1.0)), factor);
    } else {
      forall groups | Sized(groups, m, size) ensures !Above(Ranges(groups), factor) {
        var ranges := Ranges(groups);
        NewestWithinMean(ranges);
        MeanNonNegative(ranges);
        FactorsCompare(m as real, factor, MeanOf(ranges));
      }
    }
  }

  lemma OneIsAbove(mean: real, m: real, factor: real)
    requires Product(mean, m) == 1.0 && m > factor && m > 0.0
    ensures Product(factor, mean) < 1.0
  {
    assert mean > 0.0;
    assert Product(m - factor, mean) == Product(mean, m) - Product(factor, mean);
  }

  lemma FactorsCompare(m: real, factor: real, mean: real)
    requires m <= factor && mean >= 0.0
    ensures Product(m, mean) <= Product(factor, mean)
  {
    assert Product(factor - m, mean) == Product(factor, mean) - Product(m, mean);
  }

  /** Below the lower limit, exactly: it takes a lower factor above 0, which no subgroup of six or fewer
      samples has, and a second subgroup. */
  lemma BelowExactlyWhenFactor(m: nat, size: nat)
    requires m >= 1 && size in RangeChartConstants()
    ensures (exists groups :: Sized(groups, m, size) && Below(Ranges(groups), RangeChartConstants()[size].d3))
       <==> m >= 2 && size >= 7
  {
    FactorsTable(size);
    hide Ranges, MeanOf, Unlike, TwoRanges;
    var factor := RangeChartConstants()[size].d3;
    if m >= 2 && size >= 7 {
      var ranges := TwoRanges(m, 1.0, 0.0);
      RangesOfUnlike(m, size, 1.0, 0.0);
      MeanOfTwoRanges(m, 1.0, 0.0);
      assert MeanOf(ranges) > 0.0;
      assert Below(Ranges(Unlike(m, size, 1.0, 0.0)), factor);
    } else {
      forall groups | Sized(groups, m, size) ensures !Below(Ranges(groups), factor) {
        var ranges := Ranges(groups);
        MeanNonNegative(ranges);
        if m == 1 {
          EqualRangesMean(ranges, ranges[0]);
          ProductAtMost(factor, ranges[0]);
        }
      }
    }
  }

  lemma ProductAtMost(factor: real, x: real)
    requires 0.0 <= factor <= 1.0 && x >= 0.0
    ensures Product(factor, x) <= x
  {
    assert Product(1.0 - factor, x) == x - Product(factor, x);
  }

  lemma EqualRangesMean(ranges: seq<real>, r: real)
    requires ranges != [] && forall i :: 0 <= i < |ranges| ==> ranges[i] == r
    ensures MeanOf(ranges) == r
  {
    ConstantSum(ranges, r, |ranges|);
    CancelFactor(|ranges| as real, r);
  }

  /** Equal ranges never violate either limit. */
  lemma EqualRangesNeverViolate(ranges: seq<real>, size: int, ts: int)
    requires ranges != [] && NonNegative(ranges) && size in RangeChartConstants()
    requires forall i :: 0 <= i < |ranges| ==> ranges[i] == ranges[0]
    ensures RangeViolations(ranges, RangeChartConstants()[size], ts) == []
  {
    var f, r := RangeChartConstants()[size], ranges[0];
    FactorsTable(size);
    EqualRangesMean(ranges, r);
    ProductAtMost(f.d3, r);
    assert Product(f.d4 - 1.0, r) == Product(f.d4, r) - r;
  }

  // ----- what is reported, exactly

  /** The newest range is reported, once, if and only if m times it is above the upper factor times the sum of all
      m ranges, or below the lower factor times it. */
  lemma RangeReportedExactly(ranges: seq<real>, factors: Factors, ts: int)
    requires ranges != [] && NonNegative(ranges) && factors.d3 <= factors.d4
    ensures var m, newest, sum := |ranges| as real, ranges[|ranges| - 1], Sum(ranges, |ranges|);
            var r := Found(RangeViolations(ranges, factors, ts));
            && (r.hit <==> newest * m > factors.d4 * sum || newest * m < factors.d3 * sum)
            && r.status == (if r.hit then Violated else Fine) && |r.violations| == (if r.hit then 1 else 0)
            && (r.hit ==>
                  var v := r.violations[0];
                  && v.value == newest && v.timestamp == TimeOrNone(ts) && v.limitName == RangeLimit
                  && v.delta == newest - v.limitValue
                  && (v.reason == AboveUclR <==> newest * m > factors.d4 * sum)
                  && (v.reason == BelowLclR <==> newest * m < factors.d3 * sum)
                  && v.limitValue * m == (if v.reason == AboveUclR then factors.d4 else factors.d3) * sum)
  {
    var m, newest, sum, mean := |ranges| as real, ranges[|ranges| - 1], Sum(ranges, |ranges|), MeanOf(ranges);
    MeanTimesLength(ranges);
    LimitTimesLength(factors.d4, mean, m, newest, sum);
    LimitTimesLength(factors.d3, mean, m, newest, sum);
    NeverAboveAndBelow(ranges, factors.d3, factors.d4);
    hide Product, MeanOf, Sum;
  }

  lemma LimitTimesLength(factor: real, mean: real, m: real, newest: real, sum: real)
    requires m > 0.0 && Product(mean, m) == sum
    ensures newest > Product(factor, mean) <==> newest * m > factor * sum
    ensures newest < Product(factor, mean) <==> newest * m < factor * sum
    ensures Product(factor, mean) * m == factor * sum
  {
    var limit := Product(factor, mean);
    assert limit * m == factor * (mean * m);
    assert Product(newest - limit, m) == newest * m - limit * m;
  }

  /** With the factors of the table: it takes four subgroups of two samples, three of three to six, and two of
      seven or more before a newest range can be above its limit. */
  lemma SubgroupsNeededForAbove(m: nat, size: nat)
    requires m >= 1 && size in RangeChartConstants()
    ensures (exists groups :: Sized(groups, m, size) && Above(Ranges(groups), RangeChartConstants()[size].d4))
       <==> m >= if size == 2 then 4 else if size <= 6 then 3 else 2
  {
    UpperFactors(size);
    hide RangeChartConstants, Above, Ranges;
    AboveExactlyWhenEnough(m, size, RangeChartConstants()[size].d4);
  }

  lemma UpperFactors(size: int)
    requires size in RangeChartConstants()
    ensures 2 <= size <= 10
    ensures var d4 := RangeChartConstants()[size].d4;
            if size == 2 then 3.0 < d4 < 4.0 else if size <= 6 then 2.0 < d4 < 3.0 else 1.0 < d4 < 2.0
  {
  }
}
