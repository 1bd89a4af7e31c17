/** Samples, detector settings and detector results. */
module DetectorTypes {
  import opened Common

  datatype Sample = Sample(ts: int, value: real, subgroup: string)

  function Values(samples: seq<Sample>): (values: seq<real>)
    ensures |values| == |samples| && forall i :: 0 <= i < |samples| ==> values[i] == samples[i].value
  {
    seq(|samples|, i requires 0 <= i < |samples| => samples[i].value)
  }

  // ----- results

  datatype Status = Unset | Fine | Violated | InsufficientData | InvalidConfig

  datatype Severity = NoSeverity | Medium | High

  datatype Reason =
    | LimitBreach
    | MeanShift
    | AboveUcl
    | BelowLcl
    | Increasing
    | Decreasing
    | AboveUclR
    | BelowLclR
    | SlopeThreshold
    | TimeToSpec

  datatype LimitName = USL | LSL | UCL | LCL | MeanLimit | TrendLimit | RangeLimit | SlopeLimit | TimeToSpecLimit

  datatype Violation = Violation(
    timestamp: Option<int>,
    index: Option<int>,
    value: real,
    reason: Reason,
    limitName: LimitName,
    limitValue: real,
    delta: real)

  /** A z-score is infinite when the spread of the samples is 0 and the value is off their median. */
  datatype Score = Finite(value: real) | PositiveInfinity

  datatype DetectorResult = DetectorResult(
    hit: bool,
    status: Status,
    severity: Severity,
    violations: seq<Violation>,
    windowStart: Option<int>,
    windowEnd: Option<int>,
    anomalyScore: Option<Score>,
    baselineMedian: Option<real>,
    baselineMad: Option<real>)

  function Verdict(status: Status, severity: Severity, violations: seq<Violation>): DetectorResult {
    DetectorResult(status == Violated, status, severity, violations, None, None, None, None, None)
  }

  /** The result of a detector that looked and found exactly these violations. */
  function Found(violations: seq<Violation>): DetectorResult {
    Verdict(if violations == [] then Fine else Violated, High, violations)
  }

  const INVALID_CONFIG := Verdict(InvalidConfig, NoSeverity, [])
  const INSUFFICIENT_DATA := Verdict(InsufficientData, NoSeverity, [])
  const NO_HIT := Verdict(Unset, NoSeverity, [])

  function TimeOrNone(ts: int): Option<int> {
    if ts == ZERO_TIME then None else Some(ts)
  }

  // ----- settings

  datatype Bounds = Bounds(upper: Option<real>, lower: Option<real>)

  datatype TimeRange = TimeRange(start: string, end: string)

  datatype Baseline = Baseline(lastN: Option<int>, timeRange: Option<TimeRange>)

  datatype SpecLimitSpec = SpecLimitSpec(
    specLimits: Option<Bounds>,
    controlLimits: Option<Bounds>,
    mode: string,
    epsilon: Option<real>)

  datatype ShewhartSpec = ShewhartSpec(
    baseline: Baseline,
    sigmaMultiplier: real,
    minBaselineN: int,
    populationSigma: bool)

  datatype RangeChartSpec = RangeChartSpec(
    subgroupSize: int,
    subgroupMode: string,
    subgroupColumn: string,
    baseline: Baseline,
    minBaselineSubgroups: int)

  datatype TrendSpec = TrendSpec(windowSize: int, epsilon: real, requireConsecutiveTimestamps: bool)

  datatype TpaSpec = TpaSpec(
    windowN: int,
    basis: string,
    slopeThreshold: Option<real>,
    timeToSpecThreshold: Option<real>,
    requireSpecLimits: bool,
    specLimits: Option<Bounds>,
    epsilon: real)
}
