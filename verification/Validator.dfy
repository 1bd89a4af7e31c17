/** The rule service's validation of detector settings, and what the scheduler's evaluators can rely on
    once it has accepted them. */
module Validator {
  import opened Common
  import opened DetectorTypes
  import RangeChart
  import Samples
  import Shewhart
  import SpecLimit
  import Stats
  import Tpa
  import Trend

  datatype ThresholdSpec = ThresholdSpec(op: string, min: Option<real>, max: Option<real>)

  datatype RobustZSpec = RobustZSpec(
    baselineWindowSeconds: int, evalWindowSeconds: int, zWarn: real, zCrit: real, minSamples: int)

  datatype MissingDataSpec = MissingDataSpec(maxGapSeconds: int)

  datatype Detector = Detector(
    kind: string,
    threshold: Option<ThresholdSpec>,
    robustZ: Option<RobustZSpec>,
    missingData: Option<MissingDataSpec>,
    specLimit: Option<SpecLimitSpec>,
    shewhart: Option<ShewhartSpec>,
    rangeChart: Option<RangeChartSpec>,
    trend: Option<TrendSpec>,
    tpa: Option<TpaSpec>)

  datatype Problem = Missing | InvalidValue | TooSmall | InvalidBetweenRange | Unsupported

  /** The first problem that is found, with the part of the settings it is in. */
  datatype ErrorDetail = ErrorDetail(field: string, problem: Problem)

  function ValidateBaseline(baseline: Baseline): Option<ErrorDetail> {
    if baseline.lastN.Some? && baseline.timeRange.Some? then Some(ErrorDetail("baseline", InvalidValue))
    else if baseline.lastN.None? && baseline.timeRange.None? then Some(ErrorDetail("baseline", Missing))
    else if baseline.lastN.Some? && baseline.lastN.value <= 0 then Some(ErrorDetail("baseline.lastN", InvalidValue))
    else if baseline.timeRange.Some? && (baseline.timeRange.value.start == "" || baseline.timeRange.value.end == "") then
      Some(ErrorDetail("baseline.timeRange", InvalidValue))
    else None
  }

  function ValidateThreshold(spec: ThresholdSpec): Option<ErrorDetail> {
    if spec.op == "between" then
      if spec.min.None? || spec.max.None? || spec.min.value >= spec.max.value then
        Some(ErrorDetail("threshold", InvalidBetweenRange))
      else None
    else if spec.op == "" then Some(ErrorDetail("threshold", Missing))
    else None
  }

  function ValidateRobustZ(spec: RobustZSpec): Option<ErrorDetail> {
    if spec.baselineWindowSeconds < spec.evalWindowSeconds then
      Some(ErrorDetail("robustZ.baselineWindowSeconds", InvalidValue))
    else if spec.minSamples < 20 then Some(ErrorDetail("robustZ.minSamples", TooSmall))
    else None
  }

  function ValidateSpecLimit(spec: SpecLimitSpec): Option<ErrorDetail> {
    var mode := if spec.mode == "" then "spec" else spec.mode;
    if mode != "spec" && mode != "control" && mode != "both" then Some(ErrorDetail("specLimit.mode", InvalidValue))
    else if (mode == "spec" || mode == "both")
            && (spec.specLimits.None? || (spec.specLimits.value.upper.None? && spec.specLimits.value.lower.None?)) then
      Some(ErrorDetail("specLimit.specLimits", Missing))
    else if (mode == "control" || mode == "both")
            && (spec.controlLimits.None? || (spec.controlLimits.value.upper.None? && spec.controlLimits.value.lower.None?)) then
      Some(ErrorDetail("specLimit.controlLimits", Missing))
    else None
  }

  function ValidateShewhart(spec: ShewhartSpec): Option<ErrorDetail> {
    var baseline := ValidateBaseline(spec.baseline);
    if baseline.Some? then baseline
    else if spec.sigmaMultiplier != 0.0 && (spec.sigmaMultiplier < 2.0 || spec.sigmaMultiplier > 3.0) then
      Some(ErrorDetail("shewhart.sigmaMultiplier", InvalidValue))
    else if spec.minBaselineN < 0 then Some(ErrorDetail("shewhart.minBaselineN", InvalidValue))
    else None
  }

  predicate IsSupportedRangeChartSize(size: int) {
    2 <= size <= 10
  }

  function ValidateRangeChart(spec: RangeChartSpec): Option<ErrorDetail> {
    if !IsSupportedRangeChartSize(spec.subgroupSize) then Some(ErrorDetail("rangeChart.subgroupSize", InvalidValue))
    else
      var baseline := ValidateBaseline(spec.baseline);
      var mode := if spec.subgroupMode == "" then "consecutive" else spec.subgroupMode;
      if baseline.Some? then baseline
      else if mode != "consecutive" && mode != "column" then
        Some(ErrorDetail("rangeChart.subgrouping.mode", InvalidValue))
      else if mode == "column" && spec.subgroupColumn == "" then
        Some(ErrorDetail("rangeChart.subgrouping.column", Missing))
      else None
  }

  function ValidateTrend(spec: TrendSpec): Option<ErrorDetail> {
    if spec.windowSize < 2 then Some(ErrorDetail("trend.windowSize", InvalidValue))
    else if spec.epsilon < 0.0 then Some(ErrorDetail("trend.epsilon", InvalidValue))
    else None
  }

  function ValidateTpa(spec: TpaSpec): Option<ErrorDetail> {
    if spec.windowN < 3 then Some(ErrorDetail("tpa.windowN", InvalidValue))
    else if spec.basis != "" && spec.basis != "index" && spec.basis != "timestamp" then
      Some(ErrorDetail("tpa.regressionTimeBasis", InvalidValue))
    else if spec.requireSpecLimits && spec.specLimits.None? then Some(ErrorDetail("tpa.specLimits", Missing))
    else if spec.slopeThreshold.None? && spec.timeToSpecThreshold.None? then Some(ErrorDetail("tpa", InvalidValue))
    else None
  }

  function Required<T>(settings: Option<T>, name: string, validate: T -> Option<ErrorDetail>): Option<ErrorDetail> {
    if settings.None? then Some(ErrorDetail(name, Missing)) else validate(settings.value)
  }

  function ValidateDetector(detector: Detector, pollInterval: int): Option<ErrorDetail> {
    match detector.kind
    case "threshold" => Required(detector.threshold, "threshold", ValidateThreshold)
    case "robust_zscore" => Required(detector.robustZ, "robustZ", ValidateRobustZ)
    case "missing_data" =>
      if detector.missingData.None? then Some(ErrorDetail("missingData", Missing))
      else if detector.missingData.value.maxGapSeconds < pollInterval then
        Some(ErrorDetail("missingData.maxGapSeconds", TooSmall))
      else None
    case "spec_limit" => Required(detector.specLimit, "specLimit", ValidateSpecLimit)
    case "shewhart" => Required(detector.shewhart, "shewhart", ValidateShewhart)
    case "range_chart" => Required(detector.rangeChart, "rangeChart", ValidateRangeChart)
    case "trend" => Required(detector.trend, "trend", ValidateTrend)
    case "tpa" => Required(detector.tpa, "tpa", ValidateTpa)
    case _ => Some(ErrorDetail("type", Unsupported))
  }

  // ----- what an accepted detector is good for

  predicate SampleBased(kind: string) {
    kind in ["spec_limit", "shewhart", "range_chart", "trend", "tpa"]
  }

  /** The one case in which accepted settings still lead to INVALID_CONFIG: a TPA by timestamp whose
      whole window lies in one Unix second. */
  predicate WindowInOneSecond(samples: seq<Sample>, spec: TpaSpec) {
    && 3 <= spec.windowN <= |samples|
    && Tpa.Basis(spec) == "timestamp"
    && var window := Tpa.NewestWindow(samples, spec.windowN);
       forall i, j :: 0 <= i < j < |window| ==> UnixSeconds(window[i].ts) == UnixSeconds(window[j].ts)
  }

  /** Runs the evaluator of an accepted detector on the fetched samples: the calls below have no other
      conditions than acceptance, so none of them can index out of bounds, and the configuration is never
      found wanting but in the one case. */
  method EvaluateAccepted(detector: Detector, pollInterval: int, samples: seq<Sample>, sqrt: real -> real)
    returns (results: seq<DetectorResult>)
    requires Stats.IsSquareRoot(sqrt)
    requires SampleBased(detector.kind) && ValidateDetector(detector, pollInterval).None?
    ensures detector.kind == "spec_limit" ==>
              forall s :: s in samples ==> SpecLimit.SpecLimitResult(s, detector.specLimit.value).status != InvalidConfig
    ensures detector.kind != "spec_limit" ==> |results| == 1
    ensures (exists r :: r in results && r.status == InvalidConfig)
       <==> detector.kind == "tpa" && WindowInOneSecond(samples, detector.tpa.value)
  {
    var result;
    if detector.kind == "spec_limit" {
      AcceptedSpecLimit(detector.specLimit.value);
      results := SpecLimit.EvaluateRows(samples, detector.specLimit.value);
      return;
    } else if detector.kind == "shewhart" {
      var spec := detector.shewhart.value;
      var sigma := spec.sigmaMultiplier;
      if sigma == 0.0 {
        sigma := 3.0;
      }
      result := Shewhart.EvaluateShewhart(samples, spec, sigma, sqrt);
    } else if detector.kind == "range_chart" {
      result := ChartSubgroups(detector.rangeChart.value, samples);
    } else if detector.kind == "trend" {
      result := Trend.EvaluateTrend6(samples, detector.trend.value);
    } else {
      AcceptedTpa(detector.tpa.value, samples);
      result := Tpa.EvaluateTPA(samples, detector.tpa.value);
    }
    results := [result];
    assert result in results;
  }

  /** The range_chart case of the scheduler: subgroups by column or by position, then the chart. */
  method ChartSubgroups(spec: RangeChartSpec, samples: seq<Sample>) returns (result: DetectorResult)
    requires ValidateRangeChart(spec).None?
    ensures result.status != InvalidConfig
  {
    var size := spec.subgroupSize;
    var groups;
    if spec.subgroupMode == "column" && spec.subgroupColumn != "" {
      groups := Samples.GroupBySubgroup(samples, size);
      Samples.GroupsByKeyExactly(samples, size, []);
    } else {
      groups := Samples.GroupConsecutive(samples, size);
    }
    assert forall g :: g in groups ==> |g| == size;
    assert groups != [] ==> groups[|groups| - 1] in groups;
    RangeChart.FactorsTable(size);
    result := RangeChart.EvaluateRangeChart(groups, spec);
  }

  lemma AcceptedSpecLimit(spec: SpecLimitSpec)
    requires ValidateSpecLimit(spec).None?
    ensures SpecLimit.Configured(spec)
  {
  }

  lemma AcceptedTpa(spec: TpaSpec, samples: seq<Sample>)
    requires ValidateTpa(spec).None?
    ensures Tpa.TpaResult(samples, spec).status == InvalidConfig <==> WindowInOneSecond(samples, spec)
  {
    if |samples| >= spec.windowN {
      Tpa.RegressionOverWindow(Tpa.NewestWindow(samples, spec.windowN), Tpa.Basis(spec));
    }
  }

  /** The case does occur, with settings that are accepted. */
  lemma OneSecondWindowFails()
    ensures exists spec, samples :: ValidateTpa(spec).None? && Tpa.TpaResult(samples, spec).status == InvalidConfig
  {
    var spec := TpaSpec(3, "", Some(0.0), None, false, None, 0.0);
    var s := Sample(0, 1.0, "");
    var samples := [s, s, s];
    AcceptedTpa(spec, samples);
    assert Tpa.NewestWindow(samples, 3) == samples;
    assert WindowInOneSecond(samples, spec);
  }

  // ----- what is accepted, exactly

  /** Either a number of samples or a range of times, and a sound one. */
  predicate SoundBaseline(b: Baseline) {
    || (b.lastN.Some? && b.lastN.value >= 1 && b.timeRange.None?)
    || (b.lastN.None? && b.timeRange.Some? && b.timeRange.value.start != "" && b.timeRange.value.end != "")
  }

  predicate SomeBound(bounds: Option<Bounds>) {
    bounds.Some? && (bounds.value.upper.Some? || bounds.value.lower.Some?)
  }

  predicate SoundThreshold(spec: ThresholdSpec) {
    if spec.op == "between" then spec.min.Some? && spec.max.Some? && spec.min.value < spec.max.value else spec.op != ""
  }

  predicate SoundRobustZ(spec: RobustZSpec) {
    spec.minSamples >= 20 && spec.baselineWindowSeconds >= spec.evalWindowSeconds
  }

  predicate SoundSpecLimit(spec: SpecLimitSpec) {
    || (spec.mode in ["", "spec"] && SomeBound(spec.specLimits))
    || (spec.mode == "control" && SomeBound(spec.controlLimits))
    || (spec.mode == "both" && SomeBound(spec.specLimits) && SomeBound(spec.controlLimits))
  }

  predicate SoundShewhart(spec: ShewhartSpec) {
    SoundBaseline(spec.baseline) && spec.minBaselineN >= 0
    && (spec.sigmaMultiplier == 0.0 || 2.0 <= spec.sigmaMultiplier <= 3.0)
  }

  predicate SoundRangeChart(spec: RangeChartSpec) {
    2 <= spec.subgroupSize <= 10 && SoundBaseline(spec.baseline)
    && (spec.subgroupMode in ["", "consecutive"] || (spec.subgroupMode == "column" && spec.subgroupColumn != ""))
  }

  predicate SoundTpa(spec: TpaSpec) {
    spec.windowN >= 3 && spec.basis in ["", "index", "timestamp"] && (spec.requireSpecLimits ==> spec.specLimits.Some?)
    && (spec.slopeThreshold.Some? || spec.timeToSpecThreshold.Some?)
  }

  lemma BaselineAccepted(b: Baseline)
    ensures ValidateBaseline(b).None? <==> SoundBaseline(b)
  {
  }

  lemma ThresholdAccepted(spec: ThresholdSpec)
    ensures ValidateThreshold(spec).None? <==> SoundThreshold(spec)
  {
  }

  lemma SpecLimitAccepted(spec: SpecLimitSpec)
    ensures ValidateSpecLimit(spec).None? <==> SoundSpecLimit(spec)
  {
  }

  lemma ShewhartAccepted(spec: ShewhartSpec)
    ensures ValidateShewhart(spec).None? <==> SoundShewhart(spec)
  {
    BaselineAccepted(spec.baseline);
  }

  lemma RangeChartAccepted(spec: RangeChartSpec)
    ensures ValidateRangeChart(spec).None? <==> SoundRangeChart(spec)
  {
    BaselineAccepted(spec.baseline);
    hide ValidateBaseline, SoundBaseline;
  }

  lemma TpaAccepted(spec: TpaSpec)
    ensures ValidateTpa(spec).None? <==> SoundTpa(spec)
  {
  }

  /** Exactly these settings are let through, of each of the eight detectors, and no other detector. */
  lemma AcceptedExactly(d: Detector, pollInterval: int)
    ensures ValidateDetector(d, pollInterval).None? <==>
              match d.kind
              case "threshold" => d.threshold.Some? && SoundThreshold(d.threshold.value)
              case "robust_zscore" => d.robustZ.Some? && SoundRobustZ(d.robustZ.value)
              case "missing_data" => d.missingData.Some? && d.missingData.value.maxGapSeconds >= pollInterval
              case "spec_limit" => d.specLimit.Some? && SoundSpecLimit(d.specLimit.value)
              case "shewhart" => d.shewhart.Some? && SoundShewhart(d.shewhart.value)
              case "range_chart" => d.rangeChart.Some? && SoundRangeChart(d.rangeChart.value)
              case "trend" => d.trend.Some? && d.trend.value.windowSize >= 2 && d.trend.value.epsilon >= 0.0
              case "tpa" => d.tpa.Some? && SoundTpa(d.tpa.value)
              case _ => false
  {
    hide *;
    match d.kind
    case "threshold" => ThresholdKind(d, pollInterval);
    case "robust_zscore" => RobustZKind(d, pollInterval);
    case "missing_data" => MissingDataKind(d, pollInterval);
    case "spec_limit" => SpecLimitKind(d, pollInterval);
    case "shewhart" => ShewhartKind(d, pollInterval);
    case "range_chart" => RangeChartKind(d, pollInterval);
    case "trend" => TrendKind(d, pollInterval);
    case "tpa" => TpaKind(d, pollInterval);
    case _ => NoOtherKind(d, pollInterval);
  }

  lemma ThresholdKind(d: Detector, pollInterval: int)
    requires d.kind == "threshold"
    ensures ValidateDetector(d, pollInterval).None? <==> d.threshold.Some? && SoundThreshold(d.threshold.value)
  {
    if d.threshold.Some? { ThresholdAccepted(d.threshold.value); }
    hide ValidateThreshold, SoundThreshold;
  }

  lemma RobustZKind(d: Detector, pollInterval: int)
    requires d.kind == "robust_zscore"
    ensures ValidateDetector(d, pollInterval).None? <==> d.robustZ.Some? && SoundRobustZ(d.robustZ.value)
  {
  }

  lemma MissingDataKind(d: Detector, pollInterval: int)
    requires d.kind == "missing_data"
    ensures ValidateDetector(d, pollInterval).None? <==> d.missingData.Some? && d.missingData.value.maxGapSeconds >= pollInterval
  {
  }

  lemma SpecLimitKind(d: Detector, pollInterval: int)
    requires d.kind == "spec_limit"
    ensures ValidateDetector(d, pollInterval).None? <==> d.specLimit.Some? && SoundSpecLimit(d.specLimit.value)
  {
    if d.specLimit.Some? { SpecLimitAccepted(d.specLimit.value); }
    hide ValidateSpecLimit, SoundSpecLimit;
  }

  lemma ShewhartKind(d: Detector, pollInterval: int)
    requires d.kind == "shewhart"
    ensures ValidateDetector(d, pollInterval).None? <==> d.shewhart.Some? && SoundShewhart(d.shewhart.value)
  {
    if d.shewhart.Some? { ShewhartAccepted(d.shewhart.value); }
    hide ValidateShewhart, SoundShewhart;
  }

  lemma RangeChartKind(d: Detector, pollInterval: int)
    requires d.kind == "range_chart"
    ensures ValidateDetector(d, pollInterval).None? <==> d.rangeChart.Some? && SoundRangeChart(d.rangeChart.value)
  {
    if d.rangeChart.Some? { RangeChartAccepted(d.rangeChart.value); }
    hide ValidateRangeChart, SoundRangeChart;
  }

  lemma TrendKind(d: Detector, pollInterval: int)
    requires d.kind == "trend"
    ensures ValidateDetector(d, pollInterval).None? <==> d.trend.Some? && d.trend.value.windowSize >= 2 && d.trend.value.epsilon >= 0.0
  {
  }

  lemma TpaKind(d: Detector, pollInterval: int)
    requires d.kind == "tpa"
    ensures ValidateDetector(d, pollInterval).None? <==> d.tpa.Some? && SoundTpa(d.tpa.value)
  {
    if d.tpa.Some? { TpaAccepted(d.tpa.value); }
    hide ValidateTpa, SoundTpa;
  }

  lemma NoOtherKind(d: Detector, pollInterval: int)
    requires d.kind !in ["threshold", "robust_zscore", "missing_data", "spec_limit", "shewhart", "range_chart", "trend", "tpa"]
    ensures ValidateDetector(d, pollInterval).Some?
  {
  }

  // ----- which problem a refusal names

  /** Whether a refusal names this setting and this problem. */
  predicate Names(error: Option<ErrorDetail>, field: string, problem: Problem) {
    error.Some? && error.value.problem == problem && error.value.field == field
  }

  lemma BaselineRefusals(b: Baseline)
    ensures b.lastN.Some? && b.timeRange.Some? ==> Names(ValidateBaseline(b), "baseline", InvalidValue)
    ensures b.lastN.None? && b.timeRange.None? ==> Names(ValidateBaseline(b), "baseline", Missing)
    ensures b.timeRange.None? && b.lastN.Some? && b.lastN.value <= 0 ==> Names(ValidateBaseline(b), "baseline.lastN", InvalidValue)
    ensures b.lastN.None? && b.timeRange.Some? && (b.timeRange.value.start == "" || b.timeRange.value.end == "") ==>
              Names(ValidateBaseline(b), "baseline.timeRange", InvalidValue)
  {
  }

  lemma RobustZRefusals(spec: RobustZSpec)
    ensures spec.baselineWindowSeconds < spec.evalWindowSeconds ==>
              Names(ValidateRobustZ(spec), "robustZ.baselineWindowSeconds", InvalidValue)
    ensures spec.baselineWindowSeconds >= spec.evalWindowSeconds && spec.minSamples < 20 ==>
              Names(ValidateRobustZ(spec), "robustZ.minSamples", TooSmall)
  {
  }

  lemma ThresholdRefusals(spec: ThresholdSpec)
    ensures spec.op == "" ==> Names(ValidateThreshold(spec), "threshold", Missing)
    ensures spec.op == "between" && !SoundThreshold(spec) ==> Names(ValidateThreshold(spec), "threshold", InvalidBetweenRange)
  {
  }

  lemma SpecLimitRefusals(spec: SpecLimitSpec)
    ensures spec.mode !in ["", "spec", "control", "both"] ==> Names(ValidateSpecLimit(spec), "specLimit.mode", InvalidValue)
    ensures spec.mode in ["", "spec", "both"] && !SomeBound(spec.specLimits) ==>
              Names(ValidateSpecLimit(spec), "specLimit.specLimits", Missing)
    ensures (spec.mode == "control" || (spec.mode == "both" && SomeBound(spec.specLimits))) && !SomeBound(spec.controlLimits) ==>
              Names(ValidateSpecLimit(spec), "specLimit.controlLimits", Missing)
  {
  }

  lemma ShewhartRefusals(spec: ShewhartSpec)
    ensures !SoundBaseline(spec.baseline) ==> ValidateShewhart(spec) == ValidateBaseline(spec.baseline)
    ensures var multiplier := spec.sigmaMultiplier == 0.0 || 2.0 <= spec.sigmaMultiplier <= 3.0;
            && (SoundBaseline(spec.baseline) && !multiplier ==>
                  Names(ValidateShewhart(spec), "shewhart.sigmaMultiplier", InvalidValue))
            && (SoundBaseline(spec.baseline) && multiplier && spec.minBaselineN < 0 ==>
                  Names(ValidateShewhart(spec), "shewhart.minBaselineN", InvalidValue))
  {
    BaselineAccepted(spec.baseline);
    hide SoundBaseline, ValidateBaseline;
  }

  lemma RangeChartRefusals(spec: RangeChartSpec)
    ensures !(2 <= spec.subgroupSize <= 10) ==> Names(ValidateRangeChart(spec), "rangeChart.subgroupSize", InvalidValue)
    ensures 2 <= spec.subgroupSize <= 10 && !SoundBaseline(spec.baseline) ==>
              ValidateRangeChart(spec) == ValidateBaseline(spec.baseline)
    ensures 2 <= spec.subgroupSize <= 10 && SoundBaseline(spec.baseline) && spec.subgroupMode !in ["", "consecutive", "column"] ==>
              Names(ValidateRangeChart(spec), "rangeChart.subgrouping.mode", InvalidValue)
    ensures 2 <= spec.subgroupSize <= 10 && SoundBaseline(spec.baseline) && spec.subgroupMode == "column"
            && spec.subgroupColumn == "" ==>
              Names(ValidateRangeChart(spec), "rangeChart.subgrouping.column", Missing)
  {
    BaselineAccepted(spec.baseline);
    hide SoundBaseline, ValidateBaseline;
  }

  lemma TrendAndTpaRefusals(trend: TrendSpec, tpa: TpaSpec)
    ensures trend.windowSize < 2 ==> Names(ValidateTrend(trend), "trend.windowSize", InvalidValue)
    ensures trend.windowSize >= 2 && trend.epsilon < 0.0 ==> Names(ValidateTrend(trend), "trend.epsilon", InvalidValue)
    ensures tpa.windowN < 3 ==> Names(ValidateTpa(tpa), "tpa.windowN", InvalidValue)
    ensures tpa.windowN >= 3 && tpa.basis !in ["", "index", "timestamp"] ==>
              Names(ValidateTpa(tpa), "tpa.regressionTimeBasis", InvalidValue)
    ensures tpa.windowN >= 3 && tpa.basis in ["", "index", "timestamp"] && tpa.requireSpecLimits && tpa.specLimits.None? ==>
              Names(ValidateTpa(tpa), "tpa.specLimits", Missing)
    ensures tpa.windowN >= 3 && tpa.basis in ["", "index", "timestamp"] && (tpa.requireSpecLimits ==> tpa.specLimits.Some?)
            && tpa.slopeThreshold.None? && tpa.timeToSpecThreshold.None? ==>
              Names(ValidateTpa(tpa), "tpa", InvalidValue)
  {
  }

  /** Settings that are not there, a detector that is none of the eight, and otherwise the problem of the settings. */
  lemma DetectorRefusals(d: Detector, pollInterval: int)
    ensures var error := ValidateDetector(d, pollInterval);
            match d.kind
            case "threshold" =>
              if d.threshold.None? then Names(error, "threshold", Missing) else error == ValidateThreshold(d.threshold.value)
            case "robust_zscore" =>
              if d.robustZ.None? then Names(error, "robustZ", Missing) else error == ValidateRobustZ(d.robustZ.value)
            case "missing_data" =>
              if d.missingData.None? then Names(error, "missingData", Missing)
              else d.missingData.value.maxGapSeconds < pollInterval ==> Names(error, "missingData.maxGapSeconds", TooSmall)
            case "spec_limit" =>
              if d.specLimit.None? then Names(error, "specLimit", Missing) else error == ValidateSpecLimit(d.specLimit.value)
            case "shewhart" =>
              if d.shewhart.None? then Names(error, "shewhart", Missing) else error == ValidateShewhart(d.shewhart.value)
            case "range_chart" =>
              if d.rangeChart.None? then Names(error, "rangeChart", Missing) else error == ValidateRangeChart(d.rangeChart.value)
            case "trend" =>
              if d.trend.None? then Names(error, "trend", Missing) else error == ValidateTrend(d.trend.value)
            case "tpa" =>
              if d.tpa.None? then Names(error, "tpa", Missing) else error == ValidateTpa(d.tpa.value)
            case _ => Names(error, "type", Unsupported)
  {
    hide ValidateThreshold, ValidateRobustZ, ValidateSpecLimit, ValidateShewhart, ValidateRangeChart, ValidateTrend, ValidateTpa;
  }
}
