/** The spec-limit detector: one sample against specification and control limits. */
module SpecLimit {
  import opened Common
  import opened DetectorTypes

  function Mode(spec: SpecLimitSpec): string {
    if spec.mode == "" then "spec" else spec.mode
  }

  function Epsilon(spec: SpecLimitSpec): real {
    if spec.epsilon.None? then 0.0 else spec.epsilon.value
  }

  predicate Bounded(bounds: Option<Bounds>) {
    bounds.Some? && (bounds.value.upper.Some? || bounds.value.lower.Some?)
  }

  predicate ChecksSpec(spec: SpecLimitSpec) {
    Mode(spec) == "spec" || Mode(spec) == "both"
  }

  predicate ChecksControl(spec: SpecLimitSpec) {
    Mode(spec) == "control" || Mode(spec) == "both"
  }

  /** The settings name limits of every kind they ask to be checked. */
  predicate Configured(spec: SpecLimitSpec) {
    (ChecksSpec(spec) ==> Bounded(spec.specLimits)) && (ChecksControl(spec) ==> Bounded(spec.controlLimits))
  }

  /** A value is out when it passes a limit by strictly more than epsilon. */
  predicate AboveLimit(value: real, limit: Option<real>, epsilon: real) {
    limit.Some? && value > limit.value + epsilon
  }

  predicate BelowLimit(value: real, limit: Option<real>, epsilon: real) {
    limit.Some? && value < limit.value - epsilon
  }

  function Breach(sample: Sample, name: LimitName, limit: real): Violation {
    Violation(TimeOrNone(sample.ts), None, sample.value, LimitBreach, name, limit, sample.value - limit)
  }

  function BoundBreaches(sample: Sample, bounds: Option<Bounds>, epsilon: real, above: LimitName, below: LimitName): seq<Violation> {
    if bounds.None? then []
    else
      (if AboveLimit(sample.value, bounds.value.upper, epsilon) then [Breach(sample, above, bounds.value.upper.value)] else [])
      + (if BelowLimit(sample.value, bounds.value.lower, epsilon) then [Breach(sample, below, bounds.value.lower.value)] else [])
  }

  /** The limits a sample breaches, specification limits first. */
  function Breaches(sample: Sample, spec: SpecLimitSpec): seq<Violation> {
    (if ChecksSpec(spec) then BoundBreaches(sample, spec.specLimits, Epsilon(spec), USL, LSL) else [])
    + (if ChecksControl(spec) then BoundBreaches(sample, spec.controlLimits, Epsilon(spec), UCL, LCL) else [])
  }

  /** Some limit that is to be checked is passed. */
  predicate OutOfLimits(sample: Sample, spec: SpecLimitSpec) {
    || (ChecksSpec(spec) && spec.specLimits.Some?
        && (AboveLimit(sample.value, spec.specLimits.value.upper, Epsilon(spec))
            || BelowLimit(sample.value, spec.specLimits.value.lower, Epsilon(spec))))
    || (ChecksControl(spec) && spec.controlLimits.Some?
        && (AboveLimit(sample.value, spec.controlLimits.value.upper, Epsilon(spec))
            || BelowLimit(sample.value, spec.controlLimits.value.lower, Epsilon(spec))))
  }

  function SpecLimitResult(sample: Sample, spec: SpecLimitSpec): (r: DetectorResult)
    ensures r.status == InvalidConfig <==> !Configured(spec)
    ensures r.hit <==> Configured(spec) && OutOfLimits(sample, spec)
  {
    if !Configured(spec) then INVALID_CONFIG
    else Found(Breaches(sample, spec)).(windowStart := TimeOrNone(sample.ts), windowEnd := TimeOrNone(sample.ts))
  }

  method EvaluateSpecLimit(sample: Sample, spec: SpecLimitSpec) returns (result: DetectorResult)
    ensures result == SpecLimitResult(sample, spec)
  {
    var mode := spec.mode;
    if mode == "" {
      mode := "spec";
    }
    var epsilon := 0.0;
    if spec.epsilon.Some? {
      epsilon := spec.epsilon.value;
    }
    result := Verdict(Fine, High, []);
    if sample.ts != ZERO_TIME {
      result := result.(windowStart := Some(sample.ts), windowEnd := Some(sample.ts));
    }
    if mode == "spec" || mode == "both" {
      if !Bounded(spec.specLimits) {
        return INVALID_CONFIG;
      }
      result := CheckBounds(result, sample, spec.specLimits.value, epsilon, USL, LSL);
    }
    ghost var found := result.violations;
    if mode == "control" || mode == "both" {
      if !Bounded(spec.controlLimits) {
        return INVALID_CONFIG;
      }
      result := CheckBounds(result, sample, spec.controlLimits.value, epsilon, UCL, LCL);
    }
    assert result.violations == Breaches(sample, spec);
  }

  /** The result with the breaches of one pair of limits added to it. */
  method CheckBounds(before: DetectorResult, sample: Sample, limits: Bounds, epsilon: real, above: LimitName, below: LimitName)
    returns (result: DetectorResult)
    requires before.severity == High && before == Found(before.violations).(
                 windowStart := before.windowStart, windowEnd := before.windowEnd)
    ensures result == Found(before.violations + BoundBreaches(sample, Some(limits), epsilon, above, below)).(
                 windowStart := before.windowStart, windowEnd := before.windowEnd)
  {
    result := before;
    if limits.upper.Some? && sample.value > limits.upper.value + epsilon {
      result := result.(hit := true, status := Violated,
        violations := result.violations + [Breach(sample, above, limits.upper.value)]);
    }
    if limits.lower.Some? && sample.value < limits.lower.value - epsilon {
      result := result.(hit := true, status := Violated,
        violations := result.violations + [Breach(sample, below, limits.lower.value)]);
    }
    assert result.violations == before.violations + BoundBreaches(sample, Some(limits), epsilon, above, below);
  }

  // ----- one result per violating row

  function Violating(samples: seq<Sample>, spec: SpecLimitSpec): seq<Sample> {
    if samples == [] then []
    else
      var rest := Violating(samples[..|samples| - 1], spec);
      var last := samples[|samples| - 1];
      if SpecLimitResult(last, spec).hit then rest + [last] else rest
  }

  /** The spec_limit case of evaluateParameterSince after the rows have been fetched: one hit for each
      violating row, in the order of the rows, or a single non-hit when there is none. */
  method EvaluateRows(samples: seq<Sample>, spec: SpecLimitSpec) returns (results: seq<DetectorResult>)
    ensures var violating := Violating(samples, spec);
            if violating == [] then results == [NO_HIT]
            else |results| == |violating| && forall i :: 0 <= i < |results| ==> results[i] == SpecLimitResult(violating[i], spec)
    ensures forall i :: 0 <= i < |results| ==> (results[i].hit <==> Violating(samples, spec) != [])
  {
    if |samples| == 0 {
      return [NO_HIT];
    }
    results := [];
    for n := 0 to |samples|
      invariant |results| == |Violating(samples[..n], spec)|
      invariant forall i :: 0 <= i < |results| ==>
                  results[i] == SpecLimitResult(Violating(samples[..n], spec)[i], spec) && results[i].hit
    {
      assert samples[..n + 1][..n] == samples[..n];
      var res := EvaluateSpecLimit(samples[n], spec);
      if res.hit {
        results := results + [res];
      }
    }
    assert samples[..|samples|] == samples;
    if |results| == 0 {
      return [NO_HIT];
    }
  }

  /** The violating rows are exactly the rows out of limits, each as often as it was fetched. */
  lemma {:induction false} ViolatingExactly(samples: seq<Sample>, spec: SpecLimitSpec, s: Sample)
    ensures multiset(Violating(samples, spec))[s]
         == if Configured(spec) && OutOfLimits(s, spec) then multiset(samples)[s] else 0
  {
    hide *;
    if samples == [] {
      NoneViolating(spec);
    } else {
      var most, last := samples[..|samples| - 1], samples[|samples| - 1];
      ViolatingExactly(most, spec, s);
      OneMoreRow(samples, spec);
      CountOneMore(most, last, s);
      CountOneMore(Violating(most, spec), last, s);
      assert samples == most + [last];
    }
  }

  lemma NoneViolating(spec: SpecLimitSpec)
    ensures Violating([], spec) == []
  {
  }

  lemma OneMoreRow(samples: seq<Sample>, spec: SpecLimitSpec)
    requires samples != []
    ensures var most, last := samples[..|samples| - 1], samples[|samples| - 1];
            Violating(samples, spec)
            == if Configured(spec) && OutOfLimits(last, spec) then Violating(most, spec) + [last] else Violating(most, spec)
  {
    hide SpecLimitResult, Configured, OutOfLimits;
  }

  lemma CountOneMore(s: seq<Sample>, x: Sample, y: Sample)
    ensures multiset(s + [x])[y] == multiset(s)[y] + if x == y then 1 else 0
  {
    assert multiset(s + [x]) == multiset(s) + multiset{x};
  }

  /** Violating rows keep their order: those of a list are those of its parts, one after the other. */
  lemma {:induction false} ViolatingInParts(a: seq<Sample>, b: seq<Sample>, spec: SpecLimitSpec)
    ensures Violating(a + b, spec) == Violating(a, spec) + Violating(b, spec)
    decreases |b|
  {
    hide SpecLimitResult;
    if b == [] {
      assert a + b == a;
    } else {
      var last := |b| - 1;
      assert (a + b)[..|a| + last] == a + b[..last];
      ViolatingInParts(a, b[..last], spec);
    }
  }

  // ----- what is reported, exactly

  /** Which limit a name stands for, and whether it is an upper one. */
  function LimitOf(spec: SpecLimitSpec, name: LimitName): Option<real> {
    match name
    case USL => if spec.mode in ["", "spec", "both"] && spec.specLimits.Some? then spec.specLimits.value.upper else None
    case LSL => if spec.mode in ["", "spec", "both"] && spec.specLimits.Some? then spec.specLimits.value.lower else None
    case UCL => if spec.mode in ["control", "both"] && spec.controlLimits.Some? then spec.controlLimits.value.upper else None
    case LCL => if spec.mode in ["control", "both"] && spec.controlLimits.Some? then spec.controlLimits.value.lower else None
    case _ => None
  }

  /** A limit of the mode is passed by more than epsilon, which is 0 unless it is set. */
  predicate Passed(sample: Sample, spec: SpecLimitSpec, name: LimitName) {
    var epsilon := match spec.epsilon case None => 0.0 case Some(e) => e;
    var limit := LimitOf(spec, name);
    limit.Some? && if name in [USL, UCL] then sample.value > limit.value + epsilon else sample.value < limit.value - epsilon
  }

  predicate NeedsSpecLimits(spec: SpecLimitSpec) {
    spec.mode in ["", "spec", "both"]
    && (spec.specLimits.None? || (spec.specLimits.value.upper.None? && spec.specLimits.value.lower.None?))
  }

  predicate NeedsControlLimits(spec: SpecLimitSpec) {
    spec.mode in ["control", "both"]
    && (spec.controlLimits.None? || (spec.controlLimits.value.upper.None? && spec.controlLimits.value.lower.None?))
  }

  /** A limit that is passed is reported under its name, with its value and by how much it is passed. */
  function Report(sample: Sample, spec: SpecLimitSpec, name: LimitName): seq<Violation> {
    if Passed(sample, spec, name)
    then
      var limit := LimitOf(spec, name).value;
      [Violation(if sample.ts == ZERO_TIME then None else Some(sample.ts), None, sample.value, LimitBreach, name, limit, sample.value - limit)]
    else []
  }

  /** A configuration that lacks the limits its mode asks for is refused. Otherwise the sample is reported for each
      limit that it passes, and for no other; and it is its own window, unless it has no time. */
  lemma ReportedExactly(sample: Sample, spec: SpecLimitSpec)
    ensures var r := SpecLimitResult(sample, spec);
            var refused := NeedsSpecLimits(spec) || NeedsControlLimits(spec);
            && (r.status == InvalidConfig <==> refused)
            && (!refused ==> r.violations == Report(sample, spec, USL) + Report(sample, spec, LSL)
                                             + Report(sample, spec, UCL) + Report(sample, spec, LCL))
            && (!refused ==> r.windowStart == r.windowEnd == if sample.ts == ZERO_TIME then None else Some(sample.ts))
            && (r.hit <==> !refused && exists name :: name in [USL, LSL, UCL, LCL] && Passed(sample, spec, name))
            && (r.hit <==> r.status == Violated)
  {
    BreachesReported(sample, spec);
    RefusedExactly(spec);
    HitWhenReported(sample, spec);
    hide Breaches, Passed, NeedsSpecLimits, NeedsControlLimits, Configured, OutOfLimits, Report;
  }

  lemma BreachesReported(sample: Sample, spec: SpecLimitSpec)
    ensures Breaches(sample, spec)
         == Report(sample, spec, USL) + Report(sample, spec, LSL) + Report(sample, spec, UCL) + Report(sample, spec, LCL)
  {
    SpecPartReported(sample, spec);
    ControlPartReported(sample, spec);
    hide BoundBreaches, Report, Epsilon, Mode;
  }

  lemma HitWhenReported(sample: Sample, spec: SpecLimitSpec)
    ensures Report(sample, spec, USL) + Report(sample, spec, LSL) + Report(sample, spec, UCL) + Report(sample, spec, LCL) != []
       <==> exists name :: name in [USL, LSL, UCL, LCL] && Passed(sample, spec, name)
  {
    hide Passed;
  }

  lemma RefusedExactly(spec: SpecLimitSpec)
    ensures !Configured(spec) <==> NeedsSpecLimits(spec) || NeedsControlLimits(spec)
  {
  }

  lemma SpecPartReported(sample: Sample, spec: SpecLimitSpec)
    ensures (if ChecksSpec(spec) then BoundBreaches(sample, spec.specLimits, Epsilon(spec), USL, LSL) else [])
         == Report(sample, spec, USL) + Report(sample, spec, LSL)
  {
  }

  lemma ControlPartReported(sample: Sample, spec: SpecLimitSpec)
    ensures (if ChecksControl(spec) then BoundBreaches(sample, spec.controlLimits, Epsilon(spec), UCL, LCL) else [])
         == Report(sample, spec, UCL) + Report(sample, spec, LCL)
  {
  }
}
