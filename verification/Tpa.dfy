/** Trend-to-spec analysis: the slope of the newest samples and the time it leaves until a limit. */
module Tpa {
  import opened Common
  import opened DetectorTypes
  import opened Stats
  import opened Sums

  function Basis(spec: TpaSpec): string {
    if spec.basis == "" then "timestamp" else spec.basis
  }

  /** The regression's x values as they are before they are centred: whole Unix seconds, or positions. */
  function XValues(window: seq<Sample>, basis: string): (xs: seq<real>)
    ensures |xs| == |window|
  {
    seq(|window|, i requires 0 <= i < |window| =>
      if basis == "timestamp" then UnixSeconds(window[i].ts) as real else (i + 1) as real)
  }

  function Shift(xs: seq<real>, x0: real): (r: seq<real>)
    ensures |r| == |xs| && forall i :: 0 <= i < |xs| ==> r[i] == xs[i] - x0
  {
    seq(|xs|, i requires 0 <= i < |xs| => xs[i] - x0)
  }

  // ----- time to spec

  function ComputeTimeToSpec(slope: real, current: real, limits: Bounds): Option<real> {
    if slope > 0.0 && limits.upper.Some? then Some((limits.upper.value - current) / slope)
    else if slope < 0.0 && limits.lower.Some? then Some((current - limits.lower.value) / Abs(slope))
    else None
  }

  /** The limit that a slope moves towards. */
  function LimitAhead(slope: real, limits: Bounds): Option<real> {
    if slope > 0.0 then limits.upper else if slope < 0.0 then limits.lower else None
  }

  /** The time to spec is the moment at which the current value, moving with the slope, is at the limit
      ahead of it; it is negative exactly when that limit has been passed. */
  lemma TimeToSpecReachesLimit(slope: real, current: real, limits: Bounds, t: real)
    ensures ComputeTimeToSpec(slope, current, limits).Some? <==> LimitAhead(slope, limits).Some?
    ensures LimitAhead(slope, limits).Some? ==>
              (t == ComputeTimeToSpec(slope, current, limits).value
               <==> current + Product(slope, t) == LimitAhead(slope, limits).value)
    ensures LimitAhead(slope, limits).Some? ==>
              (ComputeTimeToSpec(slope, current, limits).value < 0.0
               <==> if slope > 0.0 then current > limits.upper.value else current < limits.lower.value)
  {
    if LimitAhead(slope, limits).Some? {
      var gap := LimitAhead(slope, limits).value - current;
      var time := ComputeTimeToSpec(slope, current, limits).value;
      var size := Abs(slope);
      var way := if slope > 0.0 then gap else -gap;
      assert time == way / size;
      DivideBack(way, size);
      assert Product(time, size) == way;
      assert Product(slope, time) == gap;
      assert Product(slope, t - time) == Product(slope, t) - Product(slope, time);
    }
  }

  // ----- the detector

  function SlopeViolations(slope: real, latest: real, ts: int, spec: TpaSpec): seq<Violation> {
    if spec.slopeThreshold.Some? && Abs(slope) >= spec.slopeThreshold.value then
      [Violation(TimeOrNone(ts), None, latest, SlopeThreshold, SlopeLimit, spec.slopeThreshold.value,
                 Abs(slope) - spec.slopeThreshold.value)]
    else []
  }

  function TimeViolations(slope: real, latest: real, ts: int, spec: TpaSpec): seq<Violation> {
    if spec.timeToSpecThreshold.None? || spec.specLimits.None? then []
    else
      var time := ComputeTimeToSpec(slope, latest, spec.specLimits.value);
      if time.Some? && 0.0 <= time.value <= spec.timeToSpecThreshold.value then
        [Violation(TimeOrNone(ts), None, latest, TimeToSpec, TimeToSpecLimit, spec.timeToSpecThreshold.value,
                   time.value - spec.timeToSpecThreshold.value)]
      else []
  }

  /** What is reported for a slope. */
  function SlopeVerdict(slope: real, latest: real, ts: int, spec: TpaSpec): DetectorResult {
    if Abs(slope) <= spec.epsilon then Found([])
    else if spec.timeToSpecThreshold.Some? && spec.requireSpecLimits && spec.specLimits.None? then INVALID_CONFIG
    else Found(SlopeViolations(slope, latest, ts, spec) + TimeViolations(slope, latest, ts, spec))
  }

  function NewestWindow(samples: seq<Sample>, n: int): seq<Sample>
    requires 0 <= n <= |samples|
  {
    samples[|samples| - n..]
  }

  /** The verdict by the regression over the x values as they are, not centred. */
  function TpaResult(samples: seq<Sample>, spec: TpaSpec): DetectorResult {
    if spec.windowN < 3 then INVALID_CONFIG
    else if |samples| < spec.windowN then INSUFFICIENT_DATA
    else
      var window := NewestWindow(samples, spec.windowN);
      var fit := Regress(XValues(window, Basis(spec)), Values(window));
      if !fit.ok then INVALID_CONFIG
      else
        var last := samples[|samples| - 1];
        SlopeVerdict(fit.slope, last.value, last.ts, spec)
  }

  /** The body centres the x values in place before the regression; the verdict is the same without. */
  method EvaluateTPA(samples: seq<Sample>, spec: TpaSpec) returns (result: DetectorResult)
    ensures result == TpaResult(samples, spec)
  {
    if spec.windowN < 3 {
      return INVALID_CONFIG;
    }
    if |samples| < spec.windowN {
      return INSUFFICIENT_DATA;
    }
    var window := NewestWindow(samples, spec.windowN);
    var basis := spec.basis;
    if basis == "" {
      basis := "timestamp";
    }
    var xVals, yVals := BuildAxes(window, basis);
    Centre(xVals);
    var slope, intercept, r2, ok := LinearRegression(xVals[..], yVals);
    ghost var raw := XValues(window, basis);
    CentringHarmless(raw, yVals, raw[0]);
    if !ok {
      return INVALID_CONFIG;
    }
    result := JudgeSlope(slope, window[|window| - 1], spec);
  }

  method BuildAxes(window: seq<Sample>, basis: string) returns (xVals: array<real>, yVals: seq<real>)
    ensures fresh(xVals) && xVals[..] == XValues(window, basis)
    ensures yVals == Values(window)
  {
    xVals := new real[|window|];
    yVals := [];
    for i := 0 to |window|
      invariant xVals[..i] == XValues(window, basis)[..i]
      invariant yVals == Values(window)[..i]
    {
      if basis == "timestamp" {
        xVals[i] := UnixSeconds(window[i].ts) as real;
      } else {
        xVals[i] := (i + 1) as real;
      }
      yVals := yVals + [window[i].value];
    }
  }

  /** Moves the x values so that the first one is 0. */
  method Centre(xVals: array<real>)
    modifies xVals
    ensures xVals.Length > 0 ==> xVals[..] == Shift(old(xVals[..]), old(xVals[0]))
  {
    if xVals.Length > 0 {
      var x0 := xVals[0];
      for i := 0 to xVals.Length
        invariant forall j :: 0 <= j < i ==> xVals[j] == old(xVals[j]) - x0
        invariant forall j :: i <= j < xVals.Length ==> xVals[j] == old(xVals[j])
      {
        xVals[i] := xVals[i] - x0;
      }
    }
  }

  method JudgeSlope(slope: real, lastSample: Sample, spec: TpaSpec) returns (result: DetectorResult)
    ensures result == SlopeVerdict(slope, lastSample.value, lastSample.ts, spec)
  {
    var latest := lastSample.value;
    var epsilon := spec.epsilon;
    if spec.epsilon == 0.0 {
      epsilon := 0.0;
    }
    result := Verdict(Fine, High, []);
    if Abs(slope) <= epsilon {
      return;
    }
    if spec.slopeThreshold.Some? && Abs(slope) >= spec.slopeThreshold.value {
      result := result.(hit := true, status := Violated, violations := result.violations
        + [Violation(TimeOrNone(lastSample.ts), None, latest, SlopeThreshold, SlopeLimit, spec.slopeThreshold.value,
                     Abs(slope) - spec.slopeThreshold.value)]);
    }
    if spec.timeToSpecThreshold.Some? {
      if spec.requireSpecLimits && spec.specLimits.None? {
        return INVALID_CONFIG;
      }
      if spec.specLimits.Some? {
        var timeToSpec := ComputeTimeToSpec(slope, latest, spec.specLimits.value);
        if timeToSpec.Some? && timeToSpec.value >= 0.0 && timeToSpec.value <= spec.timeToSpecThreshold.value {
          result := result.(hit := true, status := Violated, violations := result.violations
            + [Violation(TimeOrNone(lastSample.ts), None, latest, TimeToSpec, TimeToSpecLimit,
                         spec.timeToSpecThreshold.value, timeToSpec.value - spec.timeToSpecThreshold.value)]);
        }
      }
    }
    assert result.violations
        == SlopeViolations(slope, latest, lastSample.ts, spec) + TimeViolations(slope, latest, lastSample.ts, spec);
  }

  // ----- centring

  lemma {:induction false} ResidualsOfShift(xs: seq<real>, ys: seq<real>, x0: real, a: real, b: real, n: nat)
    requires n <= |xs| && n <= |ys|
    ensures Residuals(Shift(xs, x0), ys, a, b, n) == Residuals(xs, ys, a, b - Product(a, x0), n)
  {
    if n > 0 {
      ResidualsOfShift(xs, ys, x0, a, b, n - 1);
      LineOfShift(xs[n - 1], x0, a, b);
    }
  }

  lemma LineOfShift(x: real, x0: real, a: real, b: real)
    ensures LineAt(x - x0, a, b) == LineAt(x, a, b - Product(a, x0))
  {
  }

  /** Centring changes nothing but the intercept, which moves by slope times x0. */
  lemma CentringHarmless(xs: seq<real>, ys: seq<real>, x0: real)
    ensures var r, c := Regress(xs, ys), Regress(Shift(xs, x0), ys);
            c == r.(intercept := r.intercept + Product(r.slope, x0))
  {
    var centred := Shift(xs, x0);
    RegressionExistsIff(xs, ys);
    RegressionExistsIff(centred, ys);
    assert forall i, j :: 0 <= i < j < |xs| ==> (centred[i] != centred[j] <==> xs[i] != xs[j]);
    if Regress(xs, ys).ok {
      CentredLine(xs, ys, x0);
    } else {
      assert Product(0.0, x0) == 0.0;
    }
  }

  lemma CentredLine(xs: seq<real>, ys: seq<real>, x0: real)
    requires Regress(xs, ys).ok && Regress(Shift(xs, x0), ys).ok
    ensures var r, c := Regress(xs, ys), Regress(Shift(xs, x0), ys);
            c == r.(intercept := r.intercept + Product(r.slope, x0))
  {
    hide *;
    var n := |xs|;
    var centred := Shift(xs, x0);
    var r, c := Regress(xs, ys), Regress(centred, ys);
    var b := r.intercept + Product(r.slope, x0);
    LengthsAgree(xs, ys);
    ResidualsOfShift(xs, ys, x0, r.slope, b, n);
    assert b - Product(r.slope, x0) == r.intercept;
    ResidualsOfShift(xs, ys, x0, c.slope, c.intercept, n);
    LeastSquares(xs, ys, c.slope, c.intercept - Product(c.slope, x0));
    LeastSquares(centred, ys, r.slope, b);
    SameShare(xs, centred, ys);
  }

  lemma LengthsAgree(xs: seq<real>, ys: seq<real>)
    requires Regress(xs, ys).ok
    ensures |xs| == |ys|
  {
  }

  lemma SameShare(xs: seq<real>, zs: seq<real>, ys: seq<real>)
    requires Regress(xs, ys).ok && Regress(zs, ys).ok && |xs| == |zs| == |ys|
    requires var r, c := Regress(xs, ys), Regress(zs, ys);
             Residuals(xs, ys, r.slope, r.intercept, |xs|) == Residuals(zs, ys, c.slope, c.intercept, |xs|)
    ensures Regress(xs, ys).r2 == Regress(zs, ys).r2
  {
    hide SlopeOf, InterceptOf, SpreadOf, Denominator, MeanOf;
  }

  // ----- exact lines and regressions that exist

  lemma {:induction false} NoResiduals(xs: seq<real>, ys: seq<real>, a: real, b: real, n: nat)
    requires n <= |xs| && n <= |ys|
    ensures Residuals(xs, ys, a, b, n) == 0.0 <==> forall i :: 0 <= i < n ==> ys[i] == LineAt(xs[i], a, b)
  {
    if n > 0 { NoResiduals(xs, ys, a, b, n - 1); }
  }

  /** Points on a line, at two different x values at least, are fitted by that line and with r2 = 1;
      and r2 = 1 says that the points are on a line. */
  lemma ExactLineRecovered(xs: seq<real>, ys: seq<real>, a: real, b: real)
    requires Regress(xs, ys).ok
    ensures (forall i :: 0 <= i < |xs| ==> ys[i] == LineAt(xs[i], a, b))
       <==> Regress(xs, ys).r2 == 1.0 && Regress(xs, ys).slope == a && Regress(xs, ys).intercept == b
  {
    var r, n := Regress(xs, ys), |xs|;
    NoResiduals(xs, ys, a, b, n);
    LeastSquares(xs, ys, a, b);
    DeterminationInUnitRange(xs, ys);
  }

  /** By position there is always a regression; by timestamp, exactly when two samples of the window are
      in different seconds. */
  lemma RegressionOverWindow(window: seq<Sample>, basis: string)
    requires |window| >= 2
    ensures Regress(XValues(window, basis), Values(window)).ok
       <==> basis != "timestamp" || exists i, j ::
              0 <= i < j < |window| && UnixSeconds(window[i].ts) != UnixSeconds(window[j].ts)
  {
    var xs := XValues(window, basis);
    RegressionExistsIff(xs, Values(window));
    if basis != "timestamp" {
      assert xs[0] != xs[1];
    } else {
      assert forall i, j :: 0 <= i < j < |window| ==>
               (xs[i] != xs[j] <==> UnixSeconds(window[i].ts) != UnixSeconds(window[j].ts));
    }
  }

  // ----- what is reported, exactly

  /** The value is on its way to a limit and reaches it within this time. */
  ghost predicate Arrives(slope: real, current: real, limits: Bounds, within: real) {
    || (slope > 0.0 && limits.upper.Some? && exists t :: 0.0 <= t <= within && current + Product(slope, t) == limits.upper.value)
    || (slope < 0.0 && limits.lower.Some? && exists t :: 0.0 <= t <= within && current + Product(slope, t) == limits.lower.value)
  }

  lemma ArrivesExactly(slope: real, current: real, limits: Bounds, within: real)
    ensures var time := ComputeTimeToSpec(slope, current, limits);
            Arrives(slope, current, limits, within) <==> time.Some? && 0.0 <= time.value <= within
  {
    var time := ComputeTimeToSpec(slope, current, limits);
    forall t ensures time.Some? ==> (t == time.value <==> current + Product(slope, t) == LimitAhead(slope, limits).value) {
      TimeToSpecReachesLimit(slope, current, limits, t);
    }
    TimeToSpecReachesLimit(slope, current, limits, 0.0);
    hide ComputeTimeToSpec, Product;
    if time.Some? && 0.0 <= time.value <= within {
      assert current + Product(slope, time.value) == LimitAhead(slope, limits).value;
    }
  }

  /** A slope beyond epsilon is reported for being steep, and for reaching a limit in time, in this order; and a
      threshold of time without the limits it requires is a fault of the configuration. */
  lemma SlopeReportedExactly(slope: real, latest: real, ts: int, spec: TpaSpec)
    ensures var r := SlopeVerdict(slope, latest, ts, spec);
            var flat := Abs(slope) <= spec.epsilon;
            var lacking := spec.timeToSpecThreshold.Some? && spec.requireSpecLimits && spec.specLimits.None?;
            var steep := spec.slopeThreshold.Some? && Abs(slope) >= spec.slopeThreshold.value;
            var near := spec.timeToSpecThreshold.Some? && spec.specLimits.Some?
                        && Arrives(slope, latest, spec.specLimits.value, spec.timeToSpecThreshold.value);
            && (r.status == InvalidConfig <==> !flat && lacking)
            && (r.hit <==> !flat && !lacking && (steep || near))
            && (r.hit <==> r.status == Violated)
            && |r.violations| == (if r.hit && steep then 1 else 0) + (if r.hit && near then 1 else 0)
            && (r.hit && steep ==>
                  var v := r.violations[0];
                  v.reason == SlopeThreshold && v.limitName == SlopeLimit && v.value == latest && v.timestamp == TimeOrNone(ts)
                  && v.limitValue == spec.slopeThreshold.value && v.delta == Abs(slope) - v.limitValue)
            && (r.hit && near ==>
                  var v := r.violations[|r.violations| - 1];
                  v.reason == TimeToSpec && v.limitName == TimeToSpecLimit && v.value == latest && v.timestamp == TimeOrNone(ts)
                  && v.limitValue == spec.timeToSpecThreshold.value
                  && latest + Product(slope, v.delta + v.limitValue) == LimitAhead(slope, spec.specLimits.value).value)
  {
    if spec.timeToSpecThreshold.Some? && spec.specLimits.Some? {
      var limits := spec.specLimits.value;
      ArrivesExactly(slope, latest, limits, spec.timeToSpecThreshold.value);
      var time := ComputeTimeToSpec(slope, latest, limits);
      if time.Some? {
        TimeToSpecReachesLimit(slope, latest, limits, time.value);
      }
    }
    hide Arrives, ComputeTimeToSpec, Product, Abs, LimitAhead;
  }

  /** Older samples than the window's make no difference. */
  lemma OnlyTheWindowMatters(older: seq<Sample>, window: seq<Sample>, spec: TpaSpec)
    requires |window| >= spec.windowN
    ensures TpaResult(older + window, spec) == TpaResult(window, spec)
  {
    if spec.windowN >= 3 {
      assert NewestWindow(older + window, spec.windowN) == NewestWindow(window, spec.windowN);
    }
  }

  /** Where samples count by position, each is one from the next; where they count by time, a second is one. The
      slope of values on a line is then per sample, or per second. */
  lemma SlopePerSample(window: seq<Sample>, spec: TpaSpec, a: real, b: real)
    requires |window| == spec.windowN >= 3 && spec.basis !in ["", "timestamp"]
    requires forall i :: 0 <= i < |window| ==> window[i].value == a * i as real + b
    ensures TpaResult(window, spec) == SlopeVerdict(a, window[|window| - 1].value, window[|window| - 1].ts, spec)
  {
    var xs, ys := XValues(window, spec.basis), Values(window);
    assert NewestWindow(window, spec.windowN) == window;
    RegressionOverWindow(window, spec.basis);
    forall i | 0 <= i < |xs| ensures ys[i] == LineAt(xs[i], a, b - a) {
      OneStepBack(a, i as real, b);
      assert xs[i] == i as real + 1.0;
    }
    ExactLineRecovered(xs, ys, a, b - a);
    hide Regress, SlopeVerdict;
  }

  lemma OneStepBack(a: real, i: real, b: real)
    ensures a * i + b == LineAt(i + 1.0, a, b - a)
  {
  }

  lemma SlopePerSecond(window: seq<Sample>, spec: TpaSpec, a: real, b: real)
    requires |window| == spec.windowN >= 3 && spec.basis in ["", "timestamp"]
    requires exists i, j :: 0 <= i < j < |window| && UnixSeconds(window[i].ts) != UnixSeconds(window[j].ts)
    requires forall i :: 0 <= i < |window| ==> window[i].value == a * UnixSeconds(window[i].ts) as real + b
    ensures TpaResult(window, spec) == SlopeVerdict(a, window[|window| - 1].value, window[|window| - 1].ts, spec)
  {
    var xs, ys := XValues(window, "timestamp"), Values(window);
    assert NewestWindow(window, spec.windowN) == window;
    RegressionOverWindow(window, "timestamp");
    forall i | 0 <= i < |xs| ensures ys[i] == LineAt(xs[i], a, b) {
      assert xs[i] == UnixSeconds(window[i].ts) as real;
    }
    ExactLineRecovered(xs, ys, a, b);
    hide Regress, SlopeVerdict;
  }
}
