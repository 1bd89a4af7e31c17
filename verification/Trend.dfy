/** The trend detector: a window of samples that strictly rises or strictly falls. */
module Trend {
  import opened Common
  import opened DetectorTypes

  const DEFAULT_WINDOW := 6

  function Window(spec: TrendSpec): int {
    if spec.windowSize == 0 then DEFAULT_WINDOW else spec.windowSize
  }

  /** Every value is more than epsilon above the one before it. */
  predicate Rises(segment: seq<Sample>, epsilon: real) {
    forall i :: 0 < i < |segment| ==> segment[i].value > segment[i - 1].value + epsilon
  }

  predicate Falls(segment: seq<Sample>, epsilon: real) {
    forall i :: 0 < i < |segment| ==> segment[i].value < segment[i - 1].value - epsilon
  }

  /** A trend is reported at the newest sample, with its index among all the samples. */
  function TrendViolation(samples: seq<Sample>, reason: Reason): Violation
    requires samples != []
  {
    var last := samples[|samples| - 1];
    Violation(TimeOrNone(last.ts), Some(|samples| - 1), last.value, reason, TrendLimit, 0.0, 0.0)
  }

  method Directions(segment: seq<Sample>, epsilon: real) returns (increasing: bool, decreasing: bool)
    requires segment != []
    ensures increasing == Rises(segment, epsilon) && decreasing == Falls(segment, epsilon)
  {
    increasing, decreasing := true, true;
    for i := 0 to |segment| - 1
      invariant increasing <==> forall j :: 0 < j <= i ==> segment[j].value > segment[j - 1].value + epsilon
      invariant decreasing <==> forall j :: 0 < j <= i ==> segment[j].value < segment[j - 1].value - epsilon
    {
      if !(segment[i + 1].value > segment[i].value + epsilon) {
        increasing := false;
      }
      if !(segment[i + 1].value < segment[i].value - epsilon) {
        decreasing := false;
      }
    }
  }

  function TrendResult(samples: seq<Sample>, spec: TrendSpec): DetectorResult
    requires Window(spec) >= 1
  {
    if |samples| < Window(spec) then INSUFFICIENT_DATA
    else
      var segment := samples[|samples| - Window(spec)..];
      if Rises(segment, spec.epsilon) then Found([TrendViolation(samples, Increasing)])
      else if Falls(segment, spec.epsilon) then Found([TrendViolation(samples, Decreasing)])
      else Found([])
  }

  method EvaluateTrend6(samples: seq<Sample>, spec: TrendSpec) returns (result: DetectorResult)
    requires Window(spec) >= 1
    ensures result == TrendResult(samples, spec)
  {
    var window := spec.windowSize;
    if window == 0 {
      window := DEFAULT_WINDOW;
    }
    if |samples| < window {
      return INSUFFICIENT_DATA;
    }
    var segment := samples[|samples| - window..];
    var epsilon := spec.epsilon;
    var increasing, decreasing := Directions(segment, epsilon);
    result := Verdict(Fine, High, []);
    if increasing || decreasing {
      var reason := Decreasing;
      if increasing {
        reason := Increasing;
      }
      result := result.(hit := true, status := Violated, violations := [TrendViolation(samples, reason)]);
    }
  }

  /** A rising window gains more than epsilon per step from end to end. */
  lemma {:induction false} RiseAccumulates(segment: seq<Sample>, epsilon: real, k: nat)
    requires Rises(segment, epsilon) && k < |segment|
    ensures segment[k].value >= segment[0].value + k as real * epsilon
    ensures k > 0 ==> segment[k].value > segment[0].value + k as real * epsilon
  {
    if k > 0 {
      RiseAccumulates(segment, epsilon, k - 1);
      assert k as real * epsilon == (k - 1) as real * epsilon + epsilon;
    }
  }

  /** With a window of two or more and an epsilon that is not negative, no window both rises and falls;
      a window of one does both, so it is always reported. */
  lemma RiseAndFallOnlyWhenTrivial(segment: seq<Sample>, epsilon: real)
    requires segment != [] && epsilon >= 0.0
    ensures Rises(segment, epsilon) && Falls(segment, epsilon) <==> |segment| == 1
  {
    if |segment| > 1 && Rises(segment, epsilon) {
      assert segment[1].value > segment[1 - 1].value + epsilon;
    }
  }

  /** The last n samples rise by more than epsilon at every step. */
  predicate Climbs(samples: seq<Sample>, n: nat, epsilon: real) {
    forall i :: 0 < i < |samples| && |samples| - n < i ==> samples[i].value > samples[i - 1].value + epsilon
  }

  predicate Sinks(samples: seq<Sample>, n: nat, epsilon: real) {
    forall i :: 0 < i < |samples| && |samples| - n < i ==> samples[i].value < samples[i - 1].value - epsilon
  }

  /** With fewer samples than the window, six unless it is set, there is not enough data. Otherwise the newest sample
      is reported, with its place among all of them, if and only if the window rises or falls by more than epsilon
      at every step. */
  lemma ReportedExactly(samples: seq<Sample>, spec: TrendSpec)
    requires spec.windowSize >= 0
    ensures var n := if spec.windowSize == 0 then 6 else spec.windowSize;
            var r := TrendResult(samples, spec);
            var up, down := Climbs(samples, n, spec.epsilon), Sinks(samples, n, spec.epsilon);
            && (r.status == InsufficientData <==> |samples| < n)
            && (r.hit <==> |samples| >= n && (up || down)) && |r.violations| == (if r.hit then 1 else 0)
            && (|samples| >= n ==> r.status == if r.hit then Violated else Fine)
            && (r.hit ==>
                  var v, last := r.violations[0], samples[|samples| - 1];
                  v.reason == (if up then Increasing else Decreasing) && v.index == Some(|samples| - 1)
                  && v.value == last.value && v.timestamp == TimeOrNone(last.ts))
  {
    if |samples| >= Window(spec) {
      StepsOfWindow(samples, Window(spec), spec.epsilon);
    }
    hide Rises, Falls, Climbs, Sinks;
  }

  lemma StepsOfWindow(samples: seq<Sample>, n: nat, epsilon: real)
    requires 1 <= n <= |samples|
    ensures Rises(samples[|samples| - n..], epsilon) <==> Climbs(samples, n, epsilon)
    ensures Falls(samples[|samples| - n..], epsilon) <==> Sinks(samples, n, epsilon)
  {
    var segment, k := samples[|samples| - n..], |samples| - n;
    if Rises(segment, epsilon) || Falls(segment, epsilon) {
      forall i | 0 < i < |samples| && k < i
        ensures Rises(segment, epsilon) ==> samples[i].value > samples[i - 1].value + epsilon
        ensures Falls(segment, epsilon) ==> samples[i].value < samples[i - 1].value - epsilon
      {
        assert segment[i - k] == samples[i];
      }
    }
    forall i | 0 < i < n
      ensures Climbs(samples, n, epsilon) ==> segment[i].value > segment[i - 1].value + epsilon
      ensures Sinks(samples, n, epsilon) ==> segment[i].value < segment[i - 1].value - epsilon
    {
      assert samples[k + i] == segment[i] && samples[k + i - 1] == segment[i - 1];
    }
  }
}
