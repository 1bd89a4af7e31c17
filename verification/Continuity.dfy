/** Gaps between the timestamps of consecutive samples. */
module Continuity {
  import opened Common
  import opened DetectorTypes
  import opened Medians
  import Sums

  /** The time from the sample before the i-th to the i-th, in seconds. */
  function Gap(samples: seq<Sample>, i: nat): (gap: real)
    requires 0 < i < |samples|
    ensures gap > 0.0 <==> samples[i - 1].ts < samples[i].ts
    ensures MIN_DURATION <= samples[i].ts - samples[i - 1].ts <= MAX_DURATION ==>
              gap * 1_000_000_000.0 == (samples[i].ts - samples[i - 1].ts) as real
  {
    Seconds(Sub(samples[i].ts, samples[i - 1].ts))
  }

  function Gaps(samples: seq<Sample>): (gaps: seq<real>)
    ensures |gaps| == if samples == [] then 0 else |samples| - 1
  {
    if samples == [] then []
    else seq(|samples| - 1, i requires 0 <= i < |samples| - 1 => Gap(samples, i + 1))
  }

  /** Every timestamp is later than all those before it. */
  predicate StrictlyAscending(samples: seq<Sample>) {
    forall i, j :: 0 <= i < j < |samples| ==> samples[i].ts < samples[j].ts
  }

  /** Timestamps that increase from each sample to the next increase between any two samples. */
  lemma {:induction false} StepsAscend(samples: seq<Sample>, i: nat, j: nat)
    requires i < j < |samples| && forall k :: 0 < k < |samples| ==> Gap(samples, k) > 0.0
    ensures samples[i].ts < samples[j].ts
  {
    assert Gap(samples, j) > 0.0;
    if i < j - 1 { StepsAscend(samples, i, j - 1); }
  }

  lemma GapsPositiveIffAscending(samples: seq<Sample>)
    ensures (forall g :: g in Gaps(samples) ==> g > 0.0) <==> StrictlyAscending(samples)
  {
    var gaps := Gaps(samples);
    hide Gap;
    if forall g :: g in gaps ==> g > 0.0 {
      forall k | 0 < k < |samples| ensures Gap(samples, k) > 0.0 {
        assert gaps[k - 1] in gaps && gaps[k - 1] == Gap(samples, k);
      }
      forall i, j | 0 <= i < j < |samples| ensures samples[i].ts < samples[j].ts {
        StepsAscend(samples, i, j);
      }
    }
    if StrictlyAscending(samples) {
      forall k | 0 <= k < |gaps| ensures gaps[k] > 0.0 {
        assert gaps[k] == Gap(samples, k + 1);
        assert samples[k + 1 - 1].ts < samples[k + 1].ts;
      }
    }
  }

  /** No gap is more than twice the median gap. */
  predicate Even(gaps: seq<real>) {
    forall g :: g in gaps ==> g <= 2.0 * MedianOf(gaps)
  }

  /** The median of positive gaps is positive, so the branch for a zero median is never taken. */
  lemma MedianOfPositive(gaps: seq<real>)
    requires gaps != [] && forall g :: g in gaps ==> g > 0.0
    ensures MedianOf(gaps) > 0.0
  {
    var s := SortReals(gaps);
    forall i | 0 <= i < |s| ensures s[i] > 0.0 {
      assert s[i] in multiset(s);
      assert s[i] in gaps;
    }
  }

  /** Timestamps are consecutive when they strictly increase and no gap is more than twice the median. */
  method HasConsecutiveTimestamps(samples: seq<Sample>) returns (consecutive: bool)
    ensures |samples| < 2 ==> consecutive
    ensures |samples| >= 2 ==>
              (consecutive <==> (forall i, j :: 0 <= i < j < |samples| ==> samples[i].ts < samples[j].ts)
                                && forall g :: g in Gaps(samples) ==> g <= 2.0 * MedianOf(Gaps(samples)))
  {
    if |samples| < 2 {
      return true;
    }
    var ascending, deltas := CollectDeltas(samples);
    GapsPositiveIffAscending(samples);
    if !ascending {
      return false;
    }
    var median := Median(deltas);
    MedianOfPositive(deltas);
    if median == 0.0 {
      return false;
    }
    consecutive := NoneAbove(deltas, median * 2.0);
  }

  /** The first loop: it stops at a gap that is not positive. */
  method CollectDeltas(samples: seq<Sample>) returns (ascending: bool, deltas: seq<real>)
    requires |samples| >= 2
    ensures ascending <==> forall g :: g in Gaps(samples) ==> g > 0.0
    ensures ascending ==> deltas == Gaps(samples)
  {
    hide Gap;
    ghost var gaps := Gaps(samples);
    deltas := [];
    for i := 1 to |samples|
      invariant deltas == gaps[..i - 1]
      invariant forall d :: d in deltas ==> d > 0.0
    {
      var delta := Gap(samples, i);
      assert delta == gaps[i - 1];
      if delta <= 0.0 {
        assert gaps[i - 1] in gaps;
        return false, deltas;
      }
      deltas := deltas + [delta];
    }
    assert deltas == gaps;
    return true, deltas;
  }

  /** The second loop. */
  method NoneAbove(deltas: seq<real>, maxGap: real) returns (none: bool)
    ensures none <==> forall d :: d in deltas ==> d <= maxGap
  {
    for i := 0 to |deltas|
      invariant forall d :: d in deltas[..i] ==> d <= maxGap
    {
      if deltas[i] > maxGap {
        assert deltas[i] in deltas;
        return false;
      }
      assert deltas[..i + 1] == deltas[..i] + [deltas[i]];
    }
    assert deltas[..|deltas|] == deltas;
    return true;
  }

  /** The largest gap, or 0 when there is none above 0. */
  function LargestGap(samples: seq<Sample>): real {
    var gaps := Gaps(samples);
    if gaps == [] || Sums.Largest(gaps) < 0.0 then 0.0 else Sums.Largest(gaps)
  }

  /** The largest gap is one of the gaps, unless it is 0, and no gap is larger. */
  lemma LargestGapExactly(samples: seq<Sample>)
    ensures LargestGap(samples) >= 0.0 && forall g :: g in Gaps(samples) ==> g <= LargestGap(samples)
    ensures LargestGap(samples) == 0.0 || LargestGap(samples) in Gaps(samples)
  {
  }

  method ComputeTimestampContinuity(samples: seq<Sample>) returns (gapsDetected: bool, largest: real)
    ensures largest == LargestGap(samples)
    ensures gapsDetected
       <==> |samples| >= 2
            && !((forall i, j :: 0 <= i < j < |samples| ==> samples[i].ts < samples[j].ts)
                 && forall g :: g in Gaps(samples) ==> g <= 2.0 * MedianOf(Gaps(samples)))
  {
    if |samples| < 2 {
      return false, 0.0;
    }
    largest := FindLargest(samples);
    gapsDetected := false;
    var consecutive := HasConsecutiveTimestamps(samples);
    if !consecutive {
      gapsDetected := true;
    }
  }

  /** The loop over the gaps. */
  method FindLargest(samples: seq<Sample>) returns (largest: real)
    requires |samples| >= 2
    ensures largest == LargestGap(samples)
  {
    hide Gap;
    ghost var gaps := Gaps(samples);
    largest := 0.0;
    for i := 1 to |samples|
      invariant if i == 1 || Sums.Largest(gaps[..i - 1]) < 0.0 then largest == 0.0 else largest == Sums.Largest(gaps[..i - 1])
    {
      var delta := Gap(samples, i);
      assert gaps[..i][..i - 1] == gaps[..i - 1];
      assert delta == gaps[i - 1] == gaps[..i][i - 1];
      if delta > largest {
        largest := delta;
      }
    }
    assert gaps[..|gaps|] == gaps;
  }

  /** With no gap reported for two samples or more, the largest gap is one of the gaps, no smaller than any of
      them, above 0, and at most twice the median. */
  lemma NoGapReported(samples: seq<Sample>)
    requires |samples| >= 2 && StrictlyAscending(samples) && Even(Gaps(samples))
    ensures var gaps := Gaps(samples);
            && LargestGap(samples) in gaps && (forall g :: g in gaps ==> g <= LargestGap(samples))
            && 0.0 < LargestGap(samples) <= 2.0 * MedianOf(gaps)
  {
    GapsPositiveIffAscending(samples);
    var gaps := Gaps(samples);
    assert Sums.Largest(gaps) in gaps;
  }
}
