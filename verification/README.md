# Verified model of the monitoring engine

A Dafny 4.11 model of the scheduler service's monitoring engine and of the query builder it fetches its rows
with. `dafny verify dfyconfig.toml` checks the whole project.

**The statistical detectors.** Mean, deviation, least squares, median and MAD, and the evaluators built on them
(specification limits, Shewhart, trend, range chart, tool process analysis by regression, robust z-score), with
the handling of samples in between (decoding and reversal, filtering by range, subgroups, timestamp continuity)
and the rule service's validation of their settings. The loops are methods over arrays or sequences, proved
against specification functions; the theorems are about those functions: least-squares optimality, Samuelson's
inequality and what it means for control limits, the median as the minimiser of total deviation, breakdown and
equivariance of median and MAD. Modules `Sums`, `Stats`, `Sorting`, `Medians`, `DetectorTypes`, `SpecLimit`,
`Shewhart`, `Trend`, `RangeChart`, `Tpa`, `RobustZ`, `Samples`, `Continuity`, `Validator`.

**The job registry and the runs.** `Registry` is the class the mutex protects, with the bounded queue, and a step
relation for every interleaving of callers, tickers and workers. `RowCoverage` follows which rows the runs of one
`spec_limit` rule fetch while workers interleave and jobs are replaced, and `RowSkips` says exactly when none is
skipped. `Alerts` is one run on the alert table
and the clock, and what many interleaved runs leave behind under a cooldown.

**Rule events.** `RuleEvents` is the handling of an event about a rule, reconciliation, and handlers at work at
the same time.

**The where clause.** `WhereClause` compiles a where specification into tokens with placeholders and arguments;
`WhereMeaning` gives the tokens a parser with SQL's precedence and an evaluator in three-valued logic, and proves
that the meaning is kept.

Numbers are exact reals, and a square root is a function known only to be one (`Stats.IsSquareRoot`). An instant
is a number of nanoseconds; durations saturate or wrap at 64 bits where the program's do. What a query, a JSON
text, an adapter or the clock answers is a parameter or a free choice of the step relation.

Where the code differs from what one might expect of it, the model follows the code and the difference is a lemma:

- A failed fetch still advances `lastRunAt`, so its rows are never looked at (`RowSkips.FailedFetchSkips`);
  the row limit keeps the newest rows, so the oldest are lost (`RowSkips.RowLimitSkips`). No row is skipped,
  over all runs of the system with so many failed fetches and windows of up to so many rows, if and only if no
  fetch fails and the windows are within the limit (`RowSkips.CoveredExactlyWithinLimit`).
- Two first runs of a rule that overlap can leave a row between their windows, with every fetch successful
  (`RowSkips.OverlappingFirstRunsSkip`). Coverage holds from the start of the latest first-run window on. It
  holds from that of the first one, over all runs of the system with k first runs, if and only if k is at most
  one (`RowSkips.FirstWindowCoversExactlyWhenAlone`).
- The window's start is rounded down to a second and compared with `>=`
  (services/scheduler-service/internal/scheduler/samples.go:34 and cmd/mcp-server/main.go:502), where the comment at
  services/scheduler-service/internal/scheduler/scheduler.go:249 speaks of newer rows only.
- The `mean_shift` branch of the Shewhart chart cannot be taken in exact arithmetic
  (`Shewhart.ZeroSigmaMeansNoDeviation`), and three-sigma limits cannot be violated with ten or fewer samples.
- The comment at services/rule-service/internal/api/stepper_rules.go:134 says that removing the row stops the
  evaluation of a rule; the worker leaves the job of a missing row running (`RuleEvents.DeletedRuleKeepsJob`).
- Event handlers are not mutually exclusive, and a stale one can win (`RuleEvents.OverlappingHandlersDiverge`).
  A rule converges after every further handling if and only if no handler of it at work is about to do anything
  but nothing or what the present row asks for (`RuleEvents.ConvergesExactlyWhenHarmless`).
- Workers are not serial per rule, and two of them can both pass the cooldown
  (`Alerts.OverlappingWorkersBothWrite`); a cooldown of more than 292 years wraps around
  (`Alerts.CooldownIsItsSeconds`). Alerts are the cooldown apart, over all runs of a system with n workers, if and
  only if n is 0, or n is 1 and the cooldown fits a duration (`Alerts.SpacedExactlyWithOneWorker`). The number of
  workers is a setting of the service, by default 4 (services/scheduler-service/cmd/worker/main.go:29).
- The operators `>`, `>=`, `<` and `<=` are looked up without the Unicode space around them and then emitted with
  it, which SQL does not read unless it is SQL's kind of space (`WhereMeaning.NoBreakSpaceNotRead`). The compiled
  text means the specification if and only if all its operators are read, and is no condition otherwise
  (`WhereMeaning.WherePreservesMeaning`).
- A TPA by timestamp with accepted settings fails when its window lies in one second
  (`Validator.OneSecondWindowFails`).

## Model

| member | source | states |
|---|---|---|
| Stats.Mean | services/scheduler-service/internal/scheduler/stats.go:5-14 | the loop's result times the number of values is their sum, also for no values |
| Stats.StdDev | services/scheduler-service/internal/scheduler/stats.go:16-34 | the result is the non-negative number whose square is the variance (0 for too few values) |
| Stats.VarianceExactly | services/scheduler-service/internal/scheduler/stats.go:16-34 | the variance times n, or n − 1 for a sample, is the sum of squared deviations; 0 with fewer values than that takes |
| Stats.DeviationAbout | services/scheduler-service/internal/scheduler/stats.go:16-34 | squared deviations about any c exceed those about the mean by n(mean-c)², for every c and all values |
| Stats.ZeroVarianceIffConstant | services/scheduler-service/internal/scheduler/stats.go:16-34 | the variance is 0 if and only if every value equals the mean |
| Stats.LinearRegression | services/scheduler-service/internal/scheduler/stats.go:36-72 | the two loops compute the regression the theorems below are about, refusals included |
| Stats.RegressionExistsIff | services/scheduler-service/internal/scheduler/stats.go:36-54 | ok if and only if the lengths match and two x values differ (which makes the length at least two) |
| Stats.DenominatorZeroIffConstant | services/scheduler-service/internal/scheduler/stats.go:51-54 | n·Σx² − (Σx)² is never negative, and 0 exactly when all x are equal |
| Stats.NormalEquations | services/scheduler-service/internal/scheduler/stats.go:51-56 | the returned line solves both normal equations |
| Stats.ResidualsDecompose | services/scheduler-service/internal/scheduler/stats.go:36-66 | the residual sum of any line is that of the returned one plus the squared distance of the two lines over the points |
| Stats.LeastSquares | services/scheduler-service/internal/scheduler/stats.go:36-66 | the returned line has the least residual sum of squares of all real lines, and it is the only one that has it |
| Stats.DeterminationInUnitRange | services/scheduler-service/internal/scheduler/stats.go:57-71 | 0 ≤ r2 ≤ 1; r2 is the explained share of the total; r2 is 1 exactly when nothing is left unexplained |
| Sorting.SortInPlace | services/scheduler-service/internal/scheduler/detectors.go:126 | sorting in place gives the sort of the contents |
| Sorting.SortCharacterised | services/scheduler-service/internal/scheduler/detectors.go:126 | being ordered and a rearrangement of the input is all there is to a sort, so any sorting algorithm gives this result |
| Medians.Median | services/scheduler-service/internal/scheduler/detectors.go:120-132 | copying, sorting and taking the middle gives the median of the theorems below; the input is untouched |
| Medians.MAD | services/scheduler-service/internal/scheduler/detectors.go:134-143 | the loop and the median of what it fills give the deviation of the theorems below |
| Medians.MedianIgnoresOrder | services/scheduler-service/internal/scheduler/detectors.go:120-132 | the median depends on the multiset of values only |
| Medians.MedianMinimisesDeviation | services/scheduler-service/internal/scheduler/detectors.go:120-132 | Σ\|v − median\| ≤ Σ\|v − c\| for every real c, with equality exactly for the c between the two middle values |
| Medians.MadZeroIffMajority | services/scheduler-service/internal/scheduler/detectors.go:66-76 | MAD about any centre is 0 if and only if a strict majority of the values equal the centre |
| Medians.MajorityHoldsMedian | services/scheduler-service/internal/scheduler/detectors.go:120-132 | if a strict majority of the values lie in [a, b], so does the median, whatever the rest are |
| Medians.MajorityBoundsMad | services/scheduler-service/internal/scheduler/detectors.go:134-143 | and MAD about the median is at most b − a |
| Medians.MedianEquivariant | services/scheduler-service/internal/scheduler/detectors.go:120-132 | mapping all values by v ↦ a·v + c maps the median likewise, for negative a too |
| Medians.MadEquivariant | services/scheduler-service/internal/scheduler/detectors.go:134-143 | and multiplies MAD by \|a\| |
| RobustZ.EvaluateRobustZ | services/scheduler-service/internal/scheduler/detectors.go:52-90 | the evaluator gives the result of the theorems below |
| RobustZ.GradedExactly | services/scheduler-service/internal/scheduler/detectors.go:66-88 | with MAD not 0: high if and only if 0.6745·distance ≥ zCrit·MAD, medium if and only if it is not and 0.6745·distance ≥ zWarn·MAD, and the score times MAD is 0.6745·(latest − median); with MAD 0: high, with an infinite score, if and only if the distance is above 1e-9; no hit otherwise |
| RobustZ.RobustZEquivariant | services/scheduler-service/internal/scheduler/detectors.go:52-90 | with MAD not 0, mapping all samples and the latest value by a·v + c (a ≠ 0) keeps hit, status and severity and multiplies the score by the sign of a |
| RobustZ.MinorityCannotHide | services/scheduler-service/internal/scheduler/detectors.go:52-90 | when a strict majority of samples lie in a range, a value far enough outside of it is reported as critical, however extreme the other samples are |
| SpecLimit.EvaluateSpecLimit | services/scheduler-service/internal/scheduler/phase1_rules.go:18-92 | the evaluator gives the result of the theorems below |
| SpecLimit.ReportedExactly | services/scheduler-service/internal/scheduler/phase1_rules.go:18-92 | INVALID_CONFIG exactly when the mode's limits are missing; otherwise one violation for each of USL, LSL, UCL, LCL that the mode asks for and the value passes by more than epsilon (0 unless set), under that name, with that limit and by how much; the sample is its own window |
| SpecLimit.SpecLimitResult | services/scheduler-service/internal/scheduler/phase1_rules.go:57-92 | INVALID_CONFIG exactly for settings that lack a limit pair they ask for; a hit exactly when a limit that is to be checked is passed by more than epsilon |
| SpecLimit.EvaluateRows | services/scheduler-service/internal/scheduler/scheduler.go:348-362 | one hit per violating row, in row order, or one single non-hit |
| SpecLimit.ViolatingExactly | services/scheduler-service/internal/scheduler/scheduler.go:351-362 | the violating rows are the rows out of limits, each as often as fetched, and no others |
| SpecLimit.ViolatingInParts | services/scheduler-service/internal/scheduler/scheduler.go:351-358 | violating rows keep the order of the rows |
| Shewhart.EvaluateShewhart | services/scheduler-service/internal/scheduler/phase1_rules.go:94-168 | the evaluator gives the result of the theorems below, the sigma-0 branch included |
| Shewhart.ReportedExactly | services/scheduler-service/internal/scheduler/phase1_rules.go:94-168 | INSUFFICIENT_DATA below the minimum baseline (20 unless set); otherwise a hit if and only if (latest − mean)² is above the squared multiplier times the variance, with exactly one violation: above_ucl against mean + k·σ when above the mean, below_lcl against mean − k·σ when below |
| Shewhart.NegationExchangesLimits | services/scheduler-service/internal/scheduler/phase1_rules.go:139-166 | negating every value exchanges the two violations and changes nothing else |
| Shewhart.Samuelson | services/scheduler-service/internal/scheduler/phase1_rules.go:104-108 | n(vₖ − mean)² ≤ (n−1)·Σ(v − mean)² for every value of every baseline, with equality exactly when all the other values are equal |
| Shewhart.DistanceAgainstSigma | services/scheduler-service/internal/scheduler/phase1_rules.go:104-108 | the same against the multiplier times σ, sample or population: the bound for masked sizes, and that one outlier breaks it for the others |
| Shewhart.MaskedExactlyWhenSmall | services/scheduler-service/internal/scheduler/phase1_rules.go:94-168 | no baseline of n samples can violate a control limit if and only if n is small for the multiplier: (n−1)² ≤ k²·n (sample) or n−1 ≤ k² (population) |
| Shewhart.ThreeSigmaNeedsElevenSamples | services/scheduler-service/internal/scheduler/phase1_rules.go:94-168 | at three sigma that is n ≤ 10, for both kinds of σ |
| Shewhart.ZeroSigmaMeansNoDeviation | services/scheduler-service/internal/scheduler/phase1_rules.go:123-138 | σ = 0 forces every value, and so the latest, to be the mean: mean_shift never fires |
| Trend.EvaluateTrend6 | services/scheduler-service/internal/scheduler/phase1_rules.go:170-227 | the evaluator gives the result of the theorem below |
| Trend.ReportedExactly | services/scheduler-service/internal/scheduler/phase1_rules.go:170-227 | INSUFFICIENT_DATA with fewer samples than the window (6 unless set); otherwise one violation at the newest sample, with its index, if and only if the last values rise or fall by more than epsilon at every step, increasing named first |
| Trend.RiseAccumulates | services/scheduler-service/internal/scheduler/phase1_rules.go:183-186 | a window that rises has gained more than k epsilons after k steps |
| Trend.RiseAndFallOnlyWhenTrivial | services/scheduler-service/internal/scheduler/phase1_rules.go:181-190 | for epsilon ≥ 0 a window is both rising and falling if and only if it is a single sample |
| RangeChart.SubgroupRange | services/scheduler-service/internal/scheduler/phase1_rules.go:396-411 | largest minus smallest value, 0 for an empty group |
| RangeChart.RangeIsWidest | services/scheduler-service/internal/scheduler/phase1_rules.go:396-411 | the range is the largest difference between two of the group's values |
| RangeChart.EvaluateRangeChart | services/scheduler-service/internal/scheduler/phase1_rules.go:229-288 | INSUFFICIENT_DATA exactly with no or too few groups (10 unless set), then INVALID_CONFIG exactly for sizes outside 2 to 10, otherwise the verdict of the theorem below on the ranges and the newest sample's time |
| RangeChart.RangeReportedExactly | services/scheduler-service/internal/scheduler/phase1_rules.go:248-287 | with m ranges: a hit if and only if m·newest is above D4·Σ or below D3·Σ, with exactly one violation that names which, its limit and the distance from it |
| RangeChart.NeverAboveAndBelow | services/scheduler-service/internal/scheduler/phase1_rules.go:248-277 | the newest range is never above and below at once |
| RangeChart.AboveExactlyWhenEnough | services/scheduler-service/internal/scheduler/phase1_rules.go:248-267 | some m subgroups of a size of two or more have their newest range above the limit if and only if m > D4, the newest range being averaged in |
| RangeChart.SubgroupsNeededForAbove | services/scheduler-service/internal/scheduler/constants.go:3-16 | with the factors of the table: above is possible from 4 subgroups on for size 2, from 3 for sizes 3 to 6, and from 2 for 7 to 10 |
| RangeChart.BelowExactlyWhenFactor | services/scheduler-service/internal/scheduler/phase1_rules.go:248-277 | some m subgroups of a supported size have their newest range below the limit if and only if m ≥ 2 and the size is at least 7 |
| RangeChart.EqualRangesNeverViolate | services/scheduler-service/internal/scheduler/phase1_rules.go:248-286 | equal ranges never violate |
| Tpa.Centre | services/scheduler-service/internal/scheduler/phase1_rules.go:313-319 | centring in place subtracts the first x from every x |
| Tpa.EvaluateTPA | services/scheduler-service/internal/scheduler/phase1_rules.go:290-384 | although it centres, the evaluator's verdict is that of the regression over the uncentred window |
| Tpa.SlopeReportedExactly | services/scheduler-service/internal/scheduler/phase1_rules.go:343-383 | a slope within epsilon is fine; otherwise a threshold of time without the limits it requires is INVALID_CONFIG, and a hit is reported if and only if the slope is steep enough or the latest value, moving with the slope, is at the limit ahead at some time from 0 to the threshold; one violation for each, in this order |
| Tpa.OnlyTheWindowMatters | services/scheduler-service/internal/scheduler/phase1_rules.go:294-298 | samples older than the window make no difference |
| Tpa.SlopePerSample | services/scheduler-service/internal/scheduler/phase1_rules.go:303-312 | by position, values a·i + b are judged by the slope a per sample |
| Tpa.SlopePerSecond | services/scheduler-service/internal/scheduler/phase1_rules.go:299-312 | by timestamp, which is the default, values on a line over Unix seconds are judged by its slope per second |
| Tpa.CentringHarmless | services/scheduler-service/internal/scheduler/phase1_rules.go:313-320 | for every shift x₀ of all x: ok, slope and r2 are unchanged, the intercept moves by slope·x₀ |
| Tpa.ExactLineRecovered | services/scheduler-service/internal/scheduler/stats.go:36-72 | all points lie on y = a·x + b if and only if the regression returns a, b and r2 = 1 |
| Tpa.TimeToSpecReachesLimit | services/scheduler-service/internal/scheduler/phase1_rules.go:386-394 | the time to spec is the one t with current + slope·t equal to the limit ahead; it exists exactly when there is such a limit, and is negative exactly when that limit is passed |
| Tpa.RegressionOverWindow | services/scheduler-service/internal/scheduler/phase1_rules.go:303-323 | the regression succeeds if and only if the basis is not timestamp or two samples differ in their Unix second |
| Samples.DecodeRows | services/scheduler-service/internal/scheduler/samples.go:40-73 | the usable rows as samples, in reverse order |
| Samples.ReversePrefix | services/scheduler-service/internal/scheduler/samples.go:69-72 | the swaps reverse the array in place |
| Samples.DecodedOldestFirst | services/scheduler-service/internal/scheduler/samples.go:40-73 | rows newest first become samples oldest first, exactly those of the usable rows |
| Samples.UsableRow | services/scheduler-service/internal/scheduler/samples.go:41-64 | a row is usable exactly with a finite number and a readable time, which become the sample's, with the subgroup if it is asked for and there |
| Samples.UsableInParts | services/scheduler-service/internal/scheduler/samples.go:40-65 | usable rows keep their order, and each is kept |
| Samples.FilterSamplesByRange | services/scheduler-service/internal/scheduler/samples.go:76-91 | the filter of the two lemmas below, the two early returns included |
| Samples.WithinExactly | services/scheduler-service/internal/scheduler/samples.go:76-91 | each sample of the closed range is kept as often as it was there, and no other |
| Samples.WithinInParts | services/scheduler-service/internal/scheduler/samples.go:80-90 | the order of the samples is kept |
| Samples.WithinKeepsOrder | services/scheduler-service/internal/scheduler/samples.go:76-91 | the order of time is kept |
| Samples.GroupConsecutive | services/scheduler-service/internal/scheduler/samples.go:93-104 | blocks of the given size whose concatenation is a prefix that leaves out fewer than size samples; none for size ≤ 0 |
| Samples.ConsecutiveGroupsUnique | services/scheduler-service/internal/scheduler/samples.go:93-104 | that contract has one solution only, with ⌊n/size⌋ blocks |
| Samples.GroupBySubgroup | services/scheduler-service/internal/scheduler/samples.go:106-128 | the map and the sorted key list give the groups of the two lemmas below |
| Samples.GroupsByKeyExactly | services/scheduler-service/internal/scheduler/samples.go:106-128 | the groups are the first size samples of exactly those non-empty keys that have at least size samples |
| Samples.GroupsInKeyOrder | services/scheduler-service/internal/scheduler/samples.go:118-127 | the groups have different keys and come in increasing order of them |
| Samples.WithKeyExactly | services/scheduler-service/internal/scheduler/samples.go:109-117 | each sample is with its own key as often as it was there, and with no other |
| Samples.WithKeyInParts | services/scheduler-service/internal/scheduler/samples.go:109-117 | in their order |
| Samples.KeyOrderExactly | services/scheduler-service/internal/scheduler/samples.go:118 | the order of keys: a beginning before the whole, otherwise by the first character in which they differ |
| Continuity.HasConsecutiveTimestamps | services/scheduler-service/internal/scheduler/samples.go:130-153 | for two or more samples: true exactly when every timestamp is later than all before it and no gap exceeds twice the median gap |
| Continuity.MedianOfPositive | services/scheduler-service/internal/scheduler/samples.go:142-145 | the median of positive gaps is positive: the zero-median branch is unreachable |
| Continuity.ComputeTimestampContinuity | services/scheduler-service/internal/scheduler/stepper.go:298-314 | gaps are reported exactly when the timestamps are not consecutive; the largest gap, or 0 if none is positive |
| Continuity.LargestGapExactly | services/scheduler-service/internal/scheduler/stepper.go:302-309 | the largest gap is no smaller than any gap, and one of them unless it is 0 |
| Continuity.NoGapReported | services/scheduler-service/internal/scheduler/stepper.go:298-314 | when no gap is reported the largest gap is a gap, the maximum of all, positive and at most twice the median |
| Validator.AcceptedExactly | services/rule-service/internal/rules/validator.go:73-210 | the settings that are accepted, of each of the eight detectors: these and no others |
| Validator.BaselineAccepted | services/rule-service/internal/rules/validator.go:186-202 | a baseline is accepted if and only if it has either a number of samples of at least one, or a time range with both ends, and not both |
| Validator.BaselineRefusals | services/rule-service/internal/rules/validator.go:186-202 | which setting and problem a refused baseline names |
| Validator.RobustZRefusals | services/rule-service/internal/rules/validator.go:90-95 | the same for robust_zscore, windows before samples |
| Validator.ThresholdRefusals | services/rule-service/internal/rules/validator.go:79-85 | for threshold |
| Validator.SpecLimitRefusals | services/rule-service/internal/rules/validator.go:107-119 | for spec_limit, mode before specification limits before control limits |
| Validator.ShewhartRefusals | services/rule-service/internal/rules/validator.go:124-132 | for shewhart, baseline first |
| Validator.RangeChartRefusals | services/rule-service/internal/rules/validator.go:137-152 | for range_chart, size before baseline before subgrouping |
| Validator.TrendAndTpaRefusals | services/rule-service/internal/rules/validator.go:157-179 | for trend and tpa |
| Validator.DetectorRefusals | services/rule-service/internal/rules/validator.go:73-184 | settings that are missing, a gap shorter than the poll interval, an unsupported detector, and otherwise the problem of the detector's own settings |
| Validator.EvaluateAccepted | services/scheduler-service/internal/scheduler/phase1_rules.go:18-384 | accepted settings meet every precondition of their evaluator on any samples, each row of a spec_limit included, and any subgroups, and give INVALID_CONFIG exactly for a TPA by timestamp whose window lies in one Unix second |
| Validator.AcceptedTpa | services/scheduler-service/internal/scheduler/phase1_rules.go:290-323 | that exact condition, for every accepted TPA and all samples |
| Validator.OneSecondWindowFails | services/scheduler-service/internal/scheduler/phase1_rules.go:306-323 | the exception occurs |
| Registry.Registry.Schedule | services/scheduler-service/internal/scheduler/scheduler.go:79-93 | closes the rule's job if it has one, creates an open job with the persisted last run and makes it current; other jobs are untouched |
| Registry.Registry.Unschedule | services/scheduler-service/internal/scheduler/scheduler.go:95-102 | closes and removes the rule's job, if it has one |
| Registry.Registry.Stop | services/scheduler-service/internal/scheduler/scheduler.go:69-77 | cancels, closes exactly the current jobs, whatever the order, and empties the map |
| Registry.Registry.Send | services/scheduler-service/internal/scheduler/scheduler.go:120 | a run of the job goes to the end of the queue unless that holds 128 |
| Registry.Registry.Receive | services/scheduler-service/internal/scheduler/scheduler.go:132 | the oldest run leaves the queue |
| Registry.RegistrySafety | services/scheduler-service/internal/scheduler/scheduler.go:69-138 | over every interleaving: a job is current and open or has been closed exactly once; one unstopped job per rule; at most 128 queued; sent runs are the taken ones followed by the queued ones in order, and taken ones are those executing and those finished |
| Registry.LatestScheduleWins | services/scheduler-service/internal/scheduler/scheduler.go:69-138 | over every interleaving: which rules have a job, and with which specification, follows from the calls alone, the latest one of a rule deciding |
| Registry.RunsCarryTheirSchedule | services/scheduler-service/internal/scheduler/scheduler.go:114-127 | rule, specification and adapter of every run are those of one call of Schedule |
| Registry.ReturnedTickerIsSilent | services/scheduler-service/internal/scheduler/scheduler.go:114-127 | a job whose ticker has returned sends nothing more |
| Registry.CancelledForGood | services/scheduler-service/internal/scheduler/scheduler.go:69-77 | once a stop has begun, every ticker that is not blocked and every idle worker may return, over every interleaving |
| RowCoverage.NoRowSkipped | services/scheduler-service/internal/scheduler/scheduler.go:141-251 | over every interleaving with whole fetches: for every value of lastRunAt in memory or in the database, each row stamped before it, from the latest first-run window on, has been fetched |
| RowCoverage.NoRowSkippedAfterFirstRun | services/scheduler-service/internal/scheduler/scheduler.go:159-172 | with one first run only: from the start of the first window on |
| RowSkips.FirstWindowCoversExactlyWhenAlone | services/scheduler-service/internal/scheduler/scheduler.go:159-172 | whatever the settings: in every run of the system with k first runs and whole fetches, each row from the first window's start up to a stored value has been fetched, if and only if k ≤ 1 |
| RowSkips.CoveredExactlyWithinLimit | services/scheduler-service/internal/scheduler/scheduler.go:186-250 | whatever the settings: in every run of the system with f failed fetches and windows of at most m rows, each row from the latest first-run window's start up to a stored value has been fetched, if and only if f = 0 and m is within the row limit |
| RowCoverage.UnfetchedRowStaysInWindow | services/scheduler-service/internal/scheduler/scheduler.go:336-347 | a row not fetched yet is in the window of every run that starts from a stored value |
| RowCoverage.WindowStartsExactly | services/scheduler-service/internal/scheduler/scheduler.go:163-172 | a window starts in the second of lastRunAt, and without it in the second one poll interval before now, 60 seconds for an interval that is not positive |
| RowCoverage.RestartContinues | services/scheduler-service/internal/scheduler/scheduler.go:86-90 | a job scheduled after a run was persisted starts from that run's start, in whole microseconds |
| RowCoverage.WithinLimitIsWhole | cmd/mcp-server/main.go:456-459 | a query returns its whole window if and only if the window is within the limit |
| RowSkips.OverlappingFirstRunsSkip | services/scheduler-service/internal/scheduler/scheduler.go:159-172 | for all settings, overlapping first runs skip a row that is after the first window's start, with every fetch whole |
| RowSkips.FailedFetchSkips | services/scheduler-service/internal/scheduler/scheduler.go:187-190 | for all settings and any number of failures, one or more: failed fetches skip a row, with every other window empty |
| RowSkips.RowLimitSkips | cmd/mcp-server/main.go:456-508 | for every setting of the limit: a window of one row more than it loses its oldest row |
| Alerts.CooldownIsItsSeconds | services/scheduler-service/internal/monitor/cooldown.go:5-7 | the check means fewer than the given seconds since the last alert, for all clock readings, if and only if those seconds fit a 64-bit duration |
| Alerts.LastAlertIsLatest | services/scheduler-service/internal/storage/repository.go:84-94 | the last alert of a key is the latest of them, and is one of them |
| Alerts.Monitor.GetLastAlertForKey | services/scheduler-service/internal/storage/repository.go:84-94 | the latest timestamp of the alerts of the rule, parameter and detector type |
| Alerts.Monitor.CreateAlert | services/scheduler-service/internal/storage/repository.go:67-73 | one alert more, cut to microseconds |
| Alerts.Monitor.UpdateLastRunAt | services/scheduler-service/internal/storage/repository.go:61-65 | sets the value of that rule's row, cut to microseconds, if it has one, and of no other |
| Alerts.Monitor.Handle | services/scheduler-service/internal/scheduler/scheduler.go:191-245 | what one result makes of the alerts, with its two clock readings in order; the theorems below say what that is |
| Alerts.Monitor.Execute | services/scheduler-service/internal/scheduler/scheduler.go:174-251 | the alerts written are those of the parameters that did not fail, in order, under the cooldown; lastRunAt becomes the start of the run in memory and in the database, whatever failed; nothing changes without parameters |
| Alerts.EventsInParts | services/scheduler-service/internal/scheduler/scheduler.go:186-194 | the results of a run are those of its parameters, in order |
| Alerts.EventsOfOne | services/scheduler-service/internal/scheduler/scheduler.go:187-190 | a parameter that fails has none, and otherwise all of its own |
| Alerts.WrittenAreHits | services/scheduler-service/internal/scheduler/scheduler.go:191-245 | the old alerts stay, and every new one has the job's rule, the name and detector type of the parameter whose hit it is, that hit's content and its time |
| Alerts.HitsWrittenOrHeldBack | services/scheduler-service/internal/scheduler/scheduler.go:199-245 | every hit is written, or an alert of the same rule, parameter and detector type stands within a positive cooldown before it |
| Alerts.OnlyOwnHitsMatter | services/scheduler-service/internal/scheduler/scheduler.go:200-203 | the alerts of a key after a run are those of a run with the hits of that parameter and detector type alone |
| Alerts.OtherRulesAlertsKept | services/scheduler-service/internal/scheduler/scheduler.go:200-245 | the alerts of other rules are not touched |
| Alerts.ExecuteTakesSteps | services/scheduler-service/internal/scheduler/scheduler.go:186-247 | a run of Execute is a run of the interleaved steps, so the results below hold for it |
| Alerts.AlertsSpaced | services/scheduler-service/internal/scheduler/scheduler.go:191-246 | over every interleaving that is serial per rule: stored alerts of one rule, parameter and detector type are at least the cooldown apart |
| Alerts.SpacedExactlyWithOneWorker | services/scheduler-service/internal/scheduler/scheduler.go:51-67 | for every cooldown of c > 0 seconds: alerts of each key are c apart in every run of a system with n workers, if and only if n = 0, or n = 1 and c fits a 64-bit duration |
| Alerts.OneWorkerIsSerial | services/scheduler-service/internal/scheduler/scheduler.go:129-138 | a system with one worker is serial in every run |
| Alerts.AlertsBounded | services/scheduler-service/internal/scheduler/scheduler.go:191-246 | any interval of length T holds at most ⌊T/cooldown⌋ + 1 of them |
| Alerts.SwallowedOnlyInCooldown | services/scheduler-service/internal/scheduler/scheduler.go:199-204 | over every interleaving, the look-up and the reading of the clock being two steps: a swallowed hit came less than the cooldown after a stored alert of its key |
| Alerts.OverlappingWorkersBothWrite | services/scheduler-service/internal/scheduler/scheduler.go:199-204 | with two workers two equal alerts of any key at one instant are possible, whatever the cooldown |
| Alerts.WrappedCooldownLetsThrough | services/scheduler-service/internal/scheduler/scheduler.go:199-204 | with one worker, a cooldown that does not fit a duration lets a hit through before its seconds are over |
| RuleEvents.Handlers.ProcessRule | services/scheduler-service/cmd/worker/main.go:146-190 | the worker's branches give the world and the failure of the theorems below |
| RuleEvents.ProcessedExactly | services/scheduler-service/cmd/worker/main.go:146-190 | case by case: a missing row changes nothing; a disabled one drops the job; undecodable JSON marks it INVALID and keeps the job; otherwise the rule has a job, of the stored specification and that adapter, and status ACTIVE, if and only if its connection is known, adapters are configured, one for its type, and the specification is not rejected; if not, no job and INVALID with the error of the first of these that fails; nothing else changes |
| RuleEvents.FailsExactly | services/scheduler-service/cmd/worker/main.go:146-190 | the caller gets an error exactly for a missing row or an enabled one that ends up INVALID |
| RuleEvents.Handlers.UpdateRuleStatus | services/scheduler-service/internal/storage/repository.go:55-59 | sets status and error of that row, if it is there, and nothing else of any row |
| RuleEvents.Handlers.Reconcile | services/scheduler-service/cmd/worker/main.go:135-144 | handles exactly the enabled rules |
| RuleEvents.ProcessedConverges | services/scheduler-service/cmd/worker/main.go:146-190 | after one handling a rule that is disabled or decodes has a job if and only if it is enabled and passes, and that job's specification is the stored one; for other rules the registry is unchanged |
| RuleEvents.ProcessedTwice | services/scheduler-service/cmd/worker/main.go:146-190 | handling again changes nothing |
| RuleEvents.ProcessedCommutes | services/scheduler-service/cmd/worker/main.go:146-190 | handlings of different rules commute |
| RuleEvents.ReconcileOrderIrrelevant | services/scheduler-service/cmd/worker/main.go:135-144 | neither the order of the rules nor repetitions make a difference |
| RuleEvents.ReconcileConverges | services/scheduler-service/cmd/worker/main.go:135-144 | every enabled rule that decodes has converged; the jobs of all other rules are left as they were |
| RuleEvents.EventsConverge | services/scheduler-service/cmd/worker/main.go:74-89 | handlers of all rules interleaved in any way, last_run_at stored and the row written again with the same definition: if every handler of the rule at work will do nothing or what the present row asks for, the rule has converged once a handling that does the latter has ended, and stays so |
| RuleEvents.ConvergesExactlyWhenHarmless | services/scheduler-service/cmd/worker/main.go:74-89 | for every state and rule that can be decided about: it has converged after all continuations with a whole handling of it if and only if that holds of its handlers at work |
| RuleEvents.AloneIsProcessed | services/scheduler-service/cmd/worker/main.go:146-190 | a handling with nothing in between is the atomic one |
| RuleEvents.UndecidableKeepsJob | services/scheduler-service/cmd/worker/main.go:147-159 | a missing row, or an enabled one with undecodable JSON, keeps whatever job it had through any number of handlings, if no handler at work would change it |
| RuleEvents.UndecidableKeepsJobExactly | services/scheduler-service/cmd/worker/main.go:147-159 | and it keeps it in all continuations only if no handler of it at work would |
| RuleEvents.DeletedRuleKeepsJob | services/scheduler-service/cmd/worker/main.go:147-150 | so a deleted rule keeps its job |
| RuleEvents.OverlappingHandlersDiverge | services/scheduler-service/cmd/worker/main.go:74-89 | such a handler comes about: one that read the row before the last write can act last, and leave a disabled rule with a job, all handlings having ended |
| WhereClause.BuildWhereClause | cmd/mcp-server/main.go:542-585 | the loops emit the tokens, arguments and next index of the theorems below, or the first clause's error |
| WhereClause.AssembleCondition | cmd/mcp-server/main.go:405-420 | the time bound, and the where text in parentheses if there is any, with since as the first argument |
| WhereMeaning.WherePreservesMeaning | cmd/mcp-server/main.go:542-585 | parsed with SQL's precedence and evaluated with its arguments, the emitted text means the specification, for every clause list, joiner, dialect and row, if SQL reads all its operators; otherwise it is no condition |
| WhereMeaning.AssembledPreservesMeaning | cmd/mcp-server/main.go:498-516 | the assembled condition means the time bound AND the specification, for OR joiners too, or is no condition, in the same two cases |
| WhereMeaning.JoinedByKind | cmd/mcp-server/main.go:546-549 | the text means any of the clauses if the kind is or, in any case of its letters, and all of them for every other kind |
| WhereMeaning.AssembledByKind | cmd/mcp-server/main.go:546-549 | the same for the assembled condition, conjoined with the time bound |
| WhereMeaning.AllOfExactly | cmd/mcp-server/main.go:584 | all: true when every clause is, false when some clause is |
| WhereMeaning.AnyOfExactly | cmd/mcp-server/main.go:584 | any: true when some clause is, false when every clause is |
| WhereMeaning.AnyEqualExactly | cmd/mcp-server/main.go:562-574 | IN: true when some item equals, false when every item differs |
| WhereMeaning.PlaceholdersInOrder | cmd/mcp-server/main.go:561-584 | placeholders are exactly startIndex up to the returned index in text order, one per argument, in both dialects |
| WhereMeaning.AssembledPlaceholdersInOrder | cmd/mcp-server/main.go:411-435 | with since in front, the k-th placeholder binds the k-th argument |
| WhereMeaning.NumberedExactlyForPostgres | cmd/mcp-server/main.go:613-618 | placeholders are numbered exactly for a database type that begins with post, in any case of its letters |
| WhereMeaning.OperatorReadExactly | cmd/mcp-server/main.go:587-602 | an operator that is let through is read by SQL if and only if it is not an ordering emitted with space that is not SQL's; and then it compares as the one that was asked for, however it was spelt |
| WhereMeaning.OperatorMeans | cmd/mcp-server/main.go:587-602 | each of the ten operators, in any case of its letters and with any space around it, is let through and asks for its comparison |
| WhereMeaning.OperatorsLetThrough | cmd/mcp-server/main.go:587-602 | and nothing else is let through |
| WhereMeaning.SafeNamesExactly | cmd/mcp-server/main.go:630-634 | names let through are a letter or underscore followed by letters, underscores and digits |
| WhereMeaning.RefusedExactly | cmd/mcp-server/main.go:552-567 | a clause is refused for its name, else for its operator, else for an IN without items, and for nothing else |
| WhereMeaning.NoBreakSpaceNotRead | cmd/mcp-server/main.go:588-594 | a no-break space before `>=` is let through, and SQL does not read the operator |
| WhereMeaning.ReadableIffAllAre | cmd/mcp-server/main.go:552-582 | a clause list is readable exactly when each of its operators is |
| WhereMeaning.RefusedForFirstError | cmd/mcp-server/main.go:552-571 | a specification is refused with the error of the first clause that has one |
| WhereMeaning.NoErrorIffAllFine | cmd/mcp-server/main.go:552-571 | and with none exactly when no clause has one |

## Left out

- Floating point: rounding, overflow, NaN and infinity. Arithmetic is exact; decoding drops cells that are not finite numbers, as the code does.
- The square root's value: the evaluators take any function that is one, so σ is only known by its square.
- The sorting algorithms of the library: modelled by an insertion sort; `Sorting.SortCharacterised` says that the result does not depend on it.
- SQL as text: quoting of identifiers, the SELECT list, and the rest of SQL's grammar. SQL's space is what every version of the databases takes for it; those that also read a vertical tab read more.
- Lower case beyond what can give ASCII text, and texts that are not valid UTF-8: adapter names are taken to be ASCII.
- Metadata maps, `buildExplain`, observed values and limit expressions as text: presentation.
- The threshold and missing-data evaluators, aggregation, `clampLimit`, defaulting, and column configuration: they would only add easy members.
- Baseline windows (`baseline.go`) and the early return of the chart detectors when their newest sample is not newer than `lastRunAt`.
- HTTP handlers, NATS and MCP transports, JSON decoding, encryption, the prompt parser: what they deliver is a parameter.
- Validator.EvaluateAccepted: the validation of parameters, poll intervals and sources around the detectors is not modelled.
- Samples.GroupBySubgroup: subgroup values are given as text, and text is compared by characters, not bytes; a negative size, for which the code panics, is excluded.
- Shewhart.EvaluateShewhart: a negative minimum baseline with no samples, for which the code panics, is excluded.
- Trend.EvaluateTrend6: a negative window, for which the code panics, is excluded.
- Liveness: that a blocked send, a tick or a worker ever gets its turn. Tickers fire at any time, not at intervals; a ticker's panic on a non-positive interval is not modelled. Timeouts of contexts are failures of the calls they end.
- RowCoverage.NoRowSkipped: from the start of the latest first-run window instead of the first one, because the stronger statement is false; `RowSkips.FirstWindowCoversExactlyWhenAlone` and `RowSkips.CoveredExactlyWithinLimit` say when it holds. It is about rows that are visible from their timestamp on, one parameter, and rows given to a run; cells that do not decode are dropped after that.
- A non-decreasing `lastRunAt` and evaluation exactly once: the code provides neither.
- Alerts.AlertsSpaced: reading and writing alerts succeeds, cooldowns of a rule are fixed and fit a duration, the clock never goes back, and no two workers have hits of one rule at once; `Alerts.SpacedExactlyWithOneWorker` has the exact condition. The code lets a failed read through as if there were no alert.
- Alerts.Monitor.Execute: what the parameters evaluate to is given, and is evaluated before the first alert is written; the contents of an alert are opaque.
- RuleEvents.EventsConverge: connections, adapters and the outcome of validation stay the same meanwhile; updates of the status succeed.
- RuleEvents.Handlers.Reconcile: a failure to list the rules, after which nothing is handled.
