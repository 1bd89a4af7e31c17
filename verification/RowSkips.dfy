/** When rows are skipped: the exact conditions for none to be, and the runs of the system that skip one. */
module RowSkips {
  import opened Common
  import opened RowCoverage

  lemma {:induction false} ExecOneMore(settings: Settings, s: State, steps: seq<Step>, step: Step)
    requires Exec(settings, s, steps).Some? && Enabled(settings, Exec(settings, s, steps).value, step)
    ensures Exec(settings, s, steps + [step]) == Some(Apply(settings, Exec(settings, s, steps).value, step))
    decreases |steps|
  {
    if steps == [] {
      assert ([] + [step])[1..] == [];
    } else {
      ExecOneMore(settings, Apply(settings, s, steps[0]), steps[1..], step);
      assert (steps + [step])[1..] == steps[1..] + [step];
    }
  }

  /** Takes one more step of a run that is being built up. */
  lemma Then(settings: Settings, init: State, steps: seq<Step>, s: State, step: Step)
    returns (more: seq<Step>, t: State)
    requires Exec(settings, init, steps) == Some(s) && Enabled(settings, s, step)
    ensures Exec(settings, init, more) == Some(t) && (more, t) == (steps + [step], Apply(settings, s, step))
  {
    ExecOneMore(settings, init, steps, step);
    more, t := steps + [step], Apply(settings, s, step);
  }

  /** A row is skipped: the value is remembered, the row is stamped between start and value, and it has not
      been fetched. */
  predicate Skipped(s: State, r: Row, start: Option<int>, value: int) {
    Remembered(s, value) && r in s.table && start.Some? && start.value <= r.ts < value && r !in s.fetched
  }

  /** The moment the runs below start from, and the start of the first window then. */
  const NOON: int := 43_200 * SECOND

  function FirstSince(settings: Settings): int {
    WindowSince(settings, None, NOON)
  }

  /** A first run that has fetched its window from an empty table. */
  function FirstRunFetched(settings: Settings): State {
    State(NOON, {}, [None], None, [Run(0, NOON, Fetched)], {}, Some(FirstSince(settings)), Some(FirstSince(settings)),
          1, true, 0, 0)
  }

  lemma FirstRunFetches(settings: Settings) returns (steps: seq<Step>)
    ensures Exec(settings, Initial(NOON), steps) == Some(FirstRunFetched(settings))
  {
    hide WindowSince;
    var init, s := Initial(NOON), Initial(NOON);
    steps, s := Then(settings, init, [], init, Schedule);
    steps, s := Then(settings, init, steps, s, Begin(0));
    steps, s := Then(settings, init, steps, s, ReadLast(0));
    steps, s := Then(settings, init, steps, s, ComputeWindow(0));
    assert RowsSince({}, FirstSince(settings)) == {};
    steps, s := Then(settings, init, steps, s, Fetch(0, {}));
    assert s == FirstRunFetched(settings);
  }

  /** A row has come, and a second first run has read lastRunAt before the first one stored it. */
  function SecondFirstRun(settings: Settings): State {
    FirstRunFetched(settings).(now := NOON + 1, table := {Row(0, NOON)},
      runs := [Run(0, NOON, Fetched), Run(0, NOON + 1, Read(None))])
  }

  lemma SecondFirstRunReads(settings: Settings) returns (steps: seq<Step>)
    ensures Exec(settings, Initial(NOON), steps) == Some(SecondFirstRun(settings))
  {
    hide Exec, WindowSince;
    var init, s := Initial(NOON), FirstRunFetched(settings);
    steps := FirstRunFetches(settings);
    steps, s := Then(settings, init, steps, s, Insert(Row(0, NOON)));
    steps, s := Then(settings, init, steps, s, Tick(NOON + 1));
    steps, s := Then(settings, init, steps, s, Begin(0));
    steps, s := Then(settings, init, steps, s, ReadLast(1));
    assert s == SecondFirstRun(settings);
  }

  /** How much later a first window starts after noon. */
  function LateEnough(settings: Settings): (t: int)
    ensures t > NOON + 1 && WindowSince(settings, None, t) > NOON
  {
    NOON + ((if settings.pollIntervalSeconds <= 0 then 60 else settings.pollIntervalSeconds) + 2) * SECOND
  }

  /** The start of the first window would not do in NoRowSkipped: two first runs that overlap can leave a row
      between their windows, although every fetch returned its whole window. */
  lemma OverlappingFirstRunsSkip(settings: Settings) returns (steps: seq<Step>, s: State)
    ensures Exec(settings, Initial(NOON), steps) == Some(s)
    ensures s.complete && s.firstRuns == 2 && s.persisted == None
    ensures Skipped(s, Row(0, NOON), s.firstStart, NOON + 1)
  {
    hide Exec, WindowSince;
    var init, late := Initial(NOON), LateEnough(settings);
    steps := SecondFirstRunReads(settings);
    s := SecondFirstRun(settings);
    steps, s := Then(settings, init, steps, s, Tick(late));
    steps, s := Then(settings, init, steps, s, ComputeWindow(1));
    assert RowsSince(s.table, WindowSince(settings, None, late)) == {};
    steps, s := Then(settings, init, steps, s, Fetch(1, {}));
    steps, s := Then(settings, init, steps, s, Store(1));
    assert s.lastRunAt[0] == Some(NOON + 1);
  }

  /** A rule that is scheduled again before a run of it has been persisted has a first run once more, which
      makes up for nothing. */
  lemma OneMoreFirstRun(settings: Settings, init: State, before: seq<Step>, was: State, r: Row, value: int)
    returns (steps: seq<Step>, s: State)
    requires Exec(settings, init, before) == Some(was) && was.persisted == None && was.complete
    requires Skipped(was, r, was.firstStart, value)
    ensures Exec(settings, init, steps) == Some(s) && s.persisted == None && s.complete
    ensures s.firstRuns == was.firstRuns + 1 && Skipped(s, r, s.firstStart, value)
  {
    var j, i := |was.lastRunAt|, |was.runs|;
    steps, s := Then(settings, init, before, was, Schedule);
    steps, s := Then(settings, init, steps, s, Begin(j));
    steps, s := Then(settings, init, steps, s, ReadLast(i));
    steps, s := Then(settings, init, steps, s, ComputeWindow(i));
    assert forall v :: v in was.lastRunAt ==> v in s.lastRunAt by {
      assert s.lastRunAt == was.lastRunAt + [None];
    }
  }

  lemma {:induction false} FirstRunsSkip(settings: Settings, k: nat) returns (steps: seq<Step>, s: State)
    requires k >= 2
    ensures Exec(settings, Initial(NOON), steps) == Some(s) && s.persisted == None && s.complete
    ensures s.firstRuns == k && Skipped(s, Row(0, NOON), s.firstStart, NOON + 1)
    decreases k
  {
    if k == 2 {
      steps, s := OverlappingFirstRunsSkip(settings);
    } else {
      steps, s := FirstRunsSkip(settings, k - 1);
      steps, s := OneMoreFirstRun(settings, Initial(NOON), steps, s, Row(0, NOON), NOON + 1);
    }
  }

  /** A run of the system with whole fetches and k first runs that ends with a stored value. */
  predicate RunOf(settings: Settings, now: int, steps: seq<Step>, k: nat, value: int) {
    var t := Exec(settings, Initial(now), steps);
    t.Some? && t.value.complete && t.value.firstRuns == k && Remembered(t.value, value)
  }

  predicate CoveredFromFirst(settings: Settings, now: int, steps: seq<Step>, value: int) {
    var t := Exec(settings, Initial(now), steps);
    t.Some? && t.value.firstStart.Some? && CoveredFrom(t.value, t.value.firstStart.value, value)
  }

  /** Exactly when the start of the first window does, whatever the settings: it does in every run of the
      system with k first runs if and only if k is at most one. */
  lemma FirstWindowCoversExactlyWhenAlone(settings: Settings, k: nat)
    ensures (forall now, steps, value ::
               RunOf(settings, now, steps, k, value) ==> CoveredFromFirst(settings, now, steps, value))
       <==> k <= 1
  {
    if k <= 1 {
      forall now, steps, value | RunOf(settings, now, steps, k, value)
        ensures CoveredFromFirst(settings, now, steps, value)
      {
        NoRowSkippedAfterFirstRun(settings, now, steps, value);
      }
    } else {
      var steps, s := FirstRunsSkip(settings, k);
      assert RunOf(settings, NOON, steps, k, NOON + 1);
      assert !CoveredFromFirst(settings, NOON, steps, NOON + 1);
    }
  }

  // ----- failed fetches and the row limit

  /** Without failures and with windows within the row limit, every fetch is whole. */
  predicate WholeWithinLimit(settings: Settings, s: State) {
    s.failed == 0 && s.widest <= RowLimit(settings.maxRows) ==> s.complete
  }

  lemma {:induction false} ExecKeepsWhole(settings: Settings, s: State, steps: seq<Step>)
    requires Exec(settings, s, steps).Some? && WholeWithinLimit(settings, s)
    ensures WholeWithinLimit(settings, Exec(settings, s, steps).value)
    decreases |steps|
  {
    if steps != [] {
      hide RowLimit, WindowSince;
      var t := Apply(settings, s, steps[0]);
      if steps[0].Fetch? {
        WithinLimitIsWhole(steps[0].rows, RowsSince(s.table, s.runs[steps[0].run].phase.since), RowLimit(settings.maxRows));
      }
      ExecKeepsWhole(settings, t, steps[1..]);
    }
  }

  /** A row of every nanosecond from noon on. */
  function NewRows(n: nat): set<Row> {
    if n == 0 then {} else NewRows(n - 1) + {Row(n - 1, NOON + n - 1)}
  }

  lemma {:induction false} NewRowsAre(n: nat)
    ensures forall r :: r in NewRows(n) <==> r.id < n && r.ts == NOON + r.id
    ensures |NewRows(n)| == n
  {
    if n > 0 {
      NewRowsAre(n - 1);
    }
  }

  /** A first run that is over, and rows that came after it. */
  function RowsWaiting(settings: Settings, n: nat): State {
    FirstRunFetched(settings).(table := NewRows(n), lastRunAt := [Some(NOON)], runs := [Run(0, NOON, Stored)])
  }

  lemma {:induction false} RowsAfterFirstRun(settings: Settings, n: nat) returns (steps: seq<Step>)
    ensures Exec(settings, Initial(NOON), steps) == Some(RowsWaiting(settings, n))
  {
    hide Exec, WindowSince;
    var init, s := Initial(NOON), FirstRunFetched(settings);
    if n == 0 {
      steps := FirstRunFetches(settings);
      steps, s := Then(settings, init, steps, s, Store(0));
    } else {
      steps := RowsAfterFirstRun(settings, n - 1);
      steps, s := Then(settings, init, steps, RowsWaiting(settings, n - 1), Insert(Row(n - 1, NOON + n - 1)));
    }
    assert s == RowsWaiting(settings, n);
  }

  /** A second run, started when the rows are there, is about to fetch them. */
  function AboutToFetch(settings: Settings, n: nat): State {
    RowsWaiting(settings, n).(now := NOON + n, runs := [Run(0, NOON, Stored), Run(0, NOON + n, Windowed(NOON))])
  }

  lemma SecondRunReady(settings: Settings, n: nat) returns (steps: seq<Step>)
    ensures Exec(settings, Initial(NOON), steps) == Some(AboutToFetch(settings, n))
  {
    var init, s := Initial(NOON), RowsWaiting(settings, n);
    steps := RowsAfterFirstRun(settings, n);
    assert WindowSince(settings, Some(NOON), NOON + n) == NOON;
    hide Exec, WindowSince, NewRows, FirstSince;
    steps, s := Then(settings, init, steps, s, Tick(NOON + n));
    steps, s := Then(settings, init, steps, s, Begin(0));
    steps, s := Then(settings, init, steps, s, ReadLast(1));
    steps, s := Then(settings, init, steps, s, ComputeWindow(1));
    assert s == AboutToFetch(settings, n);
  }

  /** A failed fetch still advances lastRunAt, and its rows are skipped; and they are after any number of
      failures. */
  lemma {:induction false} FailedFetchSkips(settings: Settings, failures: nat) returns (steps: seq<Step>, s: State)
    requires failures >= 1
    ensures Exec(settings, Initial(NOON), steps) == Some(s)
    ensures s.failed == failures && s.widest == 0 && s.lastRunAt != [] && s.lastRunAt[0].Some?
    ensures Skipped(s, Row(0, NOON), s.lastStart, NOON + 1)
  {
    hide Exec, WindowSince;
    var init := Initial(NOON);
    if failures == 1 {
      steps := SecondRunReady(settings, 1);
      s := AboutToFetch(settings, 1);
      NewRowsAre(1);
      steps, s := Then(settings, init, steps, s, FetchFails(1));
      steps, s := Then(settings, init, steps, s, Store(1));
      assert s.lastRunAt[0] == Some(NOON + 1);
    } else {
      steps, s := FailedFetchSkips(settings, failures - 1);
      var i := |s.runs|;
      steps, s := Then(settings, init, steps, s, Begin(0));
      steps, s := Then(settings, init, steps, s, ReadLast(i));
      steps, s := Then(settings, init, steps, s, ComputeWindow(i));
      steps, s := Then(settings, init, steps, s, FetchFails(i));
    }
  }

  lemma AllButTheOldest(n: nat)
    requires n > 0
    ensures Row(0, NOON) in NewRows(n) && RowsSince(NewRows(n), NOON) == NewRows(n)
    ensures NewestOf(NewRows(n) - {Row(0, NOON)}, NewRows(n), n - 1) && |NewRows(n)| == n
  {
    NewRowsAre(n);
    hide NewRows;
  }

  /** The second run has fetched all rows but the oldest. */
  function OldestLeftOut(settings: Settings, n: nat): State {
    FirstRunFetched(settings).(now := NOON + n, table := NewRows(n), lastRunAt := [Some(NOON)],
      runs := [Run(0, NOON, Stored), Run(0, NOON + n, Fetched)],
      fetched := NewRows(n) - {Row(0, NOON)}, complete := false, widest := n)
  }

  /** A run that fetches some of the rows of its window only. */
  lemma FetchOfSome(settings: Settings, s: State, rows: set<Row>, all: set<Row>)
    requires |s.runs| == 2 && s.runs[1] == Run(0, s.now, Windowed(NOON)) && |s.lastRunAt| == 1
    requires s.table == all && RowsSince(all, NOON) == all && rows != all && NewestOf(rows, all, RowLimit(settings.maxRows))
    requires s.fetched == {} && s.widest == 0
    ensures Enabled(settings, s, Fetch(1, rows))
    ensures Apply(settings, s, Fetch(1, rows))
         == s.(runs := [s.runs[0], Run(0, s.now, Fetched)], fetched := rows, complete := false, widest := |all|)
  {
    hide RowsSince, NewestOf, RowLimit;
    var t := Apply(settings, s, Fetch(1, rows));
    assert t.fetched == rows;
    assert t.runs == [s.runs[0], Run(0, s.now, Fetched)];
  }

  lemma FetchLeavesOldestOut(settings: Settings, n: nat)
    requires n == RowLimit(settings.maxRows) + 1
    ensures var s, step := AboutToFetch(settings, n), Fetch(1, NewRows(n) - {Row(0, NOON)});
            Enabled(settings, s, step) && Apply(settings, s, step) == OldestLeftOut(settings, n)
  {
    AllButTheOldest(n);
    FetchOfSome(settings, AboutToFetch(settings, n), NewRows(n) - {Row(0, NOON)}, NewRows(n));
    hide NewRows, RowsSince, NewestOf, RowLimit, FirstSince, Apply, Enabled;
  }

  lemma NewestFetched(settings: Settings, n: nat) returns (steps: seq<Step>)
    requires n == RowLimit(settings.maxRows) + 1
    ensures Exec(settings, Initial(NOON), steps) == Some(OldestLeftOut(settings, n))
  {
    steps := SecondRunReady(settings, n);
    FetchLeavesOldestOut(settings, n);
    hide *;
    var s;
    steps, s := Then(settings, Initial(NOON), steps, AboutToFetch(settings, n), Fetch(1, NewRows(n) - {Row(0, NOON)}));
  }

  lemma OldestSkipped(settings: Settings, n: nat)
    requires n > 0
    ensures var s := OldestLeftOut(settings, n);
            Enabled(settings, s, Store(1)) && Skipped(Apply(settings, s, Store(1)), Row(0, NOON), s.lastStart, NOON + n)
  {
    AllButTheOldest(n);
    hide NewRows, NewestOf, RowsSince, FirstSince;
    var t := Apply(settings, OldestLeftOut(settings, n), Store(1));
    assert t.lastRunAt[0] == Some(NOON + n);
    FirstWindowIsEarlier(settings);
  }

  lemma FirstWindowIsEarlier(settings: Settings)
    ensures FirstSince(settings) < NOON
  {
    hide WindowSince;
  }

  /** A window with one row more than the limit, whatever the limit is, loses its oldest row. */
  lemma RowLimitSkips(settings: Settings) returns (steps: seq<Step>, s: State)
    ensures Exec(settings, Initial(NOON), steps) == Some(s)
    ensures s.failed == 0 && s.widest == RowLimit(settings.maxRows) + 1
    ensures Skipped(s, Row(0, NOON), s.lastStart, NOON + s.widest)
  {
    var n := RowLimit(settings.maxRows) + 1;
    steps := NewestFetched(settings, n);
    OldestSkipped(settings, n);
    hide Exec, RowLimit, NewRows, Skipped, FirstSince;
    steps, s := Then(settings, Initial(NOON), steps, OldestLeftOut(settings, n), Store(1));
  }

  /** A run of the system with this many failed fetches and no more than this many rows in a window that ends
      with a stored value. */
  predicate RunWith(settings: Settings, now: int, steps: seq<Step>, failures: nat, rows: nat, value: int) {
    var t := Exec(settings, Initial(now), steps);
    t.Some? && t.value.failed == failures && t.value.widest <= rows && Remembered(t.value, value)
  }

  predicate CoveredFromLast(settings: Settings, now: int, steps: seq<Step>, value: int) {
    var t := Exec(settings, Initial(now), steps);
    t.Some? && t.value.lastStart.Some? && CoveredFrom(t.value, t.value.lastStart.value, value)
  }

  /** Exactly when no row is skipped, whatever the settings: nothing is, in every run of the system with this
      many failed fetches and windows of up to so many rows, if and only if no fetch fails and the windows are
      within the row limit. */
  lemma CoveredExactlyWithinLimit(settings: Settings, failures: nat, rows: nat)
    ensures (forall now, steps, value ::
               RunWith(settings, now, steps, failures, rows, value) ==> CoveredFromLast(settings, now, steps, value))
       <==> failures == 0 && rows <= RowLimit(settings.maxRows)
  {
    hide RowLimit;
    if failures == 0 && rows <= RowLimit(settings.maxRows) {
      forall now, steps, value | RunWith(settings, now, steps, failures, rows, value)
        ensures CoveredFromLast(settings, now, steps, value)
      {
        ExecKeepsWhole(settings, Initial(now), steps);
        NoRowSkipped(settings, now, steps, value);
      }
    } else if failures > 0 {
      var steps, s := FailedFetchSkips(settings, failures);
      assert RunWith(settings, NOON, steps, failures, rows, NOON + 1);
      assert !CoveredFromLast(settings, NOON, steps, NOON + 1);
    } else {
      var steps, s := RowLimitSkips(settings);
      assert RunWith(settings, NOON, steps, failures, rows, NOON + s.widest);
      assert !CoveredFromLast(settings, NOON, steps, NOON + s.widest);
    }
  }
}
