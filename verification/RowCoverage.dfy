/** Which rows the runs of one spec_limit rule have fetched, when workers execute its runs in any
    interleaving and its job is replaced any number of times.

    A run takes its start time, reads lastRunAt, computes the window, fetches, and stores its start time as the
    new lastRunAt, first in memory and then in the database; between any two of these steps anything else may
    happen. The log of fetched rows and the marks below it exist for the statements only. */
module RowCoverage {
  import opened Common

  datatype Row = Row(id: nat, ts: int)

  datatype Phase = Began | Read(last: Option<int>) | Windowed(since: int) | Fetched | Stored | Done

  datatype Run = Run(job: nat, runAt: int, phase: Phase)

  datatype State = State(
    now: int,
    table: set<Row>,
    lastRunAt: seq<Option<int>>,   // of each job that was ever scheduled
    persisted: Option<int>,        // last_run_at of the rule in the database
    runs: seq<Run>,
    fetched: set<Row>,             // every row that some run has been given
    firstStart: Option<int>,       // start of the first window that fell back on the poll interval
    lastStart: Option<int>,        // the latest start of such a window
    firstRuns: nat,                // how many such windows there were
    complete: bool,                // every fetch so far has succeeded and returned its whole window
    failed: nat,                   // how many fetches failed
    widest: nat)                   // the most rows there were in a window when it was fetched

  datatype Settings = Settings(pollIntervalSeconds: int, maxRows: int)

  function Initial(now: int): State {
    State(now, {}, [], None, [], {}, None, None, 0, true, 0, 0)
  }

  datatype Step =
    | Tick(time: int)
    | Insert(row: Row)
    | Schedule
    | Begin(job: nat)
    | ReadLast(run: nat)
    | ComputeWindow(run: nat)
    | Fetch(run: nat, rows: set<Row>)
    | FetchFails(run: nat)
    | Store(run: nat)
    | Persist(run: nat)

  /** The start of the window of a run, as sent to the database: without a previous run, one poll interval
      back, or a minute when the interval is not positive; and in whole seconds. */
  function WindowSince(settings: Settings, last: Option<int>, now: int): (since: int)
    ensures last.Some? ==> since <= last.value
    ensures last.None? ==> since < now
  {
    FloorToSecond(
      if last.Some? then last.value
      else now - (if settings.pollIntervalSeconds <= 0 then 60 else settings.pollIntervalSeconds) * SECOND)
  }

  function RowsSince(table: set<Row>, since: int): set<Row> {
    set r | r in table && r.ts >= since
  }

  function Min(x: nat, y: nat): nat {
    if x <= y then x else y
  }

  function Max(x: nat, y: nat): nat {
    if x >= y then x else y
  }

  /** The limit of a query: none asked for, or one that is too large, is 2000. */
  function RowLimit(limit: int): (n: nat)
    ensures 1 <= n <= 2000 && if 1 <= limit <= 2000 then n == limit else n == 2000
  {
    if limit <= 0 || limit > 2000 then 2000 else limit
  }

  /** ORDER BY ts DESC LIMIT n: n of the rows, none older than a row left out. */
  predicate NewestOf(rows: set<Row>, all: set<Row>, limit: nat) {
    && rows <= all
    && |rows| == Min(limit, |all|)
    && forall r, q :: r in rows && q in all && q !in rows ==> r.ts >= q.ts
  }

  predicate HasRun(s: State, i: nat) {
    i < |s.runs| && s.runs[i].job < |s.lastRunAt|
  }

  predicate Enabled(settings: Settings, s: State, step: Step) {
    match step
    case Tick(time) => time >= s.now
    case Insert(row) => row.ts >= s.now   // a row is there by the time it is stamped with
    case Schedule => true
    case Begin(job) => job < |s.lastRunAt|
    case ReadLast(i) => HasRun(s, i) && s.runs[i].phase.Began?
    case ComputeWindow(i) => HasRun(s, i) && s.runs[i].phase.Read?
    case Fetch(i, rows) =>
      HasRun(s, i) && s.runs[i].phase.Windowed?
      && NewestOf(rows, RowsSince(s.table, s.runs[i].phase.since), RowLimit(settings.maxRows))
    case FetchFails(i) => HasRun(s, i) && s.runs[i].phase.Windowed?
    case Store(i) => HasRun(s, i) && s.runs[i].phase.Fetched?
    case Persist(i) => HasRun(s, i) && s.runs[i].phase.Stored?
  }

  function AtPhase(s: State, i: nat, phase: Phase): State
    requires i < |s.runs|
  {
    s.(runs := s.runs[i := s.runs[i].(phase := phase)])
  }

  function Later(mark: Option<int>, t: int): Option<int> {
    if mark.Some? && mark.value >= t then mark else Some(t)
  }

  function Apply(settings: Settings, s: State, step: Step): State
    requires Enabled(settings, s, step)
  {
    match step
    case Tick(time) => s.(now := time)
    case Insert(row) => s.(table := s.table + {row})
    case Schedule => s.(lastRunAt := s.lastRunAt + [s.persisted])
    case Begin(job) => s.(runs := s.runs + [Run(job, s.now, Began)])
    case ReadLast(i) => AtPhase(s, i, Read(s.lastRunAt[s.runs[i].job]))
    case ComputeWindow(i) =>
      var last := s.runs[i].phase.last;
      var since := WindowSince(settings, last, s.now);
      var t := AtPhase(s, i, Windowed(since));
      if last.Some? then t
      else t.(firstStart := if s.firstStart.Some? then s.firstStart else Some(since), lastStart := Later(s.lastStart, since),
                firstRuns := s.firstRuns + 1)
    case Fetch(i, rows) =>
      var window := RowsSince(s.table, s.runs[i].phase.since);
      AtPhase(s, i, Fetched).(fetched := s.fetched + rows,
                              complete := s.complete && rows == window,
                              widest := Max(s.widest, |window|))
    case FetchFails(i) => AtPhase(s, i, Fetched).(complete := false, failed := s.failed + 1)
    case Store(i) => AtPhase(s, i, Stored).(lastRunAt := s.lastRunAt[s.runs[i].job := Some(s.runs[i].runAt)])
    case Persist(i) => AtPhase(s, i, Done).(persisted := Some(Microseconds(s.runs[i].runAt)))
  }

  /** The state after a run of the whole system; None when some step is not possible where it is taken. */
  function Exec(settings: Settings, s: State, steps: seq<Step>): Option<State>
    decreases |steps|
  {
    if steps == [] then Some(s)
    else if !Enabled(settings, s, steps[0]) then None
    else Exec(settings, Apply(settings, s, steps[0]), steps[1..])
  }

  /** A window within the row limit is returned whole. */
  lemma WithinLimitIsWhole(rows: set<Row>, all: set<Row>, limit: nat)
    requires NewestOf(rows, all, limit)
    ensures |all| <= limit <==> rows == all
  {
    if |all| <= limit {
      SubsetOfSameSize(rows, all);
    }
  }

  // ----- the invariant

  /** Every row stamped from start on and before t has been fetched. */
  predicate CoveredFrom(s: State, start: int, t: int) {
    forall r :: r in s.table && start <= r.ts < t ==> r in s.fetched
  }

  predicate Covered(s: State, t: int) {
    t <= s.now && s.lastStart.Some? && CoveredFrom(s, s.lastStart.value, t)
  }

  predicate RunCovered(s: State, run: Run) {
    && run.job < |s.lastRunAt| && run.runAt <= s.now
    && match run.phase
       case Began => true
       case Read(last) => last.Some? ==> Covered(s, last.value)
       case Windowed(since) => Covered(s, since)
       case Fetched => Covered(s, run.runAt)
       case Stored => Covered(s, run.runAt)
       case Done => true
  }

  predicate Inv(s: State) {
    s.complete ==>
      && (forall j :: 0 <= j < |s.lastRunAt| && s.lastRunAt[j].Some? ==> Covered(s, s.lastRunAt[j].value))
      && (s.persisted.Some? ==> Covered(s, s.persisted.value))
      && (forall i :: 0 <= i < |s.runs| ==> RunCovered(s, s.runs[i]))
  }

  /** What a step may change without uncovering anything. */
  predicate Extends(s: State, t: State) {
    && t.now >= s.now
    && s.fetched <= t.fetched
    && (forall r :: r in t.table && r !in s.table ==> r.ts >= s.now)
    && (s.lastStart.Some? ==> t.lastStart.Some? && t.lastStart.value >= s.lastStart.value)
    && |t.lastRunAt| >= |s.lastRunAt|
  }

  lemma CoverageKept(s: State, t: State, time: int)
    requires Extends(s, t) && Covered(s, time)
    ensures Covered(t, time)
  {
  }

  lemma RunCoverageKept(s: State, t: State, run: Run)
    requires Extends(s, t) && RunCovered(s, run)
    ensures RunCovered(t, run)
  {
    match run.phase
    case Read(last) => if last.Some? { CoverageKept(s, t, last.value); }
    case Windowed(since) => CoverageKept(s, t, since);
    case Fetched => CoverageKept(s, t, run.runAt);
    case Stored => CoverageKept(s, t, run.runAt);
    case _ =>
  }

  /** Every step keeps what was covered, and leaves the run it belongs to covered in its new phase. */
  lemma StepKeepsInv(settings: Settings, s: State, step: Step)
    requires Inv(s) && Enabled(settings, s, step)
    ensures Inv(Apply(settings, s, step))
  {
    var t := Apply(settings, s, step);
    if t.complete {
      assert Extends(s, t);
      forall i | 0 <= i < |t.runs| ensures RunCovered(t, t.runs[i]) {
        if i < |s.runs| && t.runs[i] == s.runs[i] {
          RunCoverageKept(s, t, s.runs[i]);
        } else {
          MovedRunCovered(settings, s, step, i);
        }
      }
      forall j | 0 <= j < |t.lastRunAt| && t.lastRunAt[j].Some? ensures Covered(t, t.lastRunAt[j].value) {
        StoredCovered(settings, s, step, t.lastRunAt[j].value);
      }
      if t.persisted.Some? {
        StoredCovered(settings, s, step, t.persisted.value);
      }
    }
  }

  lemma MovedRunCovered(settings: Settings, s: State, step: Step, i: nat)
    requires Inv(s) && Enabled(settings, s, step)
    requires var t := Apply(settings, s, step);
             t.complete && Extends(s, t) && i < |t.runs| && (i < |s.runs| ==> t.runs[i] != s.runs[i])
    ensures var t := Apply(settings, s, step); RunCovered(t, t.runs[i])
  {
    var t := Apply(settings, s, step);
    if i < |s.runs| {
      RunCoverageKept(s, t, s.runs[i]);
      match step
      case ReadLast(k) =>
        var last := s.lastRunAt[s.runs[i].job];
        if last.Some? { CoverageKept(s, t, last.value); }
      case ComputeWindow(k) =>
      case Fetch(k, rows) => FetchCoversStart(s, t, s.runs[i].phase.since, s.runs[i].runAt, rows);
      case _ =>
    }
  }

  lemma FetchCoversStart(s: State, t: State, since: int, runAt: int, rows: set<Row>)
    requires Covered(s, since) && runAt <= s.now
    requires rows == RowsSince(s.table, since)
    requires t.now == s.now && t.table == s.table && t.lastStart == s.lastStart && t.fetched == s.fetched + rows
    ensures Covered(t, runAt)
  {
  }

  /** A stored value is one that was stored before, or the start time of a run that has fetched. */
  lemma StoredCovered(settings: Settings, s: State, step: Step, value: int)
    requires Inv(s) && Enabled(settings, s, step)
    requires var t := Apply(settings, s, step);
             t.complete && Extends(s, t) && (Some(value) in t.lastRunAt || t.persisted == Some(value))
    ensures Covered(Apply(settings, s, step), value)
  {
    var t := Apply(settings, s, step);
    if Some(value) in s.lastRunAt || s.persisted == Some(value) {
      CoverageKept(s, t, value);
    } else {
      match step
      case Store(k) => CoverageKept(s, t, s.runs[k].runAt);
      case Persist(k) => CoverageKept(s, t, s.runs[k].runAt);
      case _ =>
    }
  }

  lemma {:induction false} ExecKeepsInv(settings: Settings, s: State, steps: seq<Step>)
    requires Inv(s) && Exec(settings, s, steps).Some?
    ensures Inv(Exec(settings, s, steps).value)
    decreases |steps|
  {
    if steps != [] {
      StepKeepsInv(settings, s, steps[0]);
      ExecKeepsInv(settings, Apply(settings, s, steps[0]), steps[1..]);
    }
  }

  // ----- the results

  predicate Remembered(s: State, value: int) {
    Some(value) in s.lastRunAt || s.persisted == Some(value)
  }

  /** No row is skipped. After any interleaving in which every fetch returned its whole window, and for any
      value that lastRunAt has in memory or in the database, every row stamped before that value, from the
      latest first-run window on, has been fetched. */
  lemma NoRowSkipped(settings: Settings, now: int, steps: seq<Step>, value: int)
    requires Exec(settings, Initial(now), steps).Some?
    requires var s := Exec(settings, Initial(now), steps).value; s.complete && Remembered(s, value)
    ensures var s := Exec(settings, Initial(now), steps).value;
            s.lastStart.Some? && CoveredFrom(s, s.lastStart.value, value)
  {
    ExecKeepsInv(settings, Initial(now), steps);
    var s := Exec(settings, Initial(now), steps).value;
    assert Covered(s, value);
  }

  /** So a row that has not been fetched yet is in the window of every run that starts from a stored value. */
  lemma UnfetchedRowStaysInWindow(settings: Settings, now: int, steps: seq<Step>, value: int, r: Row)
    requires Exec(settings, Initial(now), steps).Some?
    requires var s := Exec(settings, Initial(now), steps).value;
             s.complete && Remembered(s, value) && r in s.table && r !in s.fetched
             && (s.lastStart.Some? ==> r.ts >= s.lastStart.value)
    ensures var s := Exec(settings, Initial(now), steps).value;
            r in RowsSince(s.table, WindowSince(settings, Some(value), s.now))
  {
    NoRowSkipped(settings, now, steps, value);
  }

  /** The first window's start is the latest one as long as one run only has used the poll interval. */
  predicate MarksAgree(s: State) {
    && (s.firstRuns == 0 ==> s.firstStart.None? && s.lastStart.None?)
    && (s.firstRuns <= 1 ==> s.firstStart == s.lastStart)
  }

  lemma {:induction false} ExecKeepsMarks(settings: Settings, s: State, steps: seq<Step>)
    requires Exec(settings, s, steps).Some? && MarksAgree(s)
    ensures MarksAgree(Exec(settings, s, steps).value)
    decreases |steps|
  {
    if steps != [] {
      ExecKeepsMarks(settings, Apply(settings, s, steps[0]), steps[1..]);
    }
  }

  /** With one first run only, nothing from the start of its window on is skipped. */
  lemma NoRowSkippedAfterFirstRun(settings: Settings, now: int, steps: seq<Step>, value: int)
    requires Exec(settings, Initial(now), steps).Some?
    requires var s := Exec(settings, Initial(now), steps).value; s.complete && s.firstRuns <= 1 && Remembered(s, value)
    ensures var s := Exec(settings, Initial(now), steps).value;
            s.firstStart.Some? && CoveredFrom(s, s.firstStart.value, value)
  {
    NoRowSkipped(settings, now, steps, value);
    ExecKeepsMarks(settings, Initial(now), steps);
  }

  // ----- where windows start

  /** A window starts in the second of the last run's start, and without one in the second one poll interval
      before now, an interval that is not positive counting as a minute. */
  lemma WindowStartsExactly(settings: Settings, last: Option<int>, now: int)
    ensures WindowSince(settings, last, now) % SECOND == 0
    ensures last.Some? ==> 0 <= last.value - WindowSince(settings, last, now) < SECOND
    ensures last.None? && settings.pollIntervalSeconds > 0 ==>
              0 <= now - settings.pollIntervalSeconds * SECOND - WindowSince(settings, last, now) < SECOND
    ensures last.None? && settings.pollIntervalSeconds <= 0 ==>
              0 <= now - 60_000_000_000 - WindowSince(settings, last, now) < SECOND
  {
  }

  /** A restart goes on from where the last run that was persisted began: the job that is scheduled then starts from
      that run's start, in whole microseconds, with no first window. */
  lemma RestartContinues(settings: Settings, s: State, i: nat)
    requires HasRun(s, i) && s.runs[i].phase.Stored?
    ensures Enabled(settings, s, Persist(i))
    ensures var t := Apply(settings, Apply(settings, s, Persist(i)), Schedule);
            && |t.lastRunAt| == |s.lastRunAt| + 1
            && t.lastRunAt[|s.lastRunAt|].Some?
            && 0 <= s.runs[i].runAt - t.lastRunAt[|s.lastRunAt|].value < 1000
            && t.lastRunAt[..|s.lastRunAt|] == s.lastRunAt
  {
  }

  // ----- finite sets

  lemma SubsetOfSameSize(a: set<Row>, b: set<Row>)
    requires a <= b && |a| == |b|
    ensures a == b
  {
    if x :| x in b && x !in a {
      SubsetNotLarger(a, b - {x});
    }
  }

  lemma {:induction false} SubsetNotLarger(a: set<Row>, b: set<Row>)
    requires a <= b
    ensures |a| <= |b|
    decreases a
  {
    if a != {} {
      var x :| x in a;
      SubsetNotLarger(a - {x}, b - {x});
    }
  }
}
