/** The registry of scheduled jobs: a map from rules to jobs that is changed under a mutex, a ticker for every
    job ever scheduled, one bounded queue of runs, and the workers that drain it.

    The class is what the mutex and the channels protect. The step relation is every interleaving of the callers,
    the tickers and the workers; each of its steps that touches the shared part is what one method of the class
    is proved to do. */
module Registry {
  import opened Common

  datatype RuleSpec = RuleSpec(connectionRef: string, pollIntervalSeconds: int, text: string)

  const QUEUE_CAPACITY: nat := 128

  datatype JobState = JobState(ruleID: string, spec: RuleSpec, adapter: string, closes: nat)

  datatype JobRun = JobRun(ruleID: string, job: nat, spec: RuleSpec, adapter: string)

  /** Jobs go by the order in which they were created. */
  datatype Shared = Shared(
    current: map<string, nat>,
    created: seq<JobState>,
    queue: seq<JobRun>,
    cancelled: bool)

  predicate IsCurrent(s: Shared, j: nat) {
    j < |s.created| && s.created[j].ruleID in s.current && s.current[s.created[j].ruleID] == j
  }

  function Close(job: JobState): JobState {
    job.(closes := job.closes + 1)
  }

  /** Closes the stop channel of the current job of a rule, if it has one. */
  function Closed(s: Shared, ruleID: string): seq<JobState> {
    if ruleID in s.current && s.current[ruleID] < |s.created|
    then s.created[s.current[ruleID] := Close(s.created[s.current[ruleID]])]
    else s.created
  }

  function Scheduled(s: Shared, ruleID: string, spec: RuleSpec, adapter: string): Shared {
    s.(created := Closed(s, ruleID) + [JobState(ruleID, spec, adapter, 0)],
       current := s.current[ruleID := |s.created|])
  }

  function Unscheduled(s: Shared, ruleID: string): Shared {
    s.(created := Closed(s, ruleID), current := s.current - {ruleID})
  }

  /** Closes the stop channels of all current jobs. */
  function AllClosed(s: Shared): Shared {
    s.(created := seq(|s.created|, j requires 0 <= j < |s.created| =>
                    if IsCurrent(s, j) then Close(s.created[j]) else s.created[j]),
       current := map[])
  }

  function Cancelled(s: Shared): Shared {
    s.(cancelled := true)
  }

  function RunOf(s: Shared, j: nat): JobRun
    requires j < |s.created|
  {
    JobRun(s.created[j].ruleID, j, s.created[j].spec, s.created[j].adapter)
  }

  predicate RunFits(s: Shared, run: JobRun) {
    run.job < |s.created| && run == RunOf(s, run.job)
  }

  /** A job is the current one of its rule and its stop channel is open, or it is not and the channel has been
      closed exactly once. */
  predicate ClosedOnceUnlessCurrent(s: Shared) {
    forall j :: 0 <= j < |s.created| ==> s.created[j].closes == if IsCurrent(s, j) then 0 else 1
  }

  predicate SharedInv(s: Shared) {
    && (forall id :: id in s.current ==> s.current[id] < |s.created| && s.created[s.current[id]].ruleID == id)
    && ClosedOnceUnlessCurrent(s)
    && |s.queue| <= QUEUE_CAPACITY
    && (forall run :: run in s.queue ==> RunFits(s, run))
  }

  // ----- what callers see of the registry

  datatype Assignment = Assignment(spec: RuleSpec, adapter: string)

  /** What every rule that has a job is evaluated with. */
  function Live(s: Shared): (live: map<string, Assignment>)
    requires SharedInv(s)
  {
    map id | id in s.current :: AssignmentOf(s, s.current[id])
  }

  function AssignmentOf(s: Shared, j: nat): Assignment
    requires j < |s.created|
  {
    Assignment(s.created[j].spec, s.created[j].adapter)
  }

  lemma SameRunSameAssignment(s: Shared, t: Shared, j: nat)
    requires j < |s.created| && j < |t.created| && RunOf(t, j) == RunOf(s, j)
    ensures AssignmentOf(t, j) == AssignmentOf(s, j)
  {
  }

  /** What the calls of the registry leave to the runs and the tickers. */
  predicate Keeps(s: Shared, t: Shared) {
    && |s.created| <= |t.created|
    && (forall j :: 0 <= j < |s.created| ==> RunOf(t, j) == RunOf(s, j) && t.created[j].closes >= s.created[j].closes)
    && t.queue == s.queue
    && (s.cancelled ==> t.cancelled)
  }

  /** After the current job of a rule has been closed, all jobs but the current ones of other rules are. */
  lemma ClosedCloses(s: Shared, ruleID: string, j: nat)
    requires SharedInv(s) && j < |s.created|
    ensures |Closed(s, ruleID)| == |s.created|
    ensures Closed(s, ruleID)[j] ==
            s.created[j].(closes := if IsCurrent(s, j) && s.created[j].ruleID != ruleID then 0 else 1)
  {
  }

  lemma NothingToClose(s: Shared, ruleID: string)
    requires ruleID !in s.current
    ensures Closed(s, ruleID) == s.created
  {
  }

  lemma ScheduledKeeps(s: Shared, ruleID: string, spec: RuleSpec, adapter: string)
    requires SharedInv(s)
    ensures Keeps(s, Scheduled(s, ruleID, spec, adapter))
    ensures |Scheduled(s, ruleID, spec, adapter).created| == |s.created| + 1
  {
  }

  lemma ScheduledInv(s: Shared, ruleID: string, spec: RuleSpec, adapter: string)
    requires SharedInv(s)
    ensures SharedInv(Scheduled(s, ruleID, spec, adapter))
  {
    hide Closed;
    var t := Scheduled(s, ruleID, spec, adapter);
    ScheduledKeeps(s, ruleID, spec, adapter);
    forall j | 0 <= j < |t.created| ensures t.created[j].closes == if IsCurrent(t, j) then 0 else 1 {
      if j < |s.created| {
        ClosedCloses(s, ruleID, j);
      }
    }
    assert forall j :: 0 <= j < |s.created| ==> RunOf(t, j) == RunOf(s, j);
  }

  lemma ScheduledAssignment(s: Shared, ruleID: string, spec: RuleSpec, adapter: string, id: string)
    requires SharedInv(s)
    ensures var t := Scheduled(s, ruleID, spec, adapter);
            id in t.current ==>
              t.current[id] < |t.created|
              && (id == ruleID ==> AssignmentOf(t, t.current[id]) == Assignment(spec, adapter))
              && (id != ruleID ==> id in s.current && s.current[id] < |s.created|
                                   && AssignmentOf(t, t.current[id]) == AssignmentOf(s, s.current[id]))
  {
    ScheduledKeeps(s, ruleID, spec, adapter);
    hide Closed, ClosedOnceUnlessCurrent, RunFits;
    if id != ruleID && id in s.current {
      SameRunSameAssignment(s, Scheduled(s, ruleID, spec, adapter), s.current[id]);
    }
  }

  lemma ScheduledLive(s: Shared, ruleID: string, spec: RuleSpec, adapter: string)
    requires SharedInv(s)
    ensures var t := Scheduled(s, ruleID, spec, adapter);
            SharedInv(t) && Live(t) == Live(s)[ruleID := Assignment(spec, adapter)]
  {
    var t := Scheduled(s, ruleID, spec, adapter);
    ScheduledInv(s, ruleID, spec, adapter);
    assert t.current.Keys == s.current.Keys + {ruleID};
    hide SharedInv, Scheduled, AssignmentOf;
    forall id ensures id in t.current ==> Live(t)[id] == Live(s)[ruleID := Assignment(spec, adapter)][id] {
      ScheduledAssignment(s, ruleID, spec, adapter, id);
    }
  }

  lemma UnscheduledLive(s: Shared, ruleID: string)
    requires SharedInv(s)
    ensures SharedInv(Unscheduled(s, ruleID)) && Keeps(s, Unscheduled(s, ruleID)) && |Unscheduled(s, ruleID).created| == |s.created|
    ensures Live(Unscheduled(s, ruleID)) == Live(s) - {ruleID}
  {
  }

  lemma AllClosedLive(s: Shared)
    requires SharedInv(s)
    ensures SharedInv(AllClosed(s)) && Keeps(s, AllClosed(s)) && |AllClosed(s).created| == |s.created|
    ensures Live(AllClosed(s)) == map[]
  {
  }

  lemma CancelledLive(s: Shared)
    requires SharedInv(s)
    ensures SharedInv(Cancelled(s)) && Keeps(s, Cancelled(s)) && Live(Cancelled(s)) == Live(s)
  {
  }

  // ----- the class

  class Job {
    const ruleID: string
    const spec: RuleSpec
    const adapter: string
    var closed: bool               // the stop channel
    var lastRunAt: Option<int>
    ghost const number: nat

    constructor (ruleID: string, spec: RuleSpec, adapter: string, lastRunAt: Option<int>, ghost number: nat)
      ensures this.ruleID == ruleID && this.spec == spec && this.adapter == adapter && this.number == number
      ensures !closed && this.lastRunAt == lastRunAt
    {
      this.ruleID, this.spec, this.adapter, this.number := ruleID, spec, adapter, number;
      this.closed, this.lastRunAt := false, lastRunAt;
    }

    /** Closing a channel twice is a panic. */
    method CloseStop()
      requires !closed
      modifies this`closed
      ensures closed
    {
      closed := true;
    }
  }

  datatype QueuedRun = QueuedRun(ruleID: string, job: Job, spec: RuleSpec, adapter: string)

  class Registry {
    var jobs: map<string, Job>
    var queue: seq<QueuedRun>
    var cancelled: bool
    ghost var created: seq<Job>

    ghost predicate Known(job: Job)
      reads this
    {
      job.number < |created| && created[job.number] == job
    }

    ghost predicate IsCurrentJob(job: Job)
      reads this
    {
      job.ruleID in jobs && jobs[job.ruleID] == job
    }

    /** Jobs are numbered as created, and the map and the queue hold created jobs. */
    ghost predicate Linked()
      reads this
    {
      && (forall i :: 0 <= i < |created| ==> created[i].number == i)
      && (forall id :: id in jobs ==> Known(jobs[id]) && jobs[id].ruleID == id)
      && |queue| <= QUEUE_CAPACITY
      && (forall i :: 0 <= i < |queue| ==>
            Known(queue[i].job)
            && queue[i] == QueuedRun(queue[i].job.ruleID, queue[i].job, queue[i].job.spec, queue[i].job.adapter))
    }

    ghost predicate Valid()
      reads this, created
    {
      Linked() && forall i :: 0 <= i < |created| ==> (created[i].closed <==> !IsCurrentJob(created[i]))
    }

    ghost function Numbers(): map<string, nat>
      reads this
    {
      map id | id in jobs :: jobs[id].number
    }

    ghost function JobStates(): (states: seq<JobState>)
      reads this, created
      ensures |states| == |created|
    {
      seq(|created|, i requires 0 <= i < |created| reads this, created =>
        JobState(created[i].ruleID, created[i].spec, created[i].adapter, if created[i].closed then 1 else 0))
    }

    ghost function Runs(): seq<JobRun>
      reads this
    {
      seq(|queue|, i requires 0 <= i < |queue| reads this =>
        JobRun(queue[i].ruleID, queue[i].job.number, queue[i].spec, queue[i].adapter))
    }

    ghost function View(): (s: Shared)
      reads this, created
      requires Valid()
      ensures SharedInv(s)
    {
      var s := Shared(Numbers(), JobStates(), Runs(), cancelled);
      assert forall i :: 0 <= i < |created| ==> (IsCurrent(s, i) <==> IsCurrentJob(created[i]));
      s
    }

    constructor ()
      ensures Valid() && View() == Shared(map[], [], [], false)
    {
      jobs, queue, cancelled, created := map[], [], false, [];
    }

    method CloseCurrent(ruleID: string)
      requires Valid()
      modifies created
      ensures JobStates() == Closed(old(View()), ruleID)
      ensures forall i :: 0 <= i < |created| ==>
                (created[i].closed <==> !IsCurrentJob(created[i]) || created[i].ruleID == ruleID)
      ensures forall job :: job in created ==> job.lastRunAt == old(job.lastRunAt)
    {
      hide SharedInv, ClosedOnceUnlessCurrent;
      if ruleID in jobs {
        jobs[ruleID].CloseStop();
      }
      assert JobStates() == Closed(old(View()), ruleID);
    }

    /** persisted is last_run_at of the rule's row, and None when the row cannot be read. */
    method Schedule(ruleID: string, spec: RuleSpec, adapter: string, persisted: Option<int>)
      requires Valid()
      modifies this, created
      ensures Valid() && View() == Scheduled(old(View()), ruleID, spec, adapter)
      ensures ruleID in jobs && fresh(jobs[ruleID]) && jobs[ruleID].lastRunAt == persisted
      ensures created == old(created) + [jobs[ruleID]]
      ensures forall job :: job in old(created) ==> job.lastRunAt == old(job.lastRunAt)
    {
      hide SharedInv, ClosedOnceUnlessCurrent, Closed;
      CloseCurrent(ruleID);
      assert Runs() == old(Runs());
      Install(ruleID, spec, adapter, persisted);
    }

    /** Makes a new job the current one of a rule whose job, if it has one, has been closed. */
    method Install(ruleID: string, spec: RuleSpec, adapter: string, persisted: Option<int>)
      requires Linked()
      requires forall i :: 0 <= i < |created| ==>
                 (created[i].closed <==> !IsCurrentJob(created[i]) || created[i].ruleID == ruleID)
      modifies this`jobs, this`created
      ensures Valid() && JobStates() == old(JobStates()) + [JobState(ruleID, spec, adapter, 0)]
      ensures Runs() == old(Runs()) && Numbers() == old(Numbers())[ruleID := old(|created|)]
      ensures ruleID in jobs && fresh(jobs[ruleID]) && jobs[ruleID].lastRunAt == persisted
      ensures created == old(created) + [jobs[ruleID]]
    {
      var job := new Job(ruleID, spec, adapter, persisted, |created|);
      jobs := jobs[ruleID := job];
      created := created + [job];
      assert JobStates() == old(JobStates()) + [JobState(ruleID, spec, adapter, 0)];
      assert Runs() == old(Runs());
      assert Numbers() == old(Numbers())[ruleID := old(|created|)];
    }

    method Unschedule(ruleID: string)
      requires Valid()
      modifies this, created
      ensures Valid() && View() == Unscheduled(old(View()), ruleID) && created == old(created)
      ensures forall job :: job in created ==> job.lastRunAt == old(job.lastRunAt)
    {
      hide SharedInv, ClosedOnceUnlessCurrent, Closed;
      if ruleID in jobs {
        CloseCurrent(ruleID);
        assert Runs() == old(Runs());
        Remove(ruleID);
      } else {
        NothingToClose(View(), ruleID);
        assert Numbers() == Numbers() - {ruleID};
      }
    }

    /** Takes a rule whose job has been closed off the map. */
    method Remove(ruleID: string)
      requires Linked()
      requires forall i :: 0 <= i < |created| ==>
                 (created[i].closed <==> !IsCurrentJob(created[i]) || created[i].ruleID == ruleID)
      modifies this`jobs
      ensures Valid() && JobStates() == old(JobStates())
      ensures Runs() == old(Runs()) && Numbers() == old(Numbers()) - {ruleID}
    {
      jobs := jobs - {ruleID};
      assert Numbers() == old(Numbers()) - {ruleID};
    }

    method Stop()
      requires Valid()
      modifies this, created
      ensures Valid() && View() == AllClosed(Cancelled(old(View()))) && created == old(created)
      ensures forall job :: job in created ==> job.lastRunAt == old(job.lastRunAt)
    {
      hide SharedInv, ClosedOnceUnlessCurrent;
      cancelled := true;
      CloseAllCurrent();
      jobs := map[];
      assert JobStates() == AllClosed(old(View())).created;
      assert Runs() == old(Runs());
      assert Numbers() == map[];
    }

    method CloseAllCurrent()
      requires forall i :: 0 <= i < |created| ==> (created[i].closed <==> !IsCurrentJob(created[i]))
      requires forall i :: 0 <= i < |created| ==> created[i].number == i
      requires forall id :: id in jobs ==> Known(jobs[id]) && jobs[id].ruleID == id
      modifies created
      ensures forall job :: job in created ==> job.closed && job.lastRunAt == old(job.lastRunAt)
    {
      var todo := jobs.Keys;
      while todo != {}
        invariant todo <= jobs.Keys
        invariant forall i :: 0 <= i < |created| ==>
                    (created[i].closed <==> !(IsCurrentJob(created[i]) && created[i].ruleID in todo))
        invariant forall job :: job in created ==> job.lastRunAt == old(job.lastRunAt)
        decreases todo
      {
        var id :| id in todo;
        jobs[id].CloseStop();
        todo := todo - {id};
      }
    }

    /** The send of a tick on the queue, which blocks while the queue is full. */
    method Send(job: Job) returns (sent: bool)
      requires Valid() && Known(job)
      modifies this`queue
      ensures Valid() && sent == (|old(View()).queue| < 128)
      ensures View() == if sent then old(View()).(queue := old(View()).queue + [RunOf(old(View()), job.number)])
                        else old(View())
    {
      hide SharedInv, ClosedOnceUnlessCurrent;
      sent := |queue| < 128;
      if sent {
        queue := queue + [QueuedRun(job.ruleID, job, job.spec, job.adapter)];
      }
      assert View().current == old(View()).current;
    }

    /** The receive of a worker, which waits while the queue is empty. */
    method Receive() returns (run: Option<QueuedRun>)
      requires Valid()
      modifies this`queue
      ensures Valid() && run.Some? == (old(View()).queue != [])
      ensures run.Some? ==>
                && Known(run.value.job)
                && var first := old(View()).queue[0];
                   run.value == QueuedRun(first.ruleID, run.value.job, first.spec, first.adapter)
                   && run.value.job.number == first.job
      ensures View() == if run.Some? then old(View()).(queue := old(View()).queue[1..]) else old(View())
    {
      hide SharedInv, ClosedOnceUnlessCurrent;
      run := None;
      if queue != [] {
        run := Some(queue[0]);
        queue := queue[1..];
      }
      assert View().current == old(View()).current;
    }
  }

  // ----- every interleaving

  datatype Ticker = Waiting | Sending | Returned

  datatype Worker = Idle | Executing(run: JobRun) | Gone

  datatype State = State(
    shared: Shared,
    tickers: seq<Ticker>,   // of the created jobs
    workers: seq<Worker>,
    sent: seq<JobRun>,      // the runs put on the queue, taken from it and executed, in the order of these events
    taken: seq<JobRun>,
    finished: seq<JobRun>)

  datatype Step =
    | Schedule(ruleID: string, spec: RuleSpec, adapter: string)
    | Unschedule(ruleID: string)
    | Cancel      // the two halves of Stop: the first is not under the mutex
    | CloseJobs
    | TickerFires(job: nat)
    | TickerSends(job: nat)
    | TickerReturns(job: nat)
    | WorkerTakes(worker: nat)
    | WorkerFinishes(worker: nat)
    | WorkerReturns(worker: nat)

  function Initial(workers: nat): State {
    State(Shared(map[], [], [], false), [], seq(workers, _ => Idle), [], [], [])
  }

  predicate TickerIs(s: State, j: nat, ticker: Ticker) {
    j < |s.tickers| && j < |s.shared.created| && s.tickers[j] == ticker
  }

  /** A select with several ready cases may take any of them: a ticker may fire, and a worker take a run, after
      the stop. A ticker whose send is blocked does not look at its stop channel. */
  predicate Enabled(s: State, step: Step) {
    match step
    case Schedule(_, _, _) => true
    case Unschedule(_) => true
    case Cancel => true
    case CloseJobs => true
    case TickerFires(j) => TickerIs(s, j, Waiting)
    case TickerSends(j) => TickerIs(s, j, Sending) && |s.shared.queue| < QUEUE_CAPACITY
    case TickerReturns(j) => TickerIs(s, j, Waiting) && (s.shared.created[j].closes > 0 || s.shared.cancelled)
    case WorkerTakes(w) => w < |s.workers| && s.workers[w].Idle? && s.shared.queue != []
    case WorkerFinishes(w) => w < |s.workers| && s.workers[w].Executing?
    case WorkerReturns(w) => w < |s.workers| && s.workers[w].Idle? && s.shared.cancelled
  }

  function Apply(s: State, step: Step): State
    requires Enabled(s, step)
  {
    match step
    case Schedule(id, spec, adapter) =>
      s.(shared := Scheduled(s.shared, id, spec, adapter), tickers := s.tickers + [Waiting])
    case Unschedule(id) => s.(shared := Unscheduled(s.shared, id))
    case Cancel => s.(shared := Cancelled(s.shared))
    case CloseJobs => s.(shared := AllClosed(s.shared))
    case TickerFires(j) => s.(tickers := s.tickers[j := Sending])
    case TickerSends(j) =>
      var run := RunOf(s.shared, j);
      s.(shared := s.shared.(queue := s.shared.queue + [run]),
         tickers := s.tickers[j := Waiting],
         sent := s.sent + [run])
    case TickerReturns(j) => s.(tickers := s.tickers[j := Returned])
    case WorkerTakes(w) =>
      var run := s.shared.queue[0];
      s.(shared := s.shared.(queue := s.shared.queue[1..]),
         workers := s.workers[w := Executing(run)],
         taken := s.taken + [run])
    case WorkerFinishes(w) =>
      s.(workers := s.workers[w := Idle], finished := s.finished + [s.workers[w].run])
    case WorkerReturns(w) => s.(workers := s.workers[w := Gone])
  }

  function Exec(s: State, steps: seq<Step>): Option<State>
    decreases |steps|
  {
    if steps == [] then Some(s)
    else if !Enabled(s, steps[0]) then None
    else Exec(Apply(s, steps[0]), steps[1..])
  }

  function Held(worker: Worker): multiset<JobRun> {
    if worker.Executing? then multiset{worker.run} else multiset{}
  }

  /** The runs that are being executed. */
  function InExecution(workers: seq<Worker>): multiset<JobRun> {
    if workers == [] then multiset{} else InExecution(workers[..|workers| - 1]) + Held(workers[|workers| - 1])
  }

  lemma {:induction false} InExecutionUpdated(workers: seq<Worker>, w: nat, worker: Worker)
    requires w < |workers|
    ensures InExecution(workers[w := worker]) + Held(workers[w]) == InExecution(workers) + Held(worker)
  {
    hide Held;
    var last := |workers| - 1;
    var front := workers[..last];
    if w == last {
      assert workers[w := worker][..last] == front;
      Swapped(InExecution(front), Held(workers[w]), Held(worker));
    } else {
      assert workers[w := worker][..last] == front[w := worker];
      InExecutionUpdated(front, w, worker);
      OneMore(InExecution(front[w := worker]), Held(workers[w]), InExecution(front), Held(worker), Held(workers[last]));
    }
  }

  lemma Swapped(a: multiset<JobRun>, x: multiset<JobRun>, y: multiset<JobRun>)
    ensures (a + x) + y == (a + y) + x
  {
  }

  lemma OneMore(a: multiset<JobRun>, x: multiset<JobRun>, b: multiset<JobRun>, y: multiset<JobRun>, z: multiset<JobRun>)
    requires a + x == b + y
    ensures (a + z) + x == (b + z) + y
  {
    assert (a + z) + x == (a + x) + z;
    assert (b + z) + y == (b + y) + z;
  }

  lemma {:induction false} NobodyExecutes(n: nat)
    ensures InExecution(seq(n, _ => Idle)) == multiset{}
  {
    if n > 0 {
      assert seq(n, _ => Idle)[..n - 1] == seq(n - 1, _ => Idle);
      NobodyExecutes(n - 1);
    }
  }

  /** Runs are neither lost, nor doubled, nor reordered on the queue, and the taken ones are those being
      executed and those executed. */
  predicate RunsConserved(s: State) {
    && s.sent == s.taken + s.shared.queue
    && multiset(s.taken) == InExecution(s.workers) + multiset(s.finished)
  }

  predicate Inv(s: State) {
    && SharedInv(s.shared)
    && |s.tickers| == |s.shared.created|
    && RunsConserved(s)
    && (forall run :: run in s.sent ==> RunFits(s.shared, run))
    && (forall j :: 0 <= j < |s.tickers| && s.tickers[j].Returned? ==> s.shared.created[j].closes > 0 || s.shared.cancelled)
  }

  lemma CallKeepsInv(s: State, t: State)
    requires Inv(s) && SharedInv(t.shared) && Keeps(s.shared, t.shared) && |t.tickers| == |t.shared.created|
    requires forall j :: 0 <= j < |t.tickers| ==> if j < |s.tickers| then t.tickers[j] == s.tickers[j] else t.tickers[j] == Waiting
    requires t == s.(shared := t.shared, tickers := t.tickers)
    ensures Inv(t)
  {
    hide SharedInv, InExecution;
  }

  lemma TickerKeepsInv(s: State, step: Step)
    requires Inv(s) && Enabled(s, step) && (step.TickerFires? || step.TickerSends? || step.TickerReturns?)
    ensures Inv(Apply(s, step))
  {
    hide InExecution;
    var t := Apply(s, step);
    if step.TickerSends? {
      assert t.sent == t.taken + t.shared.queue;
    }
  }

  lemma WorkerKeepsInv(s: State, step: Step)
    requires Inv(s) && Enabled(s, step) && (step.WorkerTakes? || step.WorkerFinishes? || step.WorkerReturns?)
    ensures Inv(Apply(s, step))
  {
    hide InExecution, ClosedOnceUnlessCurrent;
    var t := Apply(s, step);
    WorkerConservesRuns(s, step);
    assert t.sent == s.sent && t.shared.created == s.shared.created && t.shared.current == s.shared.current;
    assert ClosedOnceUnlessCurrent(t.shared) by {
      assert forall j :: IsCurrent(t.shared, j) == IsCurrent(s.shared, j);
      SameJobsSameCloses(s.shared, t.shared);
    }
    assert forall run :: run in t.shared.queue ==> run in s.shared.queue;
    assert forall run :: RunFits(s.shared, run) ==> RunFits(t.shared, run);
  }

  lemma SameJobsSameCloses(s: Shared, t: Shared)
    requires ClosedOnceUnlessCurrent(s) && t.created == s.created && t.current == s.current
    ensures ClosedOnceUnlessCurrent(t)
  {
    forall j | 0 <= j < |t.created| ensures t.created[j].closes == if IsCurrent(t, j) then 0 else 1 {
      assert IsCurrent(t, j) == IsCurrent(s, j);
    }
  }

  lemma WorkerConservesRuns(s: State, step: Step)
    requires RunsConserved(s) && Enabled(s, step) && (step.WorkerTakes? || step.WorkerFinishes? || step.WorkerReturns?)
    ensures RunsConserved(Apply(s, step))
  {
    if step.WorkerTakes? {
      TakingConservesRuns(s, step.worker);
    } else if step.WorkerFinishes? {
      FinishingConservesRuns(s, step.worker);
    } else {
      InExecutionUpdated(s.workers, step.worker, Gone);
      hide InExecution;
      PlusNothing(InExecution(s.workers));
      PlusNothing(InExecution(s.workers[step.worker := Gone]));
    }
  }

  lemma TakingConservesRuns(s: State, w: nat)
    requires RunsConserved(s) && Enabled(s, WorkerTakes(w))
    ensures RunsConserved(Apply(s, WorkerTakes(w)))
  {
    hide InExecution;
    var t, first := Apply(s, WorkerTakes(w)), s.shared.queue[0];
    InExecutionUpdated(s.workers, w, Executing(first));
    PlusNothing(InExecution(t.workers));
    assert s.shared.queue == [first] + s.shared.queue[1..];
    assert t.taken + t.shared.queue == s.taken + s.shared.queue;
    Swapped(InExecution(s.workers), multiset(s.finished), multiset{first});
  }

  lemma FinishingConservesRuns(s: State, w: nat)
    requires RunsConserved(s) && Enabled(s, WorkerFinishes(w))
    ensures RunsConserved(Apply(s, WorkerFinishes(w)))
  {
    hide InExecution;
    var t, run := Apply(s, WorkerFinishes(w)), s.workers[w].run;
    var after, rest := InExecution(t.workers), multiset(s.finished);
    InExecutionUpdated(s.workers, w, Idle);
    PlusNothing(InExecution(s.workers));
    Swapped(after, rest, multiset{run});
    assert (after + rest) + multiset{run} == after + (rest + multiset{run});
  }

  lemma PlusNothing(a: multiset<JobRun>)
    ensures a + multiset{} == a
  {
  }

  lemma StepKeepsInv(s: State, step: Step)
    requires Inv(s) && Enabled(s, step)
    ensures Inv(Apply(s, step))
  {
    hide Inv, SharedInv, Keeps, Closed, AllClosed;
    var t := Apply(s, step);
    SharedOfInv(s);
    match step
    case Schedule(id, spec, adapter) =>
      ScheduledLive(s.shared, id, spec, adapter);
      ScheduledKeeps(s.shared, id, spec, adapter);
      CallKeepsInv(s, t);
    case Unschedule(id) => UnscheduledLive(s.shared, id); CallKeepsInv(s, t);
    case Cancel => CancelledLive(s.shared); CallKeepsInv(s, t);
    case CloseJobs => AllClosedLive(s.shared); CallKeepsInv(s, t);
    case TickerFires(_) => TickerKeepsInv(s, step);
    case TickerSends(_) => TickerKeepsInv(s, step);
    case TickerReturns(_) => TickerKeepsInv(s, step);
    case _ => WorkerKeepsInv(s, step);
  }

  lemma SharedOfInv(s: State)
    requires Inv(s)
    ensures SharedInv(s.shared) && |s.tickers| == |s.shared.created|
  {
  }

  lemma {:induction false} ExecKeepsInv(s: State, steps: seq<Step>)
    requires Inv(s) && Exec(s, steps).Some?
    ensures Inv(Exec(s, steps).value)
    decreases |steps|
  {
    if steps != [] {
      StepKeepsInv(s, steps[0]);
      ExecKeepsInv(Apply(s, steps[0]), steps[1..]);
    }
  }

  // ----- the results

  /** Over every interleaving: no stop channel is closed twice, and the closed ones are those of the jobs that
      are not current; a rule has at most one job that is not stopped; the queue is within its capacity; and every
      run put on the queue is still there, being executed or executed, once, and was taken in order. */
  lemma RegistrySafety(workers: nat, steps: seq<Step>)
    requires Exec(Initial(workers), steps).Some?
    ensures var s := Exec(Initial(workers), steps).value;
            && ClosedOnceUnlessCurrent(s.shared)
            && (forall i, j :: 0 <= i < j < |s.shared.created|
                               && s.shared.created[i].closes == 0 && s.shared.created[j].closes == 0
                  ==> s.shared.created[i].ruleID != s.shared.created[j].ruleID)
            && |s.shared.queue| <= 128
            && s.sent == s.taken + s.shared.queue
            && multiset(s.taken) == InExecution(s.workers) + multiset(s.finished)
            && |s.sent| == |s.shared.queue| + |InExecution(s.workers)| + |s.finished|
  {
    InitialInv(workers);
    ExecKeepsInv(Initial(workers), steps);
    var s := Exec(Initial(workers), steps).value;
    assert |multiset(s.taken)| == |s.taken|;
  }

  lemma InitialInv(workers: nat)
    ensures Inv(Initial(workers))
  {
    NobodyExecutes(workers);
  }

  /** The steps that the jobs of rules depend on: tickers and workers have no say. */
  function LiveAfter(live: map<string, Assignment>, steps: seq<Step>): map<string, Assignment>
    decreases |steps|
  {
    if steps == [] then live
    else
      var next := match steps[0]
                  case Schedule(id, spec, adapter) => live[id := Assignment(spec, adapter)]
                  case Unschedule(id) => live - {id}
                  case CloseJobs => map[]
                  case _ => live;
      LiveAfter(next, steps[1..])
  }

  lemma StepLive(s: State, step: Step)
    requires Inv(s) && Enabled(s, step)
    ensures Inv(Apply(s, step))
    ensures LiveAfter(Live(s.shared), [step]) == Live(Apply(s, step).shared)
  {
    hide Inv, SharedInv, Keeps, Closed, AllClosed;
    SharedOfInv(s);
    StepKeepsInv(s, step);
    SharedOfInv(Apply(s, step));
    assert [step][1..] == [];
    match step
    case Schedule(id, spec, adapter) => ScheduledLive(s.shared, id, spec, adapter);
    case Unschedule(id) => UnscheduledLive(s.shared, id);
    case CloseJobs => AllClosedLive(s.shared);
    case Cancel => CancelledLive(s.shared);
    case _ => SameJobsSameLive(s.shared, Apply(s, step).shared);
  }

  lemma SameJobsSameLive(s: Shared, t: Shared)
    requires SharedInv(s) && SharedInv(t) && t.created == s.created && t.current == s.current
    ensures Live(t) == Live(s)
  {
  }

  /** A rule has a job after a run of the system exactly when it was scheduled and not unscheduled or stopped
      since, and then the job has the specification and the adapter it was scheduled with last. */
  lemma {:induction false} LatestScheduleWins(s: State, steps: seq<Step>)
    requires Inv(s) && Exec(s, steps).Some?
    ensures Inv(Exec(s, steps).value)
    ensures Live(Exec(s, steps).value.shared) == LiveAfter(Live(s.shared), steps)
    decreases |steps|
  {
    if steps != [] {
      StepLive(s, steps[0]);
      assert [steps[0]][1..] == [];
      LatestScheduleWins(Apply(s, steps[0]), steps[1..]);
    }
  }

  /** Some call of Schedule gave these arguments. */
  predicate ScheduledBy(steps: seq<Step>, run: JobRun) {
    Schedule(run.ruleID, run.spec, run.adapter) in steps
  }

  lemma {:induction false} JobsComeFromSchedule(s: State, steps: seq<Step>, j: nat)
    requires Inv(s) && Exec(s, steps).Some?
    requires |s.shared.created| <= j < |Exec(s, steps).value.shared.created|
    ensures ScheduledBy(steps, RunOf(Exec(s, steps).value.shared, j))
    decreases |steps|
  {
    if steps == [] {
      assert false;
    } else {
      var t := Apply(s, steps[0]);
      StepKeepsInv(s, steps[0]);
      if j < |t.shared.created| {
        JobKeepsArguments(t, steps[1..], j);
      } else {
        JobsComeFromSchedule(t, steps[1..], j);
      }
    }
  }

  lemma {:induction false} JobKeepsArguments(s: State, steps: seq<Step>, j: nat)
    requires Inv(s) && Exec(s, steps).Some? && j < |s.shared.created|
    ensures j < |Exec(s, steps).value.shared.created|
    ensures RunOf(Exec(s, steps).value.shared, j) == RunOf(s.shared, j)
    decreases |steps|
  {
    hide Inv, Apply, RunOf;
    if steps != [] {
      StepKeepsInv(s, steps[0]);
      StepKeepsJobs(s, steps[0]);
      JobKeepsArguments(Apply(s, steps[0]), steps[1..], j);
    }
  }

  lemma StepKeepsJobs(s: State, step: Step)
    requires Inv(s) && Enabled(s, step)
    ensures |s.shared.created| <= |Apply(s, step).shared.created|
    ensures forall j :: 0 <= j < |s.shared.created| ==> RunOf(Apply(s, step).shared, j) == RunOf(s.shared, j)
  {
    SharedOfInv(s);
    hide Inv, SharedInv, Closed, AllClosed;
    match step
    case Schedule(id, spec, adapter) => ScheduledKeeps(s.shared, id, spec, adapter);
    case Unschedule(id) => UnscheduledLive(s.shared, id);
    case CloseJobs => AllClosedLive(s.shared);
    case _ =>
  }

  /** Every run that is executed was scheduled: its rule, specification and adapter are those of one call. */
  lemma RunsCarryTheirSchedule(workers: nat, steps: seq<Step>, run: JobRun)
    requires Exec(Initial(workers), steps).Some?
    requires run in Exec(Initial(workers), steps).value.sent
    ensures ScheduledBy(steps, run)
  {
    InitialInv(workers);
    ExecKeepsInv(Initial(workers), steps);
    JobsComeFromSchedule(Initial(workers), steps, run.job);
  }

  function RunsOf(runs: seq<JobRun>, j: nat): nat {
    if runs == [] then 0 else RunsOf(runs[..|runs| - 1], j) + if runs[|runs| - 1].job == j then 1 else 0
  }

  /** Once its ticker has returned, a job sends nothing any more, whatever else happens. */
  lemma {:induction false} ReturnedTickerIsSilent(s: State, steps: seq<Step>, j: nat)
    requires Inv(s) && Exec(s, steps).Some? && TickerIs(s, j, Returned)
    ensures TickerIs(Exec(s, steps).value, j, Returned)
    ensures RunsOf(Exec(s, steps).value.sent, j) == RunsOf(s.sent, j)
    decreases |steps|
  {
    if steps != [] {
      var t := Apply(s, steps[0]);
      StepKeepsInv(s, steps[0]);
      StepOfReturnedTicker(s, steps[0], j);
      ReturnedTickerIsSilent(t, steps[1..], j);
    }
  }

  lemma StepOfReturnedTicker(s: State, step: Step, j: nat)
    requires Inv(s) && Enabled(s, step) && TickerIs(s, j, Returned)
    ensures TickerIs(Apply(s, step), j, Returned)
    ensures RunsOf(Apply(s, step).sent, j) == RunsOf(s.sent, j)
  {
    StepKeepsJobs(s, step);
    hide Inv, Closed, AllClosed;
    var t := Apply(s, step);
    if step.TickerSends? {
      assert t.sent[..|t.sent| - 1] == s.sent;
    }
  }

  // ----- shutting down

  /** From the start of a stop on, every ticker that is not blocked and every worker between runs may return, now and
      for good. */
  lemma CancelledForGood(s: State, steps: seq<Step>)
    requires Exec(Apply(s, Cancel), steps).Some?
    ensures var t := Exec(Apply(s, Cancel), steps).value;
            && t.shared.cancelled
            && (forall j :: TickerIs(t, j, Waiting) ==> Enabled(t, TickerReturns(j)))
            && (forall w :: 0 <= w < |t.workers| && t.workers[w].Idle? ==> Enabled(t, WorkerReturns(w)))
  {
    StaysCancelled(Apply(s, Cancel), steps);
  }

  lemma {:induction false} StaysCancelled(s: State, steps: seq<Step>)
    requires Exec(s, steps).Some? && s.shared.cancelled
    ensures Exec(s, steps).value.shared.cancelled
    decreases |steps|
  {
    if steps != [] {
      StaysCancelled(Apply(s, steps[0]), steps[1..]);
    }
  }
}
