/** What an event about a rule makes of the rule's row and of the registry, and what the registry comes to when
    events are handled in any order, any number of times and at once. */
module RuleEvents {
  import opened Common
  import opened Registry

  /** rule_json is given decoded: None is text that does not decode. */
  datatype Row = Row(enabled: bool, json: Option<RuleSpec>, status: string, lastError: Option<string>, lastRunAt: Option<int>)

  /** What handling depends on besides the row: the connections table, the configured adapters (None is an
      adapter registry that was not configured), and the specifications that fail validation, with the error. */
  datatype Environment = Environment(
    connections: map<string, string>,
    adapters: Option<map<string, string>>,
    rejected: map<(string, RuleSpec), string>)

  datatype World = World(rules: map<string, Row>, live: map<string, Assignment>)

  datatype Action = Keep | Drop | Put(job: Assignment)

  datatype Mark = Mark(status: string, lastError: Option<string>)

  datatype Decision = Decision(mark: Option<Mark>, action: Action)

  function Invalid(error: string, action: Action): Decision {
    Decision(Some(Mark("INVALID", Some(error))), action)
  }

  /** The adapter of a rule's connection, and the specification's own validation. */
  function Check(env: Environment, spec: RuleSpec): Result<Assignment, string> {
    if spec.connectionRef !in env.connections then Failure("connection not found")
    else if env.adapters.None? then Failure("adapter registry not configured")
    else
      var connType := env.connections[spec.connectionRef];
      var kind := ToLower(connType);
      if kind !in env.adapters.value then Failure("no adapter configured for " + connType)
      else
        var adapter := env.adapters.value[kind];
        if (adapter, spec) in env.rejected then Failure(env.rejected[(adapter, spec)])
        else Success(Assignment(spec, adapter))
  }

  function Decide(env: Environment, row: Option<Row>): Decision {
    if row.None? then Decision(None, Keep)
    else if !row.value.enabled then Decision(None, Drop)
    else if row.value.json.None? then Invalid("invalid rule json", Keep)
    else
      match Check(env, row.value.json.value)
      case Failure(error) => Invalid(error, Drop)
      case Success(job) => Decision(Some(Mark("ACTIVE", None)), Put(job))
  }

  function Lookup(rules: map<string, Row>, id: string): Option<Row> {
    if id in rules then Some(rules[id]) else None
  }

  function Marked(rules: map<string, Row>, id: string, mark: Option<Mark>): map<string, Row> {
    if id in rules && mark.Some?
    then rules[id := rules[id].(status := mark.value.status, lastError := mark.value.lastError)]
    else rules
  }

  function Acted(live: map<string, Assignment>, id: string, action: Action): map<string, Assignment> {
    match action
    case Keep => live
    case Drop => live - {id}
    case Put(job) => live[id := job]
  }

  /** One event handled with nothing in between. */
  function Processed(env: Environment, w: World, id: string): World {
    var decision := Decide(env, Lookup(w.rules, id));
    World(Marked(w.rules, id, decision.mark), Acted(w.live, id, decision.action))
  }

  function ProcessedAll(env: Environment, w: World, ids: seq<string>): World
    decreases |ids|
  {
    if ids == [] then w
    else Processed(env, ProcessedAll(env, w, ids[..|ids| - 1]), ids[|ids| - 1])
  }

  // ----- the worker

  class Handlers {
    var rules: map<string, Row>
    const env: Environment
    const registry: Registry

    constructor (rules: map<string, Row>, env: Environment, registry: Registry)
      ensures this.rules == rules && this.env == env && this.registry == registry
    {
      this.rules, this.env, this.registry := rules, env, registry;
    }

    ghost predicate Valid()
      reads this, registry, registry.created
    {
      registry.Valid()
    }

    ghost function View(): World
      reads this, registry, registry.created
      requires Valid()
    {
      World(rules, Live(registry.View()))
    }

    method GetRule(id: string) returns (row: Option<Row>)
      ensures row == Lookup(rules, id)
    {
      row := if id in rules then Some(rules[id]) else None;
    }

    method UpdateRuleStatus(id: string, status: string, lastError: Option<string>)
      modifies this`rules
      ensures rules == Marked(old(rules), id, Some(Mark(status, lastError)))
    {
      if id in rules {
        rules := rules[id := rules[id].(status := status, lastError := lastError)];
      }
    }

    method Drop(id: string)
      requires Valid()
      modifies registry, registry.created
      ensures Valid() && Live(registry.View()) == Live(old(registry.View())) - {id}
      ensures forall job :: job in registry.created ==> job in old(registry.created)
    {
      hide SharedInv, Unscheduled, Live;
      UnscheduledLive(registry.View(), id);
      registry.Unschedule(id);
    }

    method Reject(id: string, error: string)
      requires Valid()
      modifies this`rules, registry, registry.created
      ensures Valid() && rules == Marked(old(rules), id, Some(Mark("INVALID", Some(error))))
      ensures Live(registry.View()) == Live(old(registry.View())) - {id}
      ensures forall job :: job in registry.created ==> job in old(registry.created)
    {
      hide SharedInv, Live, Registry.Valid, Registry.View;
      UpdateRuleStatus(id, "INVALID", Some(error));
      Drop(id);
    }

    /** The result is whether the caller gets an error to log. */
    method ProcessRule(id: string) returns (failed: bool)
      requires Valid()
      modifies this`rules, registry, registry.created
      ensures Valid() && View() == Processed(env, old(View()), id)
      ensures forall job :: job in registry.created ==> job in old(registry.created) || fresh(job)
      ensures failed == Fails(env, Lookup(old(rules), id))
    {
      hide SharedInv, Scheduled, Live, ToLower;
      failed := true;
      var row := GetRule(id);
      if row.None? {
        return;
      }
      if !row.value.enabled {
        Drop(id);
        failed := false;
        return;
      }
      if row.value.json.None? {
        UpdateRuleStatus(id, "INVALID", Some("invalid rule json"));
        return;
      }
      var spec := row.value.json.value;
      if spec.connectionRef !in env.connections {
        Reject(id, "connection not found");
        return;
      }
      if env.adapters.None? {
        Reject(id, "adapter registry not configured");
        return;
      }
      var connType := env.connections[spec.connectionRef];
      if ToLower(connType) !in env.adapters.value {
        Reject(id, "no adapter configured for " + connType);
        return;
      }
      var adapter := env.adapters.value[ToLower(connType)];
      if (adapter, spec) in env.rejected {
        Reject(id, env.rejected[(adapter, spec)]);
        return;
      }
      UpdateRuleStatus(id, "ACTIVE", None);
      ScheduledLive(registry.View(), id, spec, adapter);
      registry.Schedule(id, spec, adapter, row.value.lastRunAt);
      failed := false;
    }

    /** The enabled rules, in whatever order the database gives them. */
    method ListEnabledRules() returns (ids: seq<string>)
      ensures forall id :: id in ids <==> id in rules && rules[id].enabled
      ensures forall i, j :: 0 <= i < j < |ids| ==> ids[i] != ids[j]
    {
      ids := [];
      var todo := rules.Keys;
      while todo != {}
        invariant todo <= rules.Keys
        invariant forall id :: id in ids <==> id in rules && rules[id].enabled && id !in todo
        invariant forall i, j :: 0 <= i < j < |ids| ==> ids[i] != ids[j]
        decreases todo
      {
        var id :| id in todo;
        todo := todo - {id};
        if rules[id].enabled {
          ids := ids + [id];
        }
      }
    }

    method Reconcile() returns (ghost ids: seq<string>)
      requires Valid()
      modifies this`rules, registry, registry.created
      ensures forall id :: id in ids <==> id in old(rules) && old(rules)[id].enabled
      ensures Valid() && View() == ProcessedAll(env, old(View()), ids)
      ensures forall job :: job in registry.created ==> job in old(registry.created) || fresh(job)
    {
      hide SharedInv, Live, Processed, Registry.Valid, Registry.View;
      var list := ListEnabledRules();
      ids := list;
      for i := 0 to |list|
        invariant Valid() && View() == ProcessedAll(env, old(View()), list[..i])
        invariant forall job :: job in registry.created ==> job in old(registry.created) || fresh(job)
      {
        assert forall k :: 0 <= k < |registry.created| ==> registry.created[k] in registry.created;
        var _ := ProcessRule(list[i]);
        assert list[..i + 1][..i] == list[..i];
      }
      assert list[..|list|] == list;
    }
  }

  predicate Fails(env: Environment, row: Option<Row>) {
    row.None? || (row.value.enabled && (row.value.json.None? || Check(env, row.value.json.value).Failure?))
  }

  // ----- what a rule comes to

  /** Handling decides about the job of a rule unless its row is missing, or enabled with undecodable JSON. */
  predicate Decidable(row: Option<Row>) {
    row.Some? && (!row.value.enabled || row.value.json.Some?)
  }

  /** A rule has a job exactly when it is enabled and passes validation, and it is the job of the stored
      specification. */
  predicate Converged(env: Environment, row: Row, live: map<string, Assignment>, id: string) {
    && (id in live <==> row.enabled && row.json.Some? && Check(env, row.json.value).Success?)
    && (id in live ==> row.json.Some? && live[id].spec == row.json.value && Check(env, row.json.value) == Success(live[id]))
  }

  /** The status that handling gives a row: an enabled one is ACTIVE exactly when it passes. */
  predicate StatusConverged(env: Environment, row: Row) {
    row.enabled ==>
      if row.json.Some? && Check(env, row.json.value).Success? then row.status == "ACTIVE" && row.lastError == None
      else row.status == "INVALID" && row.lastError.Some?
  }

  /** The four things a specification needs, in the order in which they are looked for. */
  predicate Connected(env: Environment, spec: RuleSpec) {
    spec.connectionRef in env.connections
  }

  predicate HasAdapter(env: Environment, spec: RuleSpec)
    requires Connected(env, spec) && env.adapters.Some?
  {
    ToLower(env.connections[spec.connectionRef]) in env.adapters.value
  }

  function AdapterOf(env: Environment, spec: RuleSpec): string
    requires Connected(env, spec) && env.adapters.Some? && HasAdapter(env, spec)
  {
    env.adapters.value[ToLower(env.connections[spec.connectionRef])]
  }

  /** One handling, case by case: what becomes of the rule's job, its row's status and its row's error. The rest
      of the row, other rows and other jobs stay as they are. */
  lemma ProcessedExactly(env: Environment, w: World, id: string)
    ensures var t := Processed(env, w, id);
            && t.rules.Keys == w.rules.Keys
            && (forall other :: other in w.rules && other != id ==> t.rules[other] == w.rules[other])
            && t.live - {id} == w.live - {id}
    ensures id !in w.rules ==> Processed(env, w, id) == w
    ensures id in w.rules && !w.rules[id].enabled ==>
            Processed(env, w, id) == w.(live := w.live - {id})
    ensures id in w.rules && w.rules[id].enabled && w.rules[id].json.None? ==>
            Processed(env, w, id)
            == w.(rules := w.rules[id := w.rules[id].(status := "INVALID", lastError := Some("invalid rule json"))])
    ensures id in w.rules && w.rules[id].enabled && w.rules[id].json.Some? ==>
            var t, spec := Processed(env, w, id), w.rules[id].json.value;
            && (id in t.live <==> Connected(env, spec) && env.adapters.Some? && HasAdapter(env, spec)
                                  && (AdapterOf(env, spec), spec) !in env.rejected)
            && (id in t.live ==>
                  t.live[id] == Assignment(spec, AdapterOf(env, spec))
                  && t.rules[id] == w.rules[id].(status := "ACTIVE", lastError := None))
            && (id !in t.live ==>
                  t.rules[id] == w.rules[id].(status := "INVALID", lastError := Some(
                    if !Connected(env, spec) then "connection not found"
                    else if env.adapters.None? then "adapter registry not configured"
                    else if !HasAdapter(env, spec) then "no adapter configured for " + env.connections[spec.connectionRef]
                    else env.rejected[(AdapterOf(env, spec), spec)])))
  {
    hide ToLower;
  }

  /** The caller gets an error exactly when the row is missing, or when it is enabled and ends up without ACTIVE. */
  lemma FailsExactly(env: Environment, w: World, id: string)
    ensures Fails(env, Lookup(w.rules, id))
       <==> id !in w.rules || (w.rules[id].enabled && Processed(env, w, id).rules[id].status == "INVALID")
  {
    hide ToLower;
    assert "ACTIVE"[0] != "INVALID"[0];
  }

  /** What of a row handling never changes. */
  predicate SameDefinition(a: Option<Row>, b: Option<Row>) {
    a.Some? == b.Some? && (a.Some? ==> a.value.enabled == b.value.enabled && a.value.json == b.value.json)
  }

  lemma SameDefinitionSameDecision(env: Environment, a: Option<Row>, b: Option<Row>)
    requires SameDefinition(a, b)
    ensures Decide(env, a) == Decide(env, b) && Decidable(a) == Decidable(b)
  {
  }

  /** One handling: a rule it can decide about converges, and about any other nothing changes in the registry. */
  lemma ProcessedConverges(env: Environment, w: World, id: string)
    ensures var t := Processed(env, w, id);
            if Decidable(Lookup(w.rules, id))
            then id in t.rules && Converged(env, t.rules[id], t.live, id) && StatusConverged(env, t.rules[id])
            else t.live == w.live
  {
  }

  lemma ProcessedLeavesOthers(env: Environment, w: World, id: string, other: string)
    requires other != id
    ensures var t := Processed(env, w, id);
            Lookup(t.rules, other) == Lookup(w.rules, other)
            && (other in t.live <==> other in w.live) && (other in w.live ==> t.live[other] == w.live[other])
  {
  }

  lemma DefinitionKept(env: Environment, w: World, id: string, of: string)
    ensures SameDefinition(Lookup(Processed(env, w, id).rules, of), Lookup(w.rules, of))
  {
  }

  /** Handling a rule again changes nothing. */
  lemma ProcessedTwice(env: Environment, w: World, id: string)
    ensures Processed(env, Processed(env, w, id), id) == Processed(env, w, id)
  {
    hide Check;
    var t := Processed(env, w, id);
    DefinitionKept(env, w, id, id);
    SameDefinitionSameDecision(env, Lookup(t.rules, id), Lookup(w.rules, id));
  }

  /** Handlings of different rules commute. */
  lemma ProcessedCommutes(env: Environment, w: World, a: string, b: string)
    requires a != b
    ensures Processed(env, Processed(env, w, a), b) == Processed(env, Processed(env, w, b), a)
  {
    hide Decide;
    var ta, tb := Processed(env, w, a), Processed(env, w, b);
    ProcessedLeavesOthers(env, w, a, b);
    ProcessedLeavesOthers(env, w, b, a);
    assert Lookup(ta.rules, b) == Lookup(w.rules, b) && Lookup(tb.rules, a) == Lookup(w.rules, a);
    var da, db := Decide(env, Lookup(w.rules, a)), Decide(env, Lookup(w.rules, b));
    MarksCommute(w.rules, a, da.mark, b, db.mark);
    ActionsCommute(w.live, a, da.action, b, db.action);
  }

  lemma MarksCommute(rules: map<string, Row>, a: string, x: Option<Mark>, b: string, y: Option<Mark>)
    requires a != b
    ensures Marked(Marked(rules, a, x), b, y) == Marked(Marked(rules, b, y), a, x)
  {
  }

  lemma ActionsCommute(live: map<string, Assignment>, a: string, x: Action, b: string, y: Action)
    requires a != b
    ensures Acted(Acted(live, a, x), b, y) == Acted(Acted(live, b, y), a, x)
  {
  }

  /** The part of a world that belongs to one rule. */
  function About(w: World, id: string): (Option<Row>, Option<Assignment>) {
    (Lookup(w.rules, id), if id in w.live then Some(w.live[id]) else None)
  }

  lemma SameEverywhere(v: World, w: World)
    requires forall id :: About(v, id) == About(w, id)
    ensures v == w
  {
    forall id ensures (id in v.rules <==> id in w.rules) && (id in v.rules ==> v.rules[id] == w.rules[id])
      && (id in v.live <==> id in w.live) && (id in v.live ==> v.live[id] == w.live[id]) {
      assert About(v, id) == About(w, id);
    }
    assert v.rules == w.rules;
    assert v.live == w.live;
  }

  /** Handling a list of rules is, for each rule on it, handling that rule alone. */
  lemma {:induction false} ProcessedAllAbout(env: Environment, w: World, ids: seq<string>, id: string)
    ensures About(ProcessedAll(env, w, ids), id) == About(if id in ids then Processed(env, w, id) else w, id)
    decreases |ids|
  {
    if ids != [] {
      var rest, last := ids[..|ids| - 1], ids[|ids| - 1];
      assert ids == rest + [last];
      var t := ProcessedAll(env, w, rest);
      ProcessedAllAbout(env, w, rest, id);
      if last != id {
        ProcessedLeavesOthers(env, t, last, id);
      } else {
        AboutDecides(env, t, if id in rest then Processed(env, w, id) else w, id);
        ProcessedTwice(env, w, id);
      }
    }
  }

  lemma AboutDecides(env: Environment, v: World, w: World, id: string)
    requires About(v, id) == About(w, id)
    ensures About(Processed(env, v, id), id) == About(Processed(env, w, id), id)
  {
    hide Decide;
  }

  /** The order of reconciliation, and naming a rule twice, make no difference. */
  lemma ReconcileOrderIrrelevant(env: Environment, w: World, a: seq<string>, b: seq<string>)
    requires forall id :: id in a <==> id in b
    ensures ProcessedAll(env, w, a) == ProcessedAll(env, w, b)
  {
    forall id ensures About(ProcessedAll(env, w, a), id) == About(ProcessedAll(env, w, b), id) {
      ProcessedAllAbout(env, w, a, id);
      ProcessedAllAbout(env, w, b, id);
    }
    SameEverywhere(ProcessedAll(env, w, a), ProcessedAll(env, w, b));
  }

  /** After reconciliation every enabled rule that decodes has converged; the job of a rule that is not enabled,
      or not there any more, is left as it was. */
  lemma ReconcileConverges(env: Environment, w: World, ids: seq<string>, id: string)
    requires forall id :: id in ids <==> id in w.rules && w.rules[id].enabled
    ensures var t := ProcessedAll(env, w, ids);
            if id in w.rules && w.rules[id].enabled && w.rules[id].json.Some?
            then id in t.rules && Converged(env, t.rules[id], t.live, id) && StatusConverged(env, t.rules[id])
            else About(t, id).1 == About(w, id).1
  {
    hide Decide, Check;
    ProcessedAllAbout(env, w, ids, id);
    ProcessedConverges(env, w, id);
  }

  // ----- handlers at once

  datatype Handler = Handler(id: string, snapshot: Option<Row>, marked: bool)

  datatype System = System(world: World, handlers: map<nat, Handler>)

  datatype Step =
    | Write(id: string, row: Option<Row>)   // the rule service, or None when it deletes the rule
    | StoreLastRun(id: string, at: int)     // a run of the rule's job
    | Read(handler: nat, id: string)
    | SetStatus(handler: nat)
    | Act(handler: nat)

  predicate Enabled(s: System, step: Step) {
    match step
    case Write(_, _) => true
    case StoreLastRun(_, _) => true
    case Read(h, _) => h !in s.handlers
    case SetStatus(h) => h in s.handlers && !s.handlers[h].marked
    case Act(h) => h in s.handlers && s.handlers[h].marked
  }

  function Apply(env: Environment, s: System, step: Step): System
    requires Enabled(s, step)
  {
    match step
    case Write(id, row) =>
      s.(world := s.world.(rules := if row.Some? then s.world.rules[id := row.value] else s.world.rules - {id}))
    case StoreLastRun(id, at) =>
      if id in s.world.rules
      then s.(world := s.world.(rules := s.world.rules[id := s.world.rules[id].(lastRunAt := Some(Microseconds(at)))]))
      else s
    case Read(h, id) => s.(handlers := s.handlers[h := Handler(id, Lookup(s.world.rules, id), false)])
    case SetStatus(h) =>
      var handler := s.handlers[h];
      s.(world := s.world.(rules := Marked(s.world.rules, handler.id, Decide(env, handler.snapshot).mark)),
         handlers := s.handlers[h := handler.(marked := true)])
    case Act(h) =>
      var handler := s.handlers[h];
      s.(world := s.world.(live := Acted(s.world.live, handler.id, Decide(env, handler.snapshot).action)),
         handlers := s.handlers - {h})
  }

  function Exec(env: Environment, s: System, steps: seq<Step>): Option<System>
    decreases |steps|
  {
    if steps == [] then Some(s)
    else if !Enabled(s, steps[0]) then None
    else Exec(env, Apply(env, s, steps[0]), steps[1..])
  }

  /** The step leaves the definition of the rule as it is: it may be a write of the rule's row, but one that
      says the same. */
  predicate Quiet(s: System, step: Step, id: string) {
    step.Write? && step.id == id ==> SameDefinition(step.row, Lookup(s.world.rules, id))
  }

  /** All steps do. */
  predicate Undisturbed(env: Environment, s: System, steps: seq<Step>, id: string)
    requires Exec(env, s, steps).Some?
    decreases |steps|
  {
    steps == [] || (Quiet(s, steps[0], id) && Undisturbed(env, Apply(env, s, steps[0]), steps[1..], id))
  }

  lemma DefinitionStays(env: Environment, s: System, step: Step, id: string)
    requires Enabled(s, step) && Quiet(s, step, id)
    ensures SameDefinition(Lookup(Apply(env, s, step).world.rules, id), Lookup(s.world.rules, id))
  {
    hide Decide;
  }

  function ActionOf(env: Environment, s: System, h: nat): Action
    requires h in s.handlers
  {
    Decide(env, s.handlers[h].snapshot).action
  }

  /** What handling makes of the rule's job now. */
  function Present(env: Environment, s: System, id: string): Action {
    Decide(env, Lookup(s.world.rules, id)).action
  }

  /** Every handler of the rule that is at work will leave the job alone, or do what the present row asks for. */
  predicate Harmless(env: Environment, s: System, id: string) {
    forall h :: h in s.handlers && s.handlers[h].id == id ==>
      ActionOf(env, s, h) == Keep || ActionOf(env, s, h) == Present(env, s, id)
  }

  /** The job of a rule is what handling makes of its row. */
  predicate Settled(env: Environment, w: World, id: string) {
    var row := Lookup(w.rules, id);
    Decidable(row) ==> Converged(env, row.value, w.live, id)
  }

  /** A handling of the rule that does what the present row asks for ends during the steps: one that begins
      during them, or one that is at work. */
  predicate Completes(env: Environment, s: System, steps: seq<Step>, id: string) {
    Handles(steps, id)
    || exists h :: h in s.handlers && s.handlers[h].id == id && ActionOf(env, s, h) == Present(env, s, id) && Act(h) in steps
  }

  /** A handling of the rule begins and ends during the steps. */
  predicate Handles(steps: seq<Step>, id: string) {
    exists i, j :: 0 <= i < j < |steps| && steps[i].Read? && steps[i].id == id && steps[j] == Act(steps[i].handler)
  }

  lemma HarmlessStep(env: Environment, s: System, step: Step, id: string)
    requires Enabled(s, step) && Quiet(s, step, id) && Harmless(env, s, id)
    ensures var t := Apply(env, s, step);
            Harmless(env, t, id) && Present(env, t, id) == Present(env, s, id)
    ensures var t := Apply(env, s, step);
            forall h :: h in s.handlers && h in t.handlers ==> t.handlers[h].id == s.handlers[h].id && ActionOf(env, t, h) == ActionOf(env, s, h)
  {
    DefinitionStays(env, s, step, id);
    SameDefinitionSameDecision(env, Lookup(Apply(env, s, step).world.rules, id), Lookup(s.world.rules, id));
    hide Decide, SameDefinition;
  }

  /** The present action settles a rule, no action leaves it settled, and so does whatever happens to others. */
  lemma SettledStep(env: Environment, s: System, step: Step, id: string)
    requires Enabled(s, step) && Quiet(s, step, id) && Harmless(env, s, id)
    requires Settled(env, s.world, id)
             || (step.Act? && s.handlers[step.handler].id == id && ActionOf(env, s, step.handler) == Present(env, s, id))
    ensures Settled(env, Apply(env, s, step).world, id)
  {
    DefinitionStays(env, s, step, id);
    var t := Apply(env, s, step);
    if step.Act? && s.handlers[step.handler].id == id {
      if ActionOf(env, s, step.handler) == Present(env, s, id) {
        PresentSettles(env, s.world, id);
      } else {
        assert t.world == s.world;
      }
    } else {
      assert About(t.world, id).1 == About(s.world, id).1 by { hide Decide, Check; }
      SameJobStaysSettled(env, s.world, t.world, id);
    }
  }

  lemma PresentSettles(env: Environment, w: World, id: string)
    ensures Settled(env, w.(live := Acted(w.live, id, Decide(env, Lookup(w.rules, id)).action)), id)
  {
  }

  lemma SameJobStaysSettled(env: Environment, w: World, v: World, id: string)
    requires Settled(env, w, id) && About(v, id).1 == About(w, id).1
    requires SameDefinition(Lookup(v.rules, id), Lookup(w.rules, id))
    ensures Settled(env, v, id)
  {
    hide Check;
    if id in w.live {
      assert About(w, id).1 == Some(w.live[id]);
    }
  }

  /** Completion is ahead, unless it is done by the next step. */
  lemma CompletesAhead(env: Environment, s: System, steps: seq<Step>, id: string)
    requires Exec(env, s, steps).Some? && steps != [] && Quiet(s, steps[0], id) && Harmless(env, s, id)
    requires Completes(env, s, steps, id)
    ensures Completes(env, Apply(env, s, steps[0]), steps[1..], id)
            || (steps[0].Act? && s.handlers[steps[0].handler].id == id && ActionOf(env, s, steps[0].handler) == Present(env, s, id))
  {
    HarmlessStep(env, s, steps[0], id);
    hide Decide, Harmless, Quiet;
    var t := Apply(env, s, steps[0]);
    if Handles(steps, id) {
      var i, j :| 0 <= i < j < |steps| && steps[i].Read? && steps[i].id == id && steps[j] == Act(steps[i].handler);
      assert steps[1..][j - 1] == steps[j];
      if i > 0 {
        assert steps[1..][i - 1] == steps[i];
        assert Handles(steps[1..], id);
      }
    } else {
      var h :| h in s.handlers && s.handlers[h].id == id && ActionOf(env, s, h) == Present(env, s, id) && Act(h) in steps;
      assert Act(h) in steps[1..] || steps[0] == Act(h);
    }
  }

  lemma {:induction false} HarmlessSettles(env: Environment, s: System, steps: seq<Step>, id: string)
    requires Exec(env, s, steps).Some? && Undisturbed(env, s, steps, id) && Harmless(env, s, id)
    requires Settled(env, s.world, id) || Completes(env, s, steps, id)
    ensures Settled(env, Exec(env, s, steps).value.world, id)
    decreases |steps|
  {
    hide Settled, Harmless, Completes, Quiet;
    if steps == [] {
      NothingCompletes(env, s, id);
    } else {
      HarmlessStep(env, s, steps[0], id);
      if Settled(env, s.world, id) {
        SettledStep(env, s, steps[0], id);
      } else {
        CompletesAhead(env, s, steps, id);
        if !Completes(env, Apply(env, s, steps[0]), steps[1..], id) {
          SettledStep(env, s, steps[0], id);
        }
      }
      HarmlessSettles(env, Apply(env, s, steps[0]), steps[1..], id);
    }
  }

  lemma NothingCompletes(env: Environment, s: System, id: string)
    ensures !Completes(env, s, [], id)
  {
  }

  /** Convergence, with handlers of all rules interleaving in any way, the row's last_run_at being stored, and the
      row being written again with the same definition: let no handler that is at work be about to do anything
      but what the present row asks for. Once a handling that does that ends, and however many follow, the rule
      has a job exactly when it is enabled and passes validation, and it is the job of its stored specification. */
  lemma EventsConverge(env: Environment, s: System, steps: seq<Step>, id: string)
    requires Exec(env, s, steps).Some? && Undisturbed(env, s, steps, id)
    requires Harmless(env, s, id) && Completes(env, s, steps, id)
    requires Decidable(Lookup(s.world.rules, id))
    ensures var w := Exec(env, s, steps).value.world; id in w.rules && Converged(env, w.rules[id], w.live, id)
  {
    HarmlessSettles(env, s, steps, id);
    ExecKeepsDefinition(env, s, steps, id);
  }

  lemma {:induction false} ExecKeepsDefinition(env: Environment, s: System, steps: seq<Step>, id: string)
    requires Exec(env, s, steps).Some? && Undisturbed(env, s, steps, id)
    ensures SameDefinition(Lookup(Exec(env, s, steps).value.world.rules, id), Lookup(s.world.rules, id))
    decreases |steps|
  {
    if steps != [] {
      DefinitionStays(env, s, steps[0], id);
      ExecKeepsDefinition(env, Apply(env, s, steps[0]), steps[1..], id);
    }
  }

  /** A continuation with a whole handling of the rule in it, and none of its writes. */
  predicate Continues(env: Environment, s: System, steps: seq<Step>, id: string) {
    Exec(env, s, steps).Some? && Undisturbed(env, s, steps, id) && Handles(steps, id)
  }

  predicate SettledAfter(env: Environment, s: System, steps: seq<Step>, id: string) {
    var t := Exec(env, s, steps);
    t.Some? && Settled(env, t.value.world, id)
  }

  /** Exactly when it does: a rule that can be decided about has converged after every such continuation if and
      only if every handler of it that is at work now is harmless. */
  lemma ConvergesExactlyWhenHarmless(env: Environment, s: System, id: string)
    requires Decidable(Lookup(s.world.rules, id))
    ensures (forall steps :: Continues(env, s, steps, id) ==> SettledAfter(env, s, steps, id)) <==> Harmless(env, s, id)
  {
    if Harmless(env, s, id) {
      forall steps | Continues(env, s, steps, id) ensures SettledAfter(env, s, steps, id) {
        HarmlessSettles(env, s, steps, id);
      }
    } else {
      var stale :| stale in s.handlers && s.handlers[stale].id == id
                   && ActionOf(env, s, stale) != Keep && ActionOf(env, s, stale) != Present(env, s, id);
      var steps := StaleActsLast(env, s, id, stale);
      assert Continues(env, s, steps, id) && !SettledAfter(env, s, steps, id);
    }
  }

  lemma {:induction false} UnusedHandler(handlers: set<nat>) returns (h: nat)
    ensures forall k :: k in handlers ==> k < h
    decreases handlers
  {
    if handlers == {} {
      h := 0;
    } else {
      var k :| k in handlers;
      var above := UnusedHandler(handlers - {k});
      h := if k < above then above else k + 1;
      assert forall other :: other in handlers && other != k ==> other in handlers - {k};
    }
  }

  /** Takes one more step, which leaves the rule's definition as it is, of a continuation that is being built up. */
  lemma Then(env: Environment, init: System, steps: seq<Step>, s: System, step: Step, id: string)
    returns (more: seq<Step>, t: System)
    requires Exec(env, init, steps) == Some(s) && Undisturbed(env, init, steps, id)
    requires Enabled(s, step) && Quiet(s, step, id)
    ensures Exec(env, init, more) == Some(t) && Undisturbed(env, init, more, id)
    ensures (more, t) == (steps + [step], Apply(env, s, step))
  {
    more, t := steps + [step], Apply(env, s, step);
    ExecOneMore(env, init, steps, step, id);
  }

  lemma {:induction false} ExecOneMore(env: Environment, s: System, steps: seq<Step>, step: Step, id: string)
    requires Exec(env, s, steps).Some? && Undisturbed(env, s, steps, id)
    requires var t := Exec(env, s, steps).value; Enabled(t, step) && Quiet(t, step, id)
    ensures Exec(env, s, steps + [step]) == Some(Apply(env, Exec(env, s, steps).value, step))
    ensures Undisturbed(env, s, steps + [step], id)
    decreases |steps|
  {
    hide Quiet, Decide;
    if steps == [] {
      assert ([] + [step])[1..] == [];
    } else {
      ExecOneMore(env, Apply(env, s, steps[0]), steps[1..], step, id);
      assert (steps + [step])[1..] == steps[1..] + [step];
    }
  }

  /** A whole handling of the rule, and then the stale handler acts. */
  lemma StaleActsLast(env: Environment, s: System, id: string, stale: nat) returns (steps: seq<Step>)
    requires Decidable(Lookup(s.world.rules, id)) && stale in s.handlers && s.handlers[stale].id == id
    requires ActionOf(env, s, stale) != Keep && ActionOf(env, s, stale) != Present(env, s, id)
    ensures Continues(env, s, steps, id) && !SettledAfter(env, s, steps, id)
  {
    var h := UnusedHandler(s.handlers.Keys);
    var t;
    steps, t := Then(env, s, [], s, Read(h, id), id);
    steps, t := Then(env, s, steps, t, SetStatus(h), id);
    steps, t := Then(env, s, steps, t, Act(h), id);
    assert steps[0] == Read(h, id) && steps[2] == Act(h);
    if !t.handlers[stale].marked {
      steps, t := Then(env, s, steps, t, SetStatus(stale), id);
    }
    var before := t;
    assert ActionOf(env, t, stale) == ActionOf(env, s, stale);
    steps, t := Then(env, s, steps, t, Act(stale), id);
    ExecKeepsDefinition(env, s, steps, id);
    OtherActionUnsettles(env, before.world, id, Lookup(s.world.rules, id), ActionOf(env, s, stale));
    assert steps[0] == Read(h, id) && steps[2] == Act(h);
    assert Handles(steps, id);
  }

  lemma OtherActionUnsettles(env: Environment, w: World, id: string, row: Option<Row>, action: Action)
    requires SameDefinition(Lookup(w.rules, id), row) && Decidable(row)
    requires action != Keep && action != Decide(env, row).action
    ensures !Settled(env, w.(live := Acted(w.live, id, action)), id)
  {
  }

  /** The job of a rule stays what it is, through any number of handlings, if no handler of it at work would
      change it and its row is one that handling does not decide about. */
  predicate LeavesJob(env: Environment, s: System, id: string) {
    forall h :: h in s.handlers && s.handlers[h].id == id ==>
      Acted(s.world.live, id, ActionOf(env, s, h)) == s.world.live
  }

  predicate JobKept(env: Environment, s: System, steps: seq<Step>, id: string) {
    var t := Exec(env, s, steps);
    t.Some? ==> About(t.value.world, id).1 == About(s.world, id).1
  }

  lemma {:induction false} UndecidableKeepsJob(env: Environment, s: System, steps: seq<Step>, id: string)
    requires Exec(env, s, steps).Some? && Undisturbed(env, s, steps, id)
    requires !Decidable(Lookup(s.world.rules, id)) && LeavesJob(env, s, id)
    ensures JobKept(env, s, steps, id)
    decreases |steps|
  {
    if steps != [] {
      var t := Apply(env, s, steps[0]);
      DefinitionStays(env, s, steps[0], id);
      SameDefinitionSameDecision(env, Lookup(t.world.rules, id), Lookup(s.world.rules, id));
      LeavesJobStep(env, s, steps[0], id);
      UndecidableKeepsJob(env, t, steps[1..], id);
    }
  }

  lemma LeavesJobStep(env: Environment, s: System, step: Step, id: string)
    requires Enabled(s, step) && !Decidable(Lookup(s.world.rules, id)) && LeavesJob(env, s, id)
    ensures LeavesJob(env, Apply(env, s, step), id) && About(Apply(env, s, step).world, id).1 == About(s.world, id).1
  {
    assert Decide(env, Lookup(s.world.rules, id)).action == Keep;
    hide Decide, Decidable;
    var t := Apply(env, s, step);
    if step.Act? && s.handlers[step.handler].id != id {
      assert About(t.world, id).1 == About(s.world, id).1;
    }
    forall h | h in t.handlers && t.handlers[h].id == id ensures Acted(t.world.live, id, ActionOf(env, t, h)) == t.world.live {
      if h in s.handlers {
        assert ActionOf(env, t, h) == ActionOf(env, s, h);
        SameJobSameEffect(s.world.live, t.world.live, id, ActionOf(env, s, h));
      }
    }
  }

  lemma SameJobSameEffect(a: map<string, Assignment>, b: map<string, Assignment>, id: string, action: Action)
    requires Acted(a, id, action) == a && (id in a <==> id in b) && (id in a ==> a[id] == b[id])
    ensures Acted(b, id, action) == b
  {
    match action
    case Keep =>
    case Drop => assert id !in Acted(a, id, action);
    case Put(job) => assert Acted(a, id, action)[id] == job;
  }

  /** Exactly when a rule that handling does not decide about keeps its job. */
  lemma UndecidableKeepsJobExactly(env: Environment, s: System, id: string)
    requires !Decidable(Lookup(s.world.rules, id))
    ensures (forall steps :: Exec(env, s, steps).Some? && Undisturbed(env, s, steps, id) ==> JobKept(env, s, steps, id))
       <==> LeavesJob(env, s, id)
  {
    if LeavesJob(env, s, id) {
      forall steps | Exec(env, s, steps).Some? && Undisturbed(env, s, steps, id) ensures JobKept(env, s, steps, id) {
        UndecidableKeepsJob(env, s, steps, id);
      }
    } else {
      var h :| h in s.handlers && s.handlers[h].id == id && Acted(s.world.live, id, ActionOf(env, s, h)) != s.world.live;
      var steps, t := [], s;
      if !s.handlers[h].marked {
        steps, t := Then(env, s, steps, t, SetStatus(h), id);
      }
      steps, t := Then(env, s, steps, t, Act(h), id);
      assert !JobKept(env, s, steps, id);
    }
  }

  /** So a deleted rule keeps the job it had, however many events about it are handled. */
  lemma DeletedRuleKeepsJob(env: Environment, s: System, steps: seq<Step>, id: string)
    requires Exec(env, s, steps).Some? && Undisturbed(env, s, steps, id) && id !in s.world.rules && id in s.world.live
    requires LeavesJob(env, s, id)
    ensures var live := Exec(env, s, steps).value.world.live; id in live && live[id] == s.world.live[id]
  {
    UndecidableKeepsJob(env, s, steps, id);
    hide Decide;
    var w := Exec(env, s, steps).value.world;
    assert About(w, id).1 == About(s.world, id).1 == Some(s.world.live[id]);
  }

  /** A handling with no step of another handler in between is Processed. */
  lemma AloneIsProcessed(env: Environment, w: World, h: nat, id: string)
    ensures Exec(env, System(w, map[]), [Read(h, id), SetStatus(h), Act(h)]) == Some(System(Processed(env, w, id), map[]))
  {
    hide Decide;
    var steps := [Read(h, id), SetStatus(h), Act(h)];
    var s1 := Apply(env, System(w, map[]), steps[0]);
    var s2 := Apply(env, s1, steps[1]);
    var s3 := Apply(env, s2, steps[2]);
    assert Exec(env, System(w, map[]), steps) == Exec(env, s1, steps[1..]);
    assert Exec(env, s1, steps[1..]) == Exec(env, s2, steps[2..]);
    assert Exec(env, s2, steps[2..]) == Exec(env, s3, steps[3..]);
    assert s3.handlers == map[];
  }

  /** An enabled rule that passes, and the same rule disabled. */
  function On(spec: RuleSpec): Row {
    Row(true, Some(spec), "ACTIVE", None, None)
  }

  function Off(spec: RuleSpec): Row {
    On(spec).(enabled := false)
  }

  function RuleAlone(spec: RuleSpec): System {
    System(World(map["r" := On(spec)], map[]), map[])
  }

  /** A handler has read the rule before it is disabled. */
  function StaleSystem(spec: RuleSpec): System {
    System(World(map["r" := Off(spec)], map[]), map[0 := Handler("r", Some(On(spec)), true)])
  }

  /** It reads the rule, the rule is disabled, and another one reads it and acts. */
  function StaleSteps(spec: RuleSpec): seq<Step> {
    [Read(0, "r"), SetStatus(0), Write("r", Some(Off(spec)))]
  }

  lemma StaleHandlerReady(env: Environment, spec: RuleSpec)
    requires Check(env, spec).Success?
    ensures Exec(env, RuleAlone(spec), StaleSteps(spec)) == Some(StaleSystem(spec))
  {
    var init := RuleAlone(spec);
    var steps, t := [], init;
    assert Exec(env, init, []) == Some(init) && Undisturbed(env, init, [], "");
    hide Exec, Undisturbed, Check;
    steps, t := Then(env, init, steps, t, Read(0, "r"), "");
    steps, t := Then(env, init, steps, t, SetStatus(0), "");
    steps, t := Then(env, init, steps, t, Write("r", Some(Off(spec))), "");
    assert t.world.rules == map["r" := Off(spec)] && t.handlers == map[0 := Handler("r", Some(On(spec)), true)];
    assert steps == StaleSteps(spec);
  }

  function FreshSteps(): seq<Step> {
    [Read(1, "r"), SetStatus(1), Act(1)]
  }

  lemma FreshHandlerActs(env: Environment, spec: RuleSpec)
    ensures Exec(env, StaleSystem(spec), FreshSteps()) == Some(StaleSystem(spec))
  {
    var init := StaleSystem(spec);
    var steps, t := [], init;
    assert Decide(env, Some(Off(spec))) == Decision(None, Drop);
    assert Exec(env, init, []) == Some(init) && Undisturbed(env, init, [], "");
    hide Decide, Exec, Undisturbed;
    steps, t := Then(env, init, steps, t, Read(1, "r"), "");
    steps, t := Then(env, init, steps, t, SetStatus(1), "");
    steps, t := Then(env, init, steps, t, Act(1), "");
    assert t.handlers == map[0 := Handler("r", Some(On(spec)), true)] && t.world.live == map[];
    assert steps == FreshSteps();
  }

  /** The harmful handler does come about: one that read the row before the last write can act after one that
      read it since. Here all handlings have ended, and a disabled rule has a job. */
  lemma OverlappingHandlersDiverge(env: Environment, spec: RuleSpec)
    requires Check(env, spec).Success?
    ensures Exec(env, RuleAlone(spec), StaleSteps(spec) + FreshSteps() + [Act(0)])
         == Some(System(World(map["r" := Off(spec)], map["r" := Check(env, spec).value]), map[]))
  {
    StaleHandlerReady(env, spec);
    FreshHandlerActs(env, spec);
    assert Decide(env, Some(On(spec))).action == Put(Check(env, spec).value);
    hide Decide, Check;
    var t := Apply(env, StaleSystem(spec), Act(0));
    assert t.handlers == map[];
    assert [Act(0)][1..] == [];
    assert Exec(env, StaleSystem(spec), [Act(0)]) == Some(t);
    ExecTwice(env, RuleAlone(spec), StaleSteps(spec), FreshSteps());
    ExecTwice(env, RuleAlone(spec), StaleSteps(spec) + FreshSteps(), [Act(0)]);
  }

  lemma {:induction false} ExecTwice(env: Environment, s: System, first: seq<Step>, second: seq<Step>)
    requires Exec(env, s, first).Some?
    ensures Exec(env, s, first + second) == Exec(env, Exec(env, s, first).value, second)
    decreases |first|
  {
    if first == [] {
      assert first + second == second;
    } else {
      assert (first + second)[1..] == first[1..] + second;
      ExecTwice(env, Apply(env, s, first[0]), first[1..], second);
    }
  }
}
