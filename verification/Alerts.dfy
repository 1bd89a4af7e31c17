/** One run of a job, and the alerts that many runs leave behind under a cooldown.

    Execute is the run as the worker performs it on the tables. Steps let any number of workers interleave their
    hits: for a hit the last alert is looked up, then it is compared with the clock, then the alert is written, if
    the cooldown let it through; between these steps anything else may happen. */
module Alerts {
  import opened Common
  import Registry

  datatype Key = Key(ruleID: string, parameter: string, detectorType: string)

  datatype Alert = Alert(key: Key, ts: int, content: string)

  datatype Param = Param(name: string, detectorType: string)

  datatype Finding = Finding(hit: bool, content: string)

  /** Evaluating a parameter fails or yields its results. */
  type Outcome = Result<seq<Finding>, string>

  // ----- the cooldown

  /** What a 64-bit product keeps. */
  function Wrap64(x: int): (w: int)
    ensures MIN_DURATION <= w <= MAX_DURATION
    ensures MIN_DURATION <= x <= MAX_DURATION ==> w == x
  {
    (x - MIN_DURATION) % 0x1_0000_0000_0000_0000 + MIN_DURATION
  }

  predicate WithinCooldown(last: int, now: int, cooldownSeconds: int) {
    Sub(now, last) < Wrap64(cooldownSeconds * SECOND)
  }

  predicate FitsDuration(cooldownSeconds: int) {
    cooldownSeconds * SECOND <= MAX_DURATION
  }

  /** The cooldown is the number of seconds it says, whenever the clock stands, exactly when that number of
      seconds fits a duration: beyond 292 years it wraps around. */
  lemma CooldownIsItsSeconds(cooldownSeconds: int)
    requires cooldownSeconds > 0
    ensures FitsDuration(cooldownSeconds) <==>
            forall last, now :: WithinCooldown(last, now, cooldownSeconds) <==> now - last < cooldownSeconds * SECOND
  {
    if !FitsDuration(cooldownSeconds) {
      assert !WithinCooldown(0, cooldownSeconds * SECOND - 1, cooldownSeconds);
    }
  }

  // ----- the alert table

  function Max(a: Option<int>, t: int): int {
    if a.Some? && a.value > t then a.value else t
  }

  /** The latest timestamp among the alerts of a key. */
  function LastAlert(alerts: seq<Alert>, key: Key): Option<int> {
    if alerts == [] then None
    else
      var rest := LastAlert(alerts[..|alerts| - 1], key);
      var alert := alerts[|alerts| - 1];
      if alert.key == key then Some(Max(rest, alert.ts)) else rest
  }

  lemma {:induction false} LastAlertIsLatest(alerts: seq<Alert>, key: Key)
    ensures forall i :: 0 <= i < |alerts| && alerts[i].key == key ==>
              LastAlert(alerts, key).Some? && alerts[i].ts <= LastAlert(alerts, key).value
    ensures LastAlert(alerts, key).Some? ==>
              exists i :: 0 <= i < |alerts| && alerts[i].key == key && alerts[i].ts == LastAlert(alerts, key).value
  {
    if alerts != [] {
      var rest := alerts[..|alerts| - 1];
      LastAlertIsLatest(rest, key);
      if LastAlert(rest, key).Some? {
        var i :| 0 <= i < |rest| && rest[i].key == key && rest[i].ts == LastAlert(rest, key).value;
        assert alerts[i] == rest[i];
      }
      assert forall i :: 0 <= i < |rest| ==> alerts[i] == rest[i];
    }
  }

  predicate Suppressed(alerts: seq<Alert>, key: Key, now: int, cooldownSeconds: int) {
    cooldownSeconds > 0
    && Holds(LastAlert(alerts, key), now, cooldownSeconds)
  }

  /** The cooldown holds back a hit now, for the last alert that was found. */
  predicate Holds(last: Option<int>, now: int, cooldownSeconds: int) {
    last.Some? && WithinCooldown(last.value, now, cooldownSeconds)
  }

  // ----- one run

  datatype Event = Event(param: Param, finding: Finding)

  /** The two clock readings of a result: for the cooldown and for the alert. */
  datatype Reading = Reading(check: int, write: int)

  function KeyOf(ruleID: string, param: Param): Key {
    Key(ruleID, param.name, param.detectorType)
  }

  function EventsOf(param: Param, findings: seq<Finding>): (events: seq<Event>)
    ensures |events| == |findings|
    ensures forall i :: 0 <= i < |findings| ==> events[i].param == param && events[i].finding == findings[i]
  {
    seq(|findings|, i requires 0 <= i < |findings| => Event(param, findings[i]))
  }

  /** The results of a run in the order in which they are handled; a parameter that fails has none. */
  function Events(params: seq<Param>, outcomes: seq<Outcome>): seq<Event>
    requires |params| == |outcomes|
    decreases |params|
  {
    if params == [] then []
    else
      var last := |params| - 1;
      Events(params[..last], outcomes[..last])
      + if outcomes[last].Success? then EventsOf(params[last], outcomes[last].value) else []
  }

  function Handled(alerts: seq<Alert>, ruleID: string, cooldownSeconds: int, e: Event, r: Reading): seq<Alert> {
    var key := KeyOf(ruleID, e.param);
    if !e.finding.hit || Suppressed(alerts, key, r.check, cooldownSeconds) then alerts
    else alerts + [Alert(key, Microseconds(r.write), e.finding.content)]
  }

  function Written(alerts: seq<Alert>, ruleID: string, cooldownSeconds: int, events: seq<Event>, readings: seq<Reading>): seq<Alert>
    requires |events| == |readings|
    decreases |events|
  {
    if events == [] then alerts
    else
      var last := |events| - 1;
      Handled(Written(alerts, ruleID, cooldownSeconds, events[..last], readings[..last]),
              ruleID, cooldownSeconds, events[last], readings[last])
  }

  /** The readings follow each other from one instant to another. */
  predicate Ordered(from: int, readings: seq<Reading>, to: int) {
    if readings == [] then from <= to
    else
      var last := readings[|readings| - 1];
      Ordered(from, readings[..|readings| - 1], last.check) && last.check <= last.write <= to
  }

  lemma {:induction false} OrderedTo(from: int, readings: seq<Reading>, to: int, later: int)
    requires Ordered(from, readings, to) && to <= later
    ensures Ordered(from, readings, later)
  {
  }

  /** The tables as one worker uses them, and the clock, which never goes back. */
  class Monitor {
    var alerts: seq<Alert>
    var lastRunAt: map<string, Option<int>>   // of the rows of the rules table
    var clock: int

    constructor (now: int)
      ensures alerts == [] && lastRunAt == map[] && clock == now
    {
      alerts, lastRunAt, clock := [], map[], now;
    }

    method Now() returns (t: int)
      modifies this`clock
      ensures t == clock >= old(clock)
    {
      var passed: int := *;
      if passed > 0 {
        clock := clock + passed;
      }
      t := clock;
    }

    method GetLastAlertForKey(key: Key) returns (last: Option<int>)
      ensures last == LastAlert(alerts, key)
    {
      last := None;
      for i := 0 to |alerts|
        invariant last == LastAlert(alerts[..i], key)
      {
        assert alerts[..i + 1][..i] == alerts[..i];
        if alerts[i].key == key && (last.None? || alerts[i].ts > last.value) {
          last := Some(alerts[i].ts);
        }
      }
      assert alerts[..|alerts|] == alerts;
    }

    method CreateAlert(key: Key, ts: int, content: string)
      modifies this`alerts
      ensures alerts == old(alerts) + [Alert(key, Microseconds(ts), content)]
    {
      alerts := alerts + [Alert(key, Microseconds(ts), content)];
    }

    /** An UPDATE of a rule that is not there changes nothing. */
    method UpdateLastRunAt(ruleID: string, ts: int)
      modifies this`lastRunAt
      ensures lastRunAt == if ruleID in old(lastRunAt) then old(lastRunAt)[ruleID := Some(Microseconds(ts))] else old(lastRunAt)
    {
      if ruleID in lastRunAt {
        lastRunAt := lastRunAt[ruleID := Some(Microseconds(ts))];
      }
    }

    /** One result of an evaluation. */
    method Handle(ruleID: string, cooldownSeconds: Option<int>, param: Param, finding: Finding) returns (ghost reading: Reading)
      modifies this`alerts, this`clock
      ensures old(clock) <= reading.check <= reading.write <= clock
      ensures alerts == Handled(old(alerts), ruleID, if cooldownSeconds.Some? then cooldownSeconds.value else 0,
                                Event(param, finding), reading)
    {
      reading := Reading(clock, clock);
      if finding.hit {
        var cooldown := 0;
        if cooldownSeconds.Some? {
          cooldown := cooldownSeconds.value;
        }
        var within := false;
        if cooldown > 0 {
          var last := GetLastAlertForKey(KeyOf(ruleID, param));
          var now := Now();
          reading := Reading(now, now);
          within := last.Some? && WithinCooldown(last.value, now, cooldown);
        }
        if !within {
          var ts := Now();
          reading := reading.(write := ts);
          CreateAlert(KeyOf(ruleID, param), ts, finding.content);
        }
      }
    }

    /** A run: what the parameters evaluate to is given. It ends by moving lastRunAt to its own start, whether
        or not the evaluations failed; only a run without parameters changes nothing. */
    method Execute(job: Registry.Job, params: seq<Param>, cooldownSeconds: Option<int>, outcomes: seq<Outcome>)
      returns (ghost runAt: int, ghost readings: seq<Reading>)
      requires |params| == |outcomes|
      modifies this, job`lastRunAt
      ensures old(clock) <= runAt && Ordered(runAt, readings, clock)
      ensures |readings| == |Events(params, outcomes)|
      ensures alerts == Written(old(alerts), job.ruleID, if cooldownSeconds.Some? then cooldownSeconds.value else 0,
                                Events(params, outcomes), readings)
      ensures job.lastRunAt == if params == [] then old(job.lastRunAt) else Some(runAt)
      ensures lastRunAt == if params != [] && job.ruleID in old(lastRunAt) then old(lastRunAt)[job.ruleID := Some(Microseconds(runAt))]
                           else old(lastRunAt)
    {
      var start := Now();
      runAt, readings := start, [];
      if params == [] {
        return;
      }
      ghost var cooldown := if cooldownSeconds.Some? then cooldownSeconds.value else 0;
      for i := 0 to |params|
        invariant |readings| == |Events(params[..i], outcomes[..i])|
        invariant Ordered(runAt, readings, clock)
        invariant alerts == Written(old(alerts), job.ruleID, cooldown, Events(params[..i], outcomes[..i]), readings)
        invariant lastRunAt == old(lastRunAt) && job.lastRunAt == old(job.lastRunAt)
      {
        assert params[..i + 1][..i] == params[..i] && outcomes[..i + 1][..i] == outcomes[..i];
        if outcomes[i].Success? {
          ghost var more := HandleAll(job.ruleID, params[i], cooldownSeconds, outcomes[i].value, runAt,
                                      old(alerts), Events(params[..i], outcomes[..i]), readings);
          readings := more;
        } else {
          assert Events(params[..i + 1], outcomes[..i + 1]) == Events(params[..i], outcomes[..i]);
        }
      }
      assert params[..|params|] == params && outcomes[..|params|] == outcomes;
      job.lastRunAt := Some(start);
      UpdateLastRunAt(job.ruleID, start);
    }

    /** The results of one parameter, after those in done. */
    method HandleAll(ruleID: string, param: Param, cooldownSeconds: Option<int>, findings: seq<Finding>,
                     ghost from: int, ghost before: seq<Alert>, ghost done: seq<Event>, ghost sofar: seq<Reading>)
      returns (ghost readings: seq<Reading>)
      requires |done| == |sofar| && Ordered(from, sofar, clock)
      requires alerts == Written(before, ruleID, if cooldownSeconds.Some? then cooldownSeconds.value else 0, done, sofar)
      modifies this`alerts, this`clock
      ensures |readings| == |done + EventsOf(param, findings)| && Ordered(from, readings, clock)
      ensures alerts == Written(before, ruleID, if cooldownSeconds.Some? then cooldownSeconds.value else 0,
                                done + EventsOf(param, findings), readings)
    {
      hide Handled;
      ghost var cooldown := if cooldownSeconds.Some? then cooldownSeconds.value else 0;
      readings := sofar;
      assert done + EventsOf(param, findings[..0]) == done;
      for j := 0 to |findings|
        invariant |readings| == |done| + j && Ordered(from, readings, clock)
        invariant alerts == Written(before, ruleID, cooldown, done + EventsOf(param, findings[..j]), readings)
      {
        ghost var clockWas := clock;
        ghost var reading := Handle(ruleID, cooldownSeconds, param, findings[j]);
        OrderedTo(from, readings, clockWas, reading.check);
        ghost var events := done + EventsOf(param, findings[..j + 1]);
        assert events[..|events| - 1] == done + EventsOf(param, findings[..j]);
        assert (readings + [reading])[..|readings|] == readings;
        readings := readings + [reading];
      }
      assert findings[..|findings|] == findings;
    }
  }

  // ----- what a run leaves behind

  /** The results of a run in parts: those of the first parameters, then those of the others; and a parameter alone
      has its findings, or none when it fails. */
  lemma {:induction false} EventsInParts(p: seq<Param>, o: seq<Outcome>, q: seq<Param>, r: seq<Outcome>)
    requires |p| == |o| && |q| == |r|
    ensures Events(p + q, o + r) == Events(p, o) + Events(q, r)
    decreases |q|
  {
    if q == [] {
      assert p + q == p && o + r == o;
    } else {
      hide *;
      var last := |q| - 1;
      EventsInParts(p, o, q[..last], r[..last]);
      EventsOneMore(p + q[..last], o + r[..last], q[last], r[last]);
      EventsOneMore(q[..last], r[..last], q[last], r[last]);
      SplitLast(p, q);
      SplitLast(o, r);
      Regroup(Events(p, o), Events(q[..last], r[..last]), if r[last].Success? then EventsOf(q[last], r[last].value) else []);
    }
  }

  lemma EventsOneMore(params: seq<Param>, outcomes: seq<Outcome>, param: Param, outcome: Outcome)
    requires |params| == |outcomes|
    ensures Events(params + [param], outcomes + [outcome])
         == Events(params, outcomes) + if outcome.Success? then EventsOf(param, outcome.value) else []
  {
    assert (params + [param])[..|params|] == params && (outcomes + [outcome])[..|params|] == outcomes;
  }

  lemma EventsOfOne(param: Param, outcome: Outcome)
    ensures outcome.Failure? ==> Events([param], [outcome]) == []
    ensures outcome.Success? ==>
              |Events([param], [outcome])| == |outcome.value|
              && forall i :: 0 <= i < |outcome.value| ==> Events([param], [outcome])[i] == Event(param, outcome.value[i])
  {
    assert [param][..0] == [] && [outcome][..0] == [];
  }

  /** The alert that a hit is written as. */
  predicate IsAlertOf(alert: Alert, ruleID: string, e: Event, r: Reading) {
    && alert.key.ruleID == ruleID && alert.key.parameter == e.param.name && alert.key.detectorType == e.param.detectorType
    && alert.content == e.finding.content && alert.ts == Microseconds(r.write)
  }

  predicate FromHit(alert: Alert, ruleID: string, events: seq<Event>, readings: seq<Reading>)
    requires |events| == |readings|
  {
    exists k :: 0 <= k < |events| && events[k].finding.hit && IsAlertOf(alert, ruleID, events[k], readings[k])
  }

  /** The old alerts stay, in front, and every new one is the alert of a hit of the run. */
  lemma {:induction false} WrittenAreHits(alerts: seq<Alert>, ruleID: string, cooldown: int, events: seq<Event>, readings: seq<Reading>)
    requires |events| == |readings|
    ensures var w := Written(alerts, ruleID, cooldown, events, readings);
            alerts <= w && forall i :: |alerts| <= i < |w| ==> FromHit(w[i], ruleID, events, readings)
    decreases |events|
  {
    hide Suppressed;
    if events != [] {
      var last := |events| - 1;
      var v := Written(alerts, ruleID, cooldown, events[..last], readings[..last]);
      var w := Written(alerts, ruleID, cooldown, events, readings);
      WrittenAreHits(alerts, ruleID, cooldown, events[..last], readings[..last]);
      forall i | |alerts| <= i < |w| ensures FromHit(w[i], ruleID, events, readings) {
        if i < |v| {
          assert FromHit(v[i], ruleID, events[..last], readings[..last]);
          var k :| 0 <= k < last && events[..last][k].finding.hit && IsAlertOf(v[i], ruleID, events[..last][k], readings[..last][k]);
          assert w[i] == v[i] && events[k] == events[..last][k] && readings[k] == readings[..last][k];
        } else {
          assert events[last].finding.hit && IsAlertOf(w[i], ruleID, events[last], readings[last]);
        }
      }
    }
  }

  /** An alert of the hit's rule, parameter and detector type stands within the cooldown before the check. */
  predicate HeldBack(w: seq<Alert>, ruleID: string, cooldown: int, e: Event, r: Reading) {
    cooldown > 0
    && exists i :: 0 <= i < |w| && w[i].key.ruleID == ruleID && w[i].key.parameter == e.param.name
                   && w[i].key.detectorType == e.param.detectorType && WithinCooldown(w[i].ts, r.check, cooldown)
  }

  predicate HasAlert(w: seq<Alert>, ruleID: string, e: Event, r: Reading) {
    exists i :: 0 <= i < |w| && IsAlertOf(w[i], ruleID, e, r)
  }

  /** No hit is lost but to the cooldown of its own key. */
  lemma {:induction false} HitsWrittenOrHeldBack(alerts: seq<Alert>, ruleID: string, cooldown: int, events: seq<Event>,
                                                 readings: seq<Reading>, k: nat)
    requires |events| == |readings| && k < |events| && events[k].finding.hit
    ensures var w := Written(alerts, ruleID, cooldown, events, readings);
            HasAlert(w, ruleID, events[k], readings[k]) || HeldBack(w, ruleID, cooldown, events[k], readings[k])
    decreases |events|
  {
    hide LastAlert, WithinCooldown;
    var last := |events| - 1;
    var v := Written(alerts, ruleID, cooldown, events[..last], readings[..last]);
    var w := Written(alerts, ruleID, cooldown, events, readings);
    var e, r := events[k], readings[k];
    assert forall i :: 0 <= i < |v| ==> w[i] == v[i];
    if k < last {
      HitsWrittenOrHeldBack(alerts, ruleID, cooldown, events[..last], readings[..last], k);
      if HasAlert(v, ruleID, e, r) {
        var i :| 0 <= i < |v| && IsAlertOf(v[i], ruleID, e, r);
        assert IsAlertOf(w[i], ruleID, e, r);
      } else {
        var i :| 0 <= i < |v| && v[i].key.ruleID == ruleID && v[i].key.parameter == e.param.name
                 && v[i].key.detectorType == e.param.detectorType && WithinCooldown(v[i].ts, r.check, cooldown);
        assert w[i] == v[i];
      }
    } else {
      var key := Key(ruleID, e.param.name, e.param.detectorType);
      LastAlertIsLatest(v, key);
      if Suppressed(v, key, r.check, cooldown) {
        var i :| 0 <= i < |v| && v[i].key == key && v[i].ts == LastAlert(v, key).value;
        assert w == v;
      } else {
        assert IsAlertOf(w[|v|], ruleID, e, r);
      }
    }
  }

  /** The alerts of one key. */
  function OfKey(alerts: seq<Alert>, key: Key): seq<Alert> {
    if alerts == [] then []
    else
      var last := alerts[|alerts| - 1];
      OfKey(alerts[..|alerts| - 1], key) + if last.key == key then [last] else []
  }

  predicate IsFor(e: Event, name: string, detectorType: string) {
    e.param.name == name && e.param.detectorType == detectorType
  }

  function EventsFor(events: seq<Event>, name: string, detectorType: string): seq<Event> {
    if events == [] then []
    else
      var last := events[|events| - 1];
      EventsFor(events[..|events| - 1], name, detectorType) + if IsFor(last, name, detectorType) then [last] else []
  }

  function ReadingsFor(events: seq<Event>, readings: seq<Reading>, name: string, detectorType: string): (own: seq<Reading>)
    requires |events| == |readings|
    ensures |own| == |EventsFor(events, name, detectorType)|
    decreases |events|
  {
    if events == [] then []
    else
      var last := |events| - 1;
      ReadingsFor(events[..last], readings[..last], name, detectorType)
      + if IsFor(events[last], name, detectorType) then [readings[last]] else []
  }

  lemma {:induction false} LastOfKey(alerts: seq<Alert>, key: Key)
    ensures LastAlert(alerts, key) == LastAlert(OfKey(alerts, key), key)
  {
    if alerts != [] {
      var rest, last := alerts[..|alerts| - 1], alerts[|alerts| - 1];
      LastOfKey(rest, key);
      assert OfKey(alerts, key) == OfKey(rest, key) + if last.key == key then [last] else [];
      if last.key == key {
        assert OfKey(alerts, key)[..|OfKey(rest, key)|] == OfKey(rest, key);
      } else {
        assert OfKey(alerts, key) == OfKey(rest, key);
      }
    }
  }

  lemma OfKeyOneMore(alerts: seq<Alert>, alert: Alert, key: Key)
    ensures OfKey(alerts + [alert], key) == OfKey(alerts, key) + if alert.key == key then [alert] else []
  {
    assert (alerts + [alert])[..|alerts|] == alerts;
  }

  /** A hit changes the alerts of its own key only, and by that key's alerts only. */
  lemma HandledByKey(v: seq<Alert>, w: seq<Alert>, ruleID: string, cooldown: int, e: Event, r: Reading, key: Key)
    ensures key != Key(ruleID, e.param.name, e.param.detectorType) ==>
              OfKey(Handled(v, ruleID, cooldown, e, r), key) == OfKey(v, key)
    ensures key == Key(ruleID, e.param.name, e.param.detectorType) && OfKey(v, key) == OfKey(w, key) ==>
              OfKey(Handled(v, ruleID, cooldown, e, r), key) == OfKey(Handled(w, ruleID, cooldown, e, r), key)
  {
    hide OfKey, WithinCooldown;
    var alert := Alert(Key(ruleID, e.param.name, e.param.detectorType), Microseconds(r.write), e.finding.content);
    LastOfKey(v, alert.key);
    LastOfKey(w, alert.key);
    OfKeyOneMore(v, alert, key);
    OfKeyOneMore(w, alert, key);
  }

  /** So the alerts of a key after a run are those of a run with the hits of that parameter and detector type alone:
      no other hit swallows one of them, or adds to them. */
  lemma {:induction false} OnlyOwnHitsMatter(alerts: seq<Alert>, ruleID: string, cooldown: int, events: seq<Event>,
                                             readings: seq<Reading>, name: string, detectorType: string)
    requires |events| == |readings|
    ensures var key := Key(ruleID, name, detectorType);
            OfKey(Written(alerts, ruleID, cooldown, events, readings), key)
            == OfKey(Written(alerts, ruleID, cooldown, EventsFor(events, name, detectorType),
                             ReadingsFor(events, readings, name, detectorType)), key)
    decreases |events|
  {
    hide OfKey, Handled;
    if events != [] {
      var last := |events| - 1;
      var own, read := EventsFor(events[..last], name, detectorType), ReadingsFor(events[..last], readings[..last], name, detectorType);
      var v := Written(alerts, ruleID, cooldown, events[..last], readings[..last]);
      var w := Written(alerts, ruleID, cooldown, own, read);
      OnlyOwnHitsMatter(alerts, ruleID, cooldown, events[..last], readings[..last], name, detectorType);
      HandledByKey(v, w, ruleID, cooldown, events[last], readings[last], Key(ruleID, name, detectorType));
      if IsFor(events[last], name, detectorType) {
        assert (own + [events[last]])[..|own|] == own && (read + [readings[last]])[..|own|] == read;
      } else {
        assert EventsFor(events, name, detectorType) == own && ReadingsFor(events, readings, name, detectorType) == read;
      }
    }
  }

  /** And those of another rule are not touched. */
  lemma {:induction false} OtherRulesAlertsKept(alerts: seq<Alert>, ruleID: string, cooldown: int, events: seq<Event>,
                                                readings: seq<Reading>, key: Key)
    requires |events| == |readings| && key.ruleID != ruleID
    ensures OfKey(Written(alerts, ruleID, cooldown, events, readings), key) == OfKey(alerts, key)
    decreases |events|
  {
    hide OfKey, Handled;
    if events != [] {
      var last := |events| - 1;
      var v := Written(alerts, ruleID, cooldown, events[..last], readings[..last]);
      OtherRulesAlertsKept(alerts, ruleID, cooldown, events[..last], readings[..last], key);
      HandledByKey(v, v, ruleID, cooldown, events[last], readings[last], key);
    }
  }

  // ----- all interleavings of the workers

  /** A hit is looked up, then checked against the clock, then settled. */
  datatype Stage = LookedUp(last: Option<int>) | Checked(let: bool)

  datatype Pending = Pending(key: Key, content: string, stage: Stage)

  datatype State = State(
    now: int,
    alerts: seq<Alert>,
    pending: map<nat, Pending>,      // the hit that each worker is at
    swallowed: seq<(Key, int)>,      // the hits a cooldown swallowed, and when
    serial: bool)                    // no two workers have had hits of one rule at once

  datatype Step =
    | Tick(time: int)
    | LookUp(worker: nat, key: Key, content: string)
    | Check(worker: nat)
    | Settle(worker: nat)

  /** cooldowns says how many seconds each rule has; a rule that is not there has none. */
  function CooldownOf(cooldowns: map<string, int>, ruleID: string): int {
    if ruleID in cooldowns then cooldowns[ruleID] else 0
  }

  function Initial(now: int): State {
    State(now, [], map[], [], true)
  }

  predicate Enabled(s: State, step: Step) {
    match step
    case Tick(time) => time >= s.now
    case LookUp(w, _, _) => w !in s.pending
    case Check(w) => w in s.pending && s.pending[w].stage.LookedUp?
    case Settle(w) => w in s.pending && s.pending[w].stage.Checked?
  }

  predicate Busy(s: State, ruleID: string) {
    exists w :: w in s.pending && s.pending[w].key.ruleID == ruleID
  }

  function Apply(cooldowns: map<string, int>, s: State, step: Step): State
    requires Enabled(s, step)
  {
    match step
    case Tick(time) => s.(now := time)
    case LookUp(w, key, content) =>
      var last := if CooldownOf(cooldowns, key.ruleID) > 0 then LastAlert(s.alerts, key) else None;
      s.(pending := s.pending[w := Pending(key, content, LookedUp(last))],
         serial := s.serial && !Busy(s, key.ruleID))
    case Check(w) =>
      var p := s.pending[w];
      var held := Holds(p.stage.last, s.now, CooldownOf(cooldowns, p.key.ruleID));
      s.(pending := s.pending[w := p.(stage := Checked(!held))],
         swallowed := if held then s.swallowed + [(p.key, s.now)] else s.swallowed)
    case Settle(w) =>
      var p := s.pending[w];
      s.(pending := s.pending - {w},
         alerts := if p.stage.let then s.alerts + [Alert(p.key, Microseconds(s.now), p.content)] else s.alerts)
  }

  function Exec(cooldowns: map<string, int>, s: State, steps: seq<Step>): Option<State>
    decreases |steps|
  {
    if steps == [] then Some(s)
    else if !Enabled(s, steps[0]) then None
    else Exec(cooldowns, Apply(cooldowns, s, steps[0]), steps[1..])
  }

  // ----- spacing

  predicate Spaced(alerts: seq<Alert>, key: Key, gap: int) {
    forall i, j :: 0 <= i < j < |alerts| && alerts[i].key == key && alerts[j].key == key ==>
      alerts[j].ts - alerts[i].ts >= gap
  }

  predicate NoneAfter(alerts: seq<Alert>, key: Key, time: int) {
    forall i :: 0 <= i < |alerts| && alerts[i].key == key ==> alerts[i].ts <= time
  }

  /** What is pending is up to date: what was found is the last alert, and what the cooldown let through comes
      the cooldown after it. */
  predicate PendingInv(s: State, p: Pending, gap: int) {
    match p.stage
    case LookedUp(last) => last == LastAlert(s.alerts, p.key)
    case Checked(let) => let ==> NoneAfter(s.alerts, p.key, s.now - gap)
  }

  /** What the invariant says of one key with cooldown gap: spaced so far, and still spaced when what is pending
      is written now or later. */
  predicate KeyInv(s: State, key: Key, gap: int) {
    && Spaced(s.alerts, key, gap)
    && NoneAfter(s.alerts, key, s.now)
    && (forall i :: 0 <= i < |s.alerts| ==> s.alerts[i].ts % 1000 == 0)
    && (forall w :: w in s.pending && s.pending[w].key == key ==> PendingInv(s, s.pending[w], gap))
  }

  predicate OnePerRule(s: State) {
    forall v, w :: v in s.pending && w in s.pending && s.pending[v].key.ruleID == s.pending[w].key.ruleID ==> v == w
  }

  lemma StepKeepsSpacing(cooldowns: map<string, int>, s: State, step: Step, key: Key)
    requires Enabled(s, step) && Apply(cooldowns, s, step).serial
    requires var c := CooldownOf(cooldowns, key.ruleID); c > 0 && FitsDuration(c) && KeyInv(s, key, c * SECOND)
    requires OnePerRule(s)
    ensures KeyInv(Apply(cooldowns, s, step), key, CooldownOf(cooldowns, key.ruleID) * SECOND)
    ensures OnePerRule(Apply(cooldowns, s, step))
  {
    hide LastAlert, Wrap64;
    var c := CooldownOf(cooldowns, key.ruleID);
    var gap := c * SECOND;
    var t := Apply(cooldowns, s, step);
    match step
    case Tick(_) =>
    case LookUp(_, _, _) =>
    case Check(w) =>
      if s.pending[w].key == key && t.pending[w].stage.let {
        LastAlertIsLatest(s.alerts, key);
        CooldownIsItsSeconds(c);
      }
    case Settle(w) =>
      if s.pending[w].stage.let {
        if s.pending[w].key == key {
          MicrosecondsAfter(s.now, gap, s.alerts, key);
        } else {
          OtherKeysAlert(s.alerts, key, t.alerts[|s.alerts|]);
        }
      }
  }

  lemma OtherKeysAlert(alerts: seq<Alert>, key: Key, alert: Alert)
    requires alert.key != key
    ensures LastAlert(alerts + [alert], key) == LastAlert(alerts, key)
  {
    assert (alerts + [alert])[..|alerts|] == alerts;
  }

  /** Cutting the clock reading down to microseconds does not bring it closer than a whole number of seconds. */
  lemma MicrosecondsAfter(now: int, gap: int, alerts: seq<Alert>, key: Key)
    requires gap % 1000 == 0 && NoneAfter(alerts, key, now - gap)
    requires forall i :: 0 <= i < |alerts| ==> alerts[i].ts % 1000 == 0
    ensures NoneAfter(alerts, key, Microseconds(now) - gap)
  {
  }

  lemma {:induction false} ExecKeepsSpacing(cooldowns: map<string, int>, s: State, steps: seq<Step>, key: Key)
    requires Exec(cooldowns, s, steps).Some? && Exec(cooldowns, s, steps).value.serial
    requires var c := CooldownOf(cooldowns, key.ruleID); c > 0 && FitsDuration(c) && KeyInv(s, key, c * SECOND)
    requires OnePerRule(s)
    ensures KeyInv(Exec(cooldowns, s, steps).value, key, CooldownOf(cooldowns, key.ruleID) * SECOND)
    decreases |steps|
  {
    if steps != [] {
      SerialBefore(cooldowns, Apply(cooldowns, s, steps[0]), steps[1..]);
      StepKeepsSpacing(cooldowns, s, steps[0], key);
      ExecKeepsSpacing(cooldowns, Apply(cooldowns, s, steps[0]), steps[1..], key);
    }
  }

  lemma {:induction false} SerialBefore(cooldowns: map<string, int>, s: State, steps: seq<Step>)
    requires Exec(cooldowns, s, steps).Some? && Exec(cooldowns, s, steps).value.serial
    ensures s.serial
    decreases |steps|
  {
    if steps != [] {
      SerialBefore(cooldowns, Apply(cooldowns, s, steps[0]), steps[1..]);
    }
  }

  /** Over every interleaving in which no rule has two workers at once, the stored alerts of a rule, a parameter
      and a detector type are at least the rule's cooldown apart. */
  lemma AlertsSpaced(cooldowns: map<string, int>, now: int, steps: seq<Step>, key: Key)
    requires Exec(cooldowns, Initial(now), steps).Some? && Exec(cooldowns, Initial(now), steps).value.serial
    requires var c := CooldownOf(cooldowns, key.ruleID); c > 0 && FitsDuration(c)
    ensures Spaced(Exec(cooldowns, Initial(now), steps).value.alerts, key, CooldownOf(cooldowns, key.ruleID) * SECOND)
  {
    ExecKeepsSpacing(cooldowns, Initial(now), steps, key);
  }

  // ----- how many

  /** The alerts of a key stored from one instant to another. */
  function Between(alerts: seq<Alert>, key: Key, from: int, to: int): seq<int> {
    if alerts == [] then []
    else
      var alert := alerts[|alerts| - 1];
      Between(alerts[..|alerts| - 1], key, from, to)
      + if alert.key == key && from <= alert.ts <= to then [alert.ts] else []
  }

  /** Among spaced alerts the last one in the interval is as late as the number of those before it demands. */
  lemma {:induction false} LaterEachTime(alerts: seq<Alert>, key: Key, gap: int, from: int, to: int)
    requires Spaced(alerts, key, gap) && gap > 0
    ensures var b := Between(alerts, key, from, to);
            b == [] || (from + Times(|b| - 1, gap) <= b[|b| - 1] <= to && InSome(alerts, key, b[|b| - 1]))
  {
    if alerts != [] {
      var rest, alert := alerts[..|alerts| - 1], alerts[|alerts| - 1];
      assert forall i :: 0 <= i < |rest| ==> rest[i] == alerts[i];
      LaterEachTime(rest, key, gap, from, to);
      var b := Between(rest, key, from, to);
      if b != [] {
        var i :| 0 <= i < |rest| && rest[i].key == key && rest[i].ts == b[|b| - 1];
        assert alerts[i].ts == b[|b| - 1];
        if alert.key == key {
          assert alert.ts - alerts[i].ts >= gap;
          assert Times(|b|, gap) == Times(|b| - 1, gap) + gap;
        }
      }
    }
  }

  function Times(n: int, gap: int): int {
    n * gap
  }

  predicate InSome(alerts: seq<Alert>, key: Key, ts: int) {
    exists i :: 0 <= i < |alerts| && alerts[i].key == key && alerts[i].ts == ts
  }

  /** An interval of length T holds at most T / cooldown + 1 of them. */
  lemma AlertsBounded(cooldowns: map<string, int>, now: int, steps: seq<Step>, key: Key, from: int, length: nat)
    requires Exec(cooldowns, Initial(now), steps).Some? && Exec(cooldowns, Initial(now), steps).value.serial
    requires var c := CooldownOf(cooldowns, key.ruleID); c > 0 && FitsDuration(c)
    ensures var alerts := Exec(cooldowns, Initial(now), steps).value.alerts;
            |Between(alerts, key, from, from + length)| <= length / (CooldownOf(cooldowns, key.ruleID) * SECOND) + 1
  {
    hide Exec, Between, Spaced;
    AlertsSpaced(cooldowns, now, steps, key);
    FewInInterval(Exec(cooldowns, Initial(now), steps).value.alerts, key,
                  CooldownOf(cooldowns, key.ruleID) * SECOND, from, length);
  }

  lemma FewInInterval(alerts: seq<Alert>, key: Key, gap: int, from: int, length: nat)
    requires Spaced(alerts, key, gap) && gap > 0
    ensures |Between(alerts, key, from, from + length)| <= length / gap + 1
  {
    LaterEachTime(alerts, key, gap, from, from + length);
    var b := Between(alerts, key, from, from + length);
    if b != [] {
      QuotientAtLeast(|b| - 1, length, gap);
    }
  }

  lemma QuotientAtLeast(n: int, length: nat, gap: int)
    requires gap > 0 && Times(n, gap) <= length
    ensures n <= length / gap
  {
    var q := length / gap;
    assert length < Times(q + 1, gap);
    if n > q {
      TimesMonotone(q + 1, n, gap);
    }
  }

  lemma TimesMonotone(m: int, n: int, gap: int)
    requires m <= n && gap > 0
    ensures Times(m, gap) <= Times(n, gap)
  {
    assert Times(n, gap) - Times(m, gap) == (n - m) * gap;
  }

  // ----- what the cooldown swallows

  /** An alert of the key was stored less than the cooldown before. */
  predicate Excused(alerts: seq<Alert>, key: Key, time: int, gap: int) {
    exists i :: 0 <= i < |alerts| && alerts[i].key == key && alerts[i].ts <= time && time - alerts[i].ts < gap
  }

  ghost predicate AllExcused(cooldowns: map<string, int>, s: State) {
    && (forall i :: 0 <= i < |s.alerts| ==> s.alerts[i].ts <= s.now)
    && (forall w :: w in s.pending ==> FoundInTable(cooldowns, s, s.pending[w]))
    && (forall k, time :: (k, time) in s.swallowed ==>
          CooldownOf(cooldowns, k.ruleID) > 0
          && Excused(s.alerts, k, time, Wrap64(CooldownOf(cooldowns, k.ruleID) * SECOND)))
  }

  /** What a look-up found is in the table, though others may have come after it. */
  predicate FoundInTable(cooldowns: map<string, int>, s: State, p: Pending) {
    p.stage.LookedUp? && p.stage.last.Some? ==>
      CooldownOf(cooldowns, p.key.ruleID) > 0 && InSome(s.alerts, p.key, p.stage.last.value)
  }

  /** The other way round, however the workers interleave: a hit that was swallowed came less than the cooldown
      after a stored alert of its key. */
  lemma SwallowedOnlyInCooldown(cooldowns: map<string, int>, now: int, steps: seq<Step>, key: Key, time: int)
    requires Exec(cooldowns, Initial(now), steps).Some?
    requires (key, time) in Exec(cooldowns, Initial(now), steps).value.swallowed
    ensures var c := CooldownOf(cooldowns, key.ruleID);
            c > 0 && Excused(Exec(cooldowns, Initial(now), steps).value.alerts, key, time, Wrap64(c * SECOND))
  {
    ExecExcuses(cooldowns, Initial(now), steps);
  }

  lemma {:induction false} ExecExcuses(cooldowns: map<string, int>, s: State, steps: seq<Step>)
    requires Exec(cooldowns, s, steps).Some? && AllExcused(cooldowns, s)
    ensures AllExcused(cooldowns, Exec(cooldowns, s, steps).value)
    decreases |steps|
  {
    if steps != [] {
      StepExcuses(cooldowns, s, steps[0]);
      ExecExcuses(cooldowns, Apply(cooldowns, s, steps[0]), steps[1..]);
    }
  }

  lemma StepExcuses(cooldowns: map<string, int>, s: State, step: Step)
    requires Enabled(s, step) && AllExcused(cooldowns, s)
    ensures AllExcused(cooldowns, Apply(cooldowns, s, step))
  {
    hide LastAlert, Wrap64, CooldownOf;
    var t := Apply(cooldowns, s, step);
    assert forall i :: 0 <= i < |s.alerts| ==> t.alerts[i] == s.alerts[i];
    forall w | w in t.pending ensures FoundInTable(cooldowns, t, t.pending[w]) {
      LastAlertIsLatest(s.alerts, t.pending[w].key);
      if w in s.pending && t.pending[w] == s.pending[w] {
        assert FoundInTable(cooldowns, s, s.pending[w]);
        StillInSome(s.alerts, t.alerts, t.pending[w].key);
      }
    }
    forall k, time | (k, time) in t.swallowed
      ensures CooldownOf(cooldowns, k.ruleID) > 0
      ensures Excused(t.alerts, k, time, Wrap64(CooldownOf(cooldowns, k.ruleID) * SECOND))
    {
      if (k, time) in s.swallowed {
        var i :| 0 <= i < |s.alerts| && s.alerts[i].key == k && s.alerts[i].ts <= time
                 && time - s.alerts[i].ts < Wrap64(CooldownOf(cooldowns, k.ruleID) * SECOND);
        assert t.alerts[i] == s.alerts[i];
      } else {
        var p := s.pending[step.worker];
        assert FoundInTable(cooldowns, s, p) && k == p.key;
        var i :| 0 <= i < |s.alerts| && s.alerts[i].key == k && s.alerts[i].ts == p.stage.last.value;
        assert t.alerts == s.alerts && time == s.now;
      }
    }
  }

  lemma StillInSome(alerts: seq<Alert>, more: seq<Alert>, key: Key)
    requires |alerts| <= |more| && forall i :: 0 <= i < |alerts| ==> more[i] == alerts[i]
    ensures forall ts :: InSome(alerts, key, ts) ==> InSome(more, key, ts)
  {
    forall ts | InSome(alerts, key, ts) ensures InSome(more, key, ts) {
      var i :| 0 <= i < |alerts| && alerts[i].key == key && alerts[i].ts == ts;
      assert more[i].key == key && more[i].ts == ts;
    }
  }

  // ----- a run of Execute is a run of the steps

  function StepsOf(worker: nat, ruleID: string, events: seq<Event>, readings: seq<Reading>): seq<Step>
    requires |events| == |readings|
    decreases |events|
  {
    if events == [] then []
    else
      var last := |events| - 1;
      StepsOf(worker, ruleID, events[..last], readings[..last])
      + if events[last].finding.hit
        then [LookUp(worker, KeyOf(ruleID, events[last].param), events[last].finding.content),
              Tick(readings[last].check), Check(worker), Tick(readings[last].write), Settle(worker)]
        else [Tick(readings[last].check), Tick(readings[last].write)]
  }

  lemma {:induction false} ExecTwice(cooldowns: map<string, int>, s: State, first: seq<Step>, second: seq<Step>)
    requires Exec(cooldowns, s, first).Some?
    ensures Exec(cooldowns, s, first + second) == Exec(cooldowns, Exec(cooldowns, s, first).value, second)
    decreases |first|
  {
    if first == [] {
      assert first + second == second;
    } else {
      assert (first + second)[1..] == first[1..] + second;
      ExecTwice(cooldowns, Apply(cooldowns, s, first[0]), first[1..], second);
    }
  }

  /** What Execute writes is what the steps of its worker write, one hit after another, when no other worker
      takes a step in between; and such a run is serial. */
  lemma {:induction false} ExecuteTakesSteps(cooldowns: map<string, int>, s: State, worker: nat, ruleID: string,
                                             events: seq<Event>, readings: seq<Reading>, to: int)
    requires |events| == |readings| && Ordered(s.now, readings, to) && !Busy(s, ruleID) && worker !in s.pending
    ensures var t := Exec(cooldowns, s, StepsOf(worker, ruleID, events, readings));
            t.Some? && t.value.now <= to
            && t.value == s.(now := t.value.now, swallowed := t.value.swallowed,
                             alerts := Written(s.alerts, ruleID, CooldownOf(cooldowns, ruleID), events, readings))
    decreases |events|
  {
    if events != [] {
      var last := |events| - 1;
      var first := StepsOf(worker, ruleID, events[..last], readings[..last]);
      ExecuteTakesSteps(cooldowns, s, worker, ruleID, events[..last], readings[..last], readings[last].check);
      var t := Exec(cooldowns, s, first).value;
      var more := StepsOf(worker, ruleID, events, readings)[|first|..];
      assert StepsOf(worker, ruleID, events, readings) == first + more;
      ExecTwice(cooldowns, s, first, more);
      EventTakesSteps(cooldowns, t, worker, ruleID, events[last], readings[last], more);
    }
  }

  lemma EventTakesSteps(cooldowns: map<string, int>, s: State, worker: nat, ruleID: string, e: Event, r: Reading, steps: seq<Step>)
    requires s.now <= r.check <= r.write && !Busy(s, ruleID) && worker !in s.pending
    requires steps == if e.finding.hit
                      then [LookUp(worker, KeyOf(ruleID, e.param), e.finding.content), Tick(r.check), Check(worker),
                            Tick(r.write), Settle(worker)]
                      else [Tick(r.check), Tick(r.write)]
    ensures var t := Exec(cooldowns, s, steps);
            t.Some?
            && t.value == s.(now := r.write, swallowed := t.value.swallowed,
                             alerts := Handled(s.alerts, ruleID, CooldownOf(cooldowns, ruleID), e, r))
  {
    hide LastAlert, WithinCooldown;
    var more, t := Then(cooldowns, s, [], s, steps[0]);
    more, t := Then(cooldowns, s, more, t, steps[1]);
    if e.finding.hit {
      more, t := Then(cooldowns, s, more, t, steps[2]);
      more, t := Then(cooldowns, s, more, t, steps[3]);
      more, t := Then(cooldowns, s, more, t, steps[4]);
      assert t.pending == s.pending;
    }
    assert more == steps;
  }

  /** Takes one more step of a run that is being built up. */
  lemma Then(cooldowns: map<string, int>, init: State, steps: seq<Step>, s: State, step: Step)
    returns (more: seq<Step>, t: State)
    requires Exec(cooldowns, init, steps) == Some(s) && Enabled(s, step)
    ensures Exec(cooldowns, init, more) == Some(t) && (more, t) == (steps + [step], Apply(cooldowns, s, step))
  {
    more, t := steps + [step], Apply(cooldowns, s, step);
    ExecTwice(cooldowns, init, steps, [step]);
    assert [step][1..] == [];
  }

  // ----- with how many workers the alerts are spaced

  /** The steps of the system when it has this many workers. */
  predicate Employs(steps: seq<Step>, workers: nat) {
    forall i :: 0 <= i < |steps| && steps[i].LookUp? ==> steps[i].worker < workers
  }

  /** A single worker cannot get in its own way. */
  lemma {:induction false} OneWorkerIsSerial(cooldowns: map<string, int>, s: State, steps: seq<Step>)
    requires Exec(cooldowns, s, steps).Some? && Employs(steps, 1)
    requires s.serial && forall w :: w in s.pending ==> w == 0
    ensures Exec(cooldowns, s, steps).value.serial
    decreases |steps|
  {
    if steps != [] {
      assert steps[0].LookUp? ==> steps[0].worker == 0;
      OneWorkerIsSerial(cooldowns, Apply(cooldowns, s, steps[0]), steps[1..]);
    }
  }

  /** Two workers look up, check and settle a hit of one key, side by side. */
  function SideBySide(key: Key): seq<Step> {
    [LookUp(0, key, ""), LookUp(1, key, ""), Check(0), Check(1), Settle(0), Settle(1)]
  }

  /** Both of them write it, whatever the cooldown. */
  lemma OverlappingWorkersBothWrite(cooldown: int, key: Key)
    requires cooldown > 0
    ensures Exec(map[key.ruleID := cooldown], Initial(0), SideBySide(key))
         == Some(State(0, [Alert(key, 0, ""), Alert(key, 0, "")], map[], [], false))
  {
    var cooldowns, init := map[key.ruleID := cooldown], Initial(0);
    var steps, s := Then(cooldowns, init, [], init, LookUp(0, key, ""));
    steps, s := Then(cooldowns, init, steps, s, LookUp(1, key, ""));
    assert s.pending == map[0 := Pending(key, "", LookedUp(None)), 1 := Pending(key, "", LookedUp(None))];
    hide Exec;
    steps, s := Then(cooldowns, init, steps, s, Check(0));
    steps, s := Then(cooldowns, init, steps, s, Check(1));
    steps, s := Then(cooldowns, init, steps, s, Settle(0));
    steps, s := Then(cooldowns, init, steps, s, Settle(1));
    assert s.alerts == [Alert(key, 0, ""), Alert(key, 0, "")] && s.pending == map[] && steps == SideBySide(key);
  }

  /** A worker and its first hit. */
  function FirstHit(key: Key): seq<Step> {
    [LookUp(0, key, ""), Check(0), Settle(0)]
  }

  lemma FirstAlert(cooldown: int, key: Key)
    requires cooldown > 0
    ensures Exec(map[key.ruleID := cooldown], Initial(0), FirstHit(key)) == Some(State(0, [Alert(key, 0, "")], map[], [], true))
  {
    var cooldowns, init := map[key.ruleID := cooldown], Initial(0);
    var steps, s := Then(cooldowns, init, [], init, LookUp(0, key, ""));
    hide Exec;
    steps, s := Then(cooldowns, init, steps, s, Check(0));
    steps, s := Then(cooldowns, init, steps, s, Settle(0));
    assert s.alerts == [Alert(key, 0, "")] && s.pending == map[] && steps == FirstHit(key);
  }

  lemma OverTooEarly(cooldown: int)
    requires !FitsDuration(cooldown)
    ensures !Holds(Some(0), cooldown * SECOND - 1, cooldown)
  {
  }

  /** Its next one, a nanosecond before the seconds of the cooldown are over. */
  function TooEarly(cooldown: int, key: Key): seq<Step> {
    FirstHit(key) + [LookUp(0, key, ""), Tick(cooldown * SECOND - 1), Check(0), Settle(0)]
  }

  /** A cooldown that wraps around lets it through. */
  lemma WrappedCooldownLetsThrough(cooldown: int, key: Key)
    requires cooldown > 0 && !FitsDuration(cooldown)
    ensures Exec(map[key.ruleID := cooldown], Initial(0), TooEarly(cooldown, key))
         == Some(State(cooldown * SECOND - 1, [Alert(key, 0, ""), Alert(key, Microseconds(cooldown * SECOND - 1), "")],
                       map[], [], true))
  {
    var cooldowns, init := map[key.ruleID := cooldown], Initial(0);
    OverTooEarly(cooldown);
    hide Holds;
    FirstAlert(cooldown, key);
    var steps, s := FirstHit(key), State(0, [Alert(key, 0, "")], map[], [], true);
    assert LastAlert(s.alerts, key) == Some(0);
    hide Exec;
    steps, s := Then(cooldowns, init, steps, s, LookUp(0, key, ""));
    steps, s := Then(cooldowns, init, steps, s, Tick(cooldown * SECOND - 1));
    steps, s := Then(cooldowns, init, steps, s, Check(0));
    steps, s := Then(cooldowns, init, steps, s, Settle(0));
    assert s.alerts == [Alert(key, 0, ""), Alert(key, Microseconds(cooldown * SECOND - 1), "")];
    assert s.pending == map[] && steps == TooEarly(cooldown, key);
  }

  predicate SpacedAfter(cooldowns: map<string, int>, now: int, steps: seq<Step>, key: Key) {
    var t := Exec(cooldowns, Initial(now), steps);
    t.Some? ==> Spaced(t.value.alerts, key, CooldownOf(cooldowns, key.ruleID) * SECOND)
  }

  /** Exactly when the cooldown does what it is for: the alerts of every key with a cooldown of c seconds are
      that far apart, in every run of a system with n workers, if and only if there is at most one worker and,
      with one, the cooldown fits a duration. */
  lemma SpacedExactlyWithOneWorker(c: int, workers: nat)
    requires c > 0
    ensures (forall cooldowns, now, steps, key: Key ::
               CooldownOf(cooldowns, key.ruleID) == c && Employs(steps, workers) ==> SpacedAfter(cooldowns, now, steps, key))
       <==> workers == 0 || (workers == 1 && FitsDuration(c))
  {
    var key := Key("r", "p", "spec_limit");
    if workers == 0 || (workers == 1 && FitsDuration(c)) {
      forall cooldowns, now, steps, key: Key | CooldownOf(cooldowns, key.ruleID) == c && Employs(steps, workers)
        ensures SpacedAfter(cooldowns, now, steps, key)
      {
        FewWorkersSpace(cooldowns, now, steps, key, workers);
      }
    } else if workers >= 2 {
      OverlappingWorkersBothWrite(c, key);
      assert Employs(SideBySide(key), workers);
      TwoAlertsTooClose(map["r" := c], SideBySide(key), key, 0, c * SECOND);
    } else {
      WrappedCooldownLetsThrough(c, key);
      assert Employs(TooEarly(c, key), workers);
      TwoAlertsTooClose(map["r" := c], TooEarly(c, key), key, Microseconds(c * SECOND - 1), c * SECOND);
    }
  }

  lemma TwoAlertsTooClose(cooldowns: map<string, int>, steps: seq<Step>, key: Key, second: int, gap: int)
    requires Exec(cooldowns, Initial(0), steps).Some? && gap == CooldownOf(cooldowns, key.ruleID) * SECOND && second < gap
    requires Exec(cooldowns, Initial(0), steps).value.alerts == [Alert(key, 0, ""), Alert(key, second, "")]
    ensures !SpacedAfter(cooldowns, 0, steps, key)
  {
    var alerts := Exec(cooldowns, Initial(0), steps).value.alerts;
    assert alerts[1].ts - alerts[0].ts < gap;
  }

  lemma FewWorkersSpace(cooldowns: map<string, int>, now: int, steps: seq<Step>, key: Key, workers: nat)
    requires CooldownOf(cooldowns, key.ruleID) > 0 && Employs(steps, workers)
    requires workers == 0 || (workers == 1 && FitsDuration(CooldownOf(cooldowns, key.ruleID)))
    ensures SpacedAfter(cooldowns, now, steps, key)
  {
    if Exec(cooldowns, Initial(now), steps).Some? {
      if workers == 0 {
        NobodyWrites(cooldowns, Initial(now), steps);
      } else {
        OneWorkerIsSerial(cooldowns, Initial(now), steps);
        AlertsSpaced(cooldowns, now, steps, key);
      }
    }
  }

  lemma {:induction false} NobodyWrites(cooldowns: map<string, int>, s: State, steps: seq<Step>)
    requires Exec(cooldowns, s, steps).Some? && Employs(steps, 0) && s.pending == map[]
    ensures Exec(cooldowns, s, steps).value.alerts == s.alerts
    decreases |steps|
  {
    if steps != [] {
      assert !steps[0].LookUp?;
      NobodyWrites(cooldowns, Apply(cooldowns, s, steps[0]), steps[1..]);
    }
  }
}
