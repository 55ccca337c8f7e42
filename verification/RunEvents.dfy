/** Event accounting: what the outbox says about each run, and what its summary projection shows. */
module RunEvents {
  import opened Common
  import opened RunObjects
  import opened RunProtocol
  import opened RunHistory

  /** The events of one run, in append order. */
  function EventsOf(log: seq<Event>, r: RunId): (events: seq<Event>) {
    if log == [] then []
    else
      var last, earlier := log[|log| - 1], EventsOf(log[..|log| - 1], r);
      if last.runId == r then earlier + [last] else earlier
  }

  lemma {:induction false} EventsOfConcat(a: seq<Event>, b: seq<Event>, r: RunId)
    ensures EventsOf(a + b, r) == EventsOf(a, r) + EventsOf(b, r)
  {
    if b == [] {
      assert a + b == a;
    } else {
      EventsOfConcat(a, b[..|b| - 1], r);
      assert (a + b)[..|a + b| - 1] == a + b[..|b| - 1];
    }
  }

  predicate HeartbeatOn(w: World, call: Call, r: RunId) {
    call.command.Heartbeat? && call.command.runId == r && Step(w, call).1.Ok?
  }

  predicate AdmissionOn(w: World, call: Call, r: RunId) {
    call.command.ApplyAdmission? && call.command.runId == r && Step(w, call).1.Ok?
  }

  function Bit(b: bool): nat { if b then 1 else 0 }

  /** How many heartbeats on `r` were accepted. */
  function Heartbeats(calls: seq<Call>, r: RunId): nat {
    if calls == [] then 0
    else
      var init := calls[..|calls| - 1];
      Heartbeats(init, r) + Bit(HeartbeatOn(Exec(init), calls[|calls| - 1], r))
  }

  /** How many admission results were applied to `r`. */
  function AdmissionsApplied(calls: seq<Call>, r: RunId): nat {
    if calls == [] then 0
    else
      var init := calls[..|calls| - 1];
      AdmissionsApplied(init, r) + Bit(AdmissionOn(Exec(init), calls[|calls| - 1], r))
  }

  /** How many heartbeats on `r` were accepted after its latest event. */
  function HeartbeatsSinceEvent(calls: seq<Call>, r: RunId): nat {
    if calls == [] then 0
    else
      var init := calls[..|calls| - 1];
      var before, after := Exec(init), Exec(calls);
      if EventsOf(after.outbox, r) != EventsOf(before.outbox, r) then 0
      else HeartbeatsSinceEvent(init, r) + Bit(HeartbeatOn(before, calls[|calls| - 1], r))
  }

  // ---------------------------------------------------------------------
  // The summary projection
  // ---------------------------------------------------------------------

  datatype RunSummary = RunSummary(
    taskId: Option<string>,
    phase: Option<Phase>,
    disposition: Option<Disposition>,
    attempt: Option<int>,
    revision: Option<int>,
    eventCount: nat,
    waitReason: Option<WaitReason>)

  const NO_SUMMARY := RunSummary(None, None, None, None, None, 0, None)

  /** One event folded into a summary. */
  function Fold(current: RunSummary, event: Event): RunSummary {
    RunSummary(
      if event.body.RunCreated? then Some(event.body.taskId) else current.taskId,
      if event.body.PhaseChanged? then Some(event.body.toPhase) else current.phase,
      if event.body.TerminalCommitted? then Some(event.body.disposition) else current.disposition,
      if event.body.RetryScheduled? then Some(event.body.attempt) else current.attempt,
      Some(event.aggregateVersion),
      current.eventCount + 1,
      if event.body.WaitRegistered? then Some(event.body.waitReason) else current.waitReason)
  }

  function Summary(events: seq<Event>): RunSummary {
    if events == [] then NO_SUMMARY
    else Fold(Summary(events[..|events| - 1]), events[|events| - 1])
  }

  lemma SummaryAppend(events: seq<Event>, event: Event)
    ensures Summary(events + [event]) == Fold(Summary(events), event)
  {
    assert (events + [event])[..|events|] == events;
  }

  /** Every run's summary after a stream of events. */
  function Project(events: seq<Event>): map<RunId, RunSummary> {
    if events == [] then map[]
    else
      var event := events[|events| - 1];
      var earlier := Project(events[..|events| - 1]);
      var current := if event.runId in earlier then earlier[event.runId] else NO_SUMMARY;
      earlier[event.runId := Fold(current, event)]
  }

  /** Interleaved runs do not disturb each other: each summary folds that run's events alone. */
  lemma {:induction false} ProjectIsPerRun(events: seq<Event>, r: RunId)
    ensures r in Project(events) <==> EventsOf(events, r) != []
    ensures r in Project(events) ==> Project(events)[r] == Summary(EventsOf(events, r))
  {
    if events != [] {
      var init, event := events[..|events| - 1], events[|events| - 1];
      ProjectIsPerRun(init, r);
      if event.runId == r {
        SummaryAppend(EventsOf(init, r), event);
      }
    }
  }

  /** The projector keeps one summary per run and folds each envelope into it. */
  class RunSummaryProjector {
    var summaries: map<RunId, RunSummary>
    ghost var applied: seq<Event>

    ghost predicate Valid()
      reads this
    {
      summaries == Project(applied)
    }

    constructor ()
      ensures Valid() && applied == []
    {
      summaries, applied := map[], [];
    }

    method Apply(event: Event) returns (summary: RunSummary)
      requires Valid()
      modifies this
      ensures Valid() && applied == old(applied) + [event]
      ensures summary == Summary(EventsOf(applied, event.runId))
    {
      var current := if event.runId in summaries then summaries[event.runId] else NO_SUMMARY;
      summary := current.(revision := Some(event.aggregateVersion), eventCount := current.eventCount + 1);
      if event.body.RunCreated? {
        summary := summary.(taskId := Some(event.body.taskId));
      }
      if event.body.PhaseChanged? {
        summary := summary.(phase := Some(event.body.toPhase));
      }
      if event.body.TerminalCommitted? {
        summary := summary.(disposition := Some(event.body.disposition));
      }
      if event.body.WaitRegistered? {
        summary := summary.(waitReason := Some(event.body.waitReason));
      }
      if event.body.RetryScheduled? {
        summary := summary.(attempt := Some(event.body.attempt));
      }
      assert summary == Fold(current, event);
      hide Fold, Summary, EventsOf, Project;
      ProjectAppend(applied, event);
      summaries := summaries[event.runId := summary];
      applied := applied + [event];
    }
  }

  lemma ProjectAppend(events: seq<Event>, event: Event)
    ensures var current := if event.runId in Project(events) then Project(events)[event.runId] else NO_SUMMARY;
            Project(events + [event]) == Project(events)[event.runId := Fold(current, event)]
    ensures Summary(EventsOf(events + [event], event.runId)) == Project(events + [event])[event.runId]
  {
    assert (events + [event])[..|events|] == events;
    ProjectIsPerRun(events + [event], event.runId);
  }

  // ---------------------------------------------------------------------
  // One command's events
  // ---------------------------------------------------------------------

  /** What a written plan says to the outbox. */
  ghost predicate PlanEvents(run: RunRecord, plan: Plan, heartbeat: bool, admission: bool)
    requires plan.Write?
  {
    var events, after := plan.events, plan.record;
    && |events| == 1 + Bit(admission) - Bit(heartbeat)
    && (forall e <- events :: e.runId == after.runId)
    && (events == [] ==> after.phase != Terminal)
    && (events != [] ==> events[|events| - 1].aggregateVersion == after.revision)
    && (|events| == 2 ==> events[0].aggregateVersion == run.revision && !events[0].body.TerminalCommitted?)
    && (events != [] ==>
          var last := events[|events| - 1].body;
          && (last.TerminalCommitted? <==> after.phase == Terminal)
          && (last.TerminalCommitted? ==> after.disposition == Some(last.disposition)))
  }

  lemma DecideEvents(run: RunRecord, command: Command, env: Env)
    requires RecordInv(run) && !command.CreateRun?
    requires var d := Decide(run, command, env); d.Ok? && d.value.Write?
    ensures PlanEvents(run, Decide(run, command, env).value, command.Heartbeat?, command.ApplyAdmission?)
  {
    if command.ApplyAdmission? {
      AdmissionEvents(run, command.result, env);
    } else {
      hide DecideAdmission;
    }
  }

  lemma AdmissionEvents(run: RunRecord, result: ValidAdmission, env: Env)
    requires RecordInv(run)
    requires var d := DecideAdmission(run, result, env); d.Ok? && d.value.Write?
    ensures PlanEvents(run, DecideAdmission(run, result, env).value, false, true)
  {
  }

  lemma {:induction false} EventsAllOf(events: seq<Event>, owner: RunId, r: RunId)
    requires forall e <- events :: e.runId == owner
    ensures EventsOf(events, r) == if r == owner then events else []
  {
    if events != [] {
      EventsAllOf(events[..|events| - 1], owner, r);
      assert events == events[..|events| - 1] + [events[|events| - 1]];
    }
  }

  function Last(events: seq<Event>): Event
    requires events != []
  {
    events[|events| - 1]
  }

  /** Versions never decrease, and nothing follows a terminal event. */
  ghost predicate Ordered(events: seq<Event>) {
    |events| <= 1 ||
    var init := events[..|events| - 1];
    Ordered(init)
    && Last(init).aggregateVersion <= Last(events).aggregateVersion
    && !Last(init).body.TerminalCommitted?
  }

  lemma {:induction false} OrderedMeans(events: seq<Event>)
    requires Ordered(events)
    ensures forall i, j | 0 <= i <= j < |events| :: events[i].aggregateVersion <= events[j].aggregateVersion
    ensures forall i | 0 <= i < |events| - 1 :: !events[i].body.TerminalCommitted?
  {
    if |events| > 1 {
      OrderedMeans(events[..|events| - 1]);
    }
  }

  /** The outbox of one run agrees with its record. */
  ghost predicate Agrees(run: RunRecord, events: seq<Event>, heartbeats: int, admissions: int, since: int) {
    && 1 <= |events| == run.revision + admissions - heartbeats
    && Ordered(events)
    && events[0].aggregateVersion == 1
    && Last(events).aggregateVersion == run.revision - since
    && (Last(events).body.TerminalCommitted? <==> run.phase == Terminal)
    && Summary(events).disposition == run.disposition
  }

  /** Writing a plan keeps the agreement. */
  lemma PlanKeepsAgreement(run: RunRecord, events: seq<Event>, h: int, a: int, since: nat,
                           plan: Plan, heartbeat: bool, admission: bool)
    requires Agrees(run, events, h, a, since) && !(heartbeat && admission)
    requires plan.Write? && plan.record.revision == run.revision + 1
    requires PlanEvents(run, plan, heartbeat, admission)
    requires run.phase != Terminal && run.disposition == None
    requires plan.record.phase != Terminal ==> plan.record.disposition == None
    ensures Agrees(plan.record, events + plan.events, h + Bit(heartbeat), a + Bit(admission),
                   if plan.events == [] then since + 1 else 0)
  {
    var added := plan.events;
    if |added| == 1 {
      assert added == [added[0]];
      AppendOrdered(events, added[0]);
    } else if |added| == 2 {
      assert events + added == events + [added[0]] + [added[1]];
      AppendOrdered(events, added[0]);
      AppendOrdered(events + [added[0]], added[1]);
    } else {
      assert events + added == events;
    }
  }

  lemma AppendOrdered(events: seq<Event>, event: Event)
    requires events != [] && Ordered(events)
    requires Last(events).aggregateVersion <= event.aggregateVersion && !Last(events).body.TerminalCommitted?
    ensures Ordered(events + [event]) && Last(events + [event]) == event
    ensures Summary(events + [event]) == Fold(Summary(events), event)
  {
    assert (events + [event])[..|events|] == events;
  }

  /** The outbox of run `r` in a state, accounted for; a run not yet created has no event. */
  ghost predicate Accounted(w: World, r: RunId, heartbeats: int, admissions: int, since: int) {
    if r in w.records
    then Agrees(w.records[r], EventsOf(w.outbox, r), heartbeats, admissions, since)
    else EventsOf(w.outbox, r) == [] && heartbeats == 0 && admissions == 0 && since == 0
  }

  /**
   * In every history, for every run: events = revision + admissions applied - heartbeats accepted;
   * event versions never decrease; the terminal event exists exactly when the record is terminal
   * and is then the last event; folding the events gives the stored disposition, and the stored
   * revision is ahead of the projected one by the heartbeats since the last event.
   */
  lemma {:induction false} EventAccounting(calls: seq<Call>, r: RunId)
    ensures Accounted(Exec(calls), r, Heartbeats(calls, r), AdmissionsApplied(calls, r),
                      HeartbeatsSinceEvent(calls, r))
  {
    if calls != [] {
      hide Accounted, Step;
      var init, call := calls[..|calls| - 1], calls[|calls| - 1];
      EventAccounting(init, r);
      ReachableInv(init);
      StepAccounted(Exec(init), call, r, Heartbeats(init, r), AdmissionsApplied(init, r), HeartbeatsSinceEvent(init, r));
    }
  }

  lemma StepAccounted(w: World, call: Call, r: RunId, h: nat, a: nat, since: nat)
    requires WorldInv(w) && Accounted(w, r, h, a, since)
    ensures var after := Step(w, call).0;
            Accounted(after, r, h + Bit(HeartbeatOn(w, call, r)), a + Bit(AdmissionOn(w, call, r)),
                      if EventsOf(after.outbox, r) != EventsOf(w.outbox, r) then 0
                      else since + Bit(HeartbeatOn(w, call, r)))
  {
    hide Decide, Accounted, EventsOf, RecordInv;
    if call.command.CreateRun? {
      CreateAccounted(w, Step(w, call).0, call, r, h, a, since);
    } else if call.command.runId in w.records {
      CommandAccounted(w, call, r, h, a, since);
    }
  }

  lemma CreateAccounted(w: World, after: World, call: Call, r: RunId, h: nat, a: nat, since: nat)
    requires Accounted(w, r, h, a, since)
    requires call.command.CreateRun? && after == StepCreate(w, call.command.binding, call.env).0
    ensures Accounted(after, r, h, a, since)
    ensures EventsOf(after.outbox, r) != EventsOf(w.outbox, r) ==> h == a == since == 0
  {
    hide Agrees, EventsOf, Summary;
    if after != w {
      var event := Last(after.outbox);
      assert after.outbox == w.outbox + [event];
      EventsOfNext(w.outbox, event, r);
      if r == call.env.ticket {
        CreationAgrees(after.records[r], event);
      }
    }
  }

  lemma EventsOfNext(outbox: seq<Event>, event: Event, r: RunId)
    ensures EventsOf(outbox + [event], r) == if event.runId == r then EventsOf(outbox, r) + [event] else EventsOf(outbox, r)
  {
    assert (outbox + [event])[..|outbox|] == outbox;
  }

  /** A new record and its only event agree. */
  lemma CreationAgrees(record: RunRecord, event: Event)
    requires event.body.RunCreated? && event.aggregateVersion == record.revision == 1
    requires record.phase == Queued && record.disposition == None
    ensures Agrees(record, [event], 0, 0, 0) && [] + [event] == [event]
  {
    SummaryAppend([], event);
    assert [] + [event] == [event];
  }

  lemma CommandAccounted(w: World, call: Call, r: RunId, h: nat, a: nat, since: nat)
    requires WorldInv(w) && Accounted(w, r, h, a, since)
    requires !call.command.CreateRun? && call.command.runId in w.records
    ensures var after := Step(w, call).0;
            Accounted(after, r, h + Bit(HeartbeatOn(w, call, r)), a + Bit(AdmissionOn(w, call, r)),
                      if EventsOf(after.outbox, r) != EventsOf(w.outbox, r) then 0
                      else since + Bit(HeartbeatOn(w, call, r)))
  {
    hide Decide, Accounted, EventsOf, PlanEvents;
    var c := call.command;
    var run := w.records[c.runId];
    var decision := Decide(run, c, call.env);
    DecideAdvances(run, c, call.env);
    if decision.Ok? && decision.value.Write? && Step(w, call).1.Ok? {
      DecideEvents(run, c, call.env);
      WriteAccounted(w, Step(w, call).0, run, decision.value, c.Heartbeat?, c.ApplyAdmission?, r, h, a, since);
    }
  }

  lemma PlanEventsAre(run: RunRecord, plan: Plan, heartbeat: bool, admission: bool)
    requires plan.Write? && PlanEvents(run, plan, heartbeat, admission) && !(heartbeat && admission)
    ensures forall e <- plan.events :: e.runId == plan.record.runId
    ensures plan.events == [] <==> heartbeat
  {
  }

  lemma WriteAccounted(w: World, after: World, run: RunRecord, plan: Plan, heartbeat: bool, admission: bool,
                       r: RunId, h: nat, a: nat, since: nat)
    requires Accounted(w, r, h, a, since) && !(heartbeat && admission)
    requires run.runId in w.records && w.records[run.runId] == run
    requires run.phase != Terminal && run.disposition == None
    requires plan.Write? && plan.record.runId == run.runId && plan.record.revision == run.revision + 1
    requires plan.record.phase != Terminal ==> plan.record.disposition == None
    requires PlanEvents(run, plan, heartbeat, admission)
    requires after.records == w.records[run.runId := plan.record] && after.outbox == w.outbox + plan.events
    ensures var mine := run.runId == r;
            Accounted(after, r, h + Bit(heartbeat && mine), a + Bit(admission && mine),
                      if EventsOf(after.outbox, r) != EventsOf(w.outbox, r) then 0
                      else since + Bit(heartbeat && mine))
  {
    hide Agrees, PlanEvents, EventsOf;
    PlanEventsAre(run, plan, heartbeat, admission);
    EventsAllOf(plan.events, run.runId, r);
    EventsOfConcat(w.outbox, plan.events, r);
    var events := EventsOf(w.outbox, r);
    if r == run.runId {
      PlanKeepsAgreement(run, events, h, a, since, plan, heartbeat, admission);
    } else {
      assert events + [] == events;
    }
  }

  /** The accounting, for the reader of the outbox and of the projection. */
  lemma RunEventAccounting(calls: seq<Call>, r: RunId)
    requires r in Exec(calls).records
    ensures var w := Exec(calls);
            var run, events := w.records[r], EventsOf(w.outbox, r);
            && |events| == run.revision + AdmissionsApplied(calls, r) - Heartbeats(calls, r)
            && (forall i, j | 0 <= i <= j < |events| ::
                  1 <= events[i].aggregateVersion <= events[j].aggregateVersion <= run.revision)
            && (forall i | 0 <= i < |events| ::
                  events[i].body.TerminalCommitted? <==> run.phase == Terminal && i == |events| - 1)
            && r in Project(w.outbox)
            && Project(w.outbox)[r].eventCount == |events|
            && Project(w.outbox)[r].disposition == run.disposition
            && Project(w.outbox)[r].revision == Some(run.revision - HeartbeatsSinceEvent(calls, r))
  {
    var w := Exec(calls);
    var events := EventsOf(w.outbox, r);
    EventAccounting(calls, r);
    hide Step;
    OrderedMeans(events);
    ProjectIsPerRun(w.outbox, r);
    SummaryCounts(events);
  }

  lemma {:induction false} SummaryCounts(events: seq<Event>)
    ensures Summary(events).eventCount == |events|
  {
    if events != [] {
      SummaryCounts(events[..|events| - 1]);
    }
  }

  /**
   * The projected phase is not the stored one: whenever a deferred admission is applied, the run
   * waits while its summary says terminal. The projected disposition is still right.
   */
  lemma DeferredAdmissionProjectsTerminal(w: World, call: Call)
    requires WorldInv(w) && call.command.ApplyAdmission? && AdmissionOn(w, call, call.command.runId)
    requires call.command.result.outcome == Deferred
    ensures var r, after := call.command.runId, Step(w, call).0;
            after.records[r].phase == Waiting && Summary(EventsOf(after.outbox, r)).phase == Some(Terminal)
  {
    var r := call.command.runId;
    var run, result := w.records[r], call.command.result;
    assert Decide(run, call.command, call.env) == DecideAdmission(run, result, call.env);
    hide Decide;
    assert DecideAdmission(run, result, call.env).Ok?;
    DeferredPlan(run, result, call.env);
    hide DecideAdmission, RecordInv, Summary;
    var plan := DecideAdmission(run, result, call.env).value;
    assert Step(w, call).0.outbox == w.outbox + plan.events;
    DeferredFold(w.outbox, plan.events, r);
  }

  lemma DeferredPlan(run: RunRecord, result: ValidAdmission, env: Env)
    requires DecideAdmission(run, result, env).Ok? && result.outcome == Deferred
    ensures var plan := DecideAdmission(run, result, env).value;
            && plan.Write? && plan.record.runId == run.runId && plan.record.phase == Waiting
            && ProjectsTerminal(plan.events, run.runId)
  {
  }

  ghost predicate ProjectsTerminal(events: seq<Event>, r: RunId) {
    && |events| == 2
    && events[0].runId == events[1].runId == r
    && events[0].body.PhaseChanged? && events[0].body.toPhase == Terminal
    && events[1].body.WaitRegistered?
  }

  lemma DeferredFold(log: seq<Event>, added: seq<Event>, r: RunId)
    requires ProjectsTerminal(added, r)
    ensures Summary(EventsOf(log + added, r)).phase == Some(Terminal)
  {
    var events := EventsOf(log, r);
    EventsAllOf(added, r, r);
    EventsOfConcat(log, added, r);
    assert events + added == events + [added[0]] + [added[1]];
    SummaryAppend(events, added[0]);
    SummaryAppend(events + [added[0]], added[1]);
  }
}
