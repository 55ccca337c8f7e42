/** What the outcome, attempt and lease fields of a run mean over whole histories. */
module RunFields {
  import opened Common
  import opened RunObjects
  import opened RunProtocol
  import opened RunHistory
  import opened RunEvents
  import opened RunLeases

  // ---------------------------------------------------------------------
  // Outcome
  // ---------------------------------------------------------------------

  /** An unfinished run has no result, no error and no terminal reason. */
  ghost predicate OutcomeInv(run: RunRecord) {
    run.phase != Terminal ==> run.resultRef == None && run.errorRef == None && run.terminalReasonCodes == []
  }

  /** The outcome a command asks for, if it is one that ends a run. */
  function Outcome(command: Command): (Option<Disposition>, Option<string>, Option<string>, seq<string>) {
    match command
    case CommitTerminal(_, disposition, reasons, resultRef, errorRef) => (Some(disposition), resultRef, errorRef, reasons)
    case ApplyAdmission(_, result) => (Some(Rejected), None, None, result.reasonCodes)
    case _ => (Some(Cancelled), None, None, ["cancelled_by_actor"])
  }

  lemma DecideOutcome(run: RunRecord, command: Command, env: Env)
    requires RecordInv(run) && OutcomeInv(run) && !command.CreateRun?
    requires Decide(run, command, env).Ok? && Decide(run, command, env).value.Write?
    ensures var after := Decide(run, command, env).value.record;
            && OutcomeInv(after)
            && (after.phase == Terminal ==>
                  (after.disposition, after.resultRef, after.errorRef, after.terminalReasonCodes) == Outcome(command))
  {
  }

  /**
   * In every history an unfinished run carries no outcome, and a run that has just ended carries
   * exactly the outcome its last command asked for.
   */
  lemma {:induction false} OutcomeIsTheLastCommands(calls: seq<Call>, r: RunId)
    requires r in Exec(calls).records
    ensures OutcomeInv(Exec(calls).records[r])
    ensures var init, run := Exec(calls[..|calls| - 1]), Exec(calls).records[r];
            r in init.records && init.records[r] != run && run.phase == Terminal ==>
              (run.disposition, run.resultRef, run.errorRef, run.terminalReasonCodes) == Outcome(calls[|calls| - 1].command)
  {
    var init, call := calls[..|calls| - 1], calls[|calls| - 1];
    hide RecordInv, Decide, OutcomeInv;
    ReachableInv(init);
    StepTouchesOneRecord(Exec(init), call);
    if r in Exec(init).records {
      OutcomeIsTheLastCommands(init, r);
      if !call.command.CreateRun? && call.command.runId == r {
        StepRecord(Exec(init), call);
        StepOutcome(Exec(init), call);
      }
    } else {
      QueuedHasNoOutcome(call);
    }
  }

  lemma QueuedHasNoOutcome(call: Call)
    requires call.command.CreateRun?
    ensures OutcomeInv(QueuedRecord(call.command.binding, call.env))
  {
  }

  lemma StepOutcome(w: World, call: Call)
    requires WorldInv(w) && !call.command.CreateRun? && call.command.runId in w.records
    requires OutcomeInv(w.records[call.command.runId])
    ensures var r, after := call.command.runId, Step(w, call).0;
            && r in after.records && OutcomeInv(after.records[r])
            && (after.records[r] != w.records[r] && after.records[r].phase == Terminal ==>
                  (after.records[r].disposition, after.records[r].resultRef, after.records[r].errorRef,
                   after.records[r].terminalReasonCodes) == Outcome(call.command))
  {
    var run := w.records[call.command.runId];
    hide Decide, OutcomeInv, RecordInv;
    DecideAdvances(run, call.command, call.env);
    var decision := Decide(run, call.command, call.env);
    if decision.Ok? && decision.value.Write? {
      DecideOutcome(run, call.command, call.env);
    }
  }

  // ---------------------------------------------------------------------
  // Attempts
  // ---------------------------------------------------------------------

  /** An accepted acquire that starts a retry: the run is retrying and nobody holds it. */
  predicate RetryAcquired(w: World, call: Call, r: RunId) {
    AcquiredOn(w, call, r) && r in w.records && w.records[r].phase == Retrying && w.records[r].lease == None
  }

  function RetriesAcquired(calls: seq<Call>, r: RunId): nat {
    if calls == [] then 0
    else
      var init := calls[..|calls| - 1];
      RetriesAcquired(init, r) + Bit(RetryAcquired(Exec(init), calls[|calls| - 1], r))
  }

  lemma DecideAttempt(run: RunRecord, command: Command, env: Env)
    requires RecordInv(run) && !command.CreateRun? && Decide(run, command, env).Ok?
    ensures Decide(run, command, env).value.record.attempt ==
            run.attempt + Bit(command.AcquireLease? && run.phase == Retrying && run.lease == None)
  {
  }

  /** The attempt number is one more than the retries that were picked up by a new holder. */
  lemma {:induction false} AttemptCountsRetries(calls: seq<Call>, r: RunId)
    ensures if r in Exec(calls).records then Exec(calls).records[r].attempt == 1 + RetriesAcquired(calls, r)
            else RetriesAcquired(calls, r) == 0
  {
    if calls != [] {
      var init, call := calls[..|calls| - 1], calls[|calls| - 1];
      AttemptCountsRetries(init, r);
      ReachableInv(init);
      StepAttempt(Exec(init), call, r);
      hide Step;
    }
  }

  lemma StepAttempt(w: World, call: Call, r: RunId)
    requires WorldInv(w)
    ensures var after := Step(w, call).0;
            && (r in w.records ==>
                  r in after.records
                  && after.records[r].attempt == w.records[r].attempt + Bit(RetryAcquired(w, call, r)))
            && (r !in w.records ==> !RetryAcquired(w, call, r) && (r in after.records ==> after.records[r].attempt == 1))
  {
    hide Decide, RecordInv;
    if !call.command.CreateRun? && call.command.runId in w.records {
      StepRecord(w, call);
      if Decide(w.records[call.command.runId], call.command, call.env).Ok? {
        DecideAttempt(w.records[call.command.runId], call.command, call.env);
      }
    }
  }

  // ---------------------------------------------------------------------
  // Lease windows
  // ---------------------------------------------------------------------

  predicate Renews(command: Command) {
    command.AcquireLease? || command.Heartbeat?
  }

  lemma DecideRenewal(run: RunRecord, command: Command, env: Env)
    requires RecordInv(run) && Renews(command) && Decide(run, command, env).Ok?
    ensures var lease := Decide(run, command, env).value.record.lease;
            lease.Some? && forall t | t >= env.now :: lease.value.HeldAt(t) <==> t < env.now + LEASE_SECONDS
  {
  }

  /**
   * An accepted acquire or heartbeat makes the lease last exactly `LEASE_SECONDS` from that moment:
   * a heartbeat on it is accepted before then, whenever it comes, and refused from then on.
   */
  lemma RenewedLeaseLastsExactly(w: World, call: Call, later: Call)
    requires WorldInv(w) && Renews(call.command) && Step(w, call).1.Ok?
    requires var after := Step(w, call).0;
             && later.command.Heartbeat? && later.command.runId == call.command.runId
             && HoldsLease(after, later.command.runId, later.command.leaseId)
             && LeaseOf(after, later.command.runId).value.fencingToken <= later.command.fencingToken
             && later.env.now >= call.env.now
    ensures Step(Step(w, call).0, later).1.Ok? <==> later.env.now < call.env.now + LEASE_SECONDS
  {
    hide Decide, RecordInv, Step;
    assert call.command.runId in w.records by { UnknownRunFails(w, call); }
    StepRenewal(w, call);
    StepKeepsInv(w, call);
    CommandsSucceedExactly(Step(w, call).0, later);
  }

  lemma UnknownRunFails(w: World, call: Call)
    requires !call.command.CreateRun? && Step(w, call).1.Ok?
    ensures call.command.runId in w.records
  {
  }

  lemma StepRenewal(w: World, call: Call)
    requires WorldInv(w) && Renews(call.command) && call.command.runId in w.records && Step(w, call).1.Ok?
    ensures var lease := LeaseOf(Step(w, call).0, call.command.runId);
            lease.Some? && forall t | t >= call.env.now :: lease.value.HeldAt(t) <==> t < call.env.now + LEASE_SECONDS
  {
    hide Decide, RecordInv, Step;
    StepRecord(w, call);
    DecideRenewal(w.records[call.command.runId], call.command, call.env);
  }

  // ---------------------------------------------------------------------
  // The rest of the projection
  // ---------------------------------------------------------------------

  /** The summary shows the run's task, and while the run waits, what it waits for. */
  ghost predicate Shown(run: RunRecord, events: seq<Event>) {
    && Summary(events).taskId == Some(run.binding.taskId)
    && (run.phase == Waiting ==> Summary(events).waitReason == run.waitReason)
  }

  /** What a plan's events change of that. */
  ghost predicate PlanShows(run: RunRecord, plan: Plan)
    requires plan.Write?
  {
    && |plan.events| <= 2
    && (forall e <- plan.events :: e.runId == plan.record.runId && !e.body.RunCreated?)
    && plan.record.binding == run.binding
    && (plan.record.phase == Waiting ==>
          && plan.events != []
          && Last(plan.events).body.WaitRegistered?
          && plan.record.waitReason == Some(Last(plan.events).body.waitReason))
  }

  lemma DecideShows(run: RunRecord, command: Command, env: Env)
    requires RecordInv(run) && !command.CreateRun?
    requires Decide(run, command, env).Ok? && Decide(run, command, env).value.Write?
    ensures PlanShows(run, Decide(run, command, env).value)
  {
    if command.ApplyAdmission? {
      AdmissionShows(run, command.result, env);
    } else {
      hide DecideAdmission;
    }
  }

  lemma AdmissionShows(run: RunRecord, result: ValidAdmission, env: Env)
    requires RecordInv(run)
    requires var d := DecideAdmission(run, result, env); d.Ok? && d.value.Write?
    ensures PlanShows(run, DecideAdmission(run, result, env).value)
  {
  }

  lemma PlanKeepsShown(run: RunRecord, events: seq<Event>, plan: Plan)
    requires Shown(run, events) && plan.Write? && PlanShows(run, plan)
    ensures Shown(plan.record, events + plan.events)
  {
    var added := plan.events;
    if |added| == 1 {
      assert added == [added[0]];
      SummaryAppend(events, added[0]);
    } else if |added| == 2 {
      assert events + added == events + [added[0]] + [added[1]];
      SummaryAppend(events, added[0]);
      SummaryAppend(events + [added[0]], added[1]);
    } else {
      assert events + added == events;
    }
  }

  /** In every history a run's summary names its task, and while the run waits, its wait reason. */
  lemma {:induction false} SummaryShowsTaskAndWait(calls: seq<Call>, r: RunId)
    ensures var w := Exec(calls);
            if r in w.records then Shown(w.records[r], EventsOf(w.outbox, r)) else EventsOf(w.outbox, r) == []
  {
    if calls != [] {
      var init, call := calls[..|calls| - 1], calls[|calls| - 1];
      SummaryShowsTaskAndWait(init, r);
      ReachableInv(init);
      hide Shown, Step, EventsOf;
      StepShows(Exec(init), call, r);
    }
  }

  lemma StepShows(w: World, call: Call, r: RunId)
    requires WorldInv(w)
    requires if r in w.records then Shown(w.records[r], EventsOf(w.outbox, r)) else EventsOf(w.outbox, r) == []
    ensures var after := Step(w, call).0;
            if r in after.records then Shown(after.records[r], EventsOf(after.outbox, r))
            else EventsOf(after.outbox, r) == []
  {
    hide Decide, Shown, EventsOf, RecordInv, PlanShows;
    if call.command.CreateRun? {
      CreateShows(w, call, r);
    } else if call.command.runId in w.records {
      var run := w.records[call.command.runId];
      var decision := Decide(run, call.command, call.env);
      DecideAdvances(run, call.command, call.env);
      if decision.Ok? && decision.value.Write? && Step(w, call).1.Ok? {
        DecideShows(run, call.command, call.env);
        WriteShows(w, Step(w, call).0, run, decision.value, r);
      }
    }
  }

  lemma WriteShows(w: World, after: World, run: RunRecord, plan: Plan, r: RunId)
    requires if r in w.records then Shown(w.records[r], EventsOf(w.outbox, r)) else EventsOf(w.outbox, r) == []
    requires run.runId in w.records && w.records[run.runId] == run
    requires plan.Write? && plan.record.runId == run.runId && PlanShows(run, plan)
    requires after.records == w.records[run.runId := plan.record] && after.outbox == w.outbox + plan.events
    ensures if r in after.records then Shown(after.records[r], EventsOf(after.outbox, r))
            else EventsOf(after.outbox, r) == []
  {
    assert forall e <- plan.events :: e.runId == run.runId;
    hide Shown, PlanShows, EventsOf;
    EventsAllOf(plan.events, run.runId, r);
    EventsOfConcat(w.outbox, plan.events, r);
    var events := EventsOf(w.outbox, r);
    if r == run.runId {
      PlanKeepsShown(run, events, plan);
    } else {
      assert events + [] == events;
    }
  }

  lemma CreateShows(w: World, call: Call, r: RunId)
    requires call.command.CreateRun?
    requires if r in w.records then Shown(w.records[r], EventsOf(w.outbox, r)) else EventsOf(w.outbox, r) == []
    ensures var after := Step(w, call).0;
            if r in after.records then Shown(after.records[r], EventsOf(after.outbox, r))
            else EventsOf(after.outbox, r) == []
  {
    hide Shown, EventsOf, Summary;
    var after := Step(w, call).0;
    if after != w {
      var event := Last(after.outbox);
      assert after.outbox == w.outbox + [event];
      EventsOfNext(w.outbox, event, r);
      if r == call.env.ticket {
        CreationShows(after.records[r], event);
      }
    }
  }

  /** The only event of a new record shows it. */
  lemma CreationShows(record: RunRecord, event: Event)
    requires event == Entry(record, Env(record.updatedAt, record.runId), 0, RunCreated(record.binding.taskId))
    requires record == QueuedRecord(record.binding, Env(record.updatedAt, record.runId))
    ensures Shown(record, [event]) && [] + [event] == [event]
  {
    SummaryAppend([], event);
    assert [] + [event] == [event];
  }
}
