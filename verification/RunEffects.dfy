/** What every run command writes into the record and says to the outbox, field by field. */
module RunEffects {
  import opened Common
  import opened RunObjects
  import opened RunProtocol
  import opened RunHistory
  import opened RunEvents
  import opened RunLeases

  // ---------------------------------------------------------------------
  // The disposition of a run that has ended
  // ---------------------------------------------------------------------

  /** The disposition a command ends a run with. */
  function EndsAs(command: Command): Option<Disposition> {
    match command
    case CommitTerminal(_, disposition, _, _, _) => Some(disposition)
    case Cancel(_) => Some(Cancelled)
    case ApplyAdmission(_, result) => if result.outcome == Rejection then Some(Rejected) else None
    case _ => None
  }

  // ---------------------------------------------------------------------
  // What a waiting run waits for
  // ---------------------------------------------------------------------

  datatype Wait = Wait(reason: WaitReason, refs: seq<string>, origin: Option<WaitOrigin>)

  /** What a command makes a run wait for: what the caller gave, or the deferral of its admission. */
  function WaitsFor(command: Command): Option<Wait> {
    match command
    case RegisterWait(_, reason, refs, origin) => Some(Wait(reason, refs, origin))
    case ApplyAdmission(_, result) =>
      if result.outcome == Deferred then
        Some(Wait(Dependency, if result.validationRefs == [] then ["admission_deferred"] else result.validationRefs,
                  Some(AdmissionDeferred)))
      else None
    case _ => None
  }

  /** The fields of the record after a command that wrote it. */
  ghost predicate FieldsAfter(before: RunRecord, command: Command, env: Env, after: RunRecord) {
    && after.disposition == EndsAs(command)
    && (after.phase == Waiting ==>
          && WaitsFor(command).Some? && after.waitReason == Some(WaitsFor(command).value.reason)
          && after.waitConditionRefs == WaitsFor(command).value.refs && after.waitOrigin == WaitsFor(command).value.origin)
    && after.updatedAt == env.now
    && LeaseAfter(before.lease, command, env, after.lease)
  }

  /** A lease is taken for its caller, renewed, kept as it was, or dropped. */
  ghost predicate LeaseAfter(before: Option<RunLease>, command: Command, env: Env, after: Option<RunLease>) {
    match command
    case AcquireLease(_, holderId) =>
      && after.Some? && after.value.holderId == holderId && after.value.leaseId == env.ticket
      && after.value.acquiredAt == after.value.heartbeatAt == env.now && after.value.expiresAt == env.now + 120
    case Heartbeat(_, _, _) =>
      && before.Some? && after == Some(before.value.(heartbeatAt := env.now, expiresAt := env.now + 120))
    case _ => after == None || after == before
  }

  lemma DecideFields(run: RunRecord, command: Command, env: Env)
    requires RecordInv(run) && !command.CreateRun?
    requires Decide(run, command, env).Ok? && Decide(run, command, env).value.Write?
    ensures FieldsAfter(run, command, env, Decide(run, command, env).value.record)
  {
    if command.ApplyAdmission? {
      AdmissionFields(run, command.result, env);
    } else if command.Cancel? || command.CommitTerminal? {
      hide DecideAdmission, DecideTransition, DecideWait, DecideAcquire, DecideHeartbeat, Entry;
    } else if command.AcquireLease? || command.Heartbeat? || command.RegisterWait? {
      hide DecideAdmission, DecideTransition, DecideTerminal, Entry;
    } else {
      hide DecideAdmission, DecideTerminal, DecideWait, DecideAcquire, DecideHeartbeat, Entry;
    }
  }

  lemma AdmissionFields(run: RunRecord, result: ValidAdmission, env: Env)
    requires RecordInv(run)
    requires var d := DecideAdmission(run, result, env); d.Ok? && d.value.Write?
    ensures FieldsAfter(run, ApplyAdmission(run.runId, result), env, DecideAdmission(run, result, env).value.record)
  {
    hide Entry;
  }

  // ---------------------------------------------------------------------
  // What the outbox is told
  // ---------------------------------------------------------------------

  /** The announcements of an accepted command, in order. */
  function Announces(run: RunRecord, command: Command): seq<EventBody> {
    match command
    case CreateRun(binding) => [RunCreated(binding.taskId)]
    case BeginAdmission(_) => [PhaseChanged(Queued, Admitting, ["admission_started"])]
    case ApplyAdmission(_, result) =>
      (match result.outcome
       case Admitted => [RunAdmitted(result.resultId), PhaseChanged(Admitting, Running, result.reasonCodes)]
       case Deferred =>
         [PhaseChanged(Admitting, Terminal, result.reasonCodes),
          WaitRegistered(Dependency, if result.validationRefs == [] then ["admission_deferred"] else result.validationRefs)]
       case Rejection =>
         [PhaseChanged(Admitting, Terminal, result.reasonCodes), TerminalCommitted(Rejected, result.reasonCodes)])
    case AcquireLease(_, _) => [PhaseChanged(run.phase, run.phase, ["lease_acquired"])]
    case Heartbeat(_, _, _) => []
    case RegisterWait(_, reason, refs, _) => [WaitRegistered(reason, refs)]
    case Resume(_, _, signalRef) => [RunResumed(run.phase, signalRef)]
    case ScheduleRetry(_, failureRef) => [RetryScheduled(run.attempt, failureRef)]
    case Pause(_, reasons) => [RunPaused(reasons)]
    case Cancel(_) => [TerminalCommitted(Cancelled, ["cancelled_by_actor"])]
    case CommitTerminal(_, disposition, reasons, _, _) => [TerminalCommitted(disposition, reasons)]
  }

  /** The events carry these announcements; the last one the new revision, an earlier one the old. */
  ghost predicate Announced(run: RunRecord, command: Command, env: Env, revision: int, events: seq<Event>) {
    && |events| == |Announces(run, command)|
    && forall i | 0 <= i < |events| ::
         && events[i].body == Announces(run, command)[i] && events[i].runId == run.runId
         && events[i].eventId == EventId(env.ticket, i) && events[i].sequence == run.sequence + 1
         && events[i].aggregateVersion == if i == |events| - 1 then revision else run.revision
  }

  lemma DecideAnnounces(run: RunRecord, command: Command, env: Env)
    requires RecordInv(run) && !command.CreateRun?
    requires Decide(run, command, env).Ok? && Decide(run, command, env).value.Write?
    ensures var plan := Decide(run, command, env).value;
            Announced(run, command, env, plan.record.revision, plan.events)
  {
    hide RecordInv;
    if command.ApplyAdmission? {
      AdmissionAnnounces(run, command, env);
    } else if command.Cancel? || command.CommitTerminal? || command.RegisterWait? {
      EndAnnounces(run, command, env);
    } else if command.AcquireLease? || command.Heartbeat? {
      hide DecideAdmission, DecideTransition, DecideTerminal, DecideWait;
    } else {
      TransitionAnnounces(run, command, env);
    }
  }

  lemma EndAnnounces(run: RunRecord, command: Command, env: Env)
    requires command.Cancel? || command.CommitTerminal? || command.RegisterWait?
    requires Decide(run, command, env).Ok? && Decide(run, command, env).value.Write?
    ensures var plan := Decide(run, command, env).value;
            Announced(run, command, env, plan.record.revision, plan.events)
  {
    hide DecideAdmission, DecideTransition, DecideAcquire, DecideHeartbeat;
    var plan := Decide(run, command, env).value;
    assert plan.events == [plan.events[0]];
  }

  lemma TransitionAnnounces(run: RunRecord, command: Command, env: Env)
    requires command.BeginAdmission? || command.Resume? || command.ScheduleRetry? || command.Pause?
    requires RecordInv(run) && Decide(run, command, env).Ok? && Decide(run, command, env).value.Write?
    ensures var plan := Decide(run, command, env).value;
            Announced(run, command, env, plan.record.revision, plan.events)
  {
    hide DecideAdmission, DecideTerminal, DecideWait, DecideAcquire, DecideHeartbeat, RecordInv;
    var plan := Decide(run, command, env).value;
    assert plan.events == [plan.events[0]];
  }

  lemma AdmissionAnnounces(run: RunRecord, command: Command, env: Env)
    requires command.ApplyAdmission?
    requires Decide(run, command, env).Ok? && Decide(run, command, env).value.Write?
    ensures var plan := Decide(run, command, env).value;
            Announced(run, command, env, plan.record.revision, plan.events)
  {
    hide DecideAcquire, DecideHeartbeat;
  }

  // ---------------------------------------------------------------------
  // One step
  // ---------------------------------------------------------------------

  /** An accepted command that is no replay writes these fields, and tells the outbox this and nothing else. */
  lemma StepEffects(w: World, call: Call)
    requires WorldInv(w) && !call.command.CreateRun? && call.command.runId in w.records
    requires Step(w, call).1.Ok? && w.records[call.command.runId].phase != Terminal
    ensures var (after, result) := Step(w, call);
            var r := call.command.runId;
            && r in after.records && result == Ok(after.records[r])
            && FieldsAfter(w.records[r], call.command, call.env, after.records[r])
            && |w.outbox| <= |after.outbox| && after.outbox[..|w.outbox|] == w.outbox
            && Announced(w.records[r], call.command, call.env, after.records[r].revision, after.outbox[|w.outbox|..])
  {
    var run := w.records[call.command.runId];
    hide Decide, RecordInv, FieldsAfter, Announced;
    DecideAdvances(run, call.command, call.env);
    DecideFields(run, call.command, call.env);
    DecideAnnounces(run, call.command, call.env);
  }

  /** An accepted admission is kept with its result; no other command touches the results or the tasks. */
  lemma ResultsKeptExactly(w: World, call: Call)
    requires WorldInv(w) && !call.command.CreateRun?
    ensures var after := Step(w, call).0;
            && after.tasks == w.tasks
            && after.admissions ==
               if call.command.ApplyAdmission? && Step(w, call).1.Ok?
               then w.admissions[call.command.result.resultId := call.command.result] else w.admissions
  {
    hide Decide, RecordInv, Accepts, PhaseAfter;
    if call.command.runId in w.records {
      DecideAdvances(w.records[call.command.runId], call.command, call.env);
      DecideAccepts(w.records[call.command.runId], call.command, call.env);
    }
  }

  /** Creating a run needs a new task; the run starts queued at revision 1, and its creation is announced. */
  lemma CreationEffects(w: World, binding: Binding, env: Env)
    requires WorldInv(w)
    ensures var (after, result) := Step(w, Call(CreateRun(binding), env));
            && (result == Err(TaskExists) <==> binding.taskId in w.tasks)
            && (result == Err(RunExists) <==> binding.taskId !in w.tasks && env.ticket in w.records)
            && (result.Err? <==> binding.taskId in w.tasks || env.ticket in w.records) && (result.Err? ==> after == w)
            && (result.Ok? ==>
                  var run := result.value;
                  && run.runId == env.ticket && run.binding == binding && run.phase == Queued && run.revision == 1
                  && run.attempt == 1 && run.sequence == 0 && run.pendingActionRefs == [] && run.updatedAt == env.now
                  && run.disposition == None && run.waitReason == None && run.waitOrigin == None && run.lease == None
                  && run.waitConditionRefs == [] && run.resultRef == None && run.errorRef == None && run.terminalReasonCodes == []
                  && after.records == w.records[env.ticket := run] && after.admissions == w.admissions
                  && after.tasks == w.tasks[binding.taskId := TaskState(binding.taskId, 1)]
                  && after.outbox == w.outbox + [Event(EventId(env.ticket, 0), env.ticket, 1, 1, RunCreated(binding.taskId))])
  {
  }

  // ---------------------------------------------------------------------
  // Refusals
  // ---------------------------------------------------------------------

  /** The error a stored run answers a command with, if it refuses it. */
  function Refusal(run: RunRecord, command: Command, env: Env): Option<RunError>
    requires !command.CreateRun?
  {
    match command
    case BeginAdmission(_) => if run.phase in {Queued, Waiting, Paused} then None else Some(InvalidTransition(run.phase, Admitting))
    case ApplyAdmission(_, result) =>
      if run.phase != Admitting then Some(InvalidTransition(run.phase, Running))
      else if env.now >= result.expiresAt then Some(ExpiredResult)
      else None
    case AcquireLease(_, holderId) =>
      if run.phase !in {Admitting, Running, Retrying} then Some(LeaseNeedsExecutingPhase)
      else if holderId == "" then Some(InvalidLease)
      else None
    case Heartbeat(_, leaseId, fencingToken) =>
      if run.lease == None then Some(NoActiveLease)
      else if run.lease.value.leaseId != leaseId then Some(LeaseMismatch)
      else if run.lease.value.fencingToken > fencingToken then Some(StaleFencing)
      else if env.now < run.lease.value.acquiredAt || run.lease.value.expiresAt <= env.now then Some(LeaseExpired)
      else None
    case RegisterWait(_, _, refs, _) =>
      if run.phase !in {Admitting, Running, Retrying} then Some(InvalidTransition(run.phase, Waiting))
      else if refs == [] then Some(InvalidRecord)
      else None
    case Resume(_, to, _) =>
      if to == Terminal && run.phase != Terminal then Some(InvalidRecord)
      else if run.phase !in Origins(to) then Some(InvalidTransition(run.phase, to))
      else if to == Waiting then Some(InvalidRecord)
      else None
    case ScheduleRetry(_, _) => if run.phase in {Running, Waiting} then None else Some(InvalidTransition(run.phase, Retrying))
    case Pause(_, _) => if run.phase in {Running, Waiting, Retrying} then None else Some(InvalidTransition(run.phase, Paused))
    case Cancel(_) => if run.phase == Waiting then Some(InvalidRecord) else None
    case CommitTerminal(_, disposition, reasons, _, _) =>
      if run.phase == Terminal then
        if run.disposition == Some(disposition) then None else Some(TerminalConflict)
      else if disposition == Completed && run.phase in {Queued, Admitting, Paused} then Some(NotExecuted)
      else if run.phase == Waiting || reasons == [] then Some(InvalidRecord)
      else None
  }

  /** Every refusal carries the error of the first check that fails, and nothing else is refused. */
  lemma RefusesExactly(run: RunRecord, command: Command, env: Env)
    requires RecordInv(run) && !command.CreateRun?
    ensures Decide(run, command, env).Err? <==> Refusal(run, command, env).Some?
    ensures Decide(run, command, env).Err? ==> Refusal(run, command, env) == Some(Decide(run, command, env).error)
  {
    hide DecideTransition, DecideWait, DecideTerminal, DecideAcquire, DecideHeartbeat, DecideAdmission, Entry;
    if command.AcquireLease? || command.Heartbeat? {
      LeaseRefuses(run, command, env);
    } else if command.Cancel? || command.CommitTerminal? || command.RegisterWait? {
      EndRefuses(run, command, env);
    } else if command.ApplyAdmission? {
      hide RecordInv;
      AdmissionRefuses(run, command.result, env);
    } else {
      TransitionRefuses(run, command, env);
    }
  }

  lemma TransitionRefuses(run: RunRecord, command: Command, env: Env)
    requires RecordInv(run)
    requires command.BeginAdmission? || command.Resume? || command.ScheduleRetry? || command.Pause?
    ensures Decide(run, command, env).Err? <==> Refusal(run, command, env).Some?
    ensures Decide(run, command, env).Err? ==> Refusal(run, command, env) == Some(Decide(run, command, env).error)
  {
    hide DecideWait, DecideTerminal, DecideAcquire, DecideHeartbeat, DecideAdmission, Entry;
  }

  lemma LeaseRefuses(run: RunRecord, command: Command, env: Env)
    requires RecordInv(run) && (command.AcquireLease? || command.Heartbeat?)
    ensures Decide(run, command, env).Err? <==> Refusal(run, command, env).Some?
    ensures Decide(run, command, env).Err? ==> Refusal(run, command, env) == Some(Decide(run, command, env).error)
  {
    hide DecideTransition, DecideWait, DecideTerminal, DecideAdmission, Entry;
  }

  lemma EndRefuses(run: RunRecord, command: Command, env: Env)
    requires RecordInv(run) && (command.Cancel? || command.CommitTerminal? || command.RegisterWait?)
    ensures Decide(run, command, env).Err? <==> Refusal(run, command, env).Some?
    ensures Decide(run, command, env).Err? ==> Refusal(run, command, env) == Some(Decide(run, command, env).error)
  {
    hide DecideTransition, DecideAcquire, DecideHeartbeat, DecideAdmission, Entry;
  }

  lemma AdmissionRefuses(run: RunRecord, result: ValidAdmission, env: Env)
    requires RecordInv(run)
    ensures var d := DecideAdmission(run, result, env);
            && (d.Ok? <==> run.phase == Admitting && env.now < result.expiresAt)
            && (run.phase != Admitting ==> d == Err(InvalidTransition(run.phase, Running)))
            && (run.phase == Admitting && env.now >= result.expiresAt ==> d == Err(ExpiredResult))
  {
    AdmissionAccepts(run, result, env);
    hide DecideTransition, DecideWait, DecideTerminal, RecordInv;
  }

  /** A step is refused for an unknown run, by the run's own refusal, or for an admission result used before. */
  lemma StepRefusesExactly(w: World, call: Call)
    requires WorldInv(w) && !call.command.CreateRun?
    ensures var result, r := Step(w, call).1, call.command.runId;
            && (result.Err? ==> Step(w, call).0 == w)
            && (r !in w.records ==> result == Err(NotFound))
            && (r in w.records ==>
                  var refusal := Refusal(w.records[r], call.command, call.env);
                  && (refusal.Some? ==> result == Err(refusal.value))
                  && (refusal == None ==>
                        if call.command.ApplyAdmission? && call.command.result.resultId in w.admissions
                        then result == Err(DuplicateResult) else result.Ok?))
  {
    hide Decide, RecordInv, Refusal;
    if call.command.runId in w.records {
      RefusesExactly(w.records[call.command.runId], call.command, call.env);
      DecideAdvances(w.records[call.command.runId], call.command, call.env);
      DecideAccepts(w.records[call.command.runId], call.command, call.env);
    }
  }

  /** Unsettled actions keep a running run from being cancelled and an executed one from completing, and block nothing else. */
  lemma PendingActionsBlock(run: RunRecord, command: Command, env: Env)
    requires !command.CreateRun?
    ensures Decide(run, command, env) == Err(InFlightActions) <==>
            command.Cancel? && run.phase == Running && |run.pendingActionRefs| > 0
    ensures Decide(run, command, env) == Err(UnresolvedActions) <==>
            && command.CommitTerminal? && command.disposition == Completed && |run.pendingActionRefs| > 0
            && run.phase in {Running, Waiting, Retrying}
  {
    if command.ApplyAdmission? {
      hide Entry, DecideAcquire, DecideHeartbeat;
    } else {
      hide Entry, DecideAdmission;
    }
  }

  // ---------------------------------------------------------------------
  // Over histories
  // ---------------------------------------------------------------------

  /**
   * In every history the record of a run, once it has changed at all, is what the last command that
   * changed it wrote: an ended run carries the disposition that command asked for, a waiting run the
   * reason, the references and the origin, a leased run the holder and the moments.
   */
  lemma {:induction false} LastWriterDecides(calls: seq<Call>, r: RunId) returns (i: nat)
    requires r in Exec(calls).records && Exec(calls).records[r].revision > 1
    ensures i < |calls| && !calls[i].command.CreateRun? && calls[i].command.runId == r
    ensures r in Exec(calls[..i]).records && r in Exec(calls[..i + 1]).records
    ensures Exec(calls[..i]).records[r].revision + 1 == Exec(calls).records[r].revision
    ensures Exec(calls[..i + 1]).records[r] == Exec(calls).records[r]
    ensures FieldsAfter(Exec(calls[..i]).records[r], calls[i].command, calls[i].env, Exec(calls).records[r])
  {
    hide Step, FieldsAfter;
    var init, call := calls[..|calls| - 1], calls[|calls| - 1];
    ReachableInv(init);
    NextRevision(Exec(init), call, r);
    StepTouchesOneRecord(Exec(init), call);
    if r in Exec(init).records && Exec(init).records[r] == Exec(calls).records[r] {
      i := LastWriterDecides(init, r);
      assert init[..i] == calls[..i] && init[..i + 1] == calls[..i + 1];
    } else {
      i := |init|;
      assert calls[..i + 1] == calls;
      LastWrites(Exec(init), call, r);
    }
  }

  lemma LastWrites(w: World, call: Call, r: RunId)
    requires WorldInv(w) && r in w.records && !call.command.CreateRun? && call.command.runId == r
    requires r in Step(w, call).0.records && Step(w, call).0.records[r] != w.records[r]
    ensures FieldsAfter(w.records[r], call.command, call.env, Step(w, call).0.records[r])
  {
    hide FieldsAfter, Decide, RecordInv;
    StepTouchesOneRecord(w, call);
    var decision := Decide(w.records[r], call.command, call.env);
    DecideAdvances(w.records[r], call.command, call.env);
    assert decision.Ok? && decision.value.Write?;
    hide Step;
    StepEffects(w, call);
  }

  /**
   * Whatever happens after a run was ended by a terminal commit, committing the same disposition
   * again returns the stored record and changes nothing, and any other disposition is a conflict.
   */
  lemma CommitTerminalIsReplayed(calls: seq<Call>, call: Call, more: seq<Call>, again: Call)
    requires var w := Exec(calls);
             && call.command.CommitTerminal? && call.command.runId in w.records
             && w.records[call.command.runId].phase != Terminal && Step(w, call).1.Ok?
    requires again.command.CommitTerminal? && again.command.runId == call.command.runId
    ensures var w, ended := Exec(calls + [call] + more), Step(Exec(calls), call).1.value;
            Step(w, again) ==
            (w, if again.command.disposition == call.command.disposition then Ok(ended) else Err(TerminalConflict))
  {
    var r, before, after, w := call.command.runId, Exec(calls), Exec(calls + [call]), Exec(calls + [call] + more);
    hide Step, FieldsAfter, Announced, Exec, RecordInv;
    ReachableInv(calls);
    ReachableInv(calls + [call] + more);
    ExecAppend(calls, call);
    StepEffects(before, call);
    EndedWithDisposition(before, call);
    assert after.records[r].phase == Terminal && after.records[r].disposition == Some(call.command.disposition);
    RecordsOnlyAdvance(calls + [call] + more, |calls + [call]|, r);
    assert (calls + [call] + more)[..|calls + [call]|] == calls + [call];
    TerminalReplayIsNoOp(w, again);
  }

  lemma EndedWithDisposition(w: World, call: Call)
    requires WorldInv(w) && call.command.CommitTerminal? && call.command.runId in w.records
    requires w.records[call.command.runId].phase != Terminal && Step(w, call).1.Ok?
    ensures var after := Step(w, call).0; var r := call.command.runId;
            && r in after.records && after.records[r].phase == Terminal
            && after.records[r].disposition == Some(call.command.disposition)
  {
    hide Step, RecordInv;
    StepEffects(w, call);
    CommandsSucceedExactly(w, call);
  }

  // ---------------------------------------------------------------------
  // The attempt a summary shows
  // ---------------------------------------------------------------------

  /** The attempt at which the last accepted retry was scheduled. */
  function RetriedAt(calls: seq<Call>, r: RunId): Option<int> {
    if calls == [] then None
    else
      var init, call := calls[..|calls| - 1], calls[|calls| - 1];
      var w := Exec(init);
      if call.command.ScheduleRetry? && call.command.runId == r && r in w.records && Step(w, call).1.Ok?
      then Some(w.records[r].attempt) else RetriedAt(init, r)
  }

  lemma {:induction false} AttemptFolds(events: seq<Event>, added: seq<Event>)
    ensures (forall e <- added :: !e.body.RetryScheduled?) ==>
              Summary(events + added).attempt == Summary(events).attempt
    ensures |added| == 1 && added[0].body.RetryScheduled? ==>
              Summary(events + added).attempt == Some(added[0].body.attempt)
  {
    if added == [] {
      assert events + added == events;
    } else {
      var init, last := added[..|added| - 1], added[|added| - 1];
      AttemptFolds(events, init);
      assert events + added == events + init + [last] && added == init + [last];
      SummaryAppend(events + init, last);
    }
  }

  lemma AnnouncedAttempt(run: RunRecord, command: Command, env: Env, revision: int, events: seq<Event>)
    requires Announced(run, command, env, revision, events) && !command.CreateRun?
    ensures command.ScheduleRetry? ==> |events| == 1 && events[0].body == RetryScheduled(run.attempt, command.failureRef)
    ensures !command.ScheduleRetry? ==> forall e <- events :: !e.body.RetryScheduled?
    ensures forall e <- events :: e.runId == run.runId
  {
  }

  lemma StepShowsAttempt(w: World, call: Call, r: RunId)
    requires WorldInv(w) && !call.command.CreateRun?
    ensures Summary(EventsOf(Step(w, call).0.outbox, r)).attempt ==
            if call.command.ScheduleRetry? && call.command.runId == r && r in w.records && Step(w, call).1.Ok?
            then Some(w.records[r].attempt) else Summary(EventsOf(w.outbox, r)).attempt
  {
    hide Step, RecordInv, Announced, FieldsAfter, EventsOf, Summary, Refusal;
    var after, result, owner := Step(w, call).0, Step(w, call).1, call.command.runId;
    StepRefusesExactly(w, call);
    if result.Ok? {
      var run := w.records[owner];
      if run.phase == Terminal {
        TerminalIsKept(w, call);
      } else {
        StepEffects(w, call);
        var added := after.outbox[|w.outbox|..];
        AnnouncedAttempt(run, call.command, call.env, after.records[owner].revision, added);
        assert after.outbox == w.outbox + added;
        EventsOfConcat(w.outbox, added, r);
        EventsAllOf(added, owner, r);
        AttemptFolds(EventsOf(w.outbox, r), EventsOf(added, r));
      }
    }
  }

  lemma TerminalIsKept(w: World, call: Call)
    requires WorldInv(w) && !call.command.CreateRun? && call.command.runId in w.records
    requires w.records[call.command.runId].phase == Terminal && Step(w, call).1.Ok?
    ensures Step(w, call).0 == w && !call.command.ScheduleRetry?
  {
    hide Decide, RecordInv;
    DecideAdvances(w.records[call.command.runId], call.command, call.env);
  }

  /** In every history a run's summary shows the attempt at which its last retry was scheduled. */
  lemma {:induction false} SummaryShowsAttempt(calls: seq<Call>, r: RunId)
    ensures Summary(EventsOf(Exec(calls).outbox, r)).attempt == RetriedAt(calls, r)
  {
    hide Step, EventsOf, Summary;
    if calls == [] {
      NoEvents(r);
    } else {
      var init, call := calls[..|calls| - 1], calls[|calls| - 1];
      SummaryShowsAttempt(init, r);
      ReachableInv(init);
      if call.command.CreateRun? {
        CreationShowsNoAttempt(Exec(init), call, r);
      } else {
        StepShowsAttempt(Exec(init), call, r);
      }
    }
  }

  lemma NoEvents(r: RunId)
    ensures Summary(EventsOf(Exec([]).outbox, r)).attempt == None
  {
    assert EventsOf([], r) == [] && Summary([]) == NO_SUMMARY;
  }

  lemma CreationShowsNoAttempt(w: World, call: Call, r: RunId)
    requires WorldInv(w) && call.command.CreateRun?
    ensures Summary(EventsOf(Step(w, call).0.outbox, r)).attempt == Summary(EventsOf(w.outbox, r)).attempt
  {
    CreationEffects(w, call.command.binding, call.env);
    hide Step, EventsOf, Summary;
    var after := Step(w, call).0;
    if after != w {
      var event := after.outbox[|w.outbox|];
      assert after.outbox == w.outbox + [event];
      EventsOfNext(w.outbox, event, r);
      if event.runId == r {
        AttemptFolds(EventsOf(w.outbox, r), [event]);
      }
    }
  }
}
