/** The coordinator, command by command, proved to perform the steps of the protocol. */
module RunCoordinator {
  import opened Common
  import opened RunObjects
  import opened RunProtocol
  import opened RunHistory
  import opened RunRepositories
  import opened Outbox

  /** A command's step, from the decision it took and what it did. */
  lemma StepPerformed(w: World, call: Call, after: World, result: Result<RunRecord, RunError>)
    requires !call.command.CreateRun?
    requires if call.command.runId !in w.records then after == w && result == Err(NotFound)
             else Did(w, Decide(w.records[call.command.runId], call.command, call.env), after, result)
    ensures after == Step(w, call).0 && result == Step(w, call).1
  {
    hide Decide;
  }

  /** The effect of a decision that records no admission result. */
  ghost predicate Did(before: World, decision: Result<Plan, RunError>, after: World, result: Result<RunRecord, RunError>) {
    match decision
    case Err(error) => result == Err(error) && after == before
    case Ok(plan) =>
      && (plan.Write? ==> plan.admission == None)
      && after == Commit(before, plan).0
      && result == Ok(plan.record)
  }

  /** What a command may rely on when it starts. */
  lemma Prepare(w: World, call: Call)
    requires WorldInv(w) && !call.command.CreateRun?
    ensures WorldInv(Step(w, call).0) && Step(w, call).0.records.Keys == w.records.Keys
    ensures call.command.runId in w.records ==>
              w.records[call.command.runId].runId == call.command.runId && RecordInv(w.records[call.command.runId])
  {
    StepKeepsInv(w, call);
    hide Decide, RecordInv;
    if call.command.runId in w.records {
      DecideAdvances(w.records[call.command.runId], call.command, call.env);
    }
  }

  /** The last step of an admission, decided without what was already written before it. */
  function LastStep(run: RunRecord, admission: ValidAdmission, env: Env): Result<Plan, RunError> {
    match admission.outcome
    case Admitted =>
      DecideTransition(run, Running, false, env, 1, [], None, PhaseChanged(Admitting, Running, admission.reasonCodes))
    case Deferred =>
      var refs := if admission.validationRefs != [] then admission.validationRefs else ["admission_deferred"];
      DecideWait(run, Dependency, refs, Some(AdmissionDeferred), env, 1, [], None)
    case Rejection =>
      DecideTerminal(run, Rejected, admission.reasonCodes, None, None, env, 1, [], None)
  }

  function FirstEvent(run: RunRecord, admission: ValidAdmission, env: Env): Event {
    Entry(run, env, 0,
          if admission.outcome == Admitted then RunAdmitted(admission.resultId)
          else PhaseChanged(Admitting, Terminal, admission.reasonCodes))
  }

  lemma LastStepCompletes(run: RunRecord, admission: ValidAdmission, env: Env)
    requires RecordInv(run) && run.phase == Admitting && env.now < admission.expiresAt
    ensures var last, whole := LastStep(run, admission, env), DecideAdmission(run, admission, env);
            && last.Ok? && last.value.Write? && last.value.admission == None
            && |last.value.events| == 1
            && whole == Ok(Write(last.value.record, [FirstEvent(run, admission, env)] + [last.value.events[0]], Some(admission)))
  {
    match admission.outcome
    case Admitted => hide DecideWait, DecideTerminal;
    case Deferred => hide DecideTransition, DecideTerminal;
    case Rejection => hide DecideTransition, DecideWait;
  }

  lemma AdmissionRefused(w: World, command: Command, env: Env)
    requires command.ApplyAdmission?
    requires command.runId in w.records ==> RecordInv(w.records[command.runId])
    ensures var outcome, result := Step(w, Call(command, env)), command.result;
            if command.runId !in w.records then outcome == (w, Err(NotFound))
            else
              var run := w.records[command.runId];
              && (run.phase != Admitting ==> outcome == (w, Err(InvalidTransition(run.phase, Running))))
              && (run.phase == Admitting && env.now >= result.expiresAt ==> outcome == (w, Err(ExpiredResult)))
              && (run.phase == Admitting && env.now < result.expiresAt && result.resultId in w.admissions ==>
                    outcome == (w, Err(DuplicateResult)))
  {
    if command.runId in w.records && w.records[command.runId].phase == Admitting && env.now < command.result.expiresAt {
      LastStepCompletes(w.records[command.runId], command.result, env);
    }
    hide DecideTransition, DecideWait, DecideTerminal, RecordInv;
  }

  /** Writing the result and the first event, and then the last step, is the whole admission. */
  lemma AdmissionPerformed(w: World, mid: World, admission: ValidAdmission, call: Call)
    requires call.command.ApplyAdmission? && call.command.result == admission && call.command.runId in w.records
    requires var run := w.records[call.command.runId];
             && RecordInv(run) && run.phase == Admitting && call.env.now < admission.expiresAt
             && mid == w.(admissions := w.admissions[admission.resultId := admission],
                          outbox := w.outbox + [FirstEvent(run, admission, call.env)])
    requires admission.resultId !in w.admissions
    ensures var last := LastStep(w.records[call.command.runId], admission, call.env);
            last.Ok? && Step(w, call) == (Commit(mid, last.value).0, Ok(last.value.record))
  {
    var run := w.records[call.command.runId];
    LastStepCompletes(run, admission, call.env);
    assert Decide(run, call.command, call.env) == DecideAdmission(run, admission, call.env);
    hide Decide, DecideAdmission, LastStep, FirstEvent;
    var last := LastStep(run, admission, call.env).value;
    var first := FirstEvent(run, admission, call.env);
    assert w.outbox + ([first] + [last.events[0]]) == w.outbox + [first] + last.events;
  }

  class RunCoordinator {
    const runs: InMemoryRunRecordRepository
    const tasks: InMemoryTaskStateRepository
    const admissions: InMemoryAdmissionResultRepository
    const outbox: InMemoryOutboxStore
    const ids: IdSource

    constructor (outbox: InMemoryOutboxStore)
      requires outbox.Valid() && outbox.entries == []
      ensures Valid() && View() == EMPTY_WORLD && this.outbox == outbox && ids.next == 0
      ensures fresh(runs) && fresh(tasks) && fresh(admissions) && fresh(ids)
    {
      this.outbox := outbox;
      runs := new InMemoryRunRecordRepository();
      tasks := new InMemoryTaskStateRepository();
      admissions := new InMemoryAdmissionResultRepository();
      ids := new IdSource();
    }

    /** The authoritative state. */
    ghost function View(): World
      reads runs, tasks, admissions, outbox
    {
      World(runs.records, tasks.states, admissions.results, outbox.entries)
    }

    /** Event ids in use were drawn before this ticket, or by it in an earlier draw. */
    ghost predicate Undrawn(ticket: nat, draw: nat)
      reads outbox
    {
      forall e <- outbox.entries ::
        e.eventId.ticket < ticket || (e.eventId.ticket == ticket && e.eventId.draw < draw)
    }

    ghost predicate Valid()
      reads runs, tasks, admissions, outbox, ids
    {
      && outbox.Valid() && WorldInv(View())
      && Undrawn(ids.next, 0) && forall r <- runs.records :: r < ids.next
    }

    lemma NextTicket(ticket: nat, draw: nat)
      requires Undrawn(ticket, draw)
      ensures Undrawn(ticket + 1, 0)
    {
    }

    /** Appending an event with a fresh id never fails. */
    method Emit(entry: Event)
      requires outbox.Valid() && Undrawn(entry.eventId.ticket, entry.eventId.draw)
      modifies outbox
      ensures outbox.Valid() && outbox.entries == old(outbox.entries) + [entry]
      ensures outbox.published == old(outbox.published)
      ensures Undrawn(entry.eventId.ticket, entry.eventId.draw + 1)
    {
      assert entry.eventId !in Ids(outbox.entries);
      var appended := outbox.Append(entry);
    }

    method CreateRun(binding: Binding, now: int) returns (result: Result<RunRecord, RunError>)
      requires Valid()
      modifies runs, tasks, outbox, ids
      ensures Valid() && ids.next == old(ids.next) + 1
      ensures (View(), result) ==
              Step(old(View()), Call(RunProtocol.CreateRun(binding), Env(now, old(ids.next))))
    {
      hide Decide, RecordInv, Distinct;
      var ticket := ids.Draw();
      var env := Env(now, ticket);
      StepKeepsInv(View(), Call(RunProtocol.CreateRun(binding), env));
      var task := tasks.Create(TaskState(binding.taskId, 1));
      if task.Err? {
        return Err(task.error);
      }
      var record := QueuedRecord(binding, env);
      var created := runs.Create(record);
      assert created.Ok?;
      hide WorldInv;
      Emit(Entry(record, env, 0, RunCreated(binding.taskId)));
      result := Ok(record);
    }

    method BeginAdmission(runId: RunId, now: int) returns (result: Result<RunRecord, RunError>)
      requires Valid()
      modifies runs, outbox, ids
      ensures Valid() && ids.next == old(ids.next) + 1
      ensures (View(), result) ==
              Step(old(View()), Call(RunProtocol.BeginAdmission(runId), Env(now, old(ids.next))))
    {
      hide Distinct, Ids, Undrawn, Step, WorldInv, RecordInv, Did;
      hide DecideAdmission, DecideTransition, DecideWait, DecideTerminal, DecideAcquire, DecideHeartbeat;
      ghost var w := View();
      var ticket := ids.Draw();
      var env := Env(now, ticket);
      ghost var call := Call(RunProtocol.BeginAdmission(runId), env);
      Prepare(w, call);
      result := Transition(runId, Admitting, None, PhaseChanged(Queued, Admitting, ["admission_started"]), env, 0);
      StepPerformed(w, call, View(), result);
      NextTicket(ticket, 1);
    }

    method AcquireLease(runId: RunId, holderId: string, now: int) returns (result: Result<RunRecord, RunError>)
      requires Valid()
      modifies runs, outbox, ids
      ensures Valid() && ids.next == old(ids.next) + 1
      ensures (View(), result) ==
              Step(old(View()), Call(RunProtocol.AcquireLease(runId, holderId), Env(now, old(ids.next))))
    {
      hide Distinct, Ids, Undrawn, Step, WorldInv, RecordInv, Did;
      hide DecideAdmission, DecideTransition, DecideWait, DecideTerminal, DecideAcquire, DecideHeartbeat;
      ghost var w := View();
      var ticket := ids.Draw();
      var env := Env(now, ticket);
      ghost var call := Call(RunProtocol.AcquireLease(runId, holderId), env);
      Prepare(w, call);
      result := DoAcquireLease(runId, holderId, env);
      StepPerformed(w, call, View(), result);
      NextTicket(ticket, 1);
    }

    method Heartbeat(runId: RunId, leaseId: LeaseId, fencingToken: int, now: int)
      returns (result: Result<RunRecord, RunError>)
      requires Valid()
      modifies runs, ids
      ensures Valid() && ids.next == old(ids.next) + 1
      ensures (View(), result) ==
              Step(old(View()), Call(RunProtocol.Heartbeat(runId, leaseId, fencingToken), Env(now, old(ids.next))))
    {
      hide Distinct, Ids, Undrawn, Step, WorldInv, RecordInv, Did;
      hide DecideAdmission, DecideTransition, DecideWait, DecideTerminal, DecideAcquire, DecideHeartbeat;
      ghost var w := View();
      var ticket := ids.Draw();
      var env := Env(now, ticket);
      ghost var call := Call(RunProtocol.Heartbeat(runId, leaseId, fencingToken), env);
      Prepare(w, call);
      result := DoHeartbeat(runId, leaseId, fencingToken, env);
      StepPerformed(w, call, View(), result);
      NextTicket(ticket, 0);
    }

    method RegisterWait(runId: RunId, reason: WaitReason, refs: seq<string>, origin: Option<WaitOrigin>, now: int)
      returns (result: Result<RunRecord, RunError>)
      requires Valid()
      modifies runs, outbox, ids
      ensures Valid() && ids.next == old(ids.next) + 1
      ensures (View(), result) ==
              Step(old(View()), Call(RunProtocol.RegisterWait(runId, reason, refs, origin), Env(now, old(ids.next))))
    {
      hide Distinct, Ids, Undrawn, Step, WorldInv, RecordInv, Did;
      hide DecideAdmission, DecideTransition, DecideWait, DecideTerminal, DecideAcquire, DecideHeartbeat;
      ghost var w := View();
      var ticket := ids.Draw();
      var env := Env(now, ticket);
      ghost var call := Call(RunProtocol.RegisterWait(runId, reason, refs, origin), env);
      Prepare(w, call);
      result := DoRegisterWait(runId, reason, refs, origin, env, 0);
      StepPerformed(w, call, View(), result);
      NextTicket(ticket, 1);
    }

    method Resume(runId: RunId, to: Phase, signalRef: string, now: int) returns (result: Result<RunRecord, RunError>)
      requires Valid()
      modifies runs, outbox, ids
      ensures Valid() && ids.next == old(ids.next) + 1
      ensures (View(), result) ==
              Step(old(View()), Call(RunProtocol.Resume(runId, to, signalRef), Env(now, old(ids.next))))
    {
      hide Distinct, Ids, Undrawn, Step, WorldInv, RecordInv, Did;
      hide DecideAdmission, DecideTransition, DecideWait, DecideTerminal, DecideAcquire, DecideHeartbeat;
      ghost var w := View();
      var ticket := ids.Draw();
      var env := Env(now, ticket);
      ghost var call := Call(RunProtocol.Resume(runId, to, signalRef), env);
      Prepare(w, call);
      var read := runs.Require(runId);
      if read.Err? {
        StepPerformed(w, call, View(), read);
        NextTicket(ticket, 0);
        return read;
      }
      result := ApplyAndEmit(read.value, to, true, Some(read.value.revision), RunResumed(read.value.phase, signalRef), env, 0);
      StepPerformed(w, call, View(), result);
      NextTicket(ticket, 1);
    }

    method ScheduleRetry(runId: RunId, failureRef: string, now: int) returns (result: Result<RunRecord, RunError>)
      requires Valid()
      modifies runs, outbox, ids
      ensures Valid() && ids.next == old(ids.next) + 1
      ensures (View(), result) ==
              Step(old(View()), Call(RunProtocol.ScheduleRetry(runId, failureRef), Env(now, old(ids.next))))
    {
      hide Distinct, Ids, Undrawn, Step, WorldInv, RecordInv, Did;
      hide DecideAdmission, DecideTransition, DecideWait, DecideTerminal, DecideAcquire, DecideHeartbeat;
      ghost var w := View();
      var ticket := ids.Draw();
      var env := Env(now, ticket);
      ghost var call := Call(RunProtocol.ScheduleRetry(runId, failureRef), env);
      Prepare(w, call);
      var read := runs.Require(runId);
      if read.Err? {
        StepPerformed(w, call, View(), read);
        NextTicket(ticket, 0);
        return read;
      }
      result := ApplyAndEmit(read.value, Retrying, false, Some(read.value.revision),
                             RetryScheduled(read.value.attempt, failureRef), env, 0);
      StepPerformed(w, call, View(), result);
      NextTicket(ticket, 1);
    }

    method Pause(runId: RunId, reasons: seq<string>, now: int) returns (result: Result<RunRecord, RunError>)
      requires Valid()
      modifies runs, outbox, ids
      ensures Valid() && ids.next == old(ids.next) + 1
      ensures (View(), result) ==
              Step(old(View()), Call(RunProtocol.Pause(runId, reasons), Env(now, old(ids.next))))
    {
      hide Distinct, Ids, Undrawn, Step, WorldInv, RecordInv, Did;
      hide DecideAdmission, DecideTransition, DecideWait, DecideTerminal, DecideAcquire, DecideHeartbeat;
      ghost var w := View();
      var ticket := ids.Draw();
      var env := Env(now, ticket);
      ghost var call := Call(RunProtocol.Pause(runId, reasons), env);
      Prepare(w, call);
      var read := runs.Require(runId);
      if read.Err? {
        StepPerformed(w, call, View(), read);
        NextTicket(ticket, 0);
        return read;
      }
      result := ApplyAndEmit(read.value, Paused, false, Some(read.value.revision), RunPaused(reasons), env, 0);
      StepPerformed(w, call, View(), result);
      NextTicket(ticket, 1);
    }

    method Cancel(runId: RunId, now: int) returns (result: Result<RunRecord, RunError>)
      requires Valid()
      modifies runs, outbox, ids
      ensures Valid() && ids.next == old(ids.next) + 1
      ensures (View(), result) ==
              Step(old(View()), Call(RunProtocol.Cancel(runId), Env(now, old(ids.next))))
    {
      hide Distinct, Ids, Undrawn, Step, WorldInv, RecordInv, Did;
      hide DecideAdmission, DecideTransition, DecideWait, DecideTerminal, DecideAcquire, DecideHeartbeat;
      ghost var w := View();
      var ticket := ids.Draw();
      var env := Env(now, ticket);
      ghost var call := Call(RunProtocol.Cancel(runId), env);
      Prepare(w, call);
      result := DoCancel(runId, env);
      StepPerformed(w, call, View(), result);
      NextTicket(ticket, 1);
    }

    method CommitTerminal(runId: RunId, disposition: Disposition, reasons: seq<string>,
                          resultRef: Option<string>, errorRef: Option<string>, now: int)
      returns (result: Result<RunRecord, RunError>)
      requires Valid()
      modifies runs, outbox, ids
      ensures Valid() && ids.next == old(ids.next) + 1
      ensures (View(), result) ==
              Step(old(View()), Call(RunProtocol.CommitTerminal(runId, disposition, reasons, resultRef, errorRef),
                                     Env(now, old(ids.next))))
    {
      hide Distinct, Ids, Undrawn, Step, WorldInv, RecordInv, Did;
      hide DecideAdmission, DecideTransition, DecideWait, DecideTerminal, DecideAcquire, DecideHeartbeat;
      ghost var w := View();
      var ticket := ids.Draw();
      var env := Env(now, ticket);
      ghost var call := Call(RunProtocol.CommitTerminal(runId, disposition, reasons, resultRef, errorRef), env);
      Prepare(w, call);
      result := DoCommitTerminal(runId, disposition, reasons, resultRef, errorRef, env, 0);
      StepPerformed(w, call, View(), result);
      NextTicket(ticket, 1);
    }

    /**
     * The admission result and its first event are written before the run's own record; nothing
     * after them can fail, so no half-applied admission is left behind.
     */
    method ApplyAdmission(runId: RunId, admission: ValidAdmission, now: int)
      returns (result: Result<RunRecord, RunError>)
      requires Valid()
      modifies runs, admissions, outbox, ids
      ensures Valid() && ids.next == old(ids.next) + 1
      ensures (View(), result) ==
              Step(old(View()), Call(RunProtocol.ApplyAdmission(runId, admission), Env(now, old(ids.next))))
    {
      hide Distinct, Ids, Undrawn, Step, WorldInv, LastStep, RecordInv, Commit;
      var ticket := ids.Draw();
      var env := Env(now, ticket);
      ghost var w, call := View(), Call(RunProtocol.ApplyAdmission(runId, admission), env);
      Prepare(w, call);
      AdmissionRefused(w, call.command, env);
      NextTicket(ticket, 0);
      var read := runs.Require(runId);
      if read.Err? {
        return read;
      }
      var run := read.value;
      if run.phase != Admitting {
        return Err(InvalidTransition(run.phase, Running));
      }
      if now >= admission.expiresAt {
        return Err(ExpiredResult);
      }
      var created := admissions.Create(admission);
      if created.Err? {
        return Err(created.error);
      }
      AdmissionPerformed(w, View().(outbox := w.outbox + [FirstEvent(run, admission, env)]), admission, call);
      result := DoAdmit(run, admission, env);
      NextTicket(ticket, 2);
    }

    // -------------------------------------------------------------------
    // Internal steps
    // -------------------------------------------------------------------

    /** What is left of an admission once its result is recorded. */
    method DoAdmit(run: RunRecord, admission: ValidAdmission, env: Env) returns (result: Result<RunRecord, RunError>)
      requires outbox.Valid() && Undrawn(env.ticket, 0)
      requires run.runId in runs.records && runs.records[run.runId] == run
      modifies runs, outbox
      ensures outbox.Valid() && Undrawn(env.ticket, 2)
      ensures Did(old(View()).(outbox := old(View()).outbox + [FirstEvent(run, admission, env)]),
                  LastStep(run, admission, env), View(), result)
    {
      hide Did, DecideTransition, DecideWait, DecideTerminal;
      if admission.outcome == Admitted {
        Emit(Entry(run, env, 0, RunAdmitted(admission.resultId)));
        result := Transition(run.runId, Running, Some(run.revision),
                             PhaseChanged(Admitting, Running, admission.reasonCodes), env, 1);
      } else {
        Emit(Entry(run, env, 0, PhaseChanged(Admitting, Terminal, admission.reasonCodes)));
        if admission.outcome == Deferred {
          var refs := if admission.validationRefs != [] then admission.validationRefs else ["admission_deferred"];
          result := DoRegisterWait(run.runId, Dependency, refs, Some(AdmissionDeferred), env, 1);
        } else {
          result := DoCommitTerminal(run.runId, Rejected, admission.reasonCodes, None, None, env, 1);
        }
      }
    }

    method DoAcquireLease(runId: RunId, holderId: string, env: Env) returns (result: Result<RunRecord, RunError>)
      requires outbox.Valid() && Undrawn(env.ticket, 0)
      requires runId in runs.records ==> runs.records[runId].runId == runId
      modifies runs, outbox
      ensures outbox.Valid() && Undrawn(env.ticket, 1)
      ensures if runId in old(runs.records)
              then Did(old(View()), DecideAcquire(old(runs.records)[runId], holderId, env), View(), result)
              else result == Err(NotFound) && View() == old(View())
    {
      var read := runs.Require(runId);
      if read.Err? {
        return read;
      }
      var run := read.value;
      if !Executing(run.phase) {
        return Err(LeaseNeedsExecutingPhase);
      }
      var previousToken := if run.lease.Some? then run.lease.value.fencingToken else 0;
      var lease := RunLease(env.ticket, holderId, previousToken + 1, env.now, env.now, env.now + LEASE_SECONDS);
      if !lease.Valid() {
        return Err(InvalidLease);
      }
      var attempt := run.attempt;
      if run.lease.None? && run.phase == Retrying {
        attempt := run.attempt + 1;
      }
      var updated := run.(lease := Some(lease), attempt := attempt, revision := run.revision + 1, updatedAt := env.now);
      if !updated.Valid() {
        return Err(InvalidRecord);
      }
      result := runs.Update(updated, Some(run.revision), None);
      Emit(Entry(updated, env, 0, PhaseChanged(run.phase, run.phase, ["lease_acquired"])));
    }

    method DoHeartbeat(runId: RunId, leaseId: LeaseId, fencingToken: int, env: Env)
      returns (result: Result<RunRecord, RunError>)
      requires runId in runs.records ==> runs.records[runId].runId == runId
      modifies runs
      ensures if runId in old(runs.records)
              then Did(old(View()), DecideHeartbeat(old(runs.records)[runId], leaseId, fencingToken, env), View(), result)
              else result == Err(NotFound) && View() == old(View())
    {
      var read := runs.Require(runId);
      if read.Err? {
        return read;
      }
      var run := read.value;
      var refused := EnsureLease(run, leaseId, fencingToken);
      if refused.Some? {
        return Err(refused.value);
      }
      if !run.lease.value.HeldAt(env.now) {
        return Err(LeaseExpired);
      }
      var lease := run.lease.value.(heartbeatAt := env.now, expiresAt := env.now + LEASE_SECONDS);
      if !lease.Valid() {
        return Err(InvalidLease);
      }
      var updated := run.(lease := Some(lease), revision := run.revision + 1, updatedAt := env.now);
      if !updated.Valid() {
        return Err(InvalidRecord);
      }
      result := runs.Update(updated, Some(run.revision), None);
      assert outbox.entries + [] == outbox.entries;
    }

    /** Refuses a caller that does not hold the current lease. */
    method EnsureLease(run: RunRecord, leaseId: LeaseId, fencingToken: int) returns (refused: Option<RunError>)
      ensures refused.None? <==>
              && run.lease.Some?
              && run.lease.value.leaseId == leaseId
              && run.lease.value.fencingToken <= fencingToken
      ensures refused.Some? ==>
              refused.value == if run.lease.None? then NoActiveLease
                               else if run.lease.value.leaseId != leaseId then LeaseMismatch
                               else StaleFencing
    {
      if run.lease.None? {
        return Some(NoActiveLease);
      }
      if run.lease.value.leaseId != leaseId {
        return Some(LeaseMismatch);
      }
      if fencingToken < run.lease.value.fencingToken {
        return Some(StaleFencing);
      }
      return None;
    }

    method Transition(runId: RunId, to: Phase, expectedRevision: Option<int>, body: EventBody, env: Env, draw: nat)
      returns (result: Result<RunRecord, RunError>)
      requires outbox.Valid() && Undrawn(env.ticket, draw)
      requires runId in runs.records ==> runs.records[runId].runId == runId
      requires expectedRevision.Some? && runId in runs.records ==>
                 expectedRevision.value == runs.records[runId].revision
      modifies runs, outbox
      ensures outbox.Valid() && Undrawn(env.ticket, draw + 1)
      ensures if runId in old(runs.records)
              then Did(old(View()), DecideTransition(old(runs.records)[runId], to, false, env, draw, [], None, body),
                       View(), result)
              else result == Err(NotFound) && View() == old(View())
    {
      hide Did, DecideTransition;
      var read := runs.Require(runId);
      if read.Err? {
        return read;
      }
      result := ApplyAndEmit(read.value, to, false, expectedRevision, body, env, draw);
    }

    /** Validates the table, applies the change and emits its event. */
    method ApplyAndEmit(run: RunRecord, to: Phase, clearWait: bool, expectedRevision: Option<int>,
                        body: EventBody, env: Env, draw: nat)
      returns (result: Result<RunRecord, RunError>)
      requires outbox.Valid() && Undrawn(env.ticket, draw)
      requires run.runId in runs.records && runs.records[run.runId] == run
      requires expectedRevision.Some? ==> expectedRevision.value == run.revision
      modifies runs, outbox
      ensures outbox.Valid() && Undrawn(env.ticket, draw + 1)
      ensures Did(old(View()), DecideTransition(run, to, clearWait, env, draw, [], None, body), View(), result)
    {
      if !CanTransition(run.phase, to) {
        return Err(InvalidTransition(run.phase, to));
      }
      result := Apply(run, to, clearWait, expectedRevision, env);
      if result.Ok? {
        Emit(Entry(result.value, env, draw, body));
      }
    }

    method DoRegisterWait(runId: RunId, reason: WaitReason, refs: seq<string>, origin: Option<WaitOrigin>,
                          env: Env, draw: nat)
      returns (result: Result<RunRecord, RunError>)
      requires outbox.Valid() && Undrawn(env.ticket, draw)
      requires runId in runs.records ==> runs.records[runId].runId == runId
      modifies runs, outbox
      ensures outbox.Valid() && Undrawn(env.ticket, draw + 1)
      ensures if runId in old(runs.records)
              then Did(old(View()), DecideWait(old(runs.records)[runId], reason, refs, origin, env, draw, [], None),
                       View(), result)
              else result == Err(NotFound) && View() == old(View())
    {
      var read := runs.Require(runId);
      if read.Err? {
        return read;
      }
      var run := read.value;
      if !Executing(run.phase) {
        return Err(InvalidTransition(run.phase, Waiting));
      }
      var updated := run.(phase := Waiting,
                          waitReason := Some(reason),
                          waitConditionRefs := refs,
                          waitOrigin := origin,
                          revision := run.revision + 1,
                          updatedAt := env.now,
                          lease := None);
      if !updated.Valid() {
        return Err(InvalidRecord);
      }
      result := runs.Update(updated, Some(run.revision), None);
      Emit(Entry(updated, env, draw, WaitRegistered(reason, refs)));
    }

    method DoCancel(runId: RunId, env: Env) returns (result: Result<RunRecord, RunError>)
      requires outbox.Valid() && Undrawn(env.ticket, 0)
      requires runId in runs.records ==> runs.records[runId].runId == runId
      modifies runs, outbox
      ensures outbox.Valid() && Undrawn(env.ticket, 1)
      ensures if runId in old(runs.records)
              then Did(old(View()), Decide(old(runs.records)[runId], RunProtocol.Cancel(runId), env), View(), result)
              else result == Err(NotFound) && View() == old(View())
    {
      hide DecideAdmission, DecideTransition, DecideWait, DecideTerminal, DecideAcquire, DecideHeartbeat;
      var read := runs.Require(runId);
      if read.Err? {
        return read;
      }
      var run := read.value;
      if run.phase == Terminal {
        return Ok(run);
      }
      if run.phase == Running && run.pendingActionRefs != [] {
        return Err(InFlightActions);
      }
      result := DoCommitTerminal(runId, Cancelled, ["cancelled_by_actor"], None, None, env, 0);
    }

    method DoCommitTerminal(runId: RunId, disposition: Disposition, reasons: seq<string>,
                            resultRef: Option<string>, errorRef: Option<string>, env: Env, draw: nat)
      returns (result: Result<RunRecord, RunError>)
      requires outbox.Valid() && Undrawn(env.ticket, draw)
      requires runId in runs.records ==> runs.records[runId].runId == runId
      modifies runs, outbox
      ensures outbox.Valid() && Undrawn(env.ticket, draw + 1)
      ensures if runId in old(runs.records)
              then Did(old(View()), DecideTerminal(old(runs.records)[runId], disposition, reasons,
                                                   resultRef, errorRef, env, draw, [], None), View(), result)
              else result == Err(NotFound) && View() == old(View())
    {
      var read := runs.Require(runId);
      if read.Err? {
        return read;
      }
      var run := read.value;
      if run.phase == Terminal {
        if run.disposition == Some(disposition) {
          return Ok(run);
        }
        return Err(TerminalConflict);
      }
      if disposition == Completed && run.phase !in {Running, Waiting, Retrying} {
        return Err(NotExecuted);
      }
      if disposition == Completed && run.pendingActionRefs != [] {
        return Err(UnresolvedActions);
      }
      var updated := run.(phase := Terminal,
                          disposition := Some(disposition),
                          terminalReasonCodes := reasons,
                          resultRef := resultRef,
                          errorRef := errorRef,
                          revision := run.revision + 1,
                          updatedAt := env.now,
                          lease := None);
      if !updated.Valid() {
        return Err(InvalidRecord);
      }
      result := runs.Update(updated, Some(run.revision), None);
      Emit(Entry(updated, env, draw, TerminalCommitted(disposition, reasons)));
    }

    method Apply(run: RunRecord, to: Phase, clearWait: bool, expectedRevision: Option<int>, env: Env)
      returns (result: Result<RunRecord, RunError>)
      requires run.runId in runs.records && runs.records[run.runId] == run
      requires expectedRevision.Some? ==> expectedRevision.value == run.revision
      modifies runs
      ensures var updated := Applied(run, to, clearWait, env);
              && result == (if updated.Valid() then Ok(updated) else Err(InvalidRecord))
              && runs.records == if updated.Valid() then old(runs.records)[run.runId := updated] else old(runs.records)
    {
      var updated := Applied(run, to, clearWait, env);
      if !updated.Valid() {
        return Err(InvalidRecord);
      }
      result := runs.Update(updated, expectedRevision, None);
    }
  }
}
