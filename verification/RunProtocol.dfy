/** The run lifecycle as a step function over the authoritative state. */
module RunProtocol {
  import opened Common
  import opened RunObjects

  const LEASE_SECONDS := 120

  datatype AdmissionOutcome = Admitted | Rejection | Deferred

  datatype AdmissionResult = AdmissionResult(
    resultId: string,
    outcome: AdmissionOutcome,
    validationRefs: seq<string>,
    reasonCodes: seq<string>,
    expiresAt: int)

  /** An admission result that its constructor accepted. */
  type ValidAdmission = r: AdmissionResult | r.reasonCodes != []
    witness AdmissionResult("", Admitted, [], ["admitted"], 0)

  datatype TaskState = TaskState(taskId: string, revision: int)

  /** Everything the coordinator's repositories and outbox hold. */
  datatype World = World(
    records: map<RunId, RunRecord>,
    tasks: map<string, TaskState>,
    admissions: map<string, ValidAdmission>,
    outbox: seq<Event>)

  const EMPTY_WORLD := World(map[], map[], map[], [])

  datatype Command =
    | CreateRun(binding: Binding)
    | BeginAdmission(runId: RunId)
    | ApplyAdmission(runId: RunId, result: ValidAdmission)
    | AcquireLease(runId: RunId, holderId: string)
    | Heartbeat(runId: RunId, leaseId: LeaseId, fencingToken: int)
    | RegisterWait(runId: RunId, reason: WaitReason, refs: seq<string>, origin: Option<WaitOrigin>)
    | Resume(runId: RunId, to: Phase, signalRef: string)
    | ScheduleRetry(runId: RunId, failureRef: string)
    | Pause(runId: RunId, reasons: seq<string>)
    | Cancel(runId: RunId)
    | CommitTerminal(runId: RunId, disposition: Disposition, reasons: seq<string>,
                     resultRef: Option<string>, errorRef: Option<string>)

  /** What one invocation draws from outside: the clock and its fresh identifiers. */
  datatype Env = Env(now: int, ticket: nat)

  datatype Call = Call(command: Command, env: Env)

  datatype RunError =
    | NotFound
    | TaskExists
    | RunExists
    | InvalidTransition(fromPhase: Phase, toPhase: Phase)
    | LeaseNeedsExecutingPhase
    | ExpiredResult
    | DuplicateResult
    | InvalidLease
    | InvalidRecord
    | NoActiveLease
    | LeaseMismatch
    | StaleFencing
    | LeaseExpired
    | InFlightActions
    | TerminalConflict
    | NotExecuted
    | UnresolvedActions
    | RevisionConflict

  /** What a command decides from the record it read. */
  datatype Plan =
    | Keep(record: RunRecord)
    | Write(record: RunRecord, events: seq<Event>, admission: Option<ValidAdmission>)

  function Entry(record: RunRecord, env: Env, draw: nat, body: EventBody): Event {
    Event(EventId(env.ticket, draw), record.runId, record.revision, record.sequence + 1, body)
  }

  predicate Executing(phase: Phase) {
    phase in {Admitting, Running, Retrying}
  }

  /** `_apply`: the replacement record for a plain phase change. */
  function Applied(run: RunRecord, to: Phase, clearWait: bool, env: Env): RunRecord {
    var keepWait := !clearWait && to == Waiting;
    run.(phase := to,
         revision := run.revision + 1,
         updatedAt := env.now,
         disposition := if to != Terminal then None else run.disposition,
         waitReason := if keepWait then run.waitReason else None,
         waitConditionRefs := if keepWait then run.waitConditionRefs else [],
         waitOrigin := if keepWait then run.waitOrigin else None,
         lease := if to in {Queued, Waiting, Paused, Terminal} then None else run.lease)
  }

  /** Runs the record constructor, then plans to write it with its events. */
  function Replace(record: RunRecord, events: seq<Event>, admission: Option<ValidAdmission>): Result<Plan, RunError> {
    if record.Valid() then Ok(Write(record, events, admission)) else Err(InvalidRecord)
  }

  function DecideTransition(run: RunRecord, to: Phase, clearWait: bool, env: Env, draw: nat,
                            before: seq<Event>, admission: Option<ValidAdmission>,
                            body: EventBody): Result<Plan, RunError>
  {
    if !CanTransition(run.phase, to) then Err(InvalidTransition(run.phase, to))
    else
      var updated := Applied(run, to, clearWait, env);
      Replace(updated, before + [Entry(updated, env, draw, body)], admission)
  }

  function DecideWait(run: RunRecord, reason: WaitReason, refs: seq<string>, origin: Option<WaitOrigin>,
                      env: Env, draw: nat, before: seq<Event>,
                      admission: Option<ValidAdmission>): Result<Plan, RunError>
  {
    if !Executing(run.phase) then Err(InvalidTransition(run.phase, Waiting))
    else
      var updated := run.(phase := Waiting,
                          waitReason := Some(reason),
                          waitConditionRefs := refs,
                          waitOrigin := origin,
                          revision := run.revision + 1,
                          updatedAt := env.now,
                          lease := None);
      Replace(updated, before + [Entry(updated, env, draw, WaitRegistered(reason, refs))], admission)
  }

  function DecideTerminal(run: RunRecord, disposition: Disposition, reasons: seq<string>,
                          resultRef: Option<string>, errorRef: Option<string>,
                          env: Env, draw: nat, before: seq<Event>,
                          admission: Option<ValidAdmission>): Result<Plan, RunError>
  {
    if run.phase == Terminal then
      if run.disposition == Some(disposition) then Ok(Keep(run)) else Err(TerminalConflict)
    else if disposition == Completed && run.phase !in {Running, Waiting, Retrying} then Err(NotExecuted)
    else if disposition == Completed && run.pendingActionRefs != [] then Err(UnresolvedActions)
    else
      var updated := run.(phase := Terminal,
                          disposition := Some(disposition),
                          terminalReasonCodes := reasons,
                          resultRef := resultRef,
                          errorRef := errorRef,
                          revision := run.revision + 1,
                          updatedAt := env.now,
                          lease := None);
      Replace(updated, before + [Entry(updated, env, draw, TerminalCommitted(disposition, reasons))], admission)
  }

  function DecideAdmission(run: RunRecord, result: ValidAdmission, env: Env): Result<Plan, RunError> {
    if run.phase != Admitting then Err(InvalidTransition(run.phase, Running))
    else if env.now >= result.expiresAt then Err(ExpiredResult)
    else
      match result.outcome
      case Admitted =>
        DecideTransition(run, Running, false, env, 1,
                         [Entry(run, env, 0, RunAdmitted(result.resultId))], Some(result),
                         PhaseChanged(Admitting, Running, result.reasonCodes))
      case Deferred =>
        var refs := if result.validationRefs != [] then result.validationRefs else ["admission_deferred"];
        DecideWait(run, Dependency, refs, Some(AdmissionDeferred), env, 1,
                   [Entry(run, env, 0, PhaseChanged(Admitting, Terminal, result.reasonCodes))], Some(result))
      case Rejection =>
        DecideTerminal(run, Rejected, result.reasonCodes, None, None, env, 1,
                       [Entry(run, env, 0, PhaseChanged(Admitting, Terminal, result.reasonCodes))], Some(result))
  }

  function DecideAcquire(run: RunRecord, holderId: string, env: Env): Result<Plan, RunError> {
    if !Executing(run.phase) then Err(LeaseNeedsExecutingPhase)
    else
      var previous := if run.lease.Some? then run.lease.value.fencingToken else 0;
      var lease := RunLease(env.ticket, holderId, previous + 1, env.now, env.now, env.now + LEASE_SECONDS);
      if !lease.Valid() then Err(InvalidLease)
      else
        var attempt := if run.lease.None? && run.phase == Retrying then run.attempt + 1 else run.attempt;
        var updated := run.(lease := Some(lease), attempt := attempt,
                            revision := run.revision + 1, updatedAt := env.now);
        Replace(updated, [Entry(updated, env, 0, PhaseChanged(run.phase, run.phase, ["lease_acquired"]))], None)
  }

  function DecideHeartbeat(run: RunRecord, leaseId: LeaseId, fencingToken: int, env: Env): Result<Plan, RunError> {
    if run.lease.None? then Err(NoActiveLease)
    else
      var held := run.lease.value;
      if held.leaseId != leaseId then Err(LeaseMismatch)
      else if fencingToken < held.fencingToken then Err(StaleFencing)
      else if !held.HeldAt(env.now) then Err(LeaseExpired)
      else
        var lease := held.(heartbeatAt := env.now, expiresAt := env.now + LEASE_SECONDS);
        if !lease.Valid() then Err(InvalidLease)
        else
          Replace(run.(lease := Some(lease), revision := run.revision + 1, updatedAt := env.now), [], None)
  }

  /** The decision of every command but `CreateRun`, from the record it read. */
  function Decide(run: RunRecord, command: Command, env: Env): Result<Plan, RunError>
    requires !command.CreateRun?
  {
    match command
    case BeginAdmission(_) =>
      DecideTransition(run, Admitting, false, env, 0, [], None,
                       PhaseChanged(Queued, Admitting, ["admission_started"]))
    case ApplyAdmission(_, result) => DecideAdmission(run, result, env)
    case AcquireLease(_, holderId) => DecideAcquire(run, holderId, env)
    case Heartbeat(_, leaseId, fencingToken) => DecideHeartbeat(run, leaseId, fencingToken, env)
    case RegisterWait(_, reason, refs, origin) => DecideWait(run, reason, refs, origin, env, 0, [], None)
    case Resume(_, to, signalRef) =>
      DecideTransition(run, to, true, env, 0, [], None, RunResumed(run.phase, signalRef))
    case ScheduleRetry(_, failureRef) =>
      DecideTransition(run, Retrying, false, env, 0, [], None, RetryScheduled(run.attempt, failureRef))
    case Pause(_, reasons) =>
      DecideTransition(run, Paused, false, env, 0, [], None, RunPaused(reasons))
    case Cancel(_) =>
      if run.phase == Terminal then Ok(Keep(run))
      else if run.phase == Running && run.pendingActionRefs != [] then Err(InFlightActions)
      else DecideTerminal(run, Cancelled, ["cancelled_by_actor"], None, None, env, 0, [], None)
    case CommitTerminal(_, disposition, reasons, resultRef, errorRef) =>
      DecideTerminal(run, disposition, reasons, resultRef, errorRef, env, 0, [], None)
  }

  /** Writes a plan in one transaction. */
  function Commit(w: World, plan: Plan): (World, Result<RunRecord, RunError>) {
    match plan
    case Keep(record) => (w, Ok(record))
    case Write(record, events, admission) =>
      if admission.Some? && admission.value.resultId in w.admissions then (w, Err(DuplicateResult))
      else
        (w.(records := w.records[record.runId := record],
            admissions := if admission.Some?
                          then w.admissions[admission.value.resultId := admission.value]
                          else w.admissions,
            outbox := w.outbox + events),
         Ok(record))
  }

  function QueuedRecord(binding: Binding, env: Env): RunRecord {
    RunRecord(env.ticket, binding, Queued, None, None, [], None, 1, [], None, None, [], 1, 0, None, env.now)
  }

  function StepCreate(w: World, binding: Binding, env: Env): (World, Result<RunRecord, RunError>) {
    if binding.taskId in w.tasks then (w, Err(TaskExists))
    else if env.ticket in w.records then (w, Err(RunExists))
    else
      var record := QueuedRecord(binding, env);
      (w.(records := w.records[env.ticket := record],
          tasks := w.tasks[binding.taskId := TaskState(binding.taskId, 1)],
          outbox := w.outbox + [Entry(record, env, 0, RunCreated(binding.taskId))]),
       Ok(record))
  }

  /** One command, run alone: the new state and what the caller gets. */
  function Step(w: World, call: Call): (World, Result<RunRecord, RunError>) {
    if call.command.CreateRun? then StepCreate(w, call.command.binding, call.env)
    else if call.command.runId !in w.records then (w, Err(NotFound))
    else
      match Decide(w.records[call.command.runId], call.command, call.env)
      case Err(error) => (w, Err(error))
      case Ok(plan) => Commit(w, plan)
  }

  /** The state after a history of calls on an empty deployment. */
  function Exec(calls: seq<Call>): World {
    if calls == [] then EMPTY_WORLD
    else Step(Exec(calls[..|calls| - 1]), calls[|calls| - 1]).0
  }

  // ---------------------------------------------------------------------
  // What every reachable record satisfies
  // ---------------------------------------------------------------------

  /** The record constructor's checks, and what the commands keep beyond them. */
  ghost predicate RecordInv(run: RunRecord) {
    && run.Valid()
    && (run.phase == Waiting <==> run.waitReason.Some?)
    && (run.phase != Waiting ==> run.waitConditionRefs == [])
    && (run.lease.Some? ==> Executing(run.phase) && run.lease.value.Valid())
    && (run.phase == Terminal <==> run.disposition.Some?)
    && run.pendingActionRefs == []
    && run.sequence == 0
  }

  ghost predicate WorldInv(w: World) {
    forall r <- w.records :: RecordInv(w.records[r]) && w.records[r].runId == r
  }

  /** One command moves one record along the table, one revision at a time, and keeps its binding. */
  ghost predicate Advances(before: RunRecord, after: RunRecord) {
    && after.revision == before.revision + 1
    && after.runId == before.runId
    && after.binding == before.binding
    && before.phase != Terminal
    && (before.phase == after.phase || CanTransition(before.phase, after.phase))
    && !(before.phase == Waiting && after.phase == Terminal)
  }

  /** A plan that writes advances the record and keeps the invariant. */
  ghost predicate WritesSoundly(run: RunRecord, decision: Result<Plan, RunError>) {
    decision.Ok? && decision.value.Write? ==> RecordInv(decision.value.record) && Advances(run, decision.value.record)
  }

  predicate NeverKeeps(decision: Result<Plan, RunError>) {
    decision.Ok? ==> decision.value.Write?
  }

  lemma TransitionAdvances(run: RunRecord, to: Phase, clearWait: bool, env: Env, draw: nat, before: seq<Event>,
                           admission: Option<ValidAdmission>, body: EventBody)
    requires RecordInv(run)
    ensures var d := DecideTransition(run, to, clearWait, env, draw, before, admission, body);
            WritesSoundly(run, d) && NeverKeeps(d)
  {
    hide Entry;
  }

  lemma WaitAdvances(run: RunRecord, reason: WaitReason, refs: seq<string>, origin: Option<WaitOrigin>, env: Env,
                     draw: nat, before: seq<Event>, admission: Option<ValidAdmission>)
    requires RecordInv(run)
    ensures var d := DecideWait(run, reason, refs, origin, env, draw, before, admission);
            WritesSoundly(run, d) && NeverKeeps(d)
  {
    hide Entry;
  }

  lemma TerminalAdvances(run: RunRecord, disposition: Disposition, reasons: seq<string>, resultRef: Option<string>,
                         errorRef: Option<string>, env: Env, draw: nat, before: seq<Event>,
                         admission: Option<ValidAdmission>)
    requires RecordInv(run)
    ensures var d := DecideTerminal(run, disposition, reasons, resultRef, errorRef, env, draw, before, admission);
            && WritesSoundly(run, d)
            && (d.Ok? && d.value.Keep? ==> d.value.record == run && run.phase == Terminal)
  {
    hide Entry;
  }

  lemma AdmissionAdvances(run: RunRecord, result: ValidAdmission, env: Env)
    requires RecordInv(run)
    ensures WritesSoundly(run, DecideAdmission(run, result, env)) && NeverKeeps(DecideAdmission(run, result, env))
  {
    hide RecordInv, Advances, DecideTransition, DecideWait, DecideTerminal, Entry;
    var rejected := [Entry(run, env, 0, PhaseChanged(Admitting, Terminal, result.reasonCodes))];
    var refs := if result.validationRefs != [] then result.validationRefs else ["admission_deferred"];
    TransitionAdvances(run, Running, false, env, 1, [Entry(run, env, 0, RunAdmitted(result.resultId))], Some(result),
                       PhaseChanged(Admitting, Running, result.reasonCodes));
    WaitAdvances(run, Dependency, refs, Some(AdmissionDeferred), env, 1, rejected, Some(result));
    TerminalAdvances(run, Rejected, result.reasonCodes, None, None, env, 1, rejected, Some(result));
  }

  lemma DecideAdvances(run: RunRecord, command: Command, env: Env)
    requires RecordInv(run) && !command.CreateRun?
    ensures var d := Decide(run, command, env);
            && (d.Ok? && d.value.Keep? ==>
                  d.value.record == run && run.phase == Terminal && (command.Cancel? || command.CommitTerminal?))
            && (d.Ok? && d.value.Write? ==> RecordInv(d.value.record) && Advances(run, d.value.record))
  {
    if command.AcquireLease? || command.Heartbeat? {
      LeaseAdvances(run, command, env);
    } else {
      hide RecordInv, Advances, DecideTransition, DecideWait, DecideTerminal, DecideAdmission, Entry;
      match command
      case BeginAdmission(_) =>
        TransitionAdvances(run, Admitting, false, env, 0, [], None, PhaseChanged(Queued, Admitting, ["admission_started"]));
      case ApplyAdmission(_, result) => AdmissionAdvances(run, result, env);
      case RegisterWait(_, reason, refs, origin) => WaitAdvances(run, reason, refs, origin, env, 0, [], None);
      case Resume(_, to, signalRef) =>
        TransitionAdvances(run, to, true, env, 0, [], None, RunResumed(run.phase, signalRef));
      case ScheduleRetry(_, failureRef) =>
        TransitionAdvances(run, Retrying, false, env, 0, [], None, RetryScheduled(run.attempt, failureRef));
      case Pause(_, reasons) => TransitionAdvances(run, Paused, false, env, 0, [], None, RunPaused(reasons));
      case Cancel(_) => TerminalAdvances(run, Cancelled, ["cancelled_by_actor"], None, None, env, 0, [], None);
      case CommitTerminal(_, disposition, reasons, resultRef, errorRef) =>
        TerminalAdvances(run, disposition, reasons, resultRef, errorRef, env, 0, [], None);
    }
  }

  lemma LeaseAdvances(run: RunRecord, command: Command, env: Env)
    requires RecordInv(run) && (command.AcquireLease? || command.Heartbeat?)
    ensures WritesSoundly(run, Decide(run, command, env)) && NeverKeeps(Decide(run, command, env))
  {
    hide Entry, DecideTransition, DecideWait, DecideTerminal, DecideAdmission;
  }

  lemma StepKeepsInv(w: World, call: Call)
    requires WorldInv(w)
    ensures WorldInv(Step(w, call).0)
  {
    if !call.command.CreateRun? && call.command.runId in w.records {
      DecideAdvances(w.records[call.command.runId], call.command, call.env);
    }
  }

  /** Every record of every history satisfies the invariant. */
  lemma {:induction false} ReachableInv(calls: seq<Call>)
    ensures WorldInv(Exec(calls))
  {
    if calls != [] {
      ReachableInv(calls[..|calls| - 1]);
      StepKeepsInv(Exec(calls[..|calls| - 1]), calls[|calls| - 1]);
    }
  }
}
