/** Safety of the run lifecycle over whole histories: the table, revisions and terminal states. */
module RunHistory {
  import opened Common
  import opened RunObjects
  import opened RunProtocol

  lemma ExecAppend(calls: seq<Call>, call: Call)
    ensures Exec(calls + [call]) == Step(Exec(calls), call).0
  {
    assert (calls + [call])[..|calls|] == calls;
  }

  /** A failed command changes nothing; a successful one changes at most the record it names. */
  lemma StepTouchesOneRecord(w: World, call: Call)
    requires WorldInv(w)
    ensures var (after, result) := Step(w, call);
            && (result.Err? ==> after == w)
            && w.records.Keys <= after.records.Keys
            && (forall r <- w.records | after.records[r] != w.records[r] ::
                  && !call.command.CreateRun? && call.command.runId == r
                  && result == Ok(after.records[r])
                  && Advances(w.records[r], after.records[r]))
            && (forall r <- after.records | r !in w.records ::
                  call.command.CreateRun? && after.records[r] == QueuedRecord(call.command.binding, call.env))
  {
    if !call.command.CreateRun? && call.command.runId in w.records {
      DecideAdvances(w.records[call.command.runId], call.command, call.env);
    }
  }

  /** What a later state still says about a record seen earlier. */
  ghost predicate Continues(earlier: RunRecord, later: RunRecord) {
    && earlier.runId == later.runId
    && earlier.binding == later.binding
    && earlier.revision <= later.revision
    && (earlier.revision == later.revision ==> earlier == later)
    && (earlier.phase == Terminal ==> earlier == later)
  }

  /**
   * Revisions name records: along a history a run never loses its record, two moments with the
   * same revision hold the same record, and a terminal record is never replaced.
   */
  lemma {:induction false} RecordsOnlyAdvance(calls: seq<Call>, k: nat, r: RunId)
    requires k <= |calls| && r in Exec(calls[..k]).records
    ensures r in Exec(calls).records
    ensures Continues(Exec(calls[..k]).records[r], Exec(calls).records[r])
  {
    if k == |calls| {
      assert calls[..k] == calls;
    } else {
      var init := calls[..|calls| - 1];
      assert init[..k] == calls[..k];
      RecordsOnlyAdvance(init, k, r);
      ReachableInv(init);
      StepTouchesOneRecord(Exec(init), calls[|calls| - 1]);
    }
  }

  /** The distinct records one run has had, oldest first. */
  function Versions(calls: seq<Call>, r: RunId): seq<RunRecord> {
    if calls == [] then []
    else
      var init := calls[..|calls| - 1];
      var before, after := Exec(init), Exec(calls);
      if r in after.records && (r !in before.records || before.records[r] != after.records[r])
      then Versions(init, r) + [after.records[r]]
      else Versions(init, r)
  }

  /** One record per revision number: the i-th record a run ever had carries revision i. */
  lemma {:induction false} OneRecordPerRevision(calls: seq<Call>, r: RunId)
    ensures var versions := Versions(calls, r);
            && (forall i | 0 <= i < |versions| :: versions[i].revision == i + 1)
            && (r in Exec(calls).records ==>
                  0 < |versions| == Exec(calls).records[r].revision && versions[|versions| - 1] == Exec(calls).records[r])
            && (r !in Exec(calls).records ==> versions == [])
  {
    hide Step, WorldInv;
    if calls != [] {
      var init := calls[..|calls| - 1];
      OneRecordPerRevision(init, r);
      ReachableInv(init);
      NextRevision(Exec(init), calls[|calls| - 1], r);
    }
  }

  lemma NextRevision(w: World, call: Call, r: RunId)
    requires WorldInv(w)
    ensures var after := Step(w, call).0.records;
            && (r in w.records ==>
                  r in after && (after[r] == w.records[r] || after[r].revision == w.records[r].revision + 1))
            && (r in after && r !in w.records ==> after[r].revision == 1)
  {
    hide Decide, RecordInv;
    StepTouchesOneRecord(w, call);
  }

  // ---------------------------------------------------------------------
  // Which commands succeed
  // ---------------------------------------------------------------------

  /** What a caller can check before a command, from the stored record and the clock. */
  predicate Accepts(run: RunRecord, command: Command, env: Env)
    requires !command.CreateRun?
  {
    match command
    case BeginAdmission(_) => run.phase in {Queued, Waiting, Paused}
    case ApplyAdmission(_, result) => run.phase == Admitting && env.now < result.expiresAt
    case AcquireLease(_, holderId) => Executing(run.phase) && holderId != ""
    case Heartbeat(_, leaseId, fencingToken) =>
      && run.lease.Some?
      && run.lease.value.leaseId == leaseId
      && run.lease.value.fencingToken <= fencingToken
      && run.lease.value.HeldAt(env.now)
    case RegisterWait(_, _, refs, _) => Executing(run.phase) && refs != []
    case Resume(_, to, _) => CanTransition(run.phase, to) && to !in {Waiting, Terminal}
    case ScheduleRetry(_, _) => run.phase in {Running, Waiting}
    case Pause(_, _) => run.phase in {Running, Waiting, Retrying}
    case Cancel(_) => run.phase != Waiting
    case CommitTerminal(_, disposition, reasons, _, _) =>
      || (run.phase == Terminal && run.disposition == Some(disposition))
      || (run.phase !in {Terminal, Waiting}
          && reasons != []
          && (disposition == Completed ==> run.phase in {Running, Retrying}))
  }

  /** The phase an accepted command leaves behind. */
  function PhaseAfter(run: RunRecord, command: Command): Phase
    requires !command.CreateRun?
  {
    match command
    case BeginAdmission(_) => Admitting
    case ApplyAdmission(_, result) =>
      (match result.outcome case Admitted => Running case Deferred => Waiting case Rejection => Terminal)
    case AcquireLease(_, _) => run.phase
    case Heartbeat(_, _, _) => run.phase
    case RegisterWait(_, _, _, _) => Waiting
    case Resume(_, to, _) => to
    case ScheduleRetry(_, _) => Retrying
    case Pause(_, _) => Paused
    case Cancel(_) => Terminal
    case CommitTerminal(_, _, _, _, _) => Terminal
  }

  /** A plan for a phase, carrying an admission result or none. */
  predicate PlansFor(decision: Result<Plan, RunError>, phase: Phase, admission: Option<ValidAdmission>) {
    decision.Ok? ==> decision.value.record.phase == phase && (decision.value.Write? ==> decision.value.admission == admission)
  }

  lemma TransitionAccepts(run: RunRecord, to: Phase, clearWait: bool, env: Env, draw: nat, before: seq<Event>,
                          admission: Option<ValidAdmission>, body: EventBody)
    requires RecordInv(run)
    ensures var d := DecideTransition(run, to, clearWait, env, draw, before, admission, body);
            && (d.Ok? <==> CanTransition(run.phase, to) && to !in {Waiting, Terminal})
            && PlansFor(d, to, admission)
  {
    hide Entry;
  }

  lemma WaitAccepts(run: RunRecord, reason: WaitReason, refs: seq<string>, origin: Option<WaitOrigin>, env: Env,
                    draw: nat, before: seq<Event>, admission: Option<ValidAdmission>)
    requires RecordInv(run)
    ensures var d := DecideWait(run, reason, refs, origin, env, draw, before, admission);
            (d.Ok? <==> Executing(run.phase) && refs != []) && PlansFor(d, Waiting, admission)
  {
    hide Entry;
  }

  lemma TerminalAccepts(run: RunRecord, disposition: Disposition, reasons: seq<string>, resultRef: Option<string>,
                        errorRef: Option<string>, env: Env, draw: nat, before: seq<Event>,
                        admission: Option<ValidAdmission>)
    requires RecordInv(run)
    ensures var d := DecideTerminal(run, disposition, reasons, resultRef, errorRef, env, draw, before, admission);
            && (d.Ok? <==>
                  || (run.phase == Terminal && run.disposition == Some(disposition))
                  || (run.phase !in {Terminal, Waiting} && reasons != []
                      && (disposition == Completed ==> run.phase in {Running, Retrying})))
            && PlansFor(d, Terminal, admission)
            && (run.phase == Waiting && disposition != Completed ==> d == Err(InvalidRecord))
  {
    hide Entry;
  }

  lemma LeaseAccepts(run: RunRecord, command: Command, env: Env)
    requires RecordInv(run) && (command.AcquireLease? || command.Heartbeat?)
    ensures var d := Decide(run, command, env);
            (d.Ok? <==> Accepts(run, command, env)) && PlansFor(d, run.phase, None)
  {
    hide Entry, DecideTransition, DecideWait, DecideTerminal, DecideAdmission;
  }

  lemma AdmissionAccepts(run: RunRecord, result: ValidAdmission, env: Env)
    requires RecordInv(run)
    ensures var d, command := DecideAdmission(run, result, env), ApplyAdmission(run.runId, result);
            && (d.Ok? <==> run.phase == Admitting && env.now < result.expiresAt)
            && PlansFor(d, PhaseAfter(run, command), Some(result))
  {
    hide RecordInv, DecideTransition, DecideWait, DecideTerminal, Entry;
    var rejected := [Entry(run, env, 0, PhaseChanged(Admitting, Terminal, result.reasonCodes))];
    var refs := if result.validationRefs != [] then result.validationRefs else ["admission_deferred"];
    TransitionAccepts(run, Running, false, env, 1, [Entry(run, env, 0, RunAdmitted(result.resultId))], Some(result),
                      PhaseChanged(Admitting, Running, result.reasonCodes));
    WaitAccepts(run, Dependency, refs, Some(AdmissionDeferred), env, 1, rejected, Some(result));
    TerminalAccepts(run, Rejected, result.reasonCodes, None, None, env, 1, rejected, Some(result));
  }

  lemma DecideAccepts(run: RunRecord, command: Command, env: Env)
    requires RecordInv(run) && !command.CreateRun?
    ensures var d := Decide(run, command, env);
            && (d.Ok? <==> Accepts(run, command, env))
            && (d.Ok? ==> d.value.record.phase == PhaseAfter(run, command))
            && (d.Ok? && d.value.Write? ==>
                  d.value.admission == if command.ApplyAdmission? then Some(command.result) else None)
            && (command.Cancel? && run.phase == Waiting ==> d == Err(InvalidRecord))
  {
    if command.AcquireLease? || command.Heartbeat? {
      hide RecordInv, Decide, Accepts;
      LeaseAccepts(run, command, env);
    } else {
      assert run.pendingActionRefs == [];
      hide RecordInv, DecideTransition, DecideWait, DecideTerminal, DecideAdmission, Entry;
      match command
      case BeginAdmission(_) =>
        TransitionAccepts(run, Admitting, false, env, 0, [], None, PhaseChanged(Queued, Admitting, ["admission_started"]));
      case ApplyAdmission(_, result) => AdmissionAccepts(run, result, env);
      case RegisterWait(_, reason, refs, origin) => WaitAccepts(run, reason, refs, origin, env, 0, [], None);
      case Resume(_, to, signalRef) =>
        TransitionAccepts(run, to, true, env, 0, [], None, RunResumed(run.phase, signalRef));
      case ScheduleRetry(_, failureRef) =>
        TransitionAccepts(run, Retrying, false, env, 0, [], None, RetryScheduled(run.attempt, failureRef));
      case Pause(_, reasons) => TransitionAccepts(run, Paused, false, env, 0, [], None, RunPaused(reasons));
      case Cancel(_) => TerminalAccepts(run, Cancelled, ["cancelled_by_actor"], None, None, env, 0, [], None);
      case CommitTerminal(_, disposition, reasons, resultRef, errorRef) =>
        TerminalAccepts(run, disposition, reasons, resultRef, errorRef, env, 0, [], None);
    }
  }

  /**
   * Every command succeeds exactly where its guard allows it, and then leaves the phase it names.
   * In particular a waiting run refuses every terminal disposition; a heartbeat on the current,
   * unexpired lease always builds a valid lease; and applying an admission never stops half way.
   */
  lemma CommandsSucceedExactly(w: World, call: Call)
    requires WorldInv(w) && !call.command.CreateRun? && call.command.runId in w.records
    ensures var run, c := w.records[call.command.runId], call.command;
            && (Step(w, call).1.Ok? <==>
                  Accepts(run, c, call.env) && (c.ApplyAdmission? ==> c.result.resultId !in w.admissions))
            && (Step(w, call).1.Ok? ==>
                  c.runId in Step(w, call).0.records && Step(w, call).0.records[c.runId].phase == PhaseAfter(run, c))
  {
    hide Accepts, PhaseAfter, Decide, RecordInv;
    var run := w.records[call.command.runId];
    DecideAccepts(run, call.command, call.env);
    DecideAdvances(run, call.command, call.env);
  }

  /** Cancelling or repeating a terminal run is a no-op; another disposition is refused. */
  lemma TerminalReplayIsNoOp(w: World, call: Call)
    requires WorldInv(w) && !call.command.CreateRun? && call.command.runId in w.records
    requires w.records[call.command.runId].phase == Terminal
    ensures var run := w.records[call.command.runId];
            && (call.command.Cancel? ==> Step(w, call) == (w, Ok(run)))
            && (call.command.CommitTerminal? ==>
                  Step(w, call) == (w, if run.disposition == Some(call.command.disposition)
                                       then Ok(run) else Err(TerminalConflict)))
  {
    hide DecideAdmission, DecideWait, DecideTransition, DecideAcquire, DecideHeartbeat;
  }

  // ---------------------------------------------------------------------
  // The transition table against the code
  // ---------------------------------------------------------------------

  /** Some history takes run `r` from phase `from` to another phase `to` in its last call. */
  ghost predicate MovesBetween(calls: seq<Call>, call: Call, r: RunId, from: Phase, to: Phase) {
    var before, after := Exec(calls), Exec(calls + [call]);
    && r in before.records && r in after.records
    && before.records[r].phase == from
    && after.records[r].phase == to
  }

  ghost predicate EdgeTaken(from: Phase, to: Phase) {
    from != to && exists calls, call, r :: MovesBetween(calls, call, r, from, to)
  }

  const BINDING := Binding("task:1", "agent:1", "adapter:1", "release:1", "budget:1")

  /** An admission result of a given kind. */
  function SampleAdmission(outcome: AdmissionOutcome): ValidAdmission {
    AdmissionResult("run-admission:1", outcome, [], ["checked"], 300)
  }

  function SampleEnv(ticket: nat): Env { Env(0, ticket) }

  /** A history that brings run 0 to each phase. */
  function PathTo(phase: Phase): seq<Call> {
    var queued := [Call(CreateRun(BINDING), SampleEnv(0))];
    var admitting := queued + [Call(BeginAdmission(0), SampleEnv(1))];
    var running := admitting + [Call(ApplyAdmission(0, SampleAdmission(Admitted)), SampleEnv(2))];
    match phase
    case Queued => queued
    case Admitting => admitting
    case Running => running
    case Waiting => admitting + [Call(ApplyAdmission(0, SampleAdmission(Deferred)), SampleEnv(2))]
    case Retrying => running + [Call(ScheduleRetry(0, "failure:1"), SampleEnv(3))]
    case Paused => running + [Call(Pause(0, ["operator"]), SampleEnv(3))]
    case Terminal => queued + [Call(Cancel(0), SampleEnv(1))]
  }

  /** The phase just before the last call of a path. */
  function Earlier(phase: Phase): Phase {
    match phase
    case Running => Admitting
    case Waiting => Admitting
    case Retrying => Running
    case Paused => Running
    case _ => Queued
  }

  lemma PathReaches(phase: Phase)
    ensures 0 in Exec(PathTo(phase)).records && Exec(PathTo(phase)).records[0].phase == phase
    decreases match phase case Queued => 0 case Admitting => 1 case Terminal => 1
                          case Running => 2 case Waiting => 2 case _ => 3
  {
    var earlier := Earlier(phase);
    var previous := if phase == Queued then [] else PathTo(earlier);
    var call := PathTo(phase)[|previous|];
    assert PathTo(phase) == previous + [call];
    ExecAppend(previous, call);
    ReachableInv(previous);
    if phase != Queued {
      PathReaches(earlier);
      NoAdmissionYet();
      PathStep(Exec(previous), phase, call);
    }
  }

  /** The last call of each path, from any state that holds what the previous path reaches. */
  lemma PathStep(w: World, phase: Phase, call: Call)
    requires WorldInv(w) && 0 in w.records && phase != Queued
    requires var path := PathTo(phase); call == path[|path| - 1]
    requires w.records[0].phase == Earlier(phase)
    requires phase in {Running, Waiting} ==> w.admissions == map[]
    ensures var after := Step(w, call).0;
            0 in after.records && after.records[0].phase == phase
  {
    hide Step;
    CommandsSucceedExactly(w, call);
  }

  lemma NoAdmissionYet()
    ensures Exec(PathTo(Admitting)).admissions == map[]
  {
    var create, begin := Call(CreateRun(BINDING), SampleEnv(0)), Call(BeginAdmission(0), SampleEnv(1));
    assert PathTo(Admitting) == [] + [create] + [begin];
    ExecAppend([], create);
    ExecAppend([] + [create], begin);
  }

  /** A command that takes a run from one phase to another, for every table edge but one. */
  function MoveTo(to: Phase): Command {
    match to
    case Waiting => RegisterWait(0, Approval, ["condition:1"], None)
    case Terminal => Cancel(0)
    case _ => Resume(0, to, "signal:1")
  }

  lemma MoveWorks(w: World, to: Phase)
    requires WorldInv(w) && 0 in w.records
    requires CanTransition(w.records[0].phase, to) && !(w.records[0].phase == Waiting && to == Terminal)
    ensures var after := Step(w, Call(MoveTo(to), SampleEnv(9))).0;
            0 in after.records && after.records[0].phase == to
  {
    hide Step;
    CommandsSucceedExactly(w, Call(MoveTo(to), SampleEnv(9)));
  }

  lemma TableEdgeIsTaken(from: Phase, to: Phase)
    requires CanTransition(from, to) && !(from == Waiting && to == Terminal)
    ensures EdgeTaken(from, to)
  {
    var calls := PathTo(from);
    PathReaches(from);
    EdgeFromPath(calls, from, to);
  }

  lemma EdgeFromPath(calls: seq<Call>, from: Phase, to: Phase)
    requires CanTransition(from, to) && !(from == Waiting && to == Terminal)
    requires 0 in Exec(calls).records && Exec(calls).records[0].phase == from
    ensures EdgeTaken(from, to)
  {
    hide Step;
    var call := Call(MoveTo(to), SampleEnv(9));
    ReachableInv(calls);
    ExecAppend(calls, call);
    MoveWorks(Exec(calls), to);
    assert MovesBetween(calls, call, 0, from, to);
  }

  /**
   * The phase changes that histories make are the table's, less waiting to terminal: the table
   * lists that edge, but a waiting record keeps its wait reason through the replacement and the
   * record constructor refuses it.
   */
  lemma EdgesTakenExactly(from: Phase, to: Phase)
    ensures EdgeTaken(from, to) <==> CanTransition(from, to) && !(from == Waiting && to == Terminal)
  {
    if EdgeTaken(from, to) {
      var calls, call, r :| MovesBetween(calls, call, r, from, to);
      ReachableInv(calls);
      ExecAppend(calls, call);
      StepTouchesOneRecord(Exec(calls), call);
    }
    if CanTransition(from, to) && !(from == Waiting && to == Terminal) {
      TableEdgeIsTaken(from, to);
    }
  }

  /** The witness: cancelling a run whose admission was deferred fails in the constructor. */
  lemma WaitingRunCannotBeCancelled()
    ensures var w := Exec(PathTo(Waiting));
            && CanTransition(Waiting, Terminal)
            && Step(w, Call(Cancel(0), SampleEnv(3))) == (w, Err(InvalidRecord))
  {
    PathReaches(Waiting);
    ReachableInv(PathTo(Waiting));
    hide Exec, Decide, RecordInv;
    DecideAccepts(Exec(PathTo(Waiting)).records[0], Cancel(0), SampleEnv(3));
  }

  /** Where runs come from when they enter a phase. */
  function Origins(to: Phase): set<Phase> {
    match to
    case Queued => {}
    case Admitting => {Queued, Waiting, Paused}
    case Running => {Admitting, Waiting, Retrying, Paused}
    case Waiting => {Admitting, Running, Retrying}
    case Retrying => {Running, Waiting}
    case Paused => {Running, Waiting, Retrying}
    case Terminal => {Queued, Admitting, Running, Retrying, Paused}
  }

  /** Over all histories a phase is entered from exactly these phases. */
  lemma EnteredExactly(from: Phase, to: Phase)
    ensures EdgeTaken(from, to) <==> from in Origins(to)
  {
    hide EdgeTaken;
    EdgesTakenExactly(from, to);
  }
}
