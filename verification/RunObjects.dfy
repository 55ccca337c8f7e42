/** The Run aggregate, its lease, its events and the closed transition table. */
module RunObjects {
  import opened Common

  type RunId = nat
  type LeaseId = nat

  datatype Phase = Queued | Admitting | Running | Waiting | Retrying | Paused | Terminal

  datatype Disposition = Completed | Rejected | Incomplete | Failed | Cancelled

  datatype WaitReason = UserInput | ToolResult | Approval | Dependency | Capacity | Reconciliation

  datatype WaitOrigin = AdmissionDeferred | AdmittedExecution

  /** The transition table: any pair that is not listed is rejected. */
  function Transitions(from: Phase): set<Phase> {
    match from
    case Queued => {Admitting, Terminal}
    case Admitting => {Running, Waiting, Terminal}
    case Running => {Waiting, Retrying, Paused, Terminal}
    case Waiting => {Admitting, Running, Retrying, Paused, Terminal}
    case Retrying => {Running, Waiting, Paused, Terminal}
    case Paused => {Admitting, Running, Terminal}
    case Terminal => {}
  }

  predicate CanTransition(from: Phase, to: Phase) {
    to in Transitions(from)
  }

  /** An execution lease. Moments are seconds on one clock. */
  datatype RunLease = RunLease(
    leaseId: LeaseId,
    holderId: string,
    fencingToken: int,
    acquiredAt: int,
    heartbeatAt: int,
    expiresAt: int)
  {
    /** The checks of the lease constructor. */
    predicate Valid() {
      && holderId != ""
      && fencingToken >= 1
      && acquiredAt <= heartbeatAt < expiresAt
    }

    predicate HeldAt(moment: int) {
      acquiredAt <= moment < expiresAt
    }
  }

  /** What is frozen when a run is created. */
  datatype Binding = Binding(
    taskId: string,
    agentRef: string,
    runtimeAdapterRef: string,
    releaseId: string,
    budgetSnapshotRef: string)

  datatype RunRecord = RunRecord(
    runId: RunId,
    binding: Binding,
    phase: Phase,
    disposition: Option<Disposition>,
    waitReason: Option<WaitReason>,
    waitConditionRefs: seq<string>,
    waitOrigin: Option<WaitOrigin>,
    attempt: int,
    pendingActionRefs: seq<string>,
    resultRef: Option<string>,
    errorRef: Option<string>,
    terminalReasonCodes: seq<string>,
    revision: int,
    sequence: int,
    lease: Option<RunLease>,
    updatedAt: int)
  {
    /** The checks of the record constructor, which every `replace` runs again. */
    predicate Valid() {
      && (disposition.Some? ==> phase == Terminal)
      && (phase == Terminal ==> disposition.Some?)
      && (waitReason.Some? ==> phase == Waiting)
      && (phase == Waiting ==> waitConditionRefs != [])
      && (disposition.Some? ==> terminalReasonCodes != [])
      && attempt >= 1
      && revision >= 1
      && (lease.Some? ==> phase !in {Queued, Waiting, Paused})
      && (waitOrigin.Some? ==> phase == Waiting)
    }
  }

  /** A fresh event identifier: the invocation that drew it, and which of its draws. */
  datatype EventId = EventId(ticket: nat, draw: nat)

  datatype EventBody =
    | RunCreated(taskId: string)
    | RunAdmitted(admissionRef: string)
    | PhaseChanged(fromPhase: Phase, toPhase: Phase, reasonCodes: seq<string>)
    | WaitRegistered(waitReason: WaitReason, conditionRefs: seq<string>)
    | RunResumed(resumedFrom: Phase, resumeSignalRef: string)
    | RetryScheduled(attempt: int, failureRef: string)
    | RunPaused(pauseReasons: seq<string>)
    | TerminalCommitted(disposition: Disposition, terminalReasons: seq<string>)

  /** An outbox entry of the Run aggregate. */
  datatype Event = Event(
    eventId: EventId,
    runId: RunId,
    aggregateVersion: int,
    sequence: int,
    body: EventBody)
}
