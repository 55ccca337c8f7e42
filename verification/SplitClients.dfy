/**
 * Clients that interleave: each command reads a snapshot, decides, and later writes with the
 * snapshot's revision as the expected one. The interleaved system refines the atomic one.
 */
module SplitClients {
  import opened Common
  import opened RunObjects
  import opened RunProtocol
  import opened RunHistory
  import opened RunLeases

  type Client = nat

  /** A command between its read and its write. */
  datatype Pending = Pending(call: Call, snapshot: RunRecord, plan: Plan)

  /** `log` lists the commands that took effect, in the order in which they did. */
  datatype System = System(world: World, pending: map<Client, Pending>, log: seq<Call>)

  const IDLE := System(EMPTY_WORLD, map[], [])

  datatype Action =
    | Alone(call: Call)
    | Reads(client: Client, call: Call)
    | Commits(client: Client)
    | Abandons(client: Client)

  /** `create_run` and `begin_admission` do not compare revisions; they run in one piece. */
  predicate Splits(command: Command) {
    !command.CreateRun? && !command.BeginAdmission?
  }

  /** The repository's conditional update. */
  function ConditionalCommit(w: World, snapshot: RunRecord, plan: Plan): (World, Result<RunRecord, RunError>) {
    if plan.Keep? then (w, Ok(plan.record))
    else if plan.record.runId !in w.records then (w, Err(NotFound))
    else if w.records[plan.record.runId].revision != snapshot.revision then (w, Err(RevisionConflict))
    else Commit(w, plan)
  }

  function Next(s: System, action: Action): System {
    match action
    case Alone(call) =>
      if Splits(call.command) then s
      else if Step(s.world, call).1.Err? then s
      else s.(world := Step(s.world, call).0, log := s.log + [call])
    case Reads(client, call) =>
      if !Splits(call.command) || client in s.pending || call.command.runId !in s.world.records then s
      else
        var snapshot := s.world.records[call.command.runId];
        (match Decide(snapshot, call.command, call.env)
         case Err(_) => s
         case Ok(plan) => s.(pending := s.pending[client := Pending(call, snapshot, plan)]))
    case Commits(client) =>
      if client !in s.pending then s
      else
        var p := s.pending[client];
        var (world, result) := ConditionalCommit(s.world, p.snapshot, p.plan);
        System(world, s.pending - {client}, if result.Ok? then s.log + [p.call] else s.log)
    case Abandons(client) => s.(pending := s.pending - {client})
  }

  function Play(actions: seq<Action>): System {
    if actions == [] then IDLE
    else Next(Play(actions[..|actions| - 1]), actions[|actions| - 1])
  }

  // ---------------------------------------------------------------------
  // Refinement
  // ---------------------------------------------------------------------

  ghost predicate PendingInv(w: World, p: Pending) {
    && Splits(p.call.command)
    && p.call.command.runId in w.records
    && p.snapshot.runId == p.call.command.runId
    && RecordInv(p.snapshot)
    && Decide(p.snapshot, p.call.command, p.call.env) == Ok(p.plan)
    && Continues(p.snapshot, w.records[p.call.command.runId])
  }

  ghost predicate SystemInv(s: System) {
    && s.world == Exec(s.log)
    && WorldInv(s.world)
    && forall client <- s.pending :: PendingInv(s.world, s.pending[client])
  }

  /** A write that the repository accepts replaces exactly the record it was computed from. */
  lemma WriteReplacesItsSnapshot(w: World, p: Pending)
    requires WorldInv(w) && PendingInv(w, p)
    ensures var (after, result) := ConditionalCommit(w, p.snapshot, p.plan);
            && (result.Err? ==> after == w)
            && (result.Ok? ==> w.records[p.call.command.runId] == p.snapshot && Step(w, p.call) == (after, result))
            && (result == Err(RevisionConflict) <==> p.plan.Write? && w.records[p.call.command.runId] != p.snapshot)
  {
    hide Decide, RecordInv;
    DecideAdvances(p.snapshot, p.call.command, p.call.env);
  }

  /** A write whose snapshot is still the stored record is the command running alone. */
  lemma CurrentWriteRunsAlone(w: World, p: Pending)
    requires WorldInv(w) && PendingInv(w, p) && w.records[p.call.command.runId] == p.snapshot
    ensures ConditionalCommit(w, p.snapshot, p.plan) == Step(w, p.call)
  {
    hide Decide, RecordInv;
    DecideAdvances(p.snapshot, p.call.command, p.call.env);
  }

  lemma PendingSurvives(w: World, call: Call, p: Pending)
    requires WorldInv(w) && PendingInv(w, p)
    ensures PendingInv(Step(w, call).0, p)
  {
    StepTouchesOneRecord(w, call);
    hide Step, RecordInv, Decide;
  }

  lemma NextKeepsInv(s: System, action: Action)
    requires SystemInv(s)
    ensures SystemInv(Next(s, action))
  {
    hide RecordInv, PendingInv, Decide;
    match action
    case Alone(call) => EffectKeepsInv(s, call);
    case Reads(client, call) =>
      if Next(s, action) != s {
        assert PendingInv(s.world, Next(s, action).pending[client]) by { ReadStarts(s.world, call); }
      }
    case Commits(client) =>
      if client in s.pending {
        var p := s.pending[client];
        WriteReplacesItsSnapshot(s.world, p);
        hide ConditionalCommit;
        EffectKeepsInv(s, p.call);
      }
    case Abandons(_) =>
  }

  lemma ReadStarts(w: World, call: Call)
    requires WorldInv(w) && Splits(call.command) && call.command.runId in w.records
    requires Decide(w.records[call.command.runId], call.command, call.env).Ok?
    ensures var snapshot := w.records[call.command.runId];
            PendingInv(w, Pending(call, snapshot, Decide(snapshot, call.command, call.env).value))
  {
    hide Decide;
  }

  /** A command taking effect, whichever way, keeps every other client's snapshot meaningful. */
  lemma EffectKeepsInv(s: System, call: Call)
    requires SystemInv(s)
    ensures var after := Step(s.world, call).0;
            && after == Exec(s.log + [call]) && WorldInv(after)
            && forall client <- s.pending :: PendingInv(after, s.pending[client])
  {
    hide Step, PendingInv, RecordInv;
    ExecAppend(s.log, call);
    StepKeepsInv(s.world, call);
    forall client <- s.pending ensures PendingInv(Step(s.world, call).0, s.pending[client]) {
      PendingSurvives(s.world, call, s.pending[client]);
    }
  }

  /** Under every interleaving, the state is the one of an atomic history: the logged commands. */
  lemma {:induction false} InterleavingRefinesAtomic(actions: seq<Action>)
    ensures SystemInv(Play(actions))
  {
    if actions != [] {
      hide SystemInv, Next;
      InterleavingRefinesAtomic(actions[..|actions| - 1]);
      NextKeepsInv(Play(actions[..|actions| - 1]), actions[|actions| - 1]);
    } else {
      assert Play(actions) == IDLE;
    }
  }

  /**
   * No lost update: in every interleaving, a command takes effect exactly when the record it was
   * decided from is still the stored one, and then the outcome is the one the command would have had
   * alone at that moment; otherwise nothing changes.
   */
  lemma NoLostUpdate(actions: seq<Action>, client: Client)
    requires client in Play(actions).pending
    ensures var s := Play(actions);
            var p, after := s.pending[client], Next(s, Commits(client));
            && !p.call.command.CreateRun?
            && p.call.command.runId in s.world.records
            && var current := s.world.records[p.call.command.runId];
            && (after.log != s.log <==> current == p.snapshot && Step(s.world, p.call).1.Ok?)
            && after.world == (if current == p.snapshot then Step(s.world, p.call).0 else s.world)
  {
    InterleavingRefinesAtomic(actions);
    var s := Play(actions);
    assert PendingInv(s.world, s.pending[client]);
    hide RecordInv, Decide, Step, Play, Exec, ConditionalCommit;
    LandsExactly(s.world, s.pending[client]);
  }

  /** The conditional update, by whether the snapshot is current. */
  lemma LandsExactly(w: World, p: Pending)
    requires WorldInv(w) && PendingInv(w, p)
    ensures var (after, result) := ConditionalCommit(w, p.snapshot, p.plan);
            var current := w.records[p.call.command.runId];
            && (result.Ok? <==> current == p.snapshot && Step(w, p.call).1.Ok?)
            && after == (if current == p.snapshot then Step(w, p.call).0 else w)
  {
    WriteReplacesItsSnapshot(w, p);
    if w.records[p.call.command.runId] == p.snapshot {
      CurrentWriteRunsAlone(w, p);
    }
    hide Step, ConditionalCommit, RecordInv, Decide;
  }

  /** One record per revision number also holds of interleaved clients. */
  lemma InterleavedRevisions(actions: seq<Action>, r: RunId)
    requires r in Play(actions).world.records
    ensures var s := Play(actions);
            var versions := Versions(s.log, r);
            && 0 < |versions| == s.world.records[r].revision
            && versions[|versions| - 1] == s.world.records[r]
            && forall i | 0 <= i < |versions| :: versions[i].revision == i + 1
  {
    InterleavingRefinesAtomic(actions);
    OneRecordPerRevision(Play(actions).log, r);
    hide Exec, Play, Step;
  }

  /**
   * On a run that is not terminal a cancel decides what the terminal commit it calls decides. So a
   * cancel that reads again before it writes is a terminal commit that read at that later moment.
   */
  lemma CancelIsItsCommit(run: RunRecord, r: RunId, env: Env)
    requires RecordInv(run) && run.phase != Terminal
    ensures Decide(run, Cancel(r), env) ==
            Decide(run, CommitTerminal(r, Cancelled, ["cancelled_by_actor"], None, None), env)
  {
    hide DecideTransition, DecideWait, DecideAdmission, DecideAcquire, DecideHeartbeat, DecideTerminal;
  }

  // ---------------------------------------------------------------------
  // Why begin_admission must run in one piece
  // ---------------------------------------------------------------------

  /** What `begin_admission` would write if its read and its write were apart: no revision is compared. */
  function UncheckedCommit(w: World, plan: Plan): World {
    Commit(w, plan).0
  }

  /**
   * Writing without an expected revision has the atomic effect exactly when nothing was committed
   * on the run since the read; otherwise it overwrites what was.
   */
  lemma UncheckedCommitIsAtomicExactly(w: World, call: Call, snapshot: RunRecord)
    requires WorldInv(w) && call.command.BeginAdmission? && call.command.runId in w.records
    requires RecordInv(snapshot) && Decide(snapshot, call.command, call.env).Ok?
    requires Continues(snapshot, w.records[call.command.runId])
    ensures var plan := Decide(snapshot, call.command, call.env).value;
            UncheckedCommit(w, plan) == Step(w, call).0 <==> w.records[call.command.runId] == snapshot
  {
    var r := call.command.runId;
    var plan := Decide(snapshot, call.command, call.env).value;
    DecideAdvances(snapshot, call.command, call.env);
    DecideAdvances(w.records[r], call.command, call.env);
    BeginAdmissionWrites(snapshot, call);
    assert UncheckedCommit(w, plan).records[r].revision == snapshot.revision + 1;
    hide Decide;
    if Step(w, call).1.Err? {
      assert |UncheckedCommit(w, plan).outbox| == |w.outbox| + 1;
    } else {
      BeginAdmissionWrites(w.records[r], call);
      assert Step(w, call).0.records[r].revision == w.records[r].revision + 1;
    }
  }

  lemma BeginAdmissionWrites(run: RunRecord, call: Call)
    requires call.command.BeginAdmission? && Decide(run, call.command, call.env).Ok?
    ensures var plan := Decide(run, call.command, call.env).value;
            plan.Write? && plan.record.runId == run.runId && |plan.events| == 1 && plan.admission == None
  {
  }

  /** The witness: a cancellation committed in between disappears, and the terminal run is admitting again. */
  lemma UncheckedAdmissionUndoesCancel(w: World, r: RunId, begin: Env, cancel: Env)
    requires WorldInv(w) && r in w.records && w.records[r].phase == Queued
    ensures var plan := Decide(w.records[r], BeginAdmission(r), begin);
            var cancelled := Step(w, Call(Cancel(r), cancel)).0;
            && plan.Ok?
            && r in cancelled.records && cancelled.records[r].phase == Terminal
            && r in UncheckedCommit(cancelled, plan.value).records
            && UncheckedCommit(cancelled, plan.value).records[r].phase == Admitting
  {
    DecideAccepts(w.records[r], BeginAdmission(r), begin);
    BeginAdmissionWrites(w.records[r], Call(BeginAdmission(r), begin));
    hide Decide, Step;
    CommandsSucceedExactly(w, Call(Cancel(r), cancel));
  }

  // ---------------------------------------------------------------------
  // Fresh identifiers survive the reordering
  // ---------------------------------------------------------------------

  function TicketsOf(action: Action): set<nat> {
    if action.Alone? || action.Reads? then {action.call.env.ticket} else {}
  }

  function Tickets(actions: seq<Action>): set<nat> {
    if actions == [] then {}
    else Tickets(actions[..|actions| - 1]) + TicketsOf(actions[|actions| - 1])
  }

  /** No two invocations of the interleaved run draw the same ticket. */
  ghost predicate FreshActions(actions: seq<Action>) {
    actions == [] ||
    var init := actions[..|actions| - 1];
    FreshActions(init) && TicketsOf(actions[|actions| - 1]) !! Tickets(init)
  }

  ghost predicate TicketInv(s: System, drawn: set<nat>) {
    && FreshTickets(s.log)
    && (forall call <- s.log :: call.env.ticket in drawn)
    && (forall c <- s.pending :: s.pending[c].call.env.ticket in drawn)
    && (forall c <- s.pending, call <- s.log :: s.pending[c].call.env.ticket != call.env.ticket)
    && (forall c <- s.pending, d <- s.pending | c != d ::
          s.pending[c].call.env.ticket != s.pending[d].call.env.ticket)
  }

  /** The atomic history behind an interleaving has fresh tickets too, so the lease results apply to it. */
  lemma {:induction false} LogIsFresh(actions: seq<Action>)
    requires FreshActions(actions)
    ensures TicketInv(Play(actions), Tickets(actions))
  {
    if actions != [] {
      hide TicketInv, Next;
      LogIsFresh(actions[..|actions| - 1]);
      NextIsFresh(Play(actions[..|actions| - 1]), actions[|actions| - 1], Tickets(actions[..|actions| - 1]));
    } else {
      assert Play(actions) == IDLE;
    }
  }

  lemma NextIsFresh(s: System, action: Action, drawn: set<nat>)
    requires TicketInv(s, drawn) && TicketsOf(action) !! drawn
    ensures TicketInv(Next(s, action), drawn + TicketsOf(action))
  {
    hide Step, Decide, ConditionalCommit;
    match action
    case Alone(call) => AppendIsFresh(s.log, call);
    case Commits(client) =>
      if client in s.pending {
        AppendIsFresh(s.log, s.pending[client].call);
      }
    case _ =>
  }

  lemma AppendIsFresh(log: seq<Call>, call: Call)
    requires FreshTickets(log) && forall other <- log :: other.env.ticket != call.env.ticket
    ensures FreshTickets(log + [call])
  {
  }
}
