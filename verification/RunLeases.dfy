/** Leases and fencing tokens over whole histories. */
module RunLeases {
  import opened Common
  import opened RunObjects
  import opened RunProtocol
  import opened RunHistory
  import opened RunEvents

  /** No two invocations draw the same fresh identifiers. */
  ghost predicate FreshTickets(calls: seq<Call>) {
    forall i, j | 0 <= i < j < |calls| :: calls[i].env.ticket != calls[j].env.ticket
  }

  function LeaseOf(w: World, r: RunId): Option<RunLease> {
    if r in w.records then w.records[r].lease else None
  }

  predicate HoldsLease(w: World, r: RunId, leaseId: LeaseId) {
    LeaseOf(w, r).Some? && LeaseOf(w, r).value.leaseId == leaseId
  }

  predicate AcquiredOn(w: World, call: Call, r: RunId) {
    call.command.AcquireLease? && call.command.runId == r && Step(w, call).1.Ok?
  }

  /** One command drops a lease, keeps it (perhaps extended), or acquires a fresh one. */
  lemma StepLease(w: World, call: Call, r: RunId)
    requires WorldInv(w)
    ensures var before, after := LeaseOf(w, r), LeaseOf(Step(w, call).0, r);
            if AcquiredOn(w, call, r) then
              && after.Some? && after.value.leaseId == call.env.ticket
              && after.value.fencingToken == (if before.Some? then before.value.fencingToken else 0) + 1
            else
              after.Some? ==>
                && before.Some?
                && after.value.leaseId == before.value.leaseId
                && after.value.holderId == before.value.holderId
                && after.value.fencingToken == before.value.fencingToken
  {
    hide RecordInv;
    if !call.command.CreateRun? && call.command.runId in w.records {
      DecideLease(w.records[call.command.runId], call.command, call.env);
      hide Decide;
      StepRecord(w, call);
    }
  }

  lemma DecideLease(run: RunRecord, command: Command, env: Env)
    requires RecordInv(run) && !command.CreateRun?
    ensures Decide(run, command, env).Ok? ==>
            var before, after := run.lease, Decide(run, command, env).value.record.lease;
            if command.AcquireLease? then
              && after.Some? && after.value.leaseId == env.ticket
              && after.value.fencingToken == (if before.Some? then before.value.fencingToken else 0) + 1
            else
              after.Some? ==>
                && before.Some?
                && after.value.leaseId == before.value.leaseId
                && after.value.holderId == before.value.holderId
                && after.value.fencingToken == before.value.fencingToken
  {
  }

  /** The record an accepted command leaves is the decided one; a refused command leaves it alone. */
  lemma StepRecord(w: World, call: Call)
    requires WorldInv(w) && !call.command.CreateRun? && call.command.runId in w.records
    ensures var c := call.command;
            var decision := Decide(w.records[c.runId], c, call.env);
            var (after, result) := Step(w, call);
            && c.runId in after.records
            && (result.Ok? ==> decision.Ok? && after.records[c.runId] == decision.value.record)
            && (result.Err? ==> after == w)
            && (forall r <- w.records | r != c.runId :: r in after.records && after.records[r] == w.records[r])
            && after.records.Keys == w.records.Keys
  {
    hide Decide;
    DecideAdvances(w.records[call.command.runId], call.command, call.env);
  }

  /** A lease id was drawn by an earlier invocation. */
  lemma {:induction false} LeaseIdsWereDrawn(calls: seq<Call>, r: RunId)
    requires LeaseOf(Exec(calls), r).Some?
    ensures exists i | 0 <= i < |calls| :: calls[i].env.ticket == LeaseOf(Exec(calls), r).value.leaseId
  {
    assert calls != [];
    var init, call := calls[..|calls| - 1], calls[|calls| - 1];
    ReachableInv(init);
    StepLease(Exec(init), call, r);
    hide Step;
    if AcquiredOn(Exec(init), call, r) {
      assert call.env.ticket == LeaseOf(Exec(calls), r).value.leaseId;
    } else {
      LeaseIdsWereDrawn(init, r);
      var i :| 0 <= i < |init| && init[i].env.ticket == LeaseOf(Exec(init), r).value.leaseId;
      assert calls[i] == init[i];
    }
  }

  /**
   * A lease that was current at moment `i` and no longer is at moment `j` - replaced by another
   * acquire, or dropped by a wait, a pause or a terminal commit - is never current again.
   */
  lemma {:induction false} LostLeaseNeverReturns(calls: seq<Call>, i: nat, j: nat, r: RunId, leaseId: LeaseId)
    requires FreshTickets(calls) && i <= j <= |calls|
    requires HoldsLease(Exec(calls[..i]), r, leaseId)
    requires !HoldsLease(Exec(calls[..j]), r, leaseId)
    ensures !HoldsLease(Exec(calls), r, leaseId)
  {
    hide Step;
    if j == |calls| {
      assert calls[..j] == calls;
    } else {
      var init, call := calls[..|calls| - 1], calls[|calls| - 1];
      assert init[..i] == calls[..i] && init[..j] == calls[..j];
      LostLeaseNeverReturns(init, i, j, r, leaseId);
      LeaseIdsWereDrawn(calls[..i], r);
      var d :| 0 <= d < i && calls[..i][d].env.ticket == leaseId;
      assert calls[d].env.ticket == leaseId;
      ReachableInv(init);
      StepLease(Exec(init), call, r);
    }
  }

  /** A holder whose lease was lost cannot heartbeat any more, whatever token it presents. */
  lemma LostLeaseCannotHeartbeat(calls: seq<Call>, i: nat, j: nat, r: RunId, leaseId: LeaseId, call: Call)
    requires FreshTickets(calls) && i <= j <= |calls|
    requires HoldsLease(Exec(calls[..i]), r, leaseId)
    requires !HoldsLease(Exec(calls[..j]), r, leaseId)
    requires call.command.Heartbeat? && call.command.runId == r && call.command.leaseId == leaseId
    ensures Step(Exec(calls), call).1.Err?
  {
    LostLeaseNeverReturns(calls, i, j, r, leaseId);
    ReachableInv(calls);
    hide Exec;
    if r in Exec(calls).records {
      CommandsSucceedExactly(Exec(calls), call);
    }
  }

  // ---------------------------------------------------------------------
  // Fencing tokens
  // ---------------------------------------------------------------------

  /** How many acquires on `r` were accepted from moment `i` on. */
  function AcquiresFrom(calls: seq<Call>, i: nat, r: RunId): nat {
    if |calls| <= i then 0
    else
      var init := calls[..|calls| - 1];
      AcquiresFrom(init, i, r) + Bit(AcquiredOn(Exec(init), calls[|calls| - 1], r))
  }

  /** The run holds some lease at every moment from `i` on. */
  ghost predicate LeasedSince(calls: seq<Call>, i: nat, r: RunId) {
    forall k | i <= k <= |calls| :: LeaseOf(Exec(calls[..k]), r).Some?
  }

  /** While a run is never without a lease, its token counts the acquires: each raises it by one. */
  lemma {:induction false} TokenCountsAcquires(calls: seq<Call>, i: nat, r: RunId)
    requires i <= |calls| && LeasedSince(calls, i, r)
    ensures calls[..|calls|] == calls && LeaseOf(Exec(calls), r).Some?
    ensures LeaseOf(Exec(calls), r).value.fencingToken ==
            LeaseOf(Exec(calls[..i]), r).value.fencingToken + AcquiresFrom(calls, i, r)
  {
    assert calls[..|calls|] == calls;
    if i < |calls| {
      var init := calls[..|calls| - 1];
      assert init[..i] == calls[..i];
      forall k | i <= k <= |init| ensures LeaseOf(Exec(init[..k]), r).Some? {
        assert init[..k] == calls[..k];
      }
      TokenCountsAcquires(init, i, r);
      ReachableInv(init);
      StepLease(Exec(init), calls[|calls| - 1], r);
      hide Step;
    }
  }

  /** Tokens are not monotone across a drop: pausing, resuming and acquiring starts again from 1. */
  lemma TokenRestartsAfterPause(w: World, r: RunId, holderId: string, envs: seq<Env>)
    requires WorldInv(w) && r in w.records && w.records[r].phase == Running
    requires holderId != "" && |envs| == 3
    ensures var paused := Step(w, Call(Pause(r, ["operator"]), envs[0])).0;
            var resumed := Step(paused, Call(Resume(r, Running, "signal"), envs[1])).0;
            var acquired := Step(resumed, Call(AcquireLease(r, holderId), envs[2])).0;
            && LeaseOf(paused, r) == None
            && LeaseOf(acquired, r).Some? && LeaseOf(acquired, r).value.fencingToken == 1
  {
    hide Step, LeaseOf;
    var pause, resume, acquire := Call(Pause(r, ["operator"]), envs[0]), Call(Resume(r, Running, "signal"), envs[1]),
                                  Call(AcquireLease(r, holderId), envs[2]);
    var paused := Step(w, pause).0;
    CommandsSucceedExactly(w, pause);
    StepKeepsInv(w, pause);
    PausedHasNoLease(paused, r);
    var resumed := Step(paused, resume).0;
    CommandsSucceedExactly(paused, resume);
    StepKeepsInv(paused, resume);
    StepLease(paused, resume, r);
    CommandsSucceedExactly(resumed, acquire);
    StepLease(resumed, acquire, r);
  }

  lemma PausedHasNoLease(w: World, r: RunId)
    requires WorldInv(w) && r in w.records && w.records[r].phase in {Queued, Waiting, Paused, Terminal}
    ensures LeaseOf(w, r) == None
  {
  }

  // ---------------------------------------------------------------------
  // Dropped leases
  // ---------------------------------------------------------------------

  lemma DecideDrops(run: RunRecord, command: Command, env: Env)
    requires RecordInv(run) && !command.CreateRun? && run.lease.Some? && Decide(run, command, env).Ok?
    ensures var after := Decide(run, command, env).value.record;
            after.lease == None <==> after.phase in {Waiting, Paused, Terminal}
  {
  }

  /** A held lease is dropped exactly by the commands that leave the run waiting, paused or terminal. */
  lemma DropsLeaseExactly(w: World, call: Call)
    requires WorldInv(w) && !call.command.CreateRun? && Step(w, call).1.Ok? && LeaseOf(w, call.command.runId).Some?
    ensures var r, after := call.command.runId, Step(w, call).0;
            r in after.records && (LeaseOf(after, r) == None <==> after.records[r].phase in {Waiting, Paused, Terminal})
  {
    hide Decide, RecordInv, Step;
    StepRecord(w, call);
    DecideDrops(w.records[call.command.runId], call.command, call.env);
  }

  /** No acquire on `r` is accepted from moment `i` up to moment `j`. */
  ghost predicate NoAcquire(calls: seq<Call>, i: nat, j: nat, r: RunId) {
    forall k: nat | i <= k < j && k < |calls| :: !AcquiredOn(Exec(calls[..k]), calls[k], r)
  }

  lemma KeptAt(calls: seq<Call>, k: nat, r: RunId)
    requires k < |calls| && !AcquiredOn(Exec(calls[..k]), calls[k], r)
    ensures var before, after := LeaseOf(Exec(calls[..k]), r), LeaseOf(Exec(calls[..k + 1]), r);
            after.Some? ==> before.Some? && after.value.fencingToken == before.value.fencingToken
  {
    hide Step, AcquiredOn;
    assert calls[..k + 1][..k] == calls[..k];
    ReachableInv(calls[..k]);
    StepLease(Exec(calls[..k]), calls[k], r);
  }

  /** Without an acquire a lease can only be kept, with its token, or be dropped for good. */
  lemma {:induction false} KeptOrGone(calls: seq<Call>, i: nat, j: nat, r: RunId)
    requires i <= j <= |calls| && NoAcquire(calls, i, j, r)
    ensures LeaseOf(Exec(calls[..j]), r).Some? ==>
              && (forall k | i <= k <= j :: LeaseOf(Exec(calls[..k]), r).Some?)
              && LeaseOf(Exec(calls[..j]), r).value.fencingToken == LeaseOf(Exec(calls[..i]), r).value.fencingToken
    decreases j
  {
    hide Exec, LeaseOf, AcquiredOn;
    if i < j {
      KeptOrGone(calls, i, j - 1, r);
      KeptAt(calls, j - 1, r);
    }
  }

  /** The token right after an accepted acquire. */
  lemma AcquireAt(calls: seq<Call>, i: nat, r: RunId)
    requires i < |calls| && AcquiredOn(Exec(calls[..i]), calls[i], r)
    ensures var before, after := LeaseOf(Exec(calls[..i]), r), LeaseOf(Exec(calls[..i + 1]), r);
            && after.Some? && after.value.fencingToken >= 1
            && after.value.fencingToken == (if before.Some? then before.value.fencingToken else 0) + 1
  {
    hide Step, AcquiredOn;
    assert calls[..i + 1][..i] == calls[..i];
    ReachableInv(calls[..i]);
    StepLease(Exec(calls[..i]), calls[i], r);
  }

  /**
   * From one accepted acquire to the next, the token grows - by one - exactly when the run held a
   * lease at every moment between; otherwise it is 1 again, whatever dropped the lease.
   */
  lemma NextTokenExactly(calls: seq<Call>, i: nat, j: nat, r: RunId)
    requires i < j < |calls|
    requires AcquiredOn(Exec(calls[..i]), calls[i], r) && AcquiredOn(Exec(calls[..j]), calls[j], r)
    requires NoAcquire(calls, i + 1, j, r)
    ensures LeaseOf(Exec(calls[..i + 1]), r).Some? && LeaseOf(Exec(calls[..j + 1]), r).Some?
    ensures var earlier := LeaseOf(Exec(calls[..i + 1]), r).value.fencingToken;
            var later := LeaseOf(Exec(calls[..j + 1]), r).value.fencingToken;
            var held := forall k | i < k <= j :: LeaseOf(Exec(calls[..k]), r).Some?;
            (later > earlier <==> held) && later == if held then earlier + 1 else 1
  {
    hide Exec, LeaseOf, AcquiredOn, NoAcquire;
    AcquireAt(calls, i, r);
    AcquireAt(calls, j, r);
    KeptOrGone(calls, i + 1, j, r);
  }

  /** After any drop, the next accepted acquire starts again from 1. */
  lemma TokenRestartsAfterAnyDrop(calls: seq<Call>, i: nat, call: Call, r: RunId)
    requires i <= |calls| && LeaseOf(Exec(calls[..i]), r) == None && NoAcquire(calls, i, |calls|, r)
    requires AcquiredOn(Exec(calls), call, r)
    ensures var after := Step(Exec(calls), call).0;
            LeaseOf(after, r).Some? && LeaseOf(after, r).value.fencingToken == 1
  {
    KeptOrGone(calls, i, |calls|, r);
    assert calls[..|calls|] == calls;
    ReachableInv(calls);
    StepLease(Exec(calls), call, r);
    hide Step;
  }

  /** How many acquires were accepted since the run last was without a lease. */
  function AcquiresSinceDrop(calls: seq<Call>, r: RunId): nat {
    if calls == [] || LeaseOf(Exec(calls), r) == None then 0
    else
      var init := calls[..|calls| - 1];
      AcquiresSinceDrop(init, r) + Bit(AcquiredOn(Exec(init), calls[|calls| - 1], r))
  }

  /** The token of a held lease is the number of acquires since the run last was without one. */
  lemma {:induction false} TokenIsAcquiresSinceDrop(calls: seq<Call>, r: RunId)
    requires LeaseOf(Exec(calls), r).Some?
    ensures LeaseOf(Exec(calls), r).value.fencingToken == AcquiresSinceDrop(calls, r)
  {
    var init, call := calls[..|calls| - 1], calls[|calls| - 1];
    ReachableInv(init);
    StepLease(Exec(init), call, r);
    hide Step, AcquiredOn;
    if LeaseOf(Exec(init), r).Some? {
      TokenIsAcquiresSinceDrop(init, r);
    }
  }
}
