/** The phase a run's summary shows, against the phase that is stored. */
module RunPhases {
  import opened Common
  import opened RunObjects
  import opened RunProtocol
  import opened RunHistory
  import opened RunEvents
  import opened RunLeases

  /** The phase that a command's events name; most commands announce themselves without naming one. */
  function NamedBy(run: RunRecord, command: Command): Option<Phase> {
    match command
    case BeginAdmission(_) => Some(Admitting)
    case ApplyAdmission(_, result) => Some(if result.outcome == Admitted then Running else Terminal)
    case AcquireLease(_, _) => Some(run.phase)
    case _ => None
  }

  /** The phase named by the last accepted command on `r` that names one. */
  function LastNamed(calls: seq<Call>, r: RunId): Option<Phase> {
    if calls == [] then None
    else
      var init, call := calls[..|calls| - 1], calls[|calls| - 1];
      var w := Exec(init);
      if call.command.CreateRun? || call.command.runId != r || r !in w.records || Step(w, call).1.Err? then
        LastNamed(init, r)
      else if NamedBy(w.records[r], call.command) == None then LastNamed(init, r)
      else NamedBy(w.records[r], call.command)
  }

  /** What a plan's events do to the projected phase. */
  ghost predicate PlanNames(plan: Plan, named: Option<Phase>)
    requires plan.Write?
  {
    && |plan.events| <= 2
    && (forall e <- plan.events :: e.runId == plan.record.runId)
    && (named == None ==> forall e <- plan.events :: !e.body.PhaseChanged?)
    && (named.Some? ==>
          exists i | 0 <= i < |plan.events| :: NamesAt(plan.events, i, named.value))
  }

  ghost predicate NamesAt(events: seq<Event>, i: int, phase: Phase)
    requires 0 <= i < |events|
  {
    && events[i].body.PhaseChanged? && events[i].body.toPhase == phase
    && forall j | 0 <= j < |events| && j != i :: !events[j].body.PhaseChanged?
  }

  lemma DecideNames(run: RunRecord, command: Command, env: Env)
    requires RecordInv(run) && !command.CreateRun?
    requires Decide(run, command, env).Ok? && Decide(run, command, env).value.Write?
    ensures PlanNames(Decide(run, command, env).value, NamedBy(run, command))
  {
    var plan := Decide(run, command, env).value;
    if command.ApplyAdmission? {
      AdmissionNames(run, command.result, env);
    } else {
      hide DecideAdmission;
      if command.BeginAdmission? || command.AcquireLease? {
        assert NamesAt(plan.events, 0, NamedBy(run, command).value);
      }
    }
  }

  lemma AdmissionNames(run: RunRecord, result: ValidAdmission, env: Env)
    requires RecordInv(run)
    requires var d := DecideAdmission(run, result, env); d.Ok? && d.value.Write?
    ensures PlanNames(DecideAdmission(run, result, env).value,
                      Some(if result.outcome == Admitted then Running else Terminal))
  {
    var plan := DecideAdmission(run, result, env).value;
    var i := if result.outcome == Admitted then 1 else 0;
    assert NamesAt(plan.events, i, if result.outcome == Admitted then Running else Terminal);
  }

  lemma PlanMovesPhase(events: seq<Event>, plan: Plan, named: Option<Phase>)
    requires plan.Write? && PlanNames(plan, named)
    ensures Summary(events + plan.events).phase == if named.Some? then named else Summary(events).phase
  {
    var added := plan.events;
    if |added| == 1 {
      assert added == [added[0]];
      SummaryAppend(events, added[0]);
    } else if |added| == 2 {
      assert events + added == events + [added[0]] + [added[1]];
      SummaryAppend(events, added[0]);
      SummaryAppend(events + [added[0]], added[1]);
    } else {
      assert events + added == events;
    }
  }

  /**
   * One accepted command: the projected phase becomes the one it names, or stays what it was. So it
   * is the stored phase after beginning an admission, acquiring a lease or an admission that is not
   * deferred; it is not after a deferred one; and after any other command it is the stored phase
   * exactly when the old projection happens to be the phase the run has now.
   */
  lemma StepProjectsPhase(w: World, call: Call)
    requires WorldInv(w) && !call.command.CreateRun? && call.command.runId in w.records && Step(w, call).1.Ok?
    ensures var r, after := call.command.runId, Step(w, call).0;
            var named := NamedBy(w.records[r], call.command);
            var before, now := Summary(EventsOf(w.outbox, r)).phase, Summary(EventsOf(after.outbox, r)).phase;
            && r in after.records
            && now == (if named.Some? then named else before)
            && (named.Some? ==>
                  (now == Some(after.records[r].phase) <==>
                     !(call.command.ApplyAdmission? && call.command.result.outcome == Deferred)))
            && (named == None ==> (now == Some(after.records[r].phase) <==> before == Some(after.records[r].phase)))
  {
    hide Decide, RecordInv, EventsOf, Accepts, Summary, PlanNames, Commit;
    var run := w.records[call.command.runId];
    StepNamesPhase(w, call, run.runId);
    CommandsSucceedExactly(w, call);
  }

  lemma StepNamesPhase(w: World, call: Call, r: RunId)
    requires WorldInv(w) && !call.command.CreateRun? && call.command.runId in w.records && Step(w, call).1.Ok?
    ensures var run, after := w.records[call.command.runId], Step(w, call).0;
            var named := NamedBy(run, call.command);
            Summary(EventsOf(after.outbox, r)).phase ==
            if r == call.command.runId && named.Some? then named else Summary(EventsOf(w.outbox, r)).phase
  {
    hide Decide, RecordInv, EventsOf, Summary, PlanNames;
    var run := w.records[call.command.runId];
    DecideAdvances(run, call.command, call.env);
    var plan := Decide(run, call.command, call.env).value;
    if plan.Write? {
      DecideNames(run, call.command, call.env);
      WriteNamesPhase(w.outbox, plan, NamedBy(run, call.command), r);
    }
  }

  lemma WriteNamesPhase(log: seq<Event>, plan: Plan, named: Option<Phase>, r: RunId)
    requires plan.Write? && PlanNames(plan, named)
    ensures Summary(EventsOf(log + plan.events, r)).phase ==
            if r == plan.record.runId && named.Some? then named else Summary(EventsOf(log, r)).phase
  {
    hide Summary, EventsOf;
    EventsAllOf(plan.events, plan.record.runId, r);
    EventsOfConcat(log, plan.events, r);
    var events := EventsOf(log, r);
    if r == plan.record.runId {
      PlanMovesPhase(events, plan, named);
    } else {
      assert events + [] == events;
    }
  }

  /**
   * In every history the projected phase is the one named last: by beginning an admission, by its
   * outcome - where deferred and rejected both name terminal - or by an acquired lease. It is the
   * stored phase exactly when the run has not moved away from the named one.
   */
  lemma {:induction false} ProjectedPhaseIsLastNamed(calls: seq<Call>, r: RunId)
    ensures Summary(EventsOf(Exec(calls).outbox, r)).phase == LastNamed(calls, r)
    ensures r in Exec(calls).records ==>
              var run := Exec(calls).records[r];
              && r in Project(Exec(calls).outbox) && Project(Exec(calls).outbox)[r].phase == LastNamed(calls, r)
              && (Project(Exec(calls).outbox)[r].phase == Some(run.phase) <==> LastNamed(calls, r) == Some(run.phase))
  {
    EventAccounting(calls, r);
    ProjectIsPerRun(Exec(calls).outbox, r);
    hide Step, EventsOf, Summary, NamedBy, Ordered;
    if calls == [] {
      NothingNamed(r);
    } else {
      var init, call := calls[..|calls| - 1], calls[|calls| - 1];
      ProjectedPhaseIsLastNamed(init, r);
      ReachableInv(init);
      StepNamesAny(Exec(init), call, r);
    }
  }

  lemma NothingNamed(r: RunId)
    ensures Summary(EventsOf([], r)).phase == None
  {
  }

  /** Creation and refused commands name nothing; an accepted command names for its own run only. */
  lemma StepNamesAny(w: World, call: Call, r: RunId)
    requires WorldInv(w)
    ensures var after := Step(w, call).0;
            var before, now := Summary(EventsOf(w.outbox, r)).phase, Summary(EventsOf(after.outbox, r)).phase;
            now == if call.command.CreateRun? || call.command.runId != r || r !in w.records || Step(w, call).1.Err?
                   then before
                   else if NamedBy(w.records[r], call.command) == None then before
                   else NamedBy(w.records[r], call.command)
  {
    hide Decide, RecordInv, EventsOf, Summary, NamedBy;
    if call.command.CreateRun? {
      CreateNamesNothing(w, call, r);
    } else if call.command.runId in w.records && Step(w, call).1.Ok? {
      StepNamesPhase(w, call, r);
    } else {
      StepTouchesOneRecord(w, call);
    }
  }

  lemma CreateNamesNothing(w: World, call: Call, r: RunId)
    requires call.command.CreateRun?
    ensures Summary(EventsOf(Step(w, call).0.outbox, r)).phase == Summary(EventsOf(w.outbox, r)).phase
  {
    var after := Step(w, call).0;
    if after != w {
      var event := Last(after.outbox);
      assert after.outbox[..|w.outbox|] == w.outbox;
      if r == call.env.ticket {
        SummaryAppend(EventsOf(w.outbox, r), event);
      }
    }
  }
}
