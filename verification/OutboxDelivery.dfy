/**
 * Delivery through the outbox when appends and any number of drains of one publisher interleave,
 * and a drain may stop anywhere, also between publishing an entry and marking it.
 */
module OutboxDelivery {
  import opened Common
  import opened RunObjects
  import opened RunProtocol
  import opened RunHistory
  import opened RunLeases
  import opened Outbox

  /** A running drain: what is left of its snapshot, the entry it has yet to mark, its snapshot's length. */
  datatype Drain = Drain(rest: seq<Event>, toMark: Option<EventId>, upTo: nat)

  datatype Delivery = Delivery(
    entries: seq<Event>,
    published: set<EventId>,
    delivered: seq<Event>,
    drains: map<nat, Drain>,
    stopped: set<EventId>)  // delivered by a drain that stopped before marking

  const NOTHING := Delivery([], {}, [], map[], {})

  datatype Action =
    | Append(entry: Event)
    | Start(drain: nat)
    | Publish(drain: nat)
    | Mark(drain: nat)
    | Stop(drain: nat)

  function Next(s: Delivery, action: Action): Delivery {
    match action
    case Append(entry) =>
      if entry.eventId in Ids(s.entries) then s else s.(entries := s.entries + [entry])
    case Start(d) =>
      if d in s.drains then s
      else s.(drains := s.drains[d := Drain(Without(s.entries, s.published), None, |s.entries|)])
    case Publish(d) =>
      if d !in s.drains || s.drains[d].rest == [] || s.drains[d].toMark.Some? then s
      else
        var entry, rest := s.drains[d].rest[0], s.drains[d].rest[1..];
        if entry.eventId in Ids(s.delivered)
        then s.(drains := s.drains[d := s.drains[d].(rest := rest)])
        else s.(delivered := s.delivered + [entry],
                drains := s.drains[d := s.drains[d].(rest := rest, toMark := Some(entry.eventId))])
    case Mark(d) =>
      if d !in s.drains || s.drains[d].toMark.None? then s
      else s.(published := s.published + {s.drains[d].toMark.value},
              drains := s.drains[d := s.drains[d].(toMark := None)])
    case Stop(d) =>
      if d !in s.drains then s
      else s.(drains := s.drains - {d},
              stopped := s.stopped + if s.drains[d].toMark.Some? then {s.drains[d].toMark.value} else {})
  }

  function Play(actions: seq<Action>): Delivery {
    if actions == [] then NOTHING
    else Next(Play(actions[..|actions| - 1]), actions[|actions| - 1])
  }

  /** Ids that some running drain has delivered but not marked yet. */
  function Unmarked(drains: map<nat, Drain>): set<EventId> {
    set d <- drains | drains[d].toMark.Some? :: drains[d].toMark.value
  }

  ghost predicate DrainInv(s: Delivery, drain: Drain)
    requires |s.delivered| <= |s.entries|
  {
    drain.upTo <= |s.entries| && Remaining(drain.rest, s.entries, |s.delivered|, drain.upTo)
  }

  ghost predicate DeliveryInv(s: Delivery) {
    && Distinct(s.entries)
    && |s.delivered| <= |s.entries| && s.delivered == s.entries[..|s.delivered|]
    && (forall d <- s.drains :: DrainInv(s, s.drains[d]))
    && Ids(s.delivered) == s.published + s.stopped + Unmarked(s.drains)
    && s.published !! s.stopped !! Unmarked(s.drains)
    && (forall d <- s.drains, e <- s.drains | d != e && s.drains[d].toMark.Some? ::
          s.drains[d].toMark != s.drains[e].toMark)
  }

  lemma UnmarkedUpdate(drains: map<nat, Drain>, d: nat, drain: Drain)
    requires d in drains ==> drains[d].toMark.None?
    ensures Unmarked(drains[d := drain]) == Unmarked(drains) + if drain.toMark.Some? then {drain.toMark.value} else {}
  {
    var after := drains[d := drain];
    assert forall e <- drains | e != d :: after[e] == drains[e];
    assert drain.toMark.Some? ==> after[d].toMark.value in Unmarked(after);
    forall id <- Unmarked(drains) ensures id in Unmarked(after) {
      var e :| e in drains && drains[e].toMark == Some(id);
      assert after[e].toMark == Some(id);
    }
  }

  lemma UnmarkedDrop(s: Delivery, d: nat, after: map<nat, Drain>)
    requires DeliveryInv(s) && d in s.drains && s.drains[d].toMark.Some?
    requires forall e | e != d :: (e in after <==> e in s.drains) && (e in after ==> after[e] == s.drains[e])
    requires d in after ==> after[d].toMark.None?
    ensures Unmarked(after) == Unmarked(s.drains) - {s.drains[d].toMark.value}
    ensures s.drains[d].toMark.value in Unmarked(s.drains)
  {
    var id := s.drains[d].toMark.value;
    forall other <- Unmarked(s.drains) | other != id ensures other in Unmarked(after) {
      var e :| e in s.drains && s.drains[e].toMark == Some(other);
      assert after[e].toMark == Some(other);
    }
  }

  lemma UnmarkedSame(drains: map<nat, Drain>, d: nat)
    requires d in drains && drains[d].toMark.None?
    ensures Unmarked(drains - {d}) == Unmarked(drains)
  {
    forall id <- Unmarked(drains) ensures id in Unmarked(drains - {d}) {
      var e :| e in drains && drains[e].toMark == Some(id);
      assert (drains - {d})[e].toMark == Some(id);
    }
  }

  lemma AppendKeepsInv(s: Delivery, entry: Event)
    requires DeliveryInv(s) && entry.eventId !in Ids(s.entries)
    ensures DeliveryInv(Next(s, Append(entry)))
  {
    var after := Next(s, Append(entry));
    assert after.entries[..|s.delivered|] == s.entries[..|s.delivered|];
    forall d <- s.drains ensures DrainInv(after, s.drains[d]) {
      var k, upTo := |s.delivered|, s.drains[d].upTo;
      assert DrainInv(s, s.drains[d]);
      if k <= upTo {
        assert after.entries[k..upTo] == s.entries[k..upTo];
      }
    }
  }

  lemma StartKeepsInv(s: Delivery, d: nat)
    requires DeliveryInv(s) && d !in s.drains
    ensures DeliveryInv(Next(s, Start(d)))
  {
    hide Remaining, Without, Distinct;
    SnapshotInOrder(s.entries, |s.delivered|, s.published);
    UnmarkedUpdate(s.drains, d, Drain(Without(s.entries, s.published), None, |s.entries|));
  }

  lemma PublishKeepsInv(s: Delivery, d: nat)
    requires DeliveryInv(s)
    requires d in s.drains && s.drains[d].rest != [] && s.drains[d].toMark.None?
    ensures DeliveryInv(Next(s, Publish(d)))
  {
    hide Remaining, Without, Unmarked, Ids;
    var drain, k := s.drains[d], |s.delivered|;
    var entry := drain.rest[0];
    assert DrainInv(s, drain);
    NextInOrder(drain.rest, s.entries, k, drain.upTo);
    var after := Next(s, Publish(d));
    UnmarkedUpdate(s.drains, d, after.drains[d]);
    if entry.eventId !in Ids(s.delivered) {
      IdsAppend(s.delivered, entry);
      assert s.entries[..k + 1] == s.delivered + [entry];
      DeliveryKeepsOrder(drain.rest, s.entries, k, drain.upTo);
      NextInOrder(drain.rest, s.entries, k + 1, drain.upTo);
      forall e <- s.drains ensures Remaining(s.drains[e].rest, s.entries, k + 1, s.drains[e].upTo) {
        assert DrainInv(s, s.drains[e]);
        DeliveryKeepsOrder(s.drains[e].rest, s.entries, k, s.drains[e].upTo);
      }
      forall e <- s.drains | e != d && s.drains[e].toMark.Some? ensures s.drains[e].toMark.value in Ids(s.delivered) {
        UnmarkedHas(s.drains, e);
      }
    }
  }

  lemma UnmarkedHas(drains: map<nat, Drain>, d: nat)
    requires d in drains && drains[d].toMark.Some?
    ensures drains[d].toMark.value in Unmarked(drains)
  {
  }

  lemma SettleKeepsInv(s: Delivery, d: nat, action: Action)
    requires DeliveryInv(s) && d in s.drains && (action == Stop(d) || action == Mark(d))
    ensures DeliveryInv(Next(s, action))
  {
    hide Remaining, Without, Distinct, Ids;
    var after := Next(s, action);
    if s.drains[d].toMark.Some? {
      UnmarkedDrop(s, d, after.drains);
    } else if action.Stop? {
      UnmarkedSame(s.drains, d);
    }
    forall e <- after.drains ensures DrainInv(after, after.drains[e]) {
      assert DrainInv(s, s.drains[e]);
    }
  }

  lemma NextKeepsInv(s: Delivery, action: Action)
    requires DeliveryInv(s)
    ensures DeliveryInv(Next(s, action))
  {
    hide DeliveryInv;
    if Next(s, action) != s {
      match action
      case Append(entry) => AppendKeepsInv(s, entry);
      case Start(d) => StartKeepsInv(s, d);
      case Publish(d) => PublishKeepsInv(s, d);
      case Mark(d) => SettleKeepsInv(s, d, action);
      case Stop(d) => SettleKeepsInv(s, d, action);
    }
  }

  /**
   * In every interleaving, what has been delivered is the outbox up to some point, each entry once
   * and in append order; and every delivered entry is either marked, about to be marked by exactly
   * one running drain, or left unmarked by a drain that stopped.
   */
  lemma {:induction false} DeliveredInOrderOnce(actions: seq<Action>)
    ensures DeliveryInv(Play(actions))
  {
    if actions != [] {
      hide DeliveryInv, Next;
      DeliveredInOrderOnce(actions[..|actions| - 1]);
      NextKeepsInv(Play(actions[..|actions| - 1]), actions[|actions| - 1]);
    } else {
      assert Play(actions) == NOTHING;
    }
  }

  /** A drain that has come to the end of its snapshot finds all of it delivered. */
  lemma FinishedDrainDeliveredItsSnapshot(actions: seq<Action>, d: nat)
    requires d in Play(actions).drains && Play(actions).drains[d].rest == []
    ensures var s := Play(actions);
            && s.drains[d].upTo <= |s.delivered| <= |s.entries|
            && s.entries[..s.drains[d].upTo] <= s.delivered
  {
    DeliveredInOrderOnce(actions);
    var s := Play(actions);
    hide Play;
    assert DrainInv(s, s.drains[d]);
  }

  /**
   * An entry left unmarked by a stopped drain is never marked: later drains offer it again, the
   * publisher declines it as seen, and only accepted entries are marked.
   */
  lemma {:induction false} StoppedEntryStaysUnmarked(actions: seq<Action>, k: nat, id: EventId)
    requires k <= |actions| && id in Play(actions[..k]).stopped
    ensures id in Play(actions).stopped && id !in Play(actions).published
  {
    if k == |actions| {
      assert actions[..k] == actions;
    } else {
      var init := actions[..|actions| - 1];
      assert init[..k] == actions[..k];
      StoppedEntryStaysUnmarked(init, k, id);
    }
    DeliveredInOrderOnce(actions);
  }

  /**
   * A delivered entry that no running drain is about to mark is unmarked exactly when a drain
   * stopped between publishing and marking it.
   */
  lemma UnmarkedExactly(actions: seq<Action>, id: EventId)
    requires id in Ids(Play(actions).delivered) && id !in Unmarked(Play(actions).drains)
    ensures id !in Play(actions).published <==> id in Play(actions).stopped
  {
    DeliveredInOrderOnce(actions);
    hide Play, Ids, Unmarked, Distinct, DrainInv;
  }

  /** One action appended to a run. */
  lemma PlayAppend(actions: seq<Action>, action: Action)
    ensures Play(actions + [action]) == Next(Play(actions), action)
  {
    assert (actions + [action])[..|actions|] == actions;
  }

  /** A drain that stops after publishing the only entry, and a second drain that runs to its end. */
  function StoppingRun(entry: Event): seq<Action> {
    [Append(entry), Start(0), Publish(0), Stop(0), Start(1), Publish(1)]
  }

  /** It happens: the entry is delivered, the second drain has nothing left, and no mark was made. */
  lemma StoppingLeavesUnmarked(entry: Event)
    ensures var s := Play(StoppingRun(entry));
            && s.delivered == [entry] && s.published == {} && s.stopped == {entry.eventId}
            && 1 in s.drains && s.drains[1].rest == [] && s.drains[1].toMark == None
  {
    var a := [Append(entry)];
    var b, c := a + [Start(0)], a + [Start(0)] + [Publish(0)];
    var d, e := c + [Stop(0)], c + [Stop(0)] + [Start(1)];
    PlayAppend([], Append(entry));
    assert [] + [Append(entry)] == a;
    PlayAppend(a, Start(0));
    PlayAppend(b, Publish(0));
    PlayAppend(c, Stop(0));
    PlayAppend(d, Start(1));
    PlayAppend(e, Publish(1));
    assert e + [Publish(1)] == StoppingRun(entry);
    hide Play;
    StoppingSteps(entry);
  }

  lemma StoppingSteps(entry: Event)
    ensures var s := Next(Next(Next(Next(Next(Next(NOTHING, Append(entry)), Start(0)), Publish(0)), Stop(0)), Start(1)),
                          Publish(1));
            && s.delivered == [entry] && s.published == {} && s.stopped == {entry.eventId}
            && 1 in s.drains && s.drains[1].rest == [] && s.drains[1].toMark == None
  {
    var id := entry.eventId;
    assert [] + [entry] == [entry] && [entry][1..] == [] && Ids([]) == {} && Ids([entry]) == {id};
    assert Without([], {}) == [] && Without([entry], {}) == [entry];
    var a := Next(NOTHING, Append(entry));
    assert a == Delivery([entry], {}, [], map[], {});
    var b := Next(a, Start(0));
    assert b == Delivery([entry], {}, [], map[0 := Drain([entry], None, 1)], {});
    var c := Next(b, Publish(0));
    assert c == Delivery([entry], {}, [entry], map[0 := Drain([], Some(id), 1)], {});
    var d := Next(c, Stop(0));
    assert map[0 := Drain([], Some(id), 1)] - {0} == map[];
    assert d == Delivery([entry], {}, [entry], map[], {id});
    var e := Next(d, Start(1));
    assert e == Delivery([entry], {}, [entry], map[1 := Drain([entry], None, 1)], {id});
    assert Next(e, Publish(1)) == Delivery([entry], {}, [entry], map[1 := Drain([], None, 1)], {id});
  }

  // ---------------------------------------------------------------------
  // The coordinator's outbox meets the store's rule on ids
  // ---------------------------------------------------------------------

  /** Every event of a history was drawn by one of its calls, and no id was drawn twice. */
  ghost predicate Drawn(log: seq<Event>, calls: seq<Call>) {
    && Distinct(log)
    && forall e <- log :: exists i | 0 <= i < |calls| :: calls[i].env.ticket == e.eventId.ticket
  }

  lemma {:induction false} OutboxIdsAreDistinct(calls: seq<Call>)
    requires FreshTickets(calls)
    ensures Drawn(Exec(calls).outbox, calls)
  {
    if calls != [] {
      hide Step;
      var init, call := calls[..|calls| - 1], calls[|calls| - 1];
      OutboxIdsAreDistinct(init);
      StepDraws(Exec(init), call);
      var before, after := Exec(init).outbox, Exec(calls).outbox;
      forall e <- before ensures exists i | 0 <= i < |calls| - 1 :: calls[i].env.ticket == e.eventId.ticket {
        var i :| 0 <= i < |init| && init[i].env.ticket == e.eventId.ticket;
        assert calls[i] == init[i];
      }
      forall e <- after ensures exists i | 0 <= i < |calls| :: calls[i].env.ticket == e.eventId.ticket {
        if e !in before {
          assert calls[|calls| - 1].env.ticket == e.eventId.ticket;
        }
      }
      forall i, j | 0 <= i < j < |after| ensures after[i].eventId != after[j].eventId {
        if i < |before| <= j {
          assert before[i] in before;
        }
      }
    }
  }

  lemma StepDraws(w: World, call: Call)
    ensures var after := Step(w, call).0.outbox;
            && |w.outbox| <= |after| <= |w.outbox| + 2
            && after[..|w.outbox|] == w.outbox
            && (forall i | |w.outbox| <= i < |after| :: after[i].eventId == EventId(call.env.ticket, i - |w.outbox|))
  {
    if !call.command.CreateRun? && call.command.runId in w.records {
      DecideDraws(w.records[call.command.runId], call.command, call.env);
    }
    hide Decide;
  }

  lemma DecideDraws(run: RunRecord, command: Command, env: Env)
    requires !command.CreateRun?
    ensures var d := Decide(run, command, env);
            d.Ok? && d.value.Write? ==>
              && |d.value.events| <= 2
              && forall i | 0 <= i < |d.value.events| :: d.value.events[i].eventId == EventId(env.ticket, i)
  {
    if !command.ApplyAdmission? {
      hide DecideAdmission;
    }
  }
}
