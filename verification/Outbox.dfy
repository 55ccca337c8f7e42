/** The transactional outbox and the publisher that drains it. */
module Outbox {
  import opened Common
  import opened RunObjects

  function Ids(events: seq<Event>): set<EventId> {
    set e <- events :: e.eventId
  }

  ghost predicate Distinct(events: seq<Event>) {
    forall i, j | 0 <= i < j < |events| :: events[i].eventId != events[j].eventId
  }

  /** The entries whose id is not in a set, in order. */
  function Without(events: seq<Event>, ids: set<EventId>): seq<Event> {
    if events == [] then []
    else if events[0].eventId in ids then Without(events[1..], ids)
    else [events[0]] + Without(events[1..], ids)
  }

  lemma {:induction false} WithoutUnion(events: seq<Event>, a: set<EventId>, b: set<EventId>)
    ensures Without(Without(events, a), b) == Without(events, a + b)
  {
    if events != [] {
      WithoutUnion(events[1..], a, b);
      if events[0].eventId !in a {
        assert Without(events, a)[1..] == Without(events[1..], a);
      }
    }
  }

  lemma {:induction false} WithoutDisjoint(events: seq<Event>, ids: set<EventId>)
    requires forall e <- events :: e.eventId !in ids
    ensures Without(events, ids) == events
  {
    if events != [] {
      WithoutDisjoint(events[1..], ids);
    }
  }

  /** Removing the ids of the first `k` entries leaves the others, when ids are distinct. */
  lemma {:induction false} WithoutPrefix(events: seq<Event>, k: nat)
    requires k <= |events| && Distinct(events)
    ensures Without(events, Ids(events[..k])) == events[k..]
    decreases k
  {
    if k == 0 {
      WithoutDisjoint(events, {});
      assert Ids(events[..0]) == {};
    } else {
      var tail := events[1..];
      assert tail[..k - 1] == events[1..k];
      WithoutPrefix(tail, k - 1);
      assert Ids(events[..k]) == {events[0].eventId} + Ids(events[1..k]);
      assert events[0].eventId in Ids(events[..k]);
      WithoutUnion(tail, {events[0].eventId}, Ids(events[1..k]));
      WithoutDisjoint(tail, {events[0].eventId});
    }
  }

  lemma IdsAppend(events: seq<Event>, event: Event)
    ensures Ids(events + [event]) == Ids(events) + {event.eventId}
  {
    assert forall e :: e in events + [event] <==> e in events || e == event;
  }

  /** What a drain still has to deliver: the entries from the delivered ones up to its snapshot's end. */
  ghost predicate Remaining(rest: seq<Event>, entries: seq<Event>, delivered: nat, upTo: nat)
    requires delivered <= |entries| && upTo <= |entries|
  {
    Without(rest, Ids(entries[..delivered])) == if delivered <= upTo then entries[delivered..upTo] else []
  }

  /** The next entry of a drain was delivered before, or it is the first one not yet delivered. */
  lemma NextInOrder(rest: seq<Event>, entries: seq<Event>, k: nat, upTo: nat)
    requires k <= |entries| && upTo <= |entries| && rest != []
    requires Remaining(rest, entries, k, upTo)
    ensures rest[0].eventId in Ids(entries[..k]) ==> Remaining(rest[1..], entries, k, upTo)
    ensures rest[0].eventId !in Ids(entries[..k]) ==> k < upTo && rest[0] == entries[k]
  {
  }

  /** After one more delivery every drain, its own or another, still has the rest in order. */
  lemma DeliveryKeepsOrder(rest: seq<Event>, entries: seq<Event>, k: nat, upTo: nat)
    requires k < |entries| && upTo <= |entries| && Distinct(entries)
    requires Remaining(rest, entries, k, upTo)
    ensures Remaining(rest, entries, k + 1, upTo)
  {
    var id := entries[k].eventId;
    assert entries[..k + 1] == entries[..k] + [entries[k]];
    IdsAppend(entries[..k], entries[k]);
    WithoutUnion(rest, Ids(entries[..k]), {id});
    if k < upTo {
      assert entries[k..upTo] == [entries[k]] + entries[k + 1..upTo];
      WithoutDisjoint(entries[k + 1..upTo], {id});
    }
  }

  /** A snapshot of the unmarked entries starts a drain in order. */
  lemma SnapshotInOrder(entries: seq<Event>, k: nat, published: set<EventId>)
    requires k <= |entries| && Distinct(entries) && published <= Ids(entries[..k])
    ensures Remaining(Without(entries, published), entries, k, |entries|)
  {
    WithoutUnion(entries, published, Ids(entries[..k]));
    assert published + Ids(entries[..k]) == Ids(entries[..k]);
    WithoutPrefix(entries, k);
  }

  lemma {:induction false} WithoutSnoc(events: seq<Event>, event: Event, ids: set<EventId>)
    ensures Without(events + [event], ids) ==
            if event.eventId in ids then Without(events, ids) else Without(events, ids) + [event]
  {
    if events == [] {
      assert events + [event] == [event] && [event][1..] == [];
    } else {
      assert (events + [event])[1..] == events[1..] + [event];
      WithoutSnoc(events[1..], event, ids);
    }
  }

  lemma {:induction false} WithoutMembers(events: seq<Event>, ids: set<EventId>)
    ensures forall e :: e in Without(events, ids) <==> e in events && e.eventId !in ids
    ensures Distinct(events) ==> Distinct(Without(events, ids))
  {
    if events != [] {
      WithoutMembers(events[1..], ids);
      assert events == [events[0]] + events[1..];
      assert Distinct(events) ==> Distinct(events[1..]);
    }
  }

  /** A drain loop after `i` entries of its snapshot: what it was given and had not seen is delivered and marked. */
  ghost predicate DrainedTo(snapshot: seq<Event>, i: nat, first: seq<Event>, marked: set<EventId>,
                            events: seq<Event>, published: set<EventId>)
  {
    && i <= |snapshot|
    && events == first + Without(snapshot[..i], Ids(first))
    && published == marked + Ids(Without(snapshot[..i], Ids(first)))
  }

  lemma DrainStarts(snapshot: seq<Event>, first: seq<Event>, marked: set<EventId>)
    ensures DrainedTo(snapshot, 0, first, marked, first, marked)
  {
    assert snapshot[..0] == [] && first + [] == first && Ids([]) == {};
  }

  lemma IdsConcat(a: seq<Event>, b: seq<Event>)
    ensures Ids(a + b) == Ids(a) + Ids(b)
  {
    assert forall e :: e in a + b <==> e in a || e in b;
  }

  lemma NotYetAdded(snapshot: seq<Event>, i: nat, ids: set<EventId>)
    requires i < |snapshot| && Distinct(snapshot)
    ensures snapshot[i].eventId !in Ids(Without(snapshot[..i], ids))
  {
    WithoutMembers(snapshot[..i], ids);
    hide Without;
    forall e <- Without(snapshot[..i], ids) ensures e.eventId != snapshot[i].eventId {
      var j :| 0 <= j < i && snapshot[j] == e;
    }
  }

  /** The next entry was delivered before exactly when the publisher had seen it before the drain. */
  lemma DrainTurns(snapshot: seq<Event>, i: nat, first: seq<Event>, marked: set<EventId>,
                   events: seq<Event>, published: set<EventId>)
    requires i < |snapshot| && Distinct(snapshot) && DrainedTo(snapshot, i, first, marked, events, published)
    ensures var entry := snapshot[i];
            if entry.eventId in Ids(events)
            then DrainedTo(snapshot, i + 1, first, marked, events, published)
            else DrainedTo(snapshot, i + 1, first, marked, events + [entry], published + {entry.eventId})
  {
    hide Without, Ids, Distinct;
    var entry, added := snapshot[i], Without(snapshot[..i], Ids(first));
    assert snapshot[..i + 1] == snapshot[..i] + [entry];
    NotYetAdded(snapshot, i, Ids(first));
    WithoutSnoc(snapshot[..i], entry, Ids(first));
    IdsConcat(first, added);
    IdsAppend(added, entry);
    assert first + (added + [entry]) == first + added + [entry];
  }

  lemma DrainEnds(snapshot: seq<Event>, first: seq<Event>, marked: set<EventId>,
                  events: seq<Event>, published: set<EventId>)
    requires DrainedTo(snapshot, |snapshot|, first, marked, events, published)
    ensures events == first + Without(snapshot, Ids(first))
    ensures published == marked + Ids(Without(snapshot, Ids(first)))
  {
    assert snapshot[..|snapshot|] == snapshot;
  }

  /** What a publisher that has delivered a prefix has left is the rest. */
  lemma DrainCompletes(entries: seq<Event>, k: nat, published: set<EventId>)
    requires k <= |entries| && Distinct(entries) && published <= Ids(entries[..k])
    ensures entries[..k] + Without(Without(entries, published), Ids(entries[..k])) == entries
  {
    WithoutUnion(entries, published, Ids(entries[..k]));
    assert published + Ids(entries[..k]) == Ids(entries[..k]);
    WithoutPrefix(entries, k);
  }

  datatype OutboxError = DuplicateEventId | UnknownEventId

  class InMemoryOutboxStore {
    var entries: seq<Event>
    var byEventId: set<EventId>
    var published: set<EventId>

    ghost predicate Valid()
      reads this
    {
      byEventId == Ids(entries) && Distinct(entries) && published <= byEventId
    }

    constructor ()
      ensures Valid() && entries == [] && published == {}
    {
      entries, byEventId, published := [], {}, {};
    }

    method Append(entry: Event) returns (result: Result<(), OutboxError>)
      requires Valid()
      modifies this`entries, this`byEventId
      ensures Valid()
      ensures result.Ok? <==> entry.eventId !in old(Ids(entries))
      ensures entries == if result.Ok? then old(entries) + [entry] else old(entries)
    {
      if entry.eventId in byEventId {
        return Err(DuplicateEventId);
      }
      IdsAppend(entries, entry);
      byEventId := byEventId + {entry.eventId};
      entries := entries + [entry];
      return Ok(());
    }

    method Unpublished() returns (waiting: seq<Event>)
      ensures waiting == Without(entries, published)
    {
      waiting := [];
      for i := 0 to |entries|
        invariant waiting + Without(entries[i..], published) == Without(entries, published)
      {
        if entries[i].eventId !in published {
          waiting := waiting + [entries[i]];
        }
        assert entries[i..][1..] == entries[i + 1..];
      }
      assert entries[|entries|..] == [];
    }

    method MarkPublished(eventId: EventId) returns (result: Result<(), OutboxError>)
      requires Valid()
      modifies this`published
      ensures Valid()
      ensures result.Ok? <==> eventId in Ids(entries)
      ensures published == if result.Ok? then old(published) + {eventId} else old(published)
    {
      if eventId !in byEventId {
        return Err(UnknownEventId);
      }
      published := published + {eventId};
      return Ok(());
    }
  }

  class InMemoryOutboxPublisher {
    var seen: set<EventId>
    var events: seq<Event>

    ghost predicate Valid()
      reads this
    {
      seen == Ids(events) && Distinct(events)
    }

    /** What has been delivered is the outbox up to some point, and what is marked was delivered. */
    ghost predicate InStep(outbox: InMemoryOutboxStore)
      reads this, outbox
    {
      && Valid() && outbox.Valid()
      && |events| <= |outbox.entries| && events == outbox.entries[..|events|]
      && outbox.published <= seen
    }

    constructor ()
      ensures Valid() && events == []
    {
      seen, events := {}, [];
    }

    method Publish(entry: Event) returns (accepted: bool)
      requires Valid()
      modifies this
      ensures Valid()
      ensures accepted <==> entry.eventId !in old(Ids(events))
      ensures events == if accepted then old(events) + [entry] else old(events)
    {
      if entry.eventId in seen {
        return false;
      }
      IdsAppend(events, entry);
      seen := seen + {entry.eventId};
      events := events + [entry];
      return true;
    }

    /**
     * A drain that is not interrupted delivers, in append order, every entry that was not marked and
     * that this publisher had not delivered; it marks exactly those, so an entry delivered earlier
     * but not marked stays unmarked. A publisher in step has then delivered the whole outbox.
     */
    method Drain(outbox: InMemoryOutboxStore) returns (count: nat)
      requires Valid() && outbox.Valid()
      modifies this, outbox`published
      ensures Valid() && outbox.Valid()
      ensures var waiting := Without(Without(outbox.entries, old(outbox.published)), Ids(old(events)));
              && events == old(events) + waiting && count == |waiting|
              && outbox.published == old(outbox.published) + Ids(waiting)
      ensures old(InStep(outbox)) ==> InStep(outbox) && events == outbox.entries
    {
      hide Without, Remaining;
      count := 0;
      var snapshot := outbox.Unpublished();
      ghost var first, marked := events, outbox.published;
      WithoutMembers(outbox.entries, marked);
      DrainStarts(snapshot, first, marked);
      hide DrainedTo;
      for i := 0 to |snapshot|
        invariant Valid() && outbox.Valid()
        invariant DrainedTo(snapshot, i, first, marked, events, outbox.published)
        invariant count == |events| - |first|
      {
        var entry := snapshot[i];
        DrainTurns(snapshot, i, first, marked, events, outbox.published);
        var accepted := Publish(entry);
        if accepted {
          assert entry in outbox.entries;
          var _ := outbox.MarkPublished(entry.eventId);
          count := count + 1;
        }
      }
      DrainEnds(snapshot, first, marked, events, outbox.published);
      IdsConcat(first, Without(snapshot, Ids(first)));
      if old(InStep(outbox)) {
        DrainCompletes(outbox.entries, |first|, marked);
      }
    }
  }
}
