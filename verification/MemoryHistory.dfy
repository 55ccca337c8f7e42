/** Every history of the memory service: supersession lines never fork, and corrections never break off. */
module MemoryHistory {
  import opened Common
  import opened MemoryGovernance
  import opened MemoryService

  datatype Command =
    | Promote(candidate: Candidate, reviewed: bool, requireReview: bool, moment: int, freshId: string)
    | Correct(recordId: string, correction: Correction, moment: int, freshId: string)
    | Expire(recordId: string)
    | Delete(recordId: string, reason: string)
    | Revoke(consentRef: string, reason: string)

  function After(store: Store, governance: Governance, command: Command): Store {
    match command
    case Promote(candidate, reviewed, requireReview, moment, freshId) =>
      Promotion(store, governance, candidate, reviewed, requireReview, moment, freshId).store
    case Correct(recordId, correction, moment, freshId) => Corrected(store, recordId, correction, moment, freshId).store
    case Expire(recordId) => Expiry(store, recordId).store
    case Delete(recordId, reason) => Deletion(store, recordId, reason).store
    case Revoke(consentRef, reason) => ConsentRevoked(store, consentRef, reason).store
  }

  function Failure<R>(result: Result<R, MemoryError>): Option<MemoryError> {
    match result
    case Ok(_) => None
    case Err(error) => Some(error)
  }

  /** The error a command raises, if any. */
  function Raised(store: Store, governance: Governance, command: Command): Option<MemoryError> {
    match command
    case Promote(candidate, reviewed, requireReview, moment, freshId) =>
      Failure(Promotion(store, governance, candidate, reviewed, requireReview, moment, freshId).result)
    case Correct(recordId, correction, moment, freshId) =>
      Failure(Corrected(store, recordId, correction, moment, freshId).result)
    case Expire(recordId) => Failure(Expiry(store, recordId).result)
    case Delete(recordId, reason) => Failure(Deletion(store, recordId, reason).result)
    case Revoke(consentRef, reason) => Failure(ConsentRevoked(store, consentRef, reason).result)
  }

  /** Generated ids are new. */
  predicate IdIsFresh(store: Store, command: Command) {
    match command
    case Promote(_, _, _, _, freshId) => freshId !in store.records
    case Correct(_, _, _, freshId) => freshId !in store.records
    case _ => true
  }

  function Exec(governance: Governance, commands: seq<Command>): Store {
    if commands == [] then Store(map[], [])
    else After(Exec(governance, commands[..|commands| - 1]), governance, commands[|commands| - 1])
  }

  ghost predicate FreshRun(governance: Governance, commands: seq<Command>) {
    commands == []
    || (&& FreshRun(governance, commands[..|commands| - 1])
        && IdIsFresh(Exec(governance, commands[..|commands| - 1]), commands[|commands| - 1]))
  }

  // ---------------------------------------------------------------------
  // The invariant
  // ---------------------------------------------------------------------

  ghost predicate DistinctIds(ids: seq<string>) {
    forall i, j | 0 <= i < j < |ids| :: ids[i] != ids[j]
  }

  /** The iteration order lists every key once. */
  ghost predicate OrderOk(store: Store) {
    && DistinctIds(store.order)
    && (forall id :: id in store.order <==> id in store.records)
  }

  ghost predicate RecordOk(record: MemoryRecord) {
    && RecordValid(record) && !Sensitive(record.sensitivity)
    && match record.status
       case Active => record.revision == 1
       case Superseded => record.revision == 2
       case Expired => record.revision == 2
       case Deleted => 2 <= record.revision <= 3
  }

  ghost predicate RecordsOk(records: map<string, MemoryRecord>) {
    forall id <- records :: records[id].recordId == id && RecordOk(records[id])
  }

  /** Subject, scope, sensitivity and consent do not change along a line. */
  ghost predicate SameLine(a: MemoryRecord, b: MemoryRecord) {
    a.subjectRef == b.subjectRef && a.scope == b.scope && a.sensitivity == b.sensitivity && a.consentRef == b.consentRef
  }

  ghost predicate Succeeds(records: map<string, MemoryRecord>, later: string, earlier: string) {
    later in records && records[later].supersedesRef == Some(earlier)
  }

  /** A record with a successor is superseded or deleted, and the successor belongs to the same line. */
  ghost predicate LinksOk(records: map<string, MemoryRecord>) {
    forall later, earlier | Succeeds(records, later, earlier) ::
      && earlier in records && records[earlier].status in {Superseded, Deleted}
      && SameLine(records[earlier], records[later])
  }

  ghost predicate OneSuccessor(records: map<string, MemoryRecord>) {
    forall a, b, earlier | Succeeds(records, a, earlier) && Succeeds(records, b, earlier) :: a == b
  }

  ghost predicate HasSuccessor(records: map<string, MemoryRecord>, id: string) {
    exists later :: Succeeds(records, later, id)
  }

  ghost predicate SupersededHasSuccessor(records: map<string, MemoryRecord>) {
    forall id <- records | records[id].status == Superseded :: HasSuccessor(records, id)
  }

  /** A line: it starts at a record that supersedes nothing and follows successors. */
  ghost predicate Line(records: map<string, MemoryRecord>, path: seq<string>) {
    && path != [] && path[0] in records && records[path[0]].supersedesRef == None
    && forall i | 0 <= i < |path| - 1 :: Succeeds(records, path[i + 1], path[i])
  }

  ghost predicate OnLine(records: map<string, MemoryRecord>, id: string) {
    exists path :: Line(records, path) && path[|path| - 1] == id
  }

  ghost predicate AllOnLines(records: map<string, MemoryRecord>) {
    forall id <- records :: OnLine(records, id)
  }

  ghost predicate Inv(store: Store) {
    && OrderOk(store) && RecordsOk(store.records) && LinksOk(store.records) && OneSuccessor(store.records)
    && SupersededHasSuccessor(store.records) && AllOnLines(store.records)
  }

  // ---------------------------------------------------------------------
  // The two ways a store changes: a record retired, a record added
  // ---------------------------------------------------------------------

  /** A record that differs only in status, deletion state and revision. */
  ghost predicate Retires(before: MemoryRecord, after: MemoryRecord) {
    after == before.(status := after.status, deletionState := after.deletionState, revision := after.revision)
  }

  /** Old records keep what they supersede. */
  ghost predicate Extends(before: map<string, MemoryRecord>, after: map<string, MemoryRecord>) {
    forall id <- before :: id in after && after[id].supersedesRef == before[id].supersedesRef
  }

  lemma LinesExtend(before: map<string, MemoryRecord>, after: map<string, MemoryRecord>, id: string)
    requires Extends(before, after) && OnLine(before, id)
    ensures OnLine(after, id)
  {
    var path :| Line(before, path) && path[|path| - 1] == id;
    assert Line(after, path) by {
      forall i | 0 <= i < |path| - 1 ensures Succeeds(after, path[i + 1], path[i]) {
        assert Succeeds(before, path[i + 1], path[i]);
      }
    }
  }

  lemma LinesKept(before: map<string, MemoryRecord>, id: string, record: MemoryRecord)
    requires AllOnLines(before) && id in before && Retires(before[id], record)
    ensures AllOnLines(before[id := record])
  {
    hide OnLine;
    var after := before[id := record];
    forall other <- after ensures OnLine(after, other) {
      LinesExtend(before, after, other);
    }
  }

  lemma RecordsKept(before: map<string, MemoryRecord>, id: string, record: MemoryRecord)
    requires RecordsOk(before) && RecordOk(record) && record.recordId == id
    ensures RecordsOk(before[id := record])
  {
    hide RecordOk;
  }

  lemma OrderKept(store: Store, id: string, record: MemoryRecord)
    requires OrderOk(store) && id in store.records
    ensures OrderOk(store.(records := store.records[id := record]))
  {
  }

  /** Expiry or deletion of a record; only records without a successor may expire. */
  lemma RetireKeepsInv(store: Store, id: string, record: MemoryRecord)
    requires Inv(store) && id in store.records && Retires(store.records[id], record) && RecordOk(record)
    requires record.status == Deleted || (record.status == Expired && store.records[id].status == Active)
    ensures Inv(store.(records := store.records[id := record]))
  {
    assert store.records[id].recordId == id;
    hide OrderOk, RecordsOk, LinksOk, OneSuccessor, SupersededHasSuccessor, AllOnLines, RecordOk;
    OrderKept(store, id, record);
    RecordsKept(store.records, id, record);
    RetireKeepsLinks(store.records, id, record);
    LinesKept(store.records, id, record);
  }

  lemma RetireKeepsLinks(before: map<string, MemoryRecord>, id: string, record: MemoryRecord)
    requires LinksOk(before) && OneSuccessor(before) && SupersededHasSuccessor(before)
    requires id in before && Retires(before[id], record)
    requires record.status == Deleted || (record.status == Expired && before[id].status == Active)
    ensures var after := before[id := record];
            LinksOk(after) && OneSuccessor(after) && SupersededHasSuccessor(after)
  {
    var after := before[id := record];
    forall later, earlier | Succeeds(after, later, earlier)
      ensures Succeeds(before, later, earlier)
      ensures earlier in after && after[earlier].status in {Superseded, Deleted} && SameLine(after[earlier], after[later])
    {
      assert Succeeds(before, later, earlier);
    }
    forall other <- after | after[other].status == Superseded ensures HasSuccessor(after, other) {
      var later :| Succeeds(before, later, other);
      assert Succeeds(after, later, other);
    }
  }

  lemma AddedOrder(store: Store, id: string, records: map<string, MemoryRecord>)
    requires OrderOk(store) && id !in store.records && records.Keys == store.records.Keys + {id}
    ensures OrderOk(Store(records, store.order + [id]))
  {
    forall other ensures other in store.order + [id] <==> other in records {
      assert other in records <==> other in records.Keys;
    }
  }

  /** A new record that supersedes nothing starts a line of its own. */
  lemma StartKeepsInv(store: Store, record: MemoryRecord)
    requires Inv(store) && record.recordId !in store.records && RecordOk(record)
    requires record.status == Active && record.supersedesRef == None
    ensures Inv(Store(store.records[record.recordId := record], store.order + [record.recordId]))
  {
    hide OrderOk, RecordsOk, LinksOk, OneSuccessor, SupersededHasSuccessor, AllOnLines, RecordOk;
    AddedOrder(store, record.recordId, store.records[record.recordId := record]);
    RecordsKept(store.records, record.recordId, record);
    StartKeepsLinks(store.records, record);
    StartKeepsLines(store.records, record);
  }

  lemma StartKeepsLinks(before: map<string, MemoryRecord>, record: MemoryRecord)
    requires LinksOk(before) && OneSuccessor(before) && SupersededHasSuccessor(before)
    requires record.recordId !in before && record.status == Active && record.supersedesRef == None
    ensures var after := before[record.recordId := record];
            LinksOk(after) && OneSuccessor(after) && SupersededHasSuccessor(after)
  {
    var after := before[record.recordId := record];
    forall later, earlier | Succeeds(after, later, earlier) ensures Succeeds(before, later, earlier) {
    }
    forall other <- after | after[other].status == Superseded ensures HasSuccessor(after, other) {
      var later :| Succeeds(before, later, other);
      assert Succeeds(after, later, other);
    }
  }

  lemma StartKeepsLines(before: map<string, MemoryRecord>, record: MemoryRecord)
    requires AllOnLines(before) && record.recordId !in before && record.supersedesRef == None
    ensures AllOnLines(before[record.recordId := record])
  {
    hide OnLine;
    var after := before[record.recordId := record];
    forall other <- after ensures OnLine(after, other) {
      if other == record.recordId {
        LineOfOne(after, other);
      } else {
        LinesExtend(before, after, other);
      }
    }
  }

  lemma LineOfOne(records: map<string, MemoryRecord>, id: string)
    requires id in records && records[id].supersedesRef == None
    ensures OnLine(records, id)
  {
    assert Line(records, [id]);
  }

  /** The records after `prior` is superseded by `record`. */
  function Handed(before: map<string, MemoryRecord>, prior: MemoryRecord, record: MemoryRecord): map<string, MemoryRecord> {
    before[prior.recordId := prior.(status := Superseded, revision := prior.revision + 1)][record.recordId := record]
  }

  lemma HandedRecords(before: map<string, MemoryRecord>, prior: MemoryRecord, record: MemoryRecord)
    requires RecordsOk(before) && prior.recordId in before && before[prior.recordId] == prior
    requires RecordOk(prior) && prior.status == Active && RecordOk(record)
    ensures RecordsOk(Handed(before, prior, record))
  {
    var superseded := prior.(status := Superseded, revision := prior.revision + 1);
    RecordsKept(before, prior.recordId, superseded);
    RecordsKept(before[prior.recordId := superseded], record.recordId, record);
  }

  /** A correction retires the tip of a line and makes its successor the new tip. */
  lemma SucceedKeepsInv(store: Store, prior: MemoryRecord, record: MemoryRecord)
    requires Inv(store) && prior.recordId in store.records && store.records[prior.recordId] == prior
    requires prior.status == Active && record.recordId !in store.records && RecordOk(record) && record.status == Active
    requires record.supersedesRef == Some(prior.recordId) && SameLine(prior, record)
    ensures Inv(Store(Handed(store.records, prior, record), store.order + [record.recordId]))
  {
    var superseded := prior.(status := Superseded, revision := prior.revision + 1);
    hide OrderOk, RecordsOk, LinksOk, OneSuccessor, SupersededHasSuccessor, AllOnLines, RecordOk, SameLine;
    RecordFacts(store, prior.recordId);
    AddedOrder(store, record.recordId, Handed(store.records, prior, record));
    HandedRecords(store.records, prior, record);
    SucceedKeepsLinks(store.records, prior, record);
    LinesKept(store.records, prior.recordId, superseded);
    SucceedKeepsLines(store.records[prior.recordId := superseded], record, prior.recordId);
  }

  lemma SucceedKeepsLinks(before: map<string, MemoryRecord>, prior: MemoryRecord, record: MemoryRecord)
    requires LinksOk(before) && OneSuccessor(before) && SupersededHasSuccessor(before)
    requires prior.recordId in before && before[prior.recordId] == prior
    requires prior.status == Active && record.recordId !in before
    requires record.supersedesRef == Some(prior.recordId) && SameLine(prior, record) && record.status == Active
    ensures var after := Handed(before, prior, record);
            LinksOk(after) && OneSuccessor(after) && SupersededHasSuccessor(after)
  {
    var after := Handed(before, prior, record);
    assert !HasSuccessor(before, prior.recordId) by {
      assert forall later | Succeeds(before, later, prior.recordId) :: false;
    }
    forall later, earlier | Succeeds(after, later, earlier)
      ensures Succeeds(before, later, earlier) || (later == record.recordId && earlier == prior.recordId)
    {
    }
    assert Succeeds(after, record.recordId, prior.recordId);
    forall id <- after | after[id].status == Superseded ensures HasSuccessor(after, id) {
      if id != prior.recordId {
        var later :| Succeeds(before, later, id);
        assert Succeeds(after, later, id);
      }
    }
  }

  lemma SucceedKeepsLines(before: map<string, MemoryRecord>, record: MemoryRecord, prior: string)
    requires AllOnLines(before) && prior in before
    requires record.recordId !in before && record.supersedesRef == Some(prior)
    ensures AllOnLines(before[record.recordId := record])
  {
    hide OnLine;
    var after := before[record.recordId := record];
    LinesExtend(before, after, prior);
    forall other <- after ensures OnLine(after, other) {
      if other == record.recordId {
        LineGrows(after, prior, other);
      } else {
        LinesExtend(before, after, other);
      }
    }
  }

  lemma LineGrows(records: map<string, MemoryRecord>, earlier: string, later: string)
    requires OnLine(records, earlier) && Succeeds(records, later, earlier)
    ensures OnLine(records, later)
  {
    var path :| Line(records, path) && path[|path| - 1] == earlier;
    var longer := path + [later];
    assert Line(records, longer) by {
      forall i | 0 <= i < |longer| - 1 ensures Succeeds(records, longer[i + 1], longer[i]) {
        if i < |path| - 1 {
          assert Succeeds(records, path[i + 1], path[i]);
        }
      }
    }
    assert longer[|longer| - 1] == later;
  }

  // ---------------------------------------------------------------------
  // Command by command
  // ---------------------------------------------------------------------

  /** A promotion either adds one record or changes nothing; it never raises. */
  lemma PromotionAdds(store: Store, governance: Governance, candidate: Candidate, reviewed: bool, requireReview: bool,
                      moment: int, freshId: string)
    requires freshId !in store.records
    ensures var step := Promotion(store, governance, candidate, reviewed, requireReview, moment, freshId);
            var record := NewRecord(candidate, freshId, governance.retention.Decide(candidate).ExpiresAt(moment), moment);
            && step.result.Ok?
            && if step.result.value.Promoted?
               then RecordOk(record) && step.store == Store(store.records[freshId := record], store.order + [freshId])
               else step.store == store
  {
    hide SubjectRecords;
    RetentionIsLater(governance.retention, candidate, moment);
  }

  lemma RecordFacts(store: Store, id: string)
    requires Inv(store) && id in store.records
    ensures store.records[id].recordId == id && RecordOk(store.records[id])
  {
    hide RecordOk;
  }

  /** The replacements the service makes pass the constructor's checks. */
  lemma ReplacementsAreOk(record: MemoryRecord, reason: string)
    requires RecordOk(record)
    ensures record.status == Active ==> RecordOk(ExpiredCopy(record)) && RecordValid(ExpiredCopy(record))
    ensures record.status != Deleted ==> RecordOk(DeletedCopy(record, reason)) && RecordValid(DeletedCopy(record, reason))
    ensures RecordValid(record.(status := Superseded, revision := record.revision + 1))
  {
  }

  lemma SuccessorIsOk(record: MemoryRecord, correction: Correction, moment: int, freshId: string)
    requires RecordOk(record) && 0.0 <= correction.confidence <= 1.0
    ensures var successor := Successor(record, correction, moment, freshId);
            RecordOk(successor) && RecordValid(successor) && SameLine(record, successor)
  {
  }

  predicate CanCorrect(store: Store, recordId: string, correction: Correction) {
    && 0.0 <= correction.confidence <= 1.0
    && recordId in store.records && store.records[recordId].status == Active
  }

  /** A correction succeeds exactly on active records, and otherwise changes nothing. */
  lemma CorrectionSucceedsExactly(store: Store, recordId: string, correction: Correction, moment: int, freshId: string)
    requires Inv(store) && freshId !in store.records
    ensures var step := Corrected(store, recordId, correction, moment, freshId);
            && (step.result.Ok? <==> CanCorrect(store, recordId, correction))
            && (CanCorrect(store, recordId, correction) ==>
                  step.store == Store(Handed(store.records, store.records[recordId],
                                             Successor(store.records[recordId], correction, moment, freshId)),
                                      store.order + [freshId]))
            && (step.result.Err? ==> step.store == store && step.result.error in {InvalidConfidence, UnknownRecord, NotActive})
            && Inv(step.store)
  {
    hide Inv, RecordOk, RecordValid, SameLine;
    if CanCorrect(store, recordId, correction) {
      var prior := store.records[recordId];
      RecordFacts(store, recordId);
      ReplacementsAreOk(prior, "");
      SuccessorIsOk(prior, correction, moment, freshId);
      SucceedKeepsInv(store, prior, Successor(prior, correction, moment, freshId));
    }
  }

  lemma ExpirySucceedsExactly(store: Store, recordId: string)
    requires Inv(store)
    ensures var step, active := Expiry(store, recordId), recordId in store.records && store.records[recordId].status == Active;
            && (step.result.Ok? <==> active)
            && (active ==> step.store == store.(records := store.records[recordId := ExpiredCopy(store.records[recordId])]))
            && (step.result.Err? ==> step.store == store && step.result.error in {UnknownRecord, NotActive})
            && Inv(step.store)
  {
    hide Inv, RecordOk, RecordValid;
    if recordId in store.records && store.records[recordId].status == Active {
      RecordFacts(store, recordId);
      ReplacementsAreOk(store.records[recordId], "");
      RetireKeepsInv(store, recordId, ExpiredCopy(store.records[recordId]));
    }
  }

  /** The stated reason of a deletion. */
  function DeletionReason(reason: string): string {
    if reason == "" then "deleted" else reason
  }

  lemma DeletionSucceedsExactly(store: Store, recordId: string, reason: string)
    requires Inv(store)
    ensures var step, known := Deletion(store, recordId, reason), recordId in store.records;
            && (step.result.Ok? <==> known)
            && (known ==>
                  step.store ==
                  if store.records[recordId].status == Deleted then store
                  else store.(records := store.records[recordId := DeletedCopy(store.records[recordId], DeletionReason(reason))]))
            && (step.result.Err? ==> step.store == store && step.result.error == UnknownRecord)
            && Inv(step.store)
  {
    hide Inv, RecordOk, RecordValid;
    if recordId in store.records && store.records[recordId].status != Deleted {
      RecordFacts(store, recordId);
      ReplacementsAreOk(store.records[recordId], DeletionReason(reason));
      RetireKeepsInv(store, recordId, DeletedCopy(store.records[recordId], DeletionReason(reason)));
    }
  }

  /** The records to delete are active records of the store, each once. */
  ghost predicate Affected(store: Store, affected: seq<MemoryRecord>) {
    && DistinctIds(RecordIds(affected))
    && forall i | 0 <= i < |affected| ::
         && affected[i].recordId in store.records && store.records[affected[i].recordId] == affected[i]
         && affected[i].status == Active
  }

  /** Exactly the records with these ids are deleted. */
  ghost predicate DeletedFrom(before: Store, ids: seq<string>, reason: string, after: Store) {
    && after.order == before.order && after.records.Keys == before.records.Keys
    && forall id <- before.records ::
         after.records[id] == if id in ids then DeletedCopy(before.records[id], reason) else before.records[id]
  }

  lemma {:induction false} RevocationDeletes(store: Store, affected: seq<MemoryRecord>, reason: string)
    requires Inv(store) && Affected(store, affected)
    ensures var step := Revocation(store, affected, reason);
            && step.result == Ok(RecordIds(affected)) && Inv(step.store)
            && DeletedFrom(store, RecordIds(affected), reason, step.store)
  {
    hide Inv, RecordOk, DistinctIds;
    if affected != [] {
      var init, last := affected[..|affected| - 1], affected[|affected| - 1];
      AffectedInit(store, affected);
      RevocationDeletes(store, init, reason);
      DeleteOneMore(store, Revocation(store, init, reason).store, init, last, reason);
    } else {
      assert RecordIds(affected) == [];
    }
  }

  lemma AffectedInit(store: Store, affected: seq<MemoryRecord>)
    requires affected != [] && Affected(store, affected)
    ensures var init, last := affected[..|affected| - 1], affected[|affected| - 1];
            && Affected(store, init) && last.recordId !in RecordIds(init)
            && RecordIds(affected) == RecordIds(init) + [last.recordId]
  {
    var init, last, ids := affected[..|affected| - 1], affected[|affected| - 1], RecordIds(affected);
    assert ids == RecordIds(init) + [last.recordId];
    assert forall i | 0 <= i < |init| :: ids[i] == RecordIds(init)[i];
    assert ids[|init|] == last.recordId;
  }

  lemma DeleteOneMore(before: Store, after: Store, init: seq<MemoryRecord>, last: MemoryRecord, reason: string)
    requires Inv(before) && Inv(after) && DeletedFrom(before, RecordIds(init), reason, after)
    requires last.recordId in before.records && before.records[last.recordId] == last && last.status == Active
    requires last.recordId !in RecordIds(init)
    ensures Replaced(after, DeletedCopy(last, reason)).Ok?
    ensures Inv(Replaced(after, DeletedCopy(last, reason)).value)
    ensures DeletedFrom(before, RecordIds(init) + [last.recordId], reason, Replaced(after, DeletedCopy(last, reason)).value)
  {
    hide Inv, RecordOk, RecordValid;
    assert last.recordId in after.records.Keys;
    RecordFacts(before, last.recordId);
    ReplacementsAreOk(last, reason);
    RetireKeepsInv(after, last.recordId, DeletedCopy(last, reason));
  }

  // ---------------------------------------------------------------------
  // The iteration order
  // ---------------------------------------------------------------------

  lemma {:induction false} ListedRecords(records: map<string, MemoryRecord>, order: seq<string>)
    requires DistinctIds(order) && (forall id <- order :: id in records && records[id].recordId == id)
    ensures |Listed(records, order)| == |order|
    ensures forall i | 0 <= i < |order| :: Listed(records, order)[i] == records[order[i]]
    ensures RecordIds(Listed(records, order)) == order
  {
    if order != [] {
      ListedRecords(records, order[..|order| - 1]);
    }
  }

  lemma {:induction false} ChosenDistinct(records: seq<MemoryRecord>, keep: MemoryRecord -> bool)
    requires DistinctIds(RecordIds(records))
    ensures DistinctIds(RecordIds(Chosen(records, keep)))
    ensures forall record <- Chosen(records, keep) :: record in records && keep(record)
  {
    if records != [] {
      var init, last := records[..|records| - 1], records[|records| - 1];
      assert forall i | 0 <= i < |init| :: RecordIds(init)[i] == RecordIds(records)[i];
      ChosenDistinct(init, keep);
      var earlier := Chosen(init, keep);
      hide Chosen;
      forall i | 0 <= i < |earlier| ensures earlier[i].recordId != last.recordId {
        assert earlier[i] in init;
        var j :| 0 <= j < |init| && init[j] == earlier[i];
        assert RecordIds(records)[j] != RecordIds(records)[|init|];
      }
      AppendDistinct(earlier, last);
      assert Chosen(records, keep) == if keep(last) then earlier + [last] else earlier by {
        ChosenNext(records, |init|, keep);
        assert records[..|records|] == records;
      }
    }
  }

  lemma AppendDistinct(records: seq<MemoryRecord>, last: MemoryRecord)
    requires DistinctIds(RecordIds(records))
    requires forall i | 0 <= i < |records| :: records[i].recordId != last.recordId
    ensures DistinctIds(RecordIds(records + [last]))
  {
    var ids := RecordIds(records + [last]);
    forall i, j | 0 <= i < j < |ids| ensures ids[i] != ids[j] {
      if j < |records| {
        assert RecordIds(records)[i] != RecordIds(records)[j];
      }
    }
  }

  lemma HoldersAreAffected(store: Store, consentRef: string)
    requires OrderOk(store) && RecordsOk(store.records)
    ensures Affected(store, ConsentHolders(store, consentRef))
  {
    ListedRecords(store.records, store.order);
    ChosenDistinct(store.All(), HeldUnder(consentRef));
    var holders := ConsentHolders(store, consentRef);
    forall i | 0 <= i < |holders|
      ensures && holders[i].recordId in store.records && store.records[holders[i].recordId] == holders[i]
              && holders[i].status == Active
    {
      assert holders[i] in store.All();
      var j :| 0 <= j < |store.order| && store.All()[j] == holders[i];
      assert store.order[j] in store.records;
    }
  }

  // ---------------------------------------------------------------------
  // Every history
  // ---------------------------------------------------------------------

  /**
   * Every command keeps the invariant. It raises only what it checks before its first write, so
   * neither the store's revision check nor the record's constructor ever stops one halfway.
   */
  lemma StepKeepsInv(store: Store, governance: Governance, command: Command)
    requires Inv(store) && IdIsFresh(store, command)
    ensures Inv(After(store, governance, command))
    ensures Raised(store, governance, command).Some? ==>
              && After(store, governance, command) == store
              && Raised(store, governance, command).value in {InvalidConfidence, UnknownRecord, NotActive}
  {
    hide Inv, Promotion, Corrected, Expiry, Deletion, Revocation, ConsentHolders, RecordOk;
    match command
    case Promote(candidate, reviewed, requireReview, moment, freshId) =>
      PromotionAdds(store, governance, candidate, reviewed, requireReview, moment, freshId);
      if Promotion(store, governance, candidate, reviewed, requireReview, moment, freshId).result.value.Promoted? {
        StartKeepsInv(store, NewRecord(candidate, freshId, governance.retention.Decide(candidate).ExpiresAt(moment), moment));
      }
    case Correct(recordId, correction, moment, freshId) =>
      CorrectionSucceedsExactly(store, recordId, correction, moment, freshId);
    case Expire(recordId) => ExpirySucceedsExactly(store, recordId);
    case Delete(recordId, reason) => DeletionSucceedsExactly(store, recordId, reason);
    case Revoke(consentRef, reason) =>
      InvParts(store);
      HoldersAreAffected(store, consentRef);
      RevocationDeletes(store, ConsentHolders(store, consentRef), reason);
  }

  lemma InvParts(store: Store)
    requires Inv(store)
    ensures OrderOk(store) && RecordsOk(store.records)
  {
  }

  lemma {:induction false} ReachableInv(governance: Governance, commands: seq<Command>)
    requires FreshRun(governance, commands)
    ensures Inv(Exec(governance, commands))
  {
    if commands == [] {
      assert Exec(governance, commands) == Store(map[], []);
    } else {
      var init, last := commands[..|commands| - 1], commands[|commands| - 1];
      ReachableInv(governance, init);
      hide Inv, After;
      StepKeepsInv(Exec(governance, init), governance, last);
    }
  }

  // ---------------------------------------------------------------------
  // What the invariant says about lines
  // ---------------------------------------------------------------------

  /** Lines do not fork: of two lines with one start, one continues the other. */
  lemma {:induction false} LinesNeverFork(records: map<string, MemoryRecord>, a: seq<string>, b: seq<string>)
    requires OneSuccessor(records) && Line(records, a) && Line(records, b) && a[0] == b[0] && |a| <= |b|
    ensures a <= b
  {
    if |a| > 1 {
      var init := a[..|a| - 1];
      assert Line(records, init) by {
        forall i | 0 <= i < |init| - 1 ensures Succeeds(records, init[i + 1], init[i]) {
          assert Succeeds(records, a[i + 1], a[i]);
        }
      }
      LinesNeverFork(records, init, b);
      assert init[|init| - 1] == b[|init| - 1];
      assert Succeeds(records, a[|init| - 1 + 1], a[|init| - 1]);
      assert Succeeds(records, b[|init| - 1 + 1], b[|init| - 1]);
      assert a == init + [a[|init|]];
    }
  }

  /** A record lies on one line only. */
  lemma {:induction false} LinesAreDisjoint(records: map<string, MemoryRecord>, a: seq<string>, b: seq<string>)
    requires Line(records, a) && Line(records, b) && a[|a| - 1] == b[|b| - 1]
    ensures a == b
    decreases |a|
  {
    if |a| > 1 {
      assert Succeeds(records, a[|a| - 2 + 1], a[|a| - 2]);
    }
    if |b| > 1 {
      assert Succeeds(records, b[|b| - 2 + 1], b[|b| - 2]);
    }
    if |a| > 1 && |b| > 1 {
      var x, y := a[..|a| - 1], b[..|b| - 1];
      PrefixIsLine(records, a);
      PrefixIsLine(records, b);
      LinesAreDisjoint(records, x, y);
      assert a == x + [a[|a| - 1]] && b == y + [b[|b| - 1]];
    }
  }

  lemma PrefixIsLine(records: map<string, MemoryRecord>, path: seq<string>)
    requires Line(records, path) && |path| > 1
    ensures Line(records, path[..|path| - 1])
  {
    var init := path[..|path| - 1];
    forall i | 0 <= i < |init| - 1 ensures Succeeds(records, init[i + 1], init[i]) {
      assert Succeeds(records, path[i + 1], path[i]);
    }
  }

  /** Only the tip of a line can be active, so a line has at most one active record. */
  lemma OneActivePerLine(records: map<string, MemoryRecord>, line: seq<string>, i: nat)
    requires LinksOk(records) && Line(records, line) && i < |line| - 1
    ensures line[i] in records && records[line[i]].status in {Superseded, Deleted}
  {
    assert Succeeds(records, line[i + 1], line[i]);
  }

  /** Subject, scope, sensitivity and consent are those of the first record of the line. */
  lemma {:induction false} LineKeepsAttributes(records: map<string, MemoryRecord>, line: seq<string>, i: nat)
    requires LinksOk(records) && Line(records, line) && i < |line|
    ensures line[i] in records && SameLine(records[line[0]], records[line[i]])
  {
    if i > 0 {
      LineKeepsAttributes(records, line, i - 1);
      assert Succeeds(records, line[i - 1 + 1], line[i - 1]);
    }
  }

  /** Of two lines with one start, one continues the other. */
  ghost predicate LinesDoNotFork(records: map<string, MemoryRecord>) {
    forall a, b | Line(records, a) && Line(records, b) && a[0] == b[0] :: a <= b || b <= a
  }

  /** Two lines to one record are the same line. */
  ghost predicate LinesDoNotJoin(records: map<string, MemoryRecord>) {
    forall a, b | Line(records, a) && Line(records, b) && a[|a| - 1] == b[|b| - 1] :: a == b
  }

  /** Along a line everything before the tip is superseded or deleted, and the attributes are constant. */
  ghost predicate TipsOnly(records: map<string, MemoryRecord>) {
    forall line, i | Line(records, line) && 0 <= i < |line| ::
      && line[i] in records && SameLine(records[line[0]], records[line[i]])
      && (i < |line| - 1 ==> records[line[i]].status in {Superseded, Deleted})
  }

  /** Supersession in every history: every record is on a line, and lines are disjoint and linear. */
  lemma LineagesAreLinear(governance: Governance, commands: seq<Command>)
    requires FreshRun(governance, commands)
    ensures var records := Exec(governance, commands).records;
            && AllOnLines(records) && LinesDoNotFork(records) && LinesDoNotJoin(records) && TipsOnly(records)
            && SupersededHasSuccessor(records)
  {
    hide Exec, FreshRun, OrderOk, RecordsOk, LinksOk, OneSuccessor, SupersededHasSuccessor, AllOnLines, Line;
    ReachableInv(governance, commands);
    var records := Exec(governance, commands).records;
    LinesDoNotForkIn(records);
    LinesDoNotJoinIn(records);
    TipsOnlyIn(records);
  }

  lemma LinesDoNotForkIn(records: map<string, MemoryRecord>)
    requires OneSuccessor(records)
    ensures LinesDoNotFork(records)
  {
    hide OneSuccessor, Succeeds;
    forall a, b | Line(records, a) && Line(records, b) && a[0] == b[0] ensures a <= b || b <= a {
      if |a| <= |b| {
        LinesNeverFork(records, a, b);
      } else {
        LinesNeverFork(records, b, a);
      }
    }
  }

  lemma LinesDoNotJoinIn(records: map<string, MemoryRecord>)
    ensures LinesDoNotJoin(records)
  {
    hide Succeeds;
    forall a, b | Line(records, a) && Line(records, b) && a[|a| - 1] == b[|b| - 1] ensures a == b {
      LinesAreDisjoint(records, a, b);
    }
  }

  lemma TipsOnlyIn(records: map<string, MemoryRecord>)
    requires LinksOk(records)
    ensures TipsOnly(records)
  {
    hide LinksOk, SameLine, Succeeds;
    forall line, i | Line(records, line) && 0 <= i < |line|
      ensures && line[i] in records && SameLine(records[line[0]], records[line[i]])
              && (i < |line| - 1 ==> records[line[i]].status in {Superseded, Deleted})
    {
      LineKeepsAttributes(records, line, i);
      if i < |line| - 1 {
        OneActivePerLine(records, line, i);
      }
    }
  }

  lemma EarlierIsRetired(records: map<string, MemoryRecord>, a: seq<string>, b: seq<string>)
    requires TipsOnly(records) && Line(records, b) && a != [] && a <= b && |a| < |b|
    ensures a[|a| - 1] in records && records[a[|a| - 1]].status in {Superseded, Deleted}
  {
    assert b[|a| - 1] == a[|a| - 1];
  }

  /** Two active records are never on one line. */
  lemma ActiveRecordsAreOnDifferentLines(governance: Governance, commands: seq<Command>, a: seq<string>, b: seq<string>)
    requires FreshRun(governance, commands)
    requires var records := Exec(governance, commands).records;
             && Line(records, a) && Line(records, b) && a[0] == b[0]
             && a[|a| - 1] in records && b[|b| - 1] in records
             && records[a[|a| - 1]].status == Active && records[b[|b| - 1]].status == Active
    ensures a == b
  {
    hide Exec, FreshRun, AllOnLines, LinesDoNotJoin, SupersededHasSuccessor, TipsOnly, Succeeds;
    var records := Exec(governance, commands).records;
    LineagesAreLinear(governance, commands);
    assert a <= b || b <= a;
    if |a| < |b| {
      EarlierIsRetired(records, a, b);
    } else if |b| < |a| {
      EarlierIsRetired(records, b, a);
    }
  }

  /** Active records have revision 1 and no record ever exceeds revision 3. */
  lemma RevisionsAreBounded(governance: Governance, commands: seq<Command>, id: string)
    requires FreshRun(governance, commands) && id in Exec(governance, commands).records
    ensures var record := Exec(governance, commands).records[id];
            && 1 <= record.revision <= 3 && (record.status == Active <==> record.revision == 1)
            && (record.revision == 3 ==> record.status == Deleted)
  {
    ReachableInv(governance, commands);
    hide Exec, FreshRun, Inv;
    RecordFacts(Exec(governance, commands), id);
  }
}
