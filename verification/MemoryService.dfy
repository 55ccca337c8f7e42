/** The memory service: the only writer of memory records, and the store behind it. */
module MemoryService {
  import opened Common
  import opened MemoryGovernance

  datatype MemoryError =
    | AlreadyExists | DoesNotExist | CasFailed | InvalidRecord | InvalidConfidence | UnknownRecord | NotActive

  datatype Resolution =
    | Promoted(recordRef: string)
    | ConsentRequired | TeamTenantReview | SessionNotPersisted
    | Duplicate(duplicates: seq<string>) | Conflict(conflicts: seq<string>)

  /** A dict of records by id, whose iteration order is the order of insertion. */
  datatype Store = Store(records: map<string, MemoryRecord>, order: seq<string>) {
    function All(): seq<MemoryRecord> {
      Listed(records, order)
    }
  }

  function Listed(records: map<string, MemoryRecord>, order: seq<string>): seq<MemoryRecord> {
    if order == [] then []
    else
      var earlier, last := Listed(records, order[..|order| - 1]), order[|order| - 1];
      if last in records then earlier + [records[last]] else earlier
  }

  function Saved(store: Store, record: MemoryRecord): Result<Store, MemoryError> {
    if record.recordId in store.records then Err(AlreadyExists)
    else Ok(Store(store.records[record.recordId := record], store.order + [record.recordId]))
  }

  function Updated(store: Store, record: MemoryRecord): Result<Store, MemoryError> {
    if record.recordId !in store.records then Err(DoesNotExist)
    else if record.revision != store.records[record.recordId].revision + 1 then Err(CasFailed)
    else Ok(store.(records := store.records[record.recordId := record]))
  }

  /** Building a replacement runs the constructor's checks before the store sees it. */
  function Replaced(store: Store, record: MemoryRecord): Result<Store, MemoryError> {
    if RecordValid(record) then Updated(store, record) else Err(InvalidRecord)
  }

  /** What a call leaves behind, and what it answers or raises. */
  datatype Step<R> = Step(store: Store, result: Result<R, MemoryError>)

  // ---------------------------------------------------------------------
  // Promotion
  // ---------------------------------------------------------------------

  datatype Governance = Governance(rules: TextRules, retention: RetentionPolicy)

  function SubjectRecords(store: Store, subjectRef: string): seq<MemoryRecord> {
    Chosen(store.All(), (record: MemoryRecord) => record.subjectRef == subjectRef)
  }

  function NewRecord(candidate: Candidate, recordId: string, expiresAt: Option<int>, moment: int): MemoryRecord {
    MemoryRecord(
      recordId, candidate.subjectRef, ScopeOf(candidate), candidate.sourceRefs, candidate.statement, candidate.confidence,
      if candidate.requiredConsent then Some("consent:" + candidate.subjectRef + ":" + candidate.candidateId) else None,
      candidate.sensitivity, moment, expiresAt, Active, None, None, 1)
  }

  /** `reviewed` says that an approved review exists; `freshId` is the id the new record would get. */
  function Promotion(store: Store, governance: Governance, candidate: Candidate, reviewed: bool, requireReview: bool,
                     moment: int, freshId: string): Step<Resolution> {
    var retention, existing := governance.retention.Decide(candidate), SubjectRecords(store, candidate.subjectRef);
    if Sensitive(candidate.sensitivity) then Step(store, Ok(ConsentRequired))
    else if requireReview && ScopeOf(candidate) in {"team", "tenant"} && !reviewed then Step(store, Ok(TeamTenantReview))
    else if !retention.persist then Step(store, Ok(SessionNotPersisted))
    else if governance.rules.DetectDuplicate(candidate, existing) != [] then
      Step(store, Ok(Duplicate(governance.rules.DetectDuplicate(candidate, existing))))
    else if governance.rules.ConflictsWith(candidate, existing) != [] then
      Step(store, Ok(Conflict(governance.rules.ConflictsWith(candidate, existing))))
    else
      var record := NewRecord(candidate, freshId, retention.ExpiresAt(moment), moment);
      if !RecordValid(record) then Step(store, Err(InvalidRecord))
      else
        match Saved(store, record)
        case Err(error) => Step(store, Err(error))
        case Ok(after) => Step(after, Ok(Promoted(freshId)))
  }

  // ---------------------------------------------------------------------
  // Correction, expiry, deletion, revocation
  // ---------------------------------------------------------------------

  datatype Correction = Correction(statement: string, confidence: real, sourceRefs: Option<seq<string>>)

  /** The record that takes over from a corrected one. An expiry already past is not inherited. */
  function Successor(prior: MemoryRecord, correction: Correction, moment: int, freshId: string): MemoryRecord {
    MemoryRecord(
      freshId, prior.subjectRef, prior.scope,
      if correction.sourceRefs.Some? && correction.sourceRefs.value != [] then correction.sourceRefs.value
      else prior.sourceRefs,
      correction.statement, correction.confidence, prior.consentRef, prior.sensitivity, moment,
      if prior.expiresAt.Some? && prior.expiresAt.value <= moment then None else prior.expiresAt,
      Active, Some(prior.recordId), None, 1)
  }

  /** The old record is replaced first: a failure after that leaves it superseded without a successor. */
  function Corrected(store: Store, recordId: string, correction: Correction, moment: int, freshId: string)
    : Step<MemoryRecord>
  {
    if !(0.0 <= correction.confidence <= 1.0) then Step(store, Err(InvalidConfidence))
    else if recordId !in store.records then Step(store, Err(UnknownRecord))
    else
      var prior := store.records[recordId];
      if prior.status != Active then Step(store, Err(NotActive))
      else
        match Replaced(store, prior.(status := Superseded, revision := prior.revision + 1))
        case Err(error) => Step(store, Err(error))
        case Ok(half) =>
          var successor := Successor(prior, correction, moment, freshId);
          if !RecordValid(successor) then Step(half, Err(InvalidRecord))
          else
            match Saved(half, successor)
            case Err(error) => Step(half, Err(error))
            case Ok(after) => Step(after, Ok(successor))
  }

  function Changed(store: Store, record: MemoryRecord): Step<MemoryRecord> {
    match Replaced(store, record)
    case Err(error) => Step(store, Err(error))
    case Ok(after) => Step(after, Ok(record))
  }

  function ExpiredCopy(record: MemoryRecord): MemoryRecord {
    record.(status := Expired, revision := record.revision + 1)
  }

  function DeletedCopy(record: MemoryRecord, reason: string): MemoryRecord {
    record.(status := Deleted, deletionState := Some(reason), revision := record.revision + 1)
  }

  function Expiry(store: Store, recordId: string): Step<MemoryRecord> {
    if recordId !in store.records then Step(store, Err(UnknownRecord))
    else if store.records[recordId].status != Active then Step(store, Err(NotActive))
    else Changed(store, ExpiredCopy(store.records[recordId]))
  }

  function Deletion(store: Store, recordId: string, reason: string): Step<MemoryRecord> {
    if recordId !in store.records then Step(store, Err(UnknownRecord))
    else if store.records[recordId].status == Deleted then Step(store, Ok(store.records[recordId]))
    else Changed(store, DeletedCopy(store.records[recordId], if reason == "" then "deleted" else reason))
  }

  function HeldUnder(consentRef: string): MemoryRecord -> bool {
    (record: MemoryRecord) => record.consentRef == Some(consentRef) && record.status == Active
  }

  function ConsentHolders(store: Store, consentRef: string): seq<MemoryRecord> {
    Chosen(store.All(), HeldUnder(consentRef))
  }

  /** Deletes the affected records one after the other, stopping at the first failure. */
  function Revocation(store: Store, affected: seq<MemoryRecord>, reason: string): Step<seq<string>> {
    if affected == [] then Step(store, Ok([]))
    else
      var earlier, last := Revocation(store, affected[..|affected| - 1], reason), affected[|affected| - 1];
      match earlier.result
      case Err(error) => earlier
      case Ok(ids) =>
        match Replaced(earlier.store, DeletedCopy(last, reason))
        case Err(error) => Step(earlier.store, Err(error))
        case Ok(after) => Step(after, Ok(ids + [last.recordId]))
  }

  /** A revoked consent takes the active records under it with it. */
  function ConsentRevoked(store: Store, consentRef: string, reason: string): Step<seq<string>> {
    Revocation(store, ConsentHolders(store, consentRef), reason)
  }

  // ---------------------------------------------------------------------
  // Recall
  // ---------------------------------------------------------------------

  predicate InWindow(record: MemoryRecord, moment: int) {
    record.validFrom <= moment && (record.expiresAt == None || moment < record.expiresAt.value)
  }

  function ActiveFor(store: Store, subjectRef: string, moment: int): seq<MemoryRecord> {
    Chosen(store.All(), (record: MemoryRecord) =>
      record.subjectRef == subjectRef && record.status == Active && InWindow(record, moment))
  }

  datatype Query = Query(
    subjectRef: string, scope: Option<string>, purpose: Option<string>, moment: int, includeTeamTenant: bool,
    consentRef: Option<string>, authorizedTeamRefs: seq<string>, authorizedTenantRef: Option<string>)
  {
    /** The caller's own record, or a team or tenant record the caller is authorised for. */
    predicate MaySee(record: MemoryRecord) {
      || record.subjectRef == subjectRef
      || (includeTeamTenant && record.scope == "team" && record.subjectRef in authorizedTeamRefs)
      || (includeTeamTenant && record.scope == "tenant" && authorizedTenantRef == Some(record.subjectRef))
    }

    predicate Hits(record: MemoryRecord) {
      && record.status == Active && InWindow(record, moment) && MaySee(record)
      && (scope.Some? ==> record.scope == scope.value)
      && (purpose.Some? ==> record.scope == purpose.value)
      && (consentRef.Some? ==> record.consentRef == consentRef)
    }
  }

  /** A recall that names a subject and a moment and nothing else. */
  function DefaultQuery(subjectRef: string, moment: int): Query {
    Query(subjectRef, None, None, moment, false, None, [], None)
  }

  function HitBy(query: Query): MemoryRecord -> bool {
    (record: MemoryRecord) => query.Hits(record)
  }

  function Recalled(store: Store, query: Query): seq<MemoryRecord> {
    Chosen(store.All(), HitBy(query))
  }

  // ---------------------------------------------------------------------
  // The store and the service
  // ---------------------------------------------------------------------

  class InMemoryMemoryStore {
    var records: map<string, MemoryRecord>
    var order: seq<string>

    constructor ()
      ensures View() == Store(map[], [])
    {
      records, order := map[], [];
    }

    function View(): Store
      reads this
    {
      Store(records, order)
    }

    method Save(record: MemoryRecord) returns (result: Result<MemoryRecord, MemoryError>)
      modifies this
      ensures match Saved(old(View()), record)
              case Err(error) => result == Err(error) && View() == old(View())
              case Ok(after) => result == Ok(record) && View() == after
    {
      if record.recordId in records {
        return Err(AlreadyExists);
      }
      records := records[record.recordId := record];
      order := order + [record.recordId];
      return Ok(record);
    }

    method Update(record: MemoryRecord) returns (result: Result<MemoryRecord, MemoryError>)
      modifies this
      ensures match Updated(old(View()), record)
              case Err(error) => result == Err(error) && View() == old(View())
              case Ok(after) => result == Ok(record) && View() == after
    {
      if record.recordId !in records {
        return Err(DoesNotExist);
      }
      if record.revision != records[record.recordId].revision + 1 {
        return Err(CasFailed);
      }
      records := records[record.recordId := record];
      return Ok(record);
    }

    method ActiveRecords(subjectRef: string, moment: int) returns (active: seq<MemoryRecord>)
      ensures active == ActiveFor(View(), subjectRef, moment)
    {
      return ActiveFor(View(), subjectRef, moment);
    }
  }

  class MemoryService {
    const store: InMemoryMemoryStore
    const governance: Governance

    constructor (governance: Governance)
      ensures this.governance == governance && fresh(store) && store.View() == Store(map[], [])
    {
      this.governance := governance;
      store := new InMemoryMemoryStore();
    }

    method Replace(record: MemoryRecord) returns (result: Result<MemoryRecord, MemoryError>)
      modifies store
      ensures Step(store.View(), result) == Changed(old(store.View()), record)
    {
      if !RecordValid(record) {
        return Err(InvalidRecord);
      }
      result := store.Update(record);
    }

    method PromoteGoverned(candidate: Candidate, reviewed: bool, requireReview: bool, moment: int, freshId: string)
      returns (result: Result<Resolution, MemoryError>)
      modifies store
      ensures Step(store.View(), result)
              == Promotion(old(store.View()), governance, candidate, reviewed, requireReview, moment, freshId)
    {
      hide SubjectRecords, ScopeOf;
      var scope := ScopeOf(candidate);
      if candidate.sensitivity == Confidential || candidate.sensitivity == Restricted {
        return Ok(ConsentRequired);
      }
      if requireReview && (scope == "team" || scope == "tenant") {
        if !reviewed {
          return Ok(TeamTenantReview);
        }
      }
      var retention := governance.retention.Decide(candidate);
      if !retention.persist {
        return Ok(SessionNotPersisted);
      }
      var existing := SubjectRecords(store.View(), candidate.subjectRef);
      var duplicates := governance.rules.DetectDuplicate(candidate, existing);
      if duplicates != [] {
        return Ok(Duplicate(duplicates));
      }
      var conflicts := governance.rules.DetectConflict(candidate, existing);
      if conflicts != [] {
        return Ok(Conflict(conflicts));
      }
      var record := NewRecord(candidate, freshId, retention.ExpiresAt(moment), moment);
      if !RecordValid(record) {
        return Err(InvalidRecord);
      }
      var saved := store.Save(record);
      if saved.Err? {
        return Err(saved.error);
      }
      return Ok(Promoted(record.recordId));
    }

    method Correct(recordId: string, correction: Correction, moment: int, freshId: string)
      returns (result: Result<MemoryRecord, MemoryError>)
      modifies store
      ensures Step(store.View(), result) == Corrected(old(store.View()), recordId, correction, moment, freshId)
    {
      hide RecordValid;
      if !(0.0 <= correction.confidence <= 1.0) {
        return Err(InvalidConfidence);
      }
      if recordId !in store.records {
        return Err(UnknownRecord);
      }
      var prior := store.records[recordId];
      if prior.status != Active {
        return Err(NotActive);
      }
      var superseded := Replace(prior.(status := Superseded, revision := prior.revision + 1));
      if superseded.Err? {
        return superseded;
      }
      var successor := Successor(prior, correction, moment, freshId);
      if !RecordValid(successor) {
        return Err(InvalidRecord);
      }
      result := store.Save(successor);
    }

    method Expire(recordId: string) returns (result: Result<MemoryRecord, MemoryError>)
      modifies store
      ensures Step(store.View(), result) == Expiry(old(store.View()), recordId)
    {
      if recordId !in store.records {
        return Err(UnknownRecord);
      }
      if store.records[recordId].status != Active {
        return Err(NotActive);
      }
      result := Replace(ExpiredCopy(store.records[recordId]));
    }

    method Delete(recordId: string, reason: string) returns (result: Result<MemoryRecord, MemoryError>)
      modifies store
      ensures Step(store.View(), result) == Deletion(old(store.View()), recordId, reason)
    {
      if recordId !in store.records {
        return Err(UnknownRecord);
      }
      var record := store.records[recordId];
      if record.status == Deleted {
        return Ok(record);
      }
      result := Replace(DeletedCopy(record, if reason == "" then "deleted" else reason));
    }

    method RevokeConsent(consentRef: string, reason: string) returns (result: Result<seq<string>, MemoryError>)
      modifies store
      ensures Step(store.View(), result) == ConsentRevoked(old(store.View()), consentRef, reason)
    {
      hide ConsentHolders, Replaced;
      var affected := ConsentHolders(store.View(), consentRef);
      var affectedIds: seq<string> := [];
      for r := 0 to |affected|
        invariant Step(store.View(), Ok(affectedIds)) == Revocation(old(store.View()), affected[..r], reason)
      {
        var record := affected[r];
        RevokeNext(old(store.View()), affected, r, reason);
        var updated := Replace(DeletedCopy(record, reason));
        if updated.Err? {
          RevocationStops(old(store.View()), affected, r + 1, reason);
          return Err(updated.error);
        }
        affectedIds := affectedIds + [record.recordId];
      }
      assert affected[..|affected|] == affected;
      return Ok(affectedIds);
    }

    method Recall(query: Query) returns (hits: seq<MemoryRecord>)
      ensures hits == Recalled(store.View(), query)
    {
      hide Chosen;
      ghost var keep := HitBy(query);
      var all := store.View().All();
      hits := [];
      ChosenNothing(keep);
      for r := 0 to |all|
        invariant hits == Chosen(all[..r], keep)
      {
        var record := all[r];
        ChosenNext(all, r, keep);
        if record.status != Active {
          continue;
        }
        if !InWindow(record, query.moment) {
          continue;
        }
        var subjectMatch := record.subjectRef == query.subjectRef;
        if !subjectMatch && query.includeTeamTenant && (record.scope == "team" || record.scope == "tenant") {
          if record.scope == "team" && record.subjectRef !in query.authorizedTeamRefs {
            continue;
          }
          if record.scope == "tenant" && Some(record.subjectRef) != query.authorizedTenantRef {
            continue;
          }
          subjectMatch := true;
        }
        if !subjectMatch {
          continue;
        }
        if query.scope.Some? && record.scope != query.scope.value {
          continue;
        }
        if query.purpose.Some? && record.scope != query.purpose.value {
          continue;
        }
        if query.consentRef.Some? && record.consentRef != query.consentRef {
          continue;
        }
        hits := hits + [record];
      }
      assert all[..|all|] == all;
    }
  }

  lemma RevokeNext(store: Store, affected: seq<MemoryRecord>, r: nat, reason: string)
    requires r < |affected| && Revocation(store, affected[..r], reason).result.Ok?
    ensures var earlier := Revocation(store, affected[..r], reason);
            Revocation(store, affected[..r + 1], reason) ==
            match Replaced(earlier.store, DeletedCopy(affected[r], reason))
            case Err(error) => Step(earlier.store, Err(error))
            case Ok(after) => Step(after, Ok(earlier.result.value + [affected[r].recordId]))
  {
    assert affected[..r + 1][..r] == affected[..r];
  }

  lemma {:induction false} RevocationStops(store: Store, affected: seq<MemoryRecord>, r: nat, reason: string)
    requires r <= |affected| && Revocation(store, affected[..r], reason).result.Err?
    ensures Revocation(store, affected, reason) == Revocation(store, affected[..r], reason)
    decreases |affected|
  {
    if r == |affected| {
      assert affected[..r] == affected;
    } else {
      var init := affected[..|affected| - 1];
      assert init[..r] == affected[..r];
      RevocationStops(store, init, r, reason);
    }
  }
}
