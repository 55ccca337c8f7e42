/** What every command of the memory service writes and answers, field by field. */
module MemoryEffects {
  import opened Common
  import opened MemoryGovernance
  import opened MemoryService
  import opened MemoryHistory
  import opened MemoryRecall

  // ---------------------------------------------------------------------
  // Order
  // ---------------------------------------------------------------------

  /** A list of ids that follows the store's iteration order, each id at most once. */
  ghost predicate InStoreOrder(store: Store, ids: seq<string>) {
    forall i, j, a, b | 0 <= i < j < |ids| && 0 <= a < |store.order| && 0 <= b < |store.order|
                        && store.order[a] == ids[i] && store.order[b] == ids[j] :: a < b
  }

  lemma {:induction false} ChosenInOrder(records: seq<MemoryRecord>, keep: MemoryRecord -> bool, i: nat, j: nat, a: nat, b: nat)
    requires DistinctIds(RecordIds(records)) && i < j < |Chosen(records, keep)| && a < |records| && b < |records|
    requires Chosen(records, keep)[i].recordId == records[a].recordId
    requires Chosen(records, keep)[j].recordId == records[b].recordId
    ensures a < b
  {
    var init, last := records[..|records| - 1], records[|records| - 1];
    InitDistinct(records);
    ChosenFrom(init, keep);
    if j < |Chosen(init, keep)| {
      var x := ChosenPlace(records, init, keep, i, a);
      var y := ChosenPlace(records, init, keep, j, b);
      ChosenInOrder(init, keep, i, j, x, y);
    } else {
      var x := ChosenPlace(records, init, keep, i, a);
      SameIdSamePlace(records, b, |init|);
    }
  }

  lemma InitDistinct(records: seq<MemoryRecord>)
    requires records != [] && DistinctIds(RecordIds(records))
    ensures DistinctIds(RecordIds(records[..|records| - 1]))
  {
    var init := records[..|records| - 1];
    assert forall i | 0 <= i < |init| :: RecordIds(init)[i] == RecordIds(records)[i];
  }

  lemma {:induction false} ChosenFrom(records: seq<MemoryRecord>, keep: MemoryRecord -> bool)
    ensures forall record <- Chosen(records, keep) :: record in records
  {
    if records != [] {
      ChosenFrom(records[..|records| - 1], keep);
    }
  }

  lemma SameIdSamePlace(records: seq<MemoryRecord>, a: nat, b: nat)
    requires DistinctIds(RecordIds(records)) && a < |records| && b < |records|
    requires records[a].recordId == records[b].recordId
    ensures a == b
  {
    assert RecordIds(records)[a] == RecordIds(records)[b];
  }

  /** The place of a chosen record, among the records without the last one. */
  lemma ChosenPlace(records: seq<MemoryRecord>, init: seq<MemoryRecord>, keep: MemoryRecord -> bool, i: nat, a: nat)
    returns (x: nat)
    requires records != [] && init == records[..|records| - 1] && DistinctIds(RecordIds(records))
    requires i < |Chosen(init, keep)| && a < |records| && Chosen(init, keep)[i].recordId == records[a].recordId
    ensures x == a && x < |init| && Chosen(init, keep)[i].recordId == init[x].recordId
  {
    ChosenFrom(init, keep);
    assert Chosen(init, keep)[i] in init;
    x :| 0 <= x < |init| && init[x] == Chosen(init, keep)[i];
    SameIdSamePlace(records, x, a);
  }

  /** What is chosen from the store's listing follows the store's order. */
  lemma ChosenFollowsStore(store: Store, keep: MemoryRecord -> bool)
    requires OrderOk(store) && RecordsOk(store.records)
    ensures InStoreOrder(store, RecordIds(Chosen(store.All(), keep)))
  {
    hide RecordOk, Chosen;
    ListedRecords(store.records, store.order);
    var chosen, all := Chosen(store.All(), keep), store.All();
    var ids := RecordIds(chosen);
    forall i, j, a, b | 0 <= i < j < |ids| && 0 <= a < |store.order| && 0 <= b < |store.order|
                        && store.order[a] == ids[i] && store.order[b] == ids[j]
      ensures a < b
    {
      assert RecordIds(all)[a] == ids[i] && RecordIds(all)[b] == ids[j];
      ChosenInOrder(all, keep, i, j, a, b);
    }
  }

  // ---------------------------------------------------------------------
  // Revocation
  // ---------------------------------------------------------------------

  lemma HoldersExactly(store: Store, consentRef: string, id: string)
    requires OrderOk(store) && RecordsOk(store.records)
    ensures id in RecordIds(ConsentHolders(store, consentRef)) <==>
            id in store.records && store.records[id].status == Active && store.records[id].consentRef == Some(consentRef)
  {
    hide RecordOk, Listed, OrderOk;
    IdListed(ConsentHolders(store, consentRef), id);
    forall record: MemoryRecord
      ensures record in ConsentHolders(store, consentRef) <==>
              && record.recordId in store.records && store.records[record.recordId] == record
              && record.status == Active && record.consentRef == Some(consentRef)
    {
      AllExactly(store, record);
      ChosenMembers(store.All(), HeldUnder(consentRef), record);
    }
    if id in store.records && store.records[id].status == Active && store.records[id].consentRef == Some(consentRef) {
      assert store.records[id] in ConsentHolders(store, consentRef);
    }
  }

  /**
   * Revoking a consent deletes exactly the active records under it, with the reason given; every
   * other record stays as it was, and so does the order.
   */
  lemma RevokesExactly(store: Store, governance: Governance, consentRef: string, reason: string)
    requires Inv(store)
    ensures var after := After(store, governance, Revoke(consentRef, reason));
            && after.order == store.order && after.records.Keys == store.records.Keys
            && forall id <- store.records ::
                 var record := store.records[id];
                 after.records[id] ==
                 if record.status == Active && record.consentRef == Some(consentRef)
                 then record.(status := Deleted, deletionState := Some(reason), revision := record.revision + 1)
                 else record
  {
    hide Inv, OrderOk, RecordsOk, Revocation, ConsentHolders;
    InvParts(store);
    HoldersAreAffected(store, consentRef);
    RevocationDeletes(store, ConsentHolders(store, consentRef), reason);
    forall id <- store.records
      ensures id in RecordIds(ConsentHolders(store, consentRef)) <==>
              store.records[id].status == Active && store.records[id].consentRef == Some(consentRef)
    {
      HoldersExactly(store, consentRef, id);
    }
  }

  /** The answer lists exactly the ids of those records, each once, in store order. */
  lemma RevocationAnswersExactly(store: Store, consentRef: string, reason: string)
    requires Inv(store)
    ensures var result := ConsentRevoked(store, consentRef, reason).result;
            && result.Ok? && InStoreOrder(store, result.value)
            && forall id :: id in result.value <==>
                 id in store.records && store.records[id].status == Active && store.records[id].consentRef == Some(consentRef)
  {
    hide *;
    var ids := RecordIds(ConsentHolders(store, consentRef));
    InvParts(store);
    HoldersInOrder(store, consentRef);
    RevocationReturnsHolders(store, consentRef, reason);
    forall id
      ensures id in ids <==>
              id in store.records && store.records[id].status == Active && store.records[id].consentRef == Some(consentRef)
    {
      HoldersExactly(store, consentRef, id);
    }
  }

  lemma RevocationReturnsHolders(store: Store, consentRef: string, reason: string)
    requires Inv(store)
    ensures ConsentRevoked(store, consentRef, reason).result == Ok(RecordIds(ConsentHolders(store, consentRef)))
  {
    hide OrderOk, RecordsOk, Revocation, ConsentHolders;
    InvParts(store);
    hide Inv;
    HoldersAreAffected(store, consentRef);
    RevocationDeletes(store, ConsentHolders(store, consentRef), reason);
  }

  lemma HoldersInOrder(store: Store, consentRef: string)
    requires OrderOk(store) && RecordsOk(store.records)
    ensures InStoreOrder(store, RecordIds(ConsentHolders(store, consentRef)))
  {
    hide OrderOk, RecordsOk, InStoreOrder;
    ChosenFollowsStore(store, HeldUnder(consentRef));
  }

  // ---------------------------------------------------------------------
  // Retention
  // ---------------------------------------------------------------------

  /** The days a class of candidates is kept without a hint that says otherwise. */
  predicate ClassDays(policy: RetentionPolicy, candidate: Candidate, days: Option<int>) {
    && (candidate.sensitivity in policy.bySensitivity ==> days == Some(policy.bySensitivity[candidate.sensitivity]))
    && (candidate.sensitivity !in policy.bySensitivity && policy.defaultDays > 0 ==> days == Some(policy.defaultDays))
    && (candidate.sensitivity !in policy.bySensitivity && policy.defaultDays <= 0 ==> days == None)
  }

  /** The days a hint asks for: whole days of the hours given, but at least one. */
  predicate HintDays(policy: RetentionPolicy, candidate: Candidate, days: Option<int>) {
    match candidate.retentionHint
    case SessionHint => days == Some(1)
    case DaysHint(number) => days == Some(number)
    case HoursHint(number) =>
      && days.Some? && days.value >= 1
      && (number < 48 ==> days.value == 1)
      && (number >= 48 ==> 24 * days.value <= number < 24 * (days.value + 1))
    case NamedHint(name) =>
      if name in policy.byHint then days == Some(policy.byHint[name]) else ClassDays(policy, candidate, days)
    case NoHint => ClassDays(policy, candidate, days)
  }

  /**
   * Only a session hint can keep a candidate from being persisted. What is persisted expires the
   * days of its hint, or of its class, after its start; no days, or none above zero, mean never.
   */
  lemma RetentionExactly(policy: RetentionPolicy, candidate: Candidate, validFrom: int, days: Option<int>)
    requires HintDays(policy, candidate, days)
    ensures var decision := policy.Decide(candidate);
            && (decision.persist <==> !(candidate.retentionHint.SessionHint? && policy.sessionMeansNoPersist))
            && (decision.persist ==>
                  decision.ExpiresAt(validFrom) ==
                  if days.Some? && days.value > 0 then Some(validFrom + days.value * 24 * 60 * 60) else None)
  {
    assert forall d: int :: d * 24 * 60 * 60 == d * 86400;
  }

  // ---------------------------------------------------------------------
  // Promotion
  // ---------------------------------------------------------------------

  /** What a promotion writes, but for the expiry: the candidate's own words under the scope it asks for. */
  ghost predicate WrittenFrom(record: MemoryRecord, candidate: Candidate, moment: int, freshId: string) {
    && record.recordId == freshId && record.subjectRef == candidate.subjectRef
    && record.scope == (if candidate.scopeRequested == "" then candidate.purpose else candidate.scopeRequested)
    && record.sourceRefs == candidate.sourceRefs && record.statement == candidate.statement
    && record.confidence == candidate.confidence && record.sensitivity == candidate.sensitivity
    && (candidate.requiredConsent ==>
          record.consentRef == Some("consent:" + candidate.subjectRef + ":" + candidate.candidateId))
    && (!candidate.requiredConsent ==> record.consentRef == None)
    && record.validFrom == moment && record.status == Active && record.revision == 1
    && record.supersedesRef == None && record.deletionState == None
  }

  /** A promotion that goes through adds one record, last in order; any other changes nothing. */
  lemma PromotionWrites(store: Store, governance: Governance, candidate: Candidate, reviewed: bool,
                        requireReview: bool, moment: int, freshId: string, days: Option<int>)
    requires Inv(store) && freshId !in store.records && HintDays(governance.retention, candidate, days)
    ensures var step := Promotion(store, governance, candidate, reviewed, requireReview, moment, freshId);
            && step.result.Ok?
            && (!step.result.value.Promoted? ==> step.store == store)
            && (step.result.value.Promoted? ==>
                  && step.result.value.recordRef == freshId && step.store.order == store.order + [freshId]
                  && freshId in step.store.records && step.store.records - {freshId} == store.records
                  && WrittenFrom(step.store.records[freshId], candidate, moment, freshId)
                  && step.store.records[freshId].expiresAt ==
                     if days.Some? && days.value > 0 then Some(moment + days.value * 24 * 60 * 60) else None)
  {
    hide Inv, RecordOk, SubjectRecords, HintDays;
    PromotionAdds(store, governance, candidate, reviewed, requireReview, moment, freshId);
    RetentionExactly(governance.retention, candidate, moment, days);
    var step := Promotion(store, governance, candidate, reviewed, requireReview, moment, freshId);
    if step.result.value.Promoted? {
      assert step.store.records - {freshId} == store.records;
    }
  }

  predicate AsksForReview(candidate: Candidate) {
    var scope := if candidate.scopeRequested == "" then candidate.purpose else candidate.scopeRequested;
    scope == "team" || scope == "tenant"
  }

  /** The first check that fails gives the answer: consent, review, retention, duplicates, conflicts. */
  lemma PromotionAnswersExactly(store: Store, governance: Governance, candidate: Candidate, reviewed: bool,
                                requireReview: bool, moment: int, freshId: string)
    requires Inv(store) && freshId !in store.records
    ensures var result := Promotion(store, governance, candidate, reviewed, requireReview, moment, freshId).result;
            var sensitive := candidate.sensitivity == Confidential || candidate.sensitivity == Restricted;
            var unreviewed := requireReview && AsksForReview(candidate) && !reviewed;
            var transient := candidate.retentionHint.SessionHint? && governance.retention.sessionMeansNoPersist;
            && result.Ok?
            && (result.value == ConsentRequired <==> sensitive)
            && (result.value == TeamTenantReview <==> !sensitive && unreviewed)
            && (result.value == SessionNotPersisted <==> !sensitive && !unreviewed && transient)
            && (result.value.Duplicate? ==>
                  && result.value.duplicates != []
                  && forall id :: id in result.value.duplicates <==> Repeats(store, governance.rules, candidate, id))
            && (result.value.Conflict? ==>
                  && result.value.conflicts != []
                  && forall id :: id in result.value.conflicts <==> Contradicts(store, governance.rules, candidate, id))
            && (result.value.Duplicate? <==>
                  !sensitive && !unreviewed && !transient && exists id :: Repeats(store, governance.rules, candidate, id))
            && (result.value.Promoted? <==>
                  !sensitive && !unreviewed && !transient
                  && forall id :: !Repeats(store, governance.rules, candidate, id)
                                  && !Contradicts(store, governance.rules, candidate, id))
  {
    InvParts(store);
    hide Inv, OrderOk, RecordsOk, SubjectRecords, Repeats, Contradicts, Promotion;
    AnswerLadder(store, governance, candidate, reviewed, requireReview, moment, freshId);
    var duplicates := governance.rules.DetectDuplicate(candidate, SubjectRecords(store, candidate.subjectRef));
    var conflicts := governance.rules.ConflictsWith(candidate, SubjectRecords(store, candidate.subjectRef));
    forall id
      ensures id in duplicates <==> Repeats(store, governance.rules, candidate, id)
      ensures id in conflicts <==> Contradicts(store, governance.rules, candidate, id)
    {
      DetectsExactly(store, governance.rules, candidate, id);
    }
    hide *;
    assert duplicates != [] <==> exists id :: id in duplicates by { NonemptyHolds(duplicates); }
    assert conflicts != [] <==> exists id :: id in conflicts by { NonemptyHolds(conflicts); }
  }

  lemma NonemptyHolds(ids: seq<string>)
    ensures ids != [] <==> exists id :: id in ids
  {
    assert ids != [] ==> ids[0] in ids;
  }

  /** The answer of the first check that fails. */
  lemma AnswerLadder(store: Store, governance: Governance, candidate: Candidate, reviewed: bool,
                     requireReview: bool, moment: int, freshId: string)
    requires freshId !in store.records
    ensures var duplicates := governance.rules.DetectDuplicate(candidate, SubjectRecords(store, candidate.subjectRef));
            var conflicts := governance.rules.ConflictsWith(candidate, SubjectRecords(store, candidate.subjectRef));
            Promotion(store, governance, candidate, reviewed, requireReview, moment, freshId).result ==
            Ok(if candidate.sensitivity == Confidential || candidate.sensitivity == Restricted then ConsentRequired
               else if requireReview && AsksForReview(candidate) && !reviewed then TeamTenantReview
               else if candidate.retentionHint.SessionHint? && governance.retention.sessionMeansNoPersist then SessionNotPersisted
               else if duplicates != [] then Duplicate(duplicates)
               else if conflicts != [] then Conflict(conflicts)
               else Promoted(freshId))
  {
    hide SubjectRecords, Chosen, RecordOk, RecordIds;
    SessionExactly(governance.retention, candidate);
    PromotionAdds(store, governance, candidate, reviewed, requireReview, moment, freshId);
  }

  lemma SessionExactly(policy: RetentionPolicy, candidate: Candidate)
    ensures policy.Decide(candidate).persist <==> !(candidate.retentionHint.SessionHint? && policy.sessionMeansNoPersist)
  {
  }

  /** An active record of the candidate's subject that says the same. */
  ghost predicate Repeats(store: Store, rules: TextRules, candidate: Candidate, id: string) {
    && id in store.records && store.records[id].status == Active && store.records[id].subjectRef == candidate.subjectRef
    && rules.normalize(store.records[id].statement) == rules.normalize(candidate.statement)
  }

  /** One of its scope that says something else and shares at least half of the smaller token set. */
  ghost predicate Contradicts(store: Store, rules: TextRules, candidate: Candidate, id: string) {
    && id in store.records && store.records[id].status == Active && store.records[id].subjectRef == candidate.subjectRef
    && store.records[id].scope == (if candidate.scopeRequested == "" then candidate.purpose else candidate.scopeRequested)
    && rules.normalize(store.records[id].statement) != rules.normalize(candidate.statement)
    && var mine, other := rules.tokenize(candidate.statement), rules.tokenize(store.records[id].statement);
       && mine != {} && other != {}
       && (2 * |mine * other| >= |mine| || 2 * |mine * other| >= |other|)
  }

  lemma DetectsExactly(store: Store, rules: TextRules, candidate: Candidate, id: string)
    requires OrderOk(store) && RecordsOk(store.records)
    ensures id in rules.DetectDuplicate(candidate, SubjectRecords(store, candidate.subjectRef)) <==>
            Repeats(store, rules, candidate, id)
    ensures id in rules.ConflictsWith(candidate, SubjectRecords(store, candidate.subjectRef)) <==>
            Contradicts(store, rules, candidate, id)
  {
    var same := (record: MemoryRecord) => rules.Duplicates(candidate.subjectRef, candidate.statement, record);
    var other := (record: MemoryRecord) =>
      rules.Conflicts(candidate.subjectRef, ScopeOf(candidate), candidate.statement, record);
    var existing := SubjectRecords(store, candidate.subjectRef);
    ChosenSame(existing, record => rules.Duplicates(candidate.subjectRef, candidate.statement, record), same);
    ChosenSame(existing, record => rules.Conflicts(candidate.subjectRef, ScopeOf(candidate), candidate.statement, record), other);
    DetectedExactly(store, candidate.subjectRef, same, id);
    DetectedExactly(store, candidate.subjectRef, other, id);
    hide Chosen, SubjectRecords;
  }

  lemma DetectedExactly(store: Store, subjectRef: string, keep: MemoryRecord -> bool, id: string)
    requires OrderOk(store) && RecordsOk(store.records)
    ensures id in RecordIds(Chosen(SubjectRecords(store, subjectRef), keep)) <==>
            id in store.records && store.records[id].subjectRef == subjectRef && keep(store.records[id])
  {
    var existing := SubjectRecords(store, subjectRef);
    assert id in store.records ==> store.records[id].recordId == id;
    hide Chosen, SubjectRecords, RecordsOk, OrderOk;
    IdListed(Chosen(existing, keep), id);
    forall record: MemoryRecord
      ensures record in Chosen(existing, keep) <==>
              && record.subjectRef == subjectRef && keep(record)
              && record.recordId in store.records && store.records[record.recordId] == record
    {
      ChosenMembers(existing, keep, record);
      SubjectRecordsExactly(store, subjectRef, record);
    }
    if id in store.records && store.records[id].subjectRef == subjectRef && keep(store.records[id]) {
      assert store.records[id] in Chosen(existing, keep);
    }
  }

  // ---------------------------------------------------------------------
  // Correction, expiry, deletion
  // ---------------------------------------------------------------------

  /** What takes over from a corrected record: its line, the new words, and its expiry unless that has passed. */
  ghost predicate TakesOver(record: MemoryRecord, prior: MemoryRecord, correction: Correction, moment: int, freshId: string) {
    && record.recordId == freshId && record.supersedesRef == Some(prior.recordId)
    && record.subjectRef == prior.subjectRef && record.scope == prior.scope
    && record.consentRef == prior.consentRef && record.sensitivity == prior.sensitivity
    && record.statement == correction.statement && record.confidence == correction.confidence
    && (correction.sourceRefs == None || correction.sourceRefs == Some([]) ==> record.sourceRefs == prior.sourceRefs)
    && (correction.sourceRefs.Some? && |correction.sourceRefs.value| > 0 ==> record.sourceRefs == correction.sourceRefs.value)
    && record.validFrom == moment && record.status == Active && record.revision == 1 && record.deletionState == None
    && (prior.expiresAt == None ==> record.expiresAt == None)
    && (prior.expiresAt.Some? && moment < prior.expiresAt.value ==> record.expiresAt == prior.expiresAt)
    && (prior.expiresAt.Some? && prior.expiresAt.value <= moment ==> record.expiresAt == None)
  }

  /** A correction supersedes the active record it names and adds its successor, or says why not and writes nothing. */
  lemma CorrectionWrites(store: Store, recordId: string, correction: Correction, moment: int, freshId: string)
    requires Inv(store) && freshId !in store.records
    ensures var step := Corrected(store, recordId, correction, moment, freshId);
            var confident := 0.0 <= correction.confidence <= 1.0;
            && (step.result == Err(InvalidConfidence) <==> !confident)
            && (step.result == Err(UnknownRecord) <==> confident && recordId !in store.records)
            && (step.result == Err(NotActive) <==>
                  confident && recordId in store.records && store.records[recordId].status != Active)
            && (step.result.Err? ==> step.store == store)
            && (step.result.Ok? ==>
                  && confident && recordId in store.records
                  && var prior := store.records[recordId];
                     && prior.status == Active && step.store.order == store.order + [freshId]
                     && step.store.records ==
                        store.records[recordId := prior.(status := Superseded, revision := prior.revision + 1)]
                                     [freshId := step.result.value]
                     && TakesOver(step.result.value, prior, correction, moment, freshId))
  {
    hide Inv, RecordOk, OrderOk, RecordsOk, RecordValid;
    CorrectionSucceedsExactly(store, recordId, correction, moment, freshId);
    if CanCorrect(store, recordId, correction) {
      RecordFacts(store, recordId);
    }
  }

  /** Expiring marks the active record it names and writes nothing else. */
  lemma ExpiryWrites(store: Store, recordId: string)
    requires Inv(store)
    ensures var step := Expiry(store, recordId);
            && (step.result == Err(UnknownRecord) <==> recordId !in store.records)
            && (step.result == Err(NotActive) <==> recordId in store.records && store.records[recordId].status != Active)
            && (step.result.Err? ==> step.store == store)
            && (step.result.Ok? ==>
                  && recordId in store.records && step.store.order == store.order
                  && step.result.value == store.records[recordId].(status := Expired, revision := store.records[recordId].revision + 1)
                  && step.store.records == store.records[recordId := step.result.value])
  {
    hide Inv, RecordOk, RecordValid;
    ExpirySucceedsExactly(store, recordId);
  }

  /** Deleting marks any record once, with a reason; a deleted record is returned as it is. */
  lemma DeletionWrites(store: Store, recordId: string, reason: string)
    requires Inv(store)
    ensures var step := Deletion(store, recordId, reason);
            && (step.result == Err(UnknownRecord) <==> recordId !in store.records)
            && (step.result.Err? <==> recordId !in store.records) && (step.result.Err? ==> step.store == store)
            && (recordId in store.records ==>
                  var record := store.records[recordId];
                  && (record.status == Deleted ==> step.store == store && step.result == Ok(record))
                  && (record.status != Deleted ==>
                        && step.result == Ok(record.(status := Deleted, revision := record.revision + 1,
                                                     deletionState := Some(if |reason| > 0 then reason else "deleted")))
                        && step.store == Store(store.records[recordId := step.result.value], store.order)))
  {
    hide Inv, RecordOk, RecordValid;
    DeletionSucceedsExactly(store, recordId, reason);
  }

  // ---------------------------------------------------------------------
  // Recall
  // ---------------------------------------------------------------------

  /** What a query may return, field by field. */
  ghost predicate Answers(query: Query, record: MemoryRecord) {
    && record.status == Active
    && record.validFrom <= query.moment && (record.expiresAt.Some? ==> query.moment < record.expiresAt.value)
    && (query.scope.Some? ==> record.scope == query.scope.value)
    && (query.purpose.Some? ==> record.scope == query.purpose.value)
    && (query.consentRef.Some? ==> record.consentRef == query.consentRef)
    && (record.subjectRef != query.subjectRef ==>
          && query.includeTeamTenant
          && (record.scope == "team" || record.scope == "tenant")
          && (record.scope == "team" ==> record.subjectRef in query.authorizedTeamRefs)
          && (record.scope == "tenant" ==> query.authorizedTenantRef == Some(record.subjectRef)))
  }

  /** A recall returns the stored records that answer the query, and no others, in store order. */
  lemma RecallExactly(store: Store, query: Query)
    requires Inv(store)
    ensures InStoreOrder(store, RecordIds(Recalled(store, query)))
    ensures forall record :: record in Recalled(store, query) <==>
              && record.recordId in store.records && store.records[record.recordId] == record && Answers(query, record)
  {
    InvParts(store);
    hide Inv, OrderOk, RecordsOk, Chosen, Listed, InStoreOrder, Answers;
    ChosenFollowsStore(store, HitBy(query));
    forall record
      ensures record in Recalled(store, query) <==>
              record.recordId in store.records && store.records[record.recordId] == record && Answers(query, record)
    {
      RecalledMembers(store, query, record);
      AllExactly(store, record);
      HitsExactly(query, record);
    }
  }

  lemma HitsExactly(query: Query, record: MemoryRecord)
    ensures query.Hits(record) <==> Answers(query, record)
  {
  }

  /** Naming a subject and a moment asks for that subject's active records of the moment, and for nothing shared. */
  lemma DefaultRecallExactly(store: Store, subjectRef: string, moment: int)
    requires Inv(store)
    ensures forall record :: record in Recalled(store, DefaultQuery(subjectRef, moment)) <==>
              && record.recordId in store.records && store.records[record.recordId] == record
              && record.subjectRef == subjectRef && record.status == Active && record.validFrom <= moment
              && (record.expiresAt.Some? ==> moment < record.expiresAt.value)
  {
    hide Inv, Recalled, InStoreOrder;
    RecallExactly(store, DefaultQuery(subjectRef, moment));
  }

  // ---------------------------------------------------------------------
  // Valid records
  // ---------------------------------------------------------------------

  /** In every history each stored record passes the constructor's checks, and none is sensitive. */
  lemma StoredRecordsAreValid(governance: Governance, commands: seq<Command>, id: string)
    requires FreshRun(governance, commands) && id in Exec(governance, commands).records
    ensures var record := Exec(governance, commands).records[id];
            && record.recordId == id && 0.0 <= record.confidence <= 1.0
            && (record.expiresAt.Some? ==> record.validFrom < record.expiresAt.value)
            && record.revision >= 1 && (record.sensitivity == Public || record.sensitivity == Internal)
  {
    hide Exec, FreshRun, Inv;
    ReachableInv(governance, commands);
    RecordFacts(Exec(governance, commands), id);
  }

  /** A replacement is written exactly when it is valid and the next revision of a stored record. */
  lemma ReplacementExactly(store: Store, record: MemoryRecord)
    ensures Replaced(store, record).Ok? <==>
            && 0.0 <= record.confidence <= 1.0
            && !(record.expiresAt.Some? && record.expiresAt.value <= record.validFrom)
            && (record.sensitivity == Confidential || record.sensitivity == Restricted ==>
                  record.consentRef != None && record.consentRef != Some(""))
            && record.recordId in store.records && 1 <= record.revision == store.records[record.recordId].revision + 1
    ensures Replaced(store, record).Ok? ==>
              Replaced(store, record).value == Store(store.records[record.recordId := record], store.order)
  {
  }
}
