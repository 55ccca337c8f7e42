/** What recall returns, and which records can be active side by side. */
module MemoryRecall {
  import opened Common
  import opened MemoryGovernance
  import opened MemoryService
  import opened MemoryHistory

  // ---------------------------------------------------------------------
  // Recall
  // ---------------------------------------------------------------------

  lemma {:induction false} ChosenSame(records: seq<MemoryRecord>, f: MemoryRecord -> bool, g: MemoryRecord -> bool)
    requires forall record <- records :: f(record) == g(record)
    ensures Chosen(records, f) == Chosen(records, g)
  {
    if records != [] {
      ChosenSame(records[..|records| - 1], f, g);
    }
  }

  /** A recall that names only the subject is the store's own list of active records, in order. */
  lemma DefaultRecallIsActiveFor(store: Store, subjectRef: string, moment: int)
    ensures Recalled(store, DefaultQuery(subjectRef, moment)) == ActiveFor(store, subjectRef, moment)
  {
    var query := DefaultQuery(subjectRef, moment);
    ChosenSame(
      store.All(), HitBy(query),
      (record: MemoryRecord) => record.subjectRef == subjectRef && record.status == Active && InWindow(record, moment));
  }

  /** The listing holds exactly the store's records. */
  lemma AllExactly(store: Store, record: MemoryRecord)
    requires OrderOk(store) && RecordsOk(store.records)
    ensures record in store.All() <==> record.recordId in store.records && store.records[record.recordId] == record
  {
    hide RecordOk, Listed;
    ListedRecords(store.records, store.order);
    var id := record.recordId;
    if record in store.All() {
      var j :| 0 <= j < |store.All()| && store.All()[j] == record;
      assert store.order[j] in store.records;
    }
    if id in store.records && store.records[id] == record {
      OrderLists(store, id);
      var j :| 0 <= j < |store.order| && store.order[j] == id;
      assert store.All()[j] == record;
    }
  }

  lemma IdListed(records: seq<MemoryRecord>, id: string)
    ensures id in RecordIds(records) <==> exists record <- records :: record.recordId == id
  {
    if record :| record in records && record.recordId == id {
      var j :| 0 <= j < |records| && records[j] == record;
      assert RecordIds(records)[j] == id;
    }
  }

  /** A recall returns exactly the records of the store that the query may hit. */
  lemma RecalledExactly(store: Store, query: Query, id: string)
    requires OrderOk(store) && RecordsOk(store.records)
    ensures id in RecordIds(Recalled(store, query)) <==> id in store.records && query.Hits(store.records[id])
  {
    assert id in store.records ==> store.records[id].recordId == id;
    hide RecordOk, RecordsOk, OrderOk, Listed, Chosen, RecordIds;
    var keep, hits := HitBy(query), Recalled(store, query);
    IdListed(hits, id);
    forall record ensures record in hits <==>
        record.recordId in store.records && store.records[record.recordId] == record && keep(record)
    {
      AllExactly(store, record);
      RecalledMembers(store, query, record);
    }
    if id in store.records && query.Hits(store.records[id]) {
      assert store.records[id] in hits;
    }
  }

  lemma RecalledMembers(store: Store, query: Query, record: MemoryRecord)
    ensures record in Recalled(store, query) <==> record in store.All() && query.Hits(record)
  {
    ChosenMembers(store.All(), HitBy(query), record);
  }

  lemma OrderLists(store: Store, id: string)
    requires OrderOk(store) && id in store.records
    ensures id in store.order
  {
  }

  /** Right after a correction the subject's recall returns the new statement and not the old record. */
  lemma CorrectionTakesOver(store: Store, recordId: string, correction: Correction, moment: int, freshId: string)
    requires Inv(store) && freshId !in store.records && CanCorrect(store, recordId, correction)
    ensures var after, subjectRef := Corrected(store, recordId, correction, moment, freshId).store,
                                     store.records[recordId].subjectRef;
            var recalled := RecordIds(Recalled(after, DefaultQuery(subjectRef, moment)));
            && freshId in recalled && recordId !in recalled
            && freshId in after.records && after.records[freshId].statement == correction.statement
  {
    hide Inv, RecordOk, OrderOk, RecordsOk, Recalled, Corrected;
    CorrectionSucceedsExactly(store, recordId, correction, moment, freshId);
    RecordFacts(store, recordId);
    var after, query := Corrected(store, recordId, correction, moment, freshId).store,
                        DefaultQuery(store.records[recordId].subjectRef, moment);
    InvParts(after);
    RecalledExactly(after, query, freshId);
    RecalledExactly(after, query, recordId);
  }

  lemma NewRecordIsHit(governance: Governance, candidate: Candidate, moment: int, freshId: string)
    ensures var record := NewRecord(candidate, freshId, governance.retention.Decide(candidate).ExpiresAt(moment), moment);
            DefaultQuery(candidate.subjectRef, moment).Hits(record)
  {
    RetentionIsLater(governance.retention, candidate, moment);
  }

  /** A promoted candidate is recalled for its subject from the moment of its promotion. */
  lemma PromotionIsRecalled(store: Store, governance: Governance, candidate: Candidate, reviewed: bool,
                            requireReview: bool, moment: int, freshId: string)
    requires Inv(store) && freshId !in store.records
    requires var step := Promotion(store, governance, candidate, reviewed, requireReview, moment, freshId);
             step.result.Ok? && step.result.value.Promoted?
    ensures var after := Promotion(store, governance, candidate, reviewed, requireReview, moment, freshId).store;
            && freshId in RecordIds(Recalled(after, DefaultQuery(candidate.subjectRef, moment)))
            && freshId in after.records && after.records[freshId].statement == candidate.statement
  {
    hide Inv, OrderOk, RecordsOk, Recalled, Promotion, RecordOk, SubjectRecords;
    var record := NewRecord(candidate, freshId, governance.retention.Decide(candidate).ExpiresAt(moment), moment);
    PromotionAdds(store, governance, candidate, reviewed, requireReview, moment, freshId);
    NewRecordIsHit(governance, candidate, moment, freshId);
    StartKeepsInv(store, record);
    var after := Store(store.records[freshId := record], store.order + [freshId]);
    InvParts(after);
    RecalledExactly(after, DefaultQuery(candidate.subjectRef, moment), freshId);
  }

  /** A record that is no longer active stays in the store and never becomes active again. */
  lemma StepKeepsRetired(store: Store, governance: Governance, command: Command, id: string)
    requires Inv(store) && IdIsFresh(store, command)
    requires id in store.records && store.records[id].status != Active
    ensures id in After(store, governance, command).records
    ensures After(store, governance, command).records[id].status != Active
  {
    hide Inv, Promotion, Corrected, Expiry, Deletion, Revocation, ConsentHolders, RecordOk, OrderOk, RecordsOk;
    match command
    case Promote(candidate, reviewed, requireReview, moment, freshId) =>
      PromotionAdds(store, governance, candidate, reviewed, requireReview, moment, freshId);
    case Correct(recordId, correction, moment, freshId) =>
      CorrectionSucceedsExactly(store, recordId, correction, moment, freshId);
      if CanCorrect(store, recordId, correction) {
        RecordFacts(store, recordId);
      }
    case Expire(recordId) => ExpirySucceedsExactly(store, recordId);
    case Delete(recordId, reason) => DeletionSucceedsExactly(store, recordId, reason);
    case Revoke(consentRef, reason) =>
      InvParts(store);
      HoldersAreAffected(store, consentRef);
      RevocationDeletes(store, ConsentHolders(store, consentRef), reason);
      assert id in store.records.Keys;
  }

  lemma {:induction false} RetiredForever(governance: Governance, commands: seq<Command>, more: seq<Command>, id: string)
    requires FreshRun(governance, commands + more)
    requires id in Exec(governance, commands).records && Exec(governance, commands).records[id].status != Active
    ensures id in Exec(governance, commands + more).records
    ensures Exec(governance, commands + more).records[id].status != Active
  {
    hide Inv, After;
    if more == [] {
      assert commands + more == commands;
    } else {
      var init, last := more[..|more| - 1], more[|more| - 1];
      assert (commands + more)[..|commands + more| - 1] == commands + init;
      RetiredForever(governance, commands, init, id);
      ReachableInv(governance, commands + init);
      StepKeepsRetired(Exec(governance, commands + init), governance, last, id);
    }
  }

  /** Once deleted, superseded or expired, a record is returned by no later recall, whatever it asks for. */
  lemma RetiredIsNeverRecalled(governance: Governance, commands: seq<Command>, more: seq<Command>, id: string, query: Query)
    requires FreshRun(governance, commands + more)
    requires id in Exec(governance, commands).records && Exec(governance, commands).records[id].status != Active
    ensures id !in RecordIds(Recalled(Exec(governance, commands + more), query))
  {
    RetiredForever(governance, commands, more, id);
    ReachableInv(governance, commands + more);
    InvParts(Exec(governance, commands + more));
    hide Exec, FreshRun, Inv, OrderOk, RecordsOk, Recalled;
    RecalledExactly(Exec(governance, commands + more), query, id);
  }

  // ---------------------------------------------------------------------
  // Duplicates and conflicts among active records
  // ---------------------------------------------------------------------

  /** Two records of one subject that say the same, or say different things about the same in one scope. */
  ghost predicate Clash(rules: TextRules, a: MemoryRecord, b: MemoryRecord) {
    && a.subjectRef == b.subjectRef
    && (rules.normalize(a.statement) == rules.normalize(b.statement)
        || (a.scope == b.scope && rules.Overlaps(a.statement, b.statement)))
  }

  lemma ClashIsSymmetric(rules: TextRules, a: MemoryRecord, b: MemoryRecord)
    ensures Clash(rules, a, b) == Clash(rules, b, a)
  {
    var left, right := rules.tokenize(a.statement), rules.tokenize(b.statement);
    assert left * right == right * left;
  }

  ghost predicate NoClash(rules: TextRules, records: map<string, MemoryRecord>) {
    forall a <- records, b <- records | a != b && records[a].status == Active && records[b].status == Active ::
      !Clash(rules, records[a], records[b])
  }

  /** No active record of the subject, other than `except`, duplicates or conflicts with a statement. */
  predicate Clear(rules: TextRules, records: map<string, MemoryRecord>, except: string,
                  subjectRef: string, scope: string, statement: string)
  {
    forall id <- records | id != except ::
      && !rules.Duplicates(subjectRef, statement, records[id])
      && !rules.Conflicts(subjectRef, scope, statement, records[id])
  }

  lemma ClearExactly(rules: TextRules, records: map<string, MemoryRecord>, except: string, record: MemoryRecord)
    ensures Clear(rules, records, except, record.subjectRef, record.scope, record.statement) <==>
            forall id <- records | id != except && records[id].status == Active :: !Clash(rules, record, records[id])
  {
    forall id <- records
      ensures (records[id].status == Active && Clash(rules, record, records[id])) <==>
              (rules.Duplicates(record.subjectRef, record.statement, records[id])
               || rules.Conflicts(record.subjectRef, record.scope, record.statement, records[id]))
    {
    }
  }

  /** Adding an active record to records that do not clash keeps it so exactly when the record is clear. */
  lemma AddedClashesExactly(rules: TextRules, records: map<string, MemoryRecord>, record: MemoryRecord)
    requires NoClash(rules, records) && record.recordId !in records && record.status == Active
    ensures NoClash(rules, records[record.recordId := record]) <==>
            Clear(rules, records, record.recordId, record.subjectRef, record.scope, record.statement)
  {
    hide Clash, Clear;
    ClearExactly(rules, records, record.recordId, record);
    var after := records[record.recordId := record];
    forall id <- records ensures Clash(rules, record, records[id]) == Clash(rules, records[id], record) {
      ClashIsSymmetric(rules, record, records[id]);
    }
    if NoClash(rules, after) {
      forall id <- records | records[id].status == Active ensures !Clash(rules, record, records[id]) {
        assert !Clash(rules, after[record.recordId], after[id]);
      }
    }
  }

  /** Records that lose active members still do not clash. */
  lemma FewerActive(rules: TextRules, before: map<string, MemoryRecord>, after: map<string, MemoryRecord>)
    requires NoClash(rules, before)
    requires forall id <- after | after[id].status == Active :: id in before && before[id] == after[id]
    ensures NoClash(rules, after)
  {
    hide Clash;
  }

  /** Both detections come back empty exactly when no active record duplicates or conflicts. */
  lemma DetectionsExactly(store: Store, rules: TextRules, candidate: Candidate, except: string)
    requires OrderOk(store) && RecordsOk(store.records) && except !in store.records
    ensures && rules.DetectDuplicate(candidate, SubjectRecords(store, candidate.subjectRef)) == []
            && rules.ConflictsWith(candidate, SubjectRecords(store, candidate.subjectRef)) == []
            <==> Clear(rules, store.records, except, candidate.subjectRef, ScopeOf(candidate), candidate.statement)
  {
    hide RecordOk, ScopeOf, Listed, SubjectRecords;
    var existing := SubjectRecords(store, candidate.subjectRef);
    var duplicates := (record: MemoryRecord) => rules.Duplicates(candidate.subjectRef, candidate.statement, record);
    var conflicts := (record: MemoryRecord) =>
      rules.Conflicts(candidate.subjectRef, ScopeOf(candidate), candidate.statement, record);
    NoneDetected(existing, record => rules.Duplicates(candidate.subjectRef, candidate.statement, record), duplicates);
    NoneDetected(existing, record =>
      rules.Conflicts(candidate.subjectRef, ScopeOf(candidate), candidate.statement, record), conflicts);
    hide Chosen;
    forall record: MemoryRecord
      ensures record in existing <==>
              && record.subjectRef == candidate.subjectRef
              && record.recordId in store.records && store.records[record.recordId] == record
    {
      SubjectRecordsExactly(store, candidate.subjectRef, record);
    }
    assert forall id <- store.records :: store.records[id].recordId == id;
    hide OrderOk, RecordsOk;
    forall id <- store.records
      ensures (duplicates(store.records[id]) || conflicts(store.records[id])) ==> store.records[id] in existing
    {
    }
  }

  lemma NoneDetected(records: seq<MemoryRecord>, f: MemoryRecord -> bool, g: MemoryRecord -> bool)
    requires forall record :: f(record) == g(record)
    ensures RecordIds(Chosen(records, f)) == [] <==> forall record <- records :: !g(record)
  {
    NoneChosen(records, f);
    assert |RecordIds(Chosen(records, f))| == |Chosen(records, f)|;
  }

  lemma SubjectRecordsExactly(store: Store, subjectRef: string, record: MemoryRecord)
    requires OrderOk(store) && RecordsOk(store.records)
    ensures record in SubjectRecords(store, subjectRef) <==>
            && record.subjectRef == subjectRef
            && record.recordId in store.records && store.records[record.recordId] == record
  {
    hide Listed, RecordOk;
    var ofSubject := (record: MemoryRecord) => record.subjectRef == subjectRef;
    ChosenMembers(store.All(), ofSubject, record);
    AllExactly(store, record);
  }

  /** A candidate is promoted exactly when it passes consent, review and retention and is clear of active records. */
  lemma PromotesExactly(store: Store, governance: Governance, candidate: Candidate, reviewed: bool,
                        requireReview: bool, moment: int, freshId: string)
    requires OrderOk(store) && RecordsOk(store.records) && freshId !in store.records
    ensures var result := Promotion(store, governance, candidate, reviewed, requireReview, moment, freshId).result;
            && result.Ok?
            && (result.value.Promoted? <==>
                  && !Sensitive(candidate.sensitivity)
                  && (requireReview && ScopeOf(candidate) in {"team", "tenant"} ==> reviewed)
                  && governance.retention.Decide(candidate).persist
                  && Clear(governance.rules, store.records, freshId,
                           candidate.subjectRef, ScopeOf(candidate), candidate.statement))
  {
    hide OrderOk, RecordsOk, SubjectRecords, ScopeOf, Clear;
    PromotionAdds(store, governance, candidate, reviewed, requireReview, moment, freshId);
    DetectionsExactly(store, governance.rules, candidate, freshId);
  }

  /** A promotion that goes through adds a record that clashes with no active one. */
  lemma PromotionKeepsNoClash(store: Store, governance: Governance, candidate: Candidate, reviewed: bool,
                              requireReview: bool, moment: int, freshId: string)
    requires Inv(store) && NoClash(governance.rules, store.records) && freshId !in store.records
    ensures NoClash(governance.rules,
                    Promotion(store, governance, candidate, reviewed, requireReview, moment, freshId).store.records)
  {
    InvParts(store);
    hide Inv, NoClash, RecordOk, OrderOk, RecordsOk, SubjectRecords, ScopeOf, Clear;
    var record := NewRecord(candidate, freshId, governance.retention.Decide(candidate).ExpiresAt(moment), moment);
    PromotionAdds(store, governance, candidate, reviewed, requireReview, moment, freshId);
    if Promotion(store, governance, candidate, reviewed, requireReview, moment, freshId).result.value.Promoted? {
      DetectionsExactly(store, governance.rules, candidate, freshId);
      AddedClashesExactly(governance.rules, store.records, record);
    }
  }

  lemma StepKeepsNoClash(store: Store, governance: Governance, command: Command)
    requires Inv(store) && IdIsFresh(store, command) && !command.Correct?
    requires NoClash(governance.rules, store.records)
    ensures NoClash(governance.rules, After(store, governance, command).records)
  {
    hide Inv, NoClash, Promotion, Corrected, Expiry, Deletion, Revocation, ConsentHolders, RecordOk, OrderOk, RecordsOk;
    match command
    case Promote(candidate, reviewed, requireReview, moment, freshId) =>
      PromotionKeepsNoClash(store, governance, candidate, reviewed, requireReview, moment, freshId);
    case Expire(recordId) =>
      ExpirySucceedsExactly(store, recordId);
      FewerActive(governance.rules, store.records, Expiry(store, recordId).store.records);
    case Delete(recordId, reason) =>
      DeletionSucceedsExactly(store, recordId, reason);
      FewerActive(governance.rules, store.records, Deletion(store, recordId, reason).store.records);
    case Revoke(consentRef, reason) =>
      InvParts(store);
      HoldersAreAffected(store, consentRef);
      var affected := ConsentHolders(store, consentRef);
      RevocationDeletes(store, affected, reason);
      var after := Revocation(store, affected, reason).store.records;
      forall id <- after | after[id].status == Active ensures id in store.records && store.records[id] == after[id] {
        assert id in after.Keys;
      }
      FewerActive(governance.rules, store.records, after);
  }

  /**
   * In every history without corrections no two active records of a subject have the same normalised
   * statement, and no two of the same scope share half of their tokens.
   */
  lemma {:induction false} NoClashWithoutCorrections(governance: Governance, commands: seq<Command>)
    requires FreshRun(governance, commands) && forall command <- commands :: !command.Correct?
    ensures NoClash(governance.rules, Exec(governance, commands).records)
  {
    hide Inv, After, NoClash;
    if commands == [] {
      EmptyStoreIsClear(governance.rules);
    } else {
      var init := commands[..|commands| - 1];
      NoClashWithoutCorrections(governance, init);
      ReachableInv(governance, init);
      StepKeepsNoClash(Exec(governance, init), governance, commands[|commands| - 1]);
    }
  }

  lemma EmptyStoreIsClear(rules: TextRules)
    ensures NoClash(rules, map[])
  {
  }

  /**
   * A correction skips the duplicate and conflict checks: it keeps active records apart exactly when
   * the checks a promotion makes would have passed, the corrected record left aside.
   */
  lemma CorrectionClashesExactly(store: Store, rules: TextRules, recordId: string, correction: Correction,
                                 moment: int, freshId: string)
    requires Inv(store) && NoClash(rules, store.records) && freshId !in store.records
    requires CanCorrect(store, recordId, correction)
    ensures NoClash(rules, Corrected(store, recordId, correction, moment, freshId).store.records) <==>
            var prior := store.records[recordId];
            Clear(rules, store.records, recordId, prior.subjectRef, prior.scope, correction.statement)
  {
    hide Inv, NoClash, Corrected, RecordOk, Clear, SameLine;
    CorrectionSucceedsExactly(store, recordId, correction, moment, freshId);
    RecordFacts(store, recordId);
    HandedClashesExactly(rules, store.records, store.records[recordId],
                         Successor(store.records[recordId], correction, moment, freshId));
  }

  lemma HandedClashesExactly(rules: TextRules, records: map<string, MemoryRecord>, prior: MemoryRecord, successor: MemoryRecord)
    requires NoClash(rules, records) && successor.recordId !in records && successor.status == Active
    requires prior.recordId in records && successor.subjectRef == prior.subjectRef && successor.scope == prior.scope
    ensures NoClash(rules, Handed(records, prior, successor)) <==>
            Clear(rules, records, prior.recordId, prior.subjectRef, prior.scope, successor.statement)
  {
    hide NoClash, Clear;
    var superseded := prior.(status := Superseded, revision := prior.revision + 1);
    var half := records[prior.recordId := superseded];
    FewerActive(rules, records, half);
    AddedClashesExactly(rules, half, successor);
    ClearWithoutPrior(rules, records, prior.recordId, superseded, successor.recordId, successor.statement);
  }

  lemma ClearWithoutPrior(rules: TextRules, records: map<string, MemoryRecord>, recordId: string, superseded: MemoryRecord,
                          freshId: string, statement: string)
    requires recordId in records && freshId !in records && superseded.status == Superseded
    ensures Clear(rules, records[recordId := superseded], freshId, superseded.subjectRef, superseded.scope, statement) <==>
            Clear(rules, records, recordId, superseded.subjectRef, superseded.scope, statement)
  {
    var half := records[recordId := superseded];
    forall id <- records | id != recordId ensures id in half && id != freshId && half[id] == records[id] {
    }
  }

  /** Correcting one active record to say what another active record of the subject says is such a clash. */
  lemma CorrectionCanDuplicate(store: Store, rules: TextRules, a: string, b: string, correction: Correction,
                               moment: int, freshId: string)
    requires Inv(store) && NoClash(rules, store.records) && freshId !in store.records
    requires a != b && a in store.records && store.records[a].status == Active && CanCorrect(store, b, correction)
    requires store.records[a].subjectRef == store.records[b].subjectRef
    requires correction.statement == store.records[a].statement
    ensures !NoClash(rules, Corrected(store, b, correction, moment, freshId).store.records)
  {
    hide Inv, NoClash, Corrected;
    CorrectionClashesExactly(store, rules, b, correction, moment, freshId);
    assert rules.Duplicates(store.records[b].subjectRef, correction.statement, store.records[a]);
  }

  // ---------------------------------------------------------------------
  // A history that reaches the clash
  // ---------------------------------------------------------------------

  /** A candidate that passes every check but those against other records. */
  predicate PassesAlone(governance: Governance, candidate: Candidate) {
    !Sensitive(candidate.sensitivity) && governance.retention.Decide(candidate).persist
  }

  /** Two candidates of one subject are promoted, then the second's record is corrected to say what the first says. */
  function ClashingRun(a: Candidate, b: Candidate, moment: int, p: string, q: string, r: string): seq<Command> {
    [Promote(a, false, false, moment, p), Promote(b, false, false, moment, q),
     Correct(q, Correction(a.statement, 1.0, None), moment, r)]
  }

  lemma ExecNext(governance: Governance, commands: seq<Command>, command: Command)
    ensures Exec(governance, commands + [command]) == After(Exec(governance, commands), governance, command)
    ensures FreshRun(governance, commands + [command]) <==>
            FreshRun(governance, commands) && IdIsFresh(Exec(governance, commands), command)
  {
    assert (commands + [command])[..|commands|] == commands;
  }

  /** A candidate that clears the store is promoted to an active record, and the store stays without clashes. */
  lemma ClearIsPromoted(store: Store, governance: Governance, candidate: Candidate, moment: int, freshId: string)
    requires Inv(store) && freshId !in store.records && NoClash(governance.rules, store.records)
    requires PassesAlone(governance, candidate)
    requires Clear(governance.rules, store.records, freshId, candidate.subjectRef, ScopeOf(candidate), candidate.statement)
    ensures var record := NewRecord(candidate, freshId, governance.retention.Decide(candidate).ExpiresAt(moment), moment);
            var after := Promotion(store, governance, candidate, false, false, moment, freshId).store;
            after.records == store.records[freshId := record] && NoClash(governance.rules, after.records)
  {
    InvParts(store);
    hide Inv, NoClash, Clear, Promotion, OrderOk, RecordsOk, RecordOk;
    PromotesExactly(store, governance, candidate, false, false, moment, freshId);
    PromotionAdds(store, governance, candidate, false, false, moment, freshId);
    PromotionKeepsNoClash(store, governance, candidate, false, false, moment, freshId);
  }

  lemma SecondCorrected(store: Store, governance: Governance, a: Candidate, b: Candidate, moment: int,
                        p: string, q: string, r: string)
    requires p != q && q != r && p != r && a.subjectRef == b.subjectRef
    requires Inv(store) && NoClash(governance.rules, store.records)
    requires store.records == map[p := PromotedRecord(governance, a, moment, p), q := PromotedRecord(governance, b, moment, q)]
    ensures var end := After(store, governance, Correct(q, Correction(a.statement, 1.0, None), moment, r)).records;
            && !NoClash(governance.rules, end)
            && p in end && end[p].status == Active && end[p].statement == a.statement
            && r in end && end[r].status == Active && end[r].statement == a.statement
            && end[p].subjectRef == end[r].subjectRef
  {
    hide Inv, NoClash, Corrected;
    var correction := Correction(a.statement, 1.0, None);
    CorrectionSucceedsExactly(store, q, correction, moment, r);
    CorrectionCanDuplicate(store, governance.rules, p, q, correction, moment, r);
  }

  function PromotedRecord(governance: Governance, candidate: Candidate, moment: int, id: string): MemoryRecord {
    NewRecord(candidate, id, governance.retention.Decide(candidate).ExpiresAt(moment), moment)
  }

  lemma OnePromoted(governance: Governance, a: Candidate, moment: int, p: string)
    requires PassesAlone(governance, a)
    ensures var run := [Promote(a, false, false, moment, p)];
            && FreshRun(governance, run) && Inv(Exec(governance, run))
            && Exec(governance, run).records == map[p := PromotedRecord(governance, a, moment, p)]
            && NoClash(governance.rules, Exec(governance, run).records)
  {
    assert Exec(governance, []) == Store(map[], []) && FreshRun(governance, []);
    var run := [Promote(a, false, false, moment, p)];
    assert [] + run == run;
    ExecNext(governance, [], run[0]);
    ReachableInv(governance, []);
    ReachableInv(governance, run);
    EmptyStoreIsClear(governance.rules);
    hide Inv, NoClash, FreshRun, Exec, PassesAlone, Promotion, NewRecord;
    ClearIsPromoted(Store(map[], []), governance, a, moment, p);
  }

  lemma TwoPromoted(governance: Governance, a: Candidate, b: Candidate, moment: int, p: string, q: string)
    requires p != q && a.subjectRef == b.subjectRef
    requires PassesAlone(governance, a) && PassesAlone(governance, b)
    requires governance.rules.normalize(a.statement) != governance.rules.normalize(b.statement)
    requires !(ScopeOf(a) == ScopeOf(b) && governance.rules.Overlaps(b.statement, a.statement))
    ensures var run := [Promote(a, false, false, moment, p), Promote(b, false, false, moment, q)];
            && FreshRun(governance, run) && Inv(Exec(governance, run))
            && Exec(governance, run).records ==
               map[p := PromotedRecord(governance, a, moment, p), q := PromotedRecord(governance, b, moment, q)]
            && NoClash(governance.rules, Exec(governance, run).records)
  {
    hide Inv, NoClash, FreshRun, Exec, PassesAlone, PromotedRecord, ScopeOf, Promotion;
    var run := [Promote(a, false, false, moment, p), Promote(b, false, false, moment, q)];
    var one := [run[0]];
    assert one + [run[1]] == run;
    OnePromoted(governance, a, moment, p);
    ExecNext(governance, one, run[1]);
    ReachableInv(governance, run);
    SecondPromoted(Exec(governance, one), governance, a, b, moment, p, q);
  }

  lemma SecondPromoted(store: Store, governance: Governance, a: Candidate, b: Candidate, moment: int, p: string, q: string)
    requires p != q && a.subjectRef == b.subjectRef && PassesAlone(governance, b)
    requires governance.rules.normalize(a.statement) != governance.rules.normalize(b.statement)
    requires !(ScopeOf(a) == ScopeOf(b) && governance.rules.Overlaps(b.statement, a.statement))
    requires Inv(store) && NoClash(governance.rules, store.records)
    requires store.records == map[p := PromotedRecord(governance, a, moment, p)]
    ensures var after := Promotion(store, governance, b, false, false, moment, q).store;
            && after.records ==
               map[p := PromotedRecord(governance, a, moment, p), q := PromotedRecord(governance, b, moment, q)]
            && NoClash(governance.rules, after.records)
  {
    hide Inv, NoClash, PassesAlone, Promotion, ScopeOf;
    ClearIsPromoted(store, governance, b, moment, q);
  }

  /**
   * It happens: of any two such candidates that do not clash, the run ends with two active records of
   * one subject that say the same, though no two clashed before the correction.
   */
  lemma CorrectionReachesClash(governance: Governance, a: Candidate, b: Candidate, moment: int,
                               p: string, q: string, r: string)
    requires p != q && q != r && p != r && a.subjectRef == b.subjectRef
    requires PassesAlone(governance, a) && PassesAlone(governance, b)
    requires governance.rules.normalize(a.statement) != governance.rules.normalize(b.statement)
    requires !(ScopeOf(a) == ScopeOf(b) && governance.rules.Overlaps(b.statement, a.statement))
    ensures var run := ClashingRun(a, b, moment, p, q, r);
            var end := Exec(governance, run).records;
            && FreshRun(governance, run)
            && NoClash(governance.rules, Exec(governance, run[..2]).records) && !NoClash(governance.rules, end)
            && p in end && end[p].status == Active && end[p].statement == a.statement
            && r in end && end[r].status == Active && end[r].statement == a.statement
            && end[p].subjectRef == end[r].subjectRef
  {
    hide Inv, NoClash, FreshRun, Exec, PassesAlone, PromotedRecord, ScopeOf, After;
    var run := ClashingRun(a, b, moment, p, q, r);
    assert run[..2] == [run[0], run[1]] && run == run[..2] + [run[2]];
    TwoPromoted(governance, a, b, moment, p, q);
    ExecNext(governance, run[..2], run[2]);
    SecondCorrected(Exec(governance, run[..2]), governance, a, b, moment, p, q, r);
  }
}
