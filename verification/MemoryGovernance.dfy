/** Memory objects, retention, duplicate and conflict rules. */
module MemoryGovernance {
  import opened Common

  datatype Sensitivity = Public | Internal | Confidential | Restricted

  /** A retention hint after trimming, lower-casing and matching `<number>d` or `<number>h`. */
  datatype Hint = NoHint | SessionHint | DaysHint(number: nat) | HoursHint(number: nat) | NamedHint(name: string)

  datatype MemoryCandidate = MemoryCandidate(
    candidateId: string, subjectRef: string, sourceRefs: seq<string>, purpose: string, sensitivity: Sensitivity,
    statement: string, confidence: real, requiredConsent: bool, scopeRequested: string, retentionHint: Hint)

  /** The candidate's constructor rejects a confidence outside [0, 1]. */
  type Candidate = c: MemoryCandidate | 0.0 <= c.confidence <= 1.0
    witness MemoryCandidate("", "", [], "", Public, "", 0.0, false, "", NoHint)

  datatype MemoryStatus = Active | Superseded | Expired | Deleted

  datatype MemoryRecord = MemoryRecord(
    recordId: string, subjectRef: string, scope: string, sourceRefs: seq<string>, statement: string,
    confidence: real, consentRef: Option<string>, sensitivity: Sensitivity, validFrom: int, expiresAt: Option<int>,
    status: MemoryStatus, supersedesRef: Option<string>, deletionState: Option<string>, revision: int)

  predicate Sensitive(sensitivity: Sensitivity) {
    sensitivity in {Confidential, Restricted}
  }

  /** The checks of the record's constructor, which also run on every replacement. */
  predicate RecordValid(record: MemoryRecord) {
    && 0.0 <= record.confidence <= 1.0
    && (record.expiresAt.Some? ==> record.expiresAt.value > record.validFrom)
    && (Sensitive(record.sensitivity) ==> record.consentRef.Some? && record.consentRef.value != "")
    && record.revision >= 1
  }

  function ScopeOf(candidate: Candidate): string {
    if candidate.scopeRequested != "" then candidate.scopeRequested else candidate.purpose
  }

  // ---------------------------------------------------------------------
  // Retention
  // ---------------------------------------------------------------------

  const SECONDS_A_DAY := 86400

  datatype RetentionDecision = RetentionDecision(persist: bool, days: Option<int>) {
    function ExpiresAt(validFrom: int): Option<int> {
      if !persist || days == None || days.value <= 0 then None else Some(validFrom + days.value * SECONDS_A_DAY)
    }
  }

  datatype RetentionPolicy = RetentionPolicy(
    defaultDays: int, bySensitivity: map<Sensitivity, int>, byHint: map<string, int>, sessionMeansNoPersist: bool)
  {
    function ByClass(candidate: Candidate): RetentionDecision {
      if candidate.sensitivity in bySensitivity then RetentionDecision(true, Some(bySensitivity[candidate.sensitivity]))
      else RetentionDecision(true, if defaultDays > 0 then Some(defaultDays) else None)
    }

    function Decide(candidate: Candidate): RetentionDecision {
      match candidate.retentionHint
      case SessionHint =>
        if sessionMeansNoPersist then RetentionDecision(false, None) else RetentionDecision(true, Some(1))
      case DaysHint(number) => RetentionDecision(true, Some(number))
      case HoursHint(number) => RetentionDecision(true, Some(if number / 24 > 1 then number / 24 else 1))
      case NamedHint(name) =>
        if name in byHint then RetentionDecision(true, Some(byHint[name])) else ByClass(candidate)
      case NoHint => ByClass(candidate)
    }
  }

  /** An expiry, when there is one, lies after the start. */
  lemma RetentionIsLater(policy: RetentionPolicy, candidate: Candidate, validFrom: int)
    ensures var expiry := policy.Decide(candidate).ExpiresAt(validFrom);
            expiry.Some? ==> expiry.value > validFrom
  {
    var decision := policy.Decide(candidate);
    if decision.persist && decision.days.Some? && decision.days.value > 0 {
      assert decision.days.value * SECONDS_A_DAY > 0;
    }
  }

  // ---------------------------------------------------------------------
  // Duplicates and conflicts
  // ---------------------------------------------------------------------

  /** Text normalisation and tokenisation are the source's; any functions will do here. */
  datatype TextRules = TextRules(normalize: string -> string, tokenize: string -> set<string>) {
    /** An active record of the same subject with the same normalised statement. */
    predicate Duplicates(subjectRef: string, statement: string, record: MemoryRecord) {
      && record.status == Active && record.subjectRef == subjectRef
      && normalize(record.statement) == normalize(statement)
    }

    /** At least half of the smaller of two nonempty token sets is shared. */
    predicate Overlaps(a: string, b: string) {
      var left, right := tokenize(a), tokenize(b);
      && left != {} && right != {}
      && 2 * |left * right| >= if |left| <= |right| then |left| else |right|
    }

    /** An active record of the same subject and scope that says something else about the same things. */
    predicate Conflicts(subjectRef: string, scope: string, statement: string, record: MemoryRecord) {
      && record.status == Active && record.subjectRef == subjectRef && record.scope == scope
      && normalize(record.statement) != normalize(statement)
      && Overlaps(statement, record.statement)
    }

    function DetectDuplicate(candidate: Candidate, records: seq<MemoryRecord>): seq<string> {
      RecordIds(Chosen(records, record => Duplicates(candidate.subjectRef, candidate.statement, record)))
    }

    method DetectConflict(candidate: Candidate, records: seq<MemoryRecord>) returns (conflicts: seq<string>)
      ensures conflicts == ConflictsWith(candidate, records)
    {
      hide Chosen;
      ghost var clashes := record => Conflicts(candidate.subjectRef, ScopeOf(candidate), candidate.statement, record);
      NoneChosen(records, clashes);
      var candTokens := tokenize(candidate.statement);
      if candTokens == {} {
        return [];
      }
      var scope, normalized := ScopeOf(candidate), normalize(candidate.statement);
      conflicts := [];
      ChosenNothing(clashes);
      for r := 0 to |records|
        invariant conflicts == RecordIds(Chosen(records[..r], clashes))
      {
        var record := records[r];
        ChosenNext(records, r, clashes);
        if record.status != Active || record.subjectRef != candidate.subjectRef || record.scope != scope
           || normalize(record.statement) == normalized
        {
          continue;
        }
        var otherTokens := tokenize(record.statement);
        if otherTokens == {} {
          continue;
        }
        var overlap := |candTokens * otherTokens|;
        var smaller := if |candTokens| <= |otherTokens| then |candTokens| else |otherTokens|;
        if 2 * overlap >= smaller {
          conflicts := conflicts + [record.recordId];
        }
      }
      assert records[..|records|] == records;
    }

    function ConflictsWith(candidate: Candidate, records: seq<MemoryRecord>): seq<string> {
      RecordIds(Chosen(records, record =>
        Conflicts(candidate.subjectRef, ScopeOf(candidate), candidate.statement, record)))
    }
  }

  function RecordIds(records: seq<MemoryRecord>): seq<string> {
    seq(|records|, i requires 0 <= i < |records| => records[i].recordId)
  }

  function Chosen(records: seq<MemoryRecord>, keep: MemoryRecord -> bool): seq<MemoryRecord> {
    if records == [] then []
    else
      var earlier, last := Chosen(records[..|records| - 1], keep), records[|records| - 1];
      if keep(last) then earlier + [last] else earlier
  }

  lemma ChosenNext(records: seq<MemoryRecord>, r: nat, keep: MemoryRecord -> bool)
    requires r < |records|
    ensures Chosen(records[..r + 1], keep) ==
            if keep(records[r]) then Chosen(records[..r], keep) + [records[r]] else Chosen(records[..r], keep)
  {
    assert records[..r + 1][..r] == records[..r];
  }

  lemma ChosenNothing(keep: MemoryRecord -> bool)
    ensures Chosen([], keep) == []
  {
  }

  lemma {:induction false} NoneChosen(records: seq<MemoryRecord>, keep: MemoryRecord -> bool)
    ensures Chosen(records, keep) == [] <==> forall record <- records :: !keep(record)
  {
    if records != [] {
      NoneChosen(records[..|records| - 1], keep);
      assert records == records[..|records| - 1] + [records[|records| - 1]];
    }
  }

  lemma {:induction false} ChosenMembers(records: seq<MemoryRecord>, keep: MemoryRecord -> bool, record: MemoryRecord)
    ensures record in Chosen(records, keep) <==> record in records && keep(record)
  {
    if records != [] {
      ChosenMembers(records[..|records| - 1], keep, record);
      assert records == records[..|records| - 1] + [records[|records| - 1]];
    }
  }
}
