/** The in-memory authoritative repositories, with revision compare-and-set and fencing. */
module RunRepositories {
  import opened Common
  import opened RunObjects
  import opened RunProtocol

  /** The token a record is fenced with; without a lease any token from zero will do. */
  function Fencing(run: RunRecord): int {
    if run.lease.Some? then run.lease.value.fencingToken else 0
  }

  class InMemoryRunRecordRepository {
    var records: map<RunId, RunRecord>

    constructor ()
      ensures records == map[]
    {
      records := map[];
    }

    method Require(runId: RunId) returns (result: Result<RunRecord, RunError>)
      ensures result == if runId in records then Ok(records[runId]) else Err(NotFound)
    {
      if runId !in records {
        return Err(NotFound);
      }
      return Ok(records[runId]);
    }

    method Create(record: RunRecord) returns (result: Result<RunRecord, RunError>)
      modifies this
      ensures result == if record.runId in old(records) then Err(RunExists) else Ok(record)
      ensures records == if result.Ok? then old(records)[record.runId := record] else old(records)
    {
      if record.runId in records {
        return Err(RunExists);
      }
      records := records[record.runId := record];
      return Ok(record);
    }

    method Update(current: RunRecord, expectedRevision: Option<int>, fencingToken: Option<int>)
      returns (result: Result<RunRecord, RunError>)
      modifies this
      ensures current.runId !in old(records) ==> result == Err(NotFound)
      ensures current.runId in old(records) ==>
                var existing := old(records)[current.runId];
                && (result == Err(RevisionConflict) <==>
                      expectedRevision.Some? && expectedRevision.value != existing.revision)
                && (result == Err(StaleFencing) <==>
                      (expectedRevision == None || expectedRevision.value == existing.revision)
                      && fencingToken.Some? && fencingToken.value < Fencing(existing))
                && (result.Ok? <==> result != Err(RevisionConflict) && result != Err(StaleFencing))
      ensures result.Ok? ==> result.value == current
      ensures records == if result.Ok? then old(records)[current.runId := current] else old(records)
    {
      if current.runId !in records {
        return Err(NotFound);
      }
      var existing := records[current.runId];
      if expectedRevision.Some? && existing.revision != expectedRevision.value {
        return Err(RevisionConflict);
      }
      if fencingToken.Some? {
        var currentFencing := Fencing(existing);
        if fencingToken.value < currentFencing {
          return Err(StaleFencing);
        }
      }
      records := records[current.runId := current];
      return Ok(current);
    }
  }

  class InMemoryTaskStateRepository {
    var states: map<string, TaskState>

    constructor ()
      ensures states == map[]
    {
      states := map[];
    }

    method Create(state: TaskState) returns (result: Result<TaskState, RunError>)
      modifies this
      ensures result == if state.taskId in old(states) then Err(TaskExists) else Ok(state)
      ensures states == if result.Ok? then old(states)[state.taskId := state] else old(states)
    {
      if state.taskId in states {
        return Err(TaskExists);
      }
      states := states[state.taskId := state];
      return Ok(state);
    }
  }

  class InMemoryAdmissionResultRepository {
    var results: map<string, ValidAdmission>

    constructor ()
      ensures results == map[]
    {
      results := map[];
    }

    method Create(admission: ValidAdmission) returns (result: Result<ValidAdmission, RunError>)
      modifies this
      ensures result == if admission.resultId in old(results) then Err(DuplicateResult) else Ok(admission)
      ensures results == if result.Ok? then old(results)[admission.resultId := admission] else old(results)
    {
      if admission.resultId in results {
        return Err(DuplicateResult);
      }
      results := results[admission.resultId := admission];
      return Ok(admission);
    }
  }

  /** Stands for `new_object_id`: each invocation of a command draws one ticket. */
  class IdSource {
    var next: nat

    constructor ()
      ensures next == 0
    {
      next := 0;
    }

    method Draw() returns (ticket: nat)
      modifies this
      ensures ticket == old(next) && next == old(next) + 1
    {
      ticket := next;
      next := next + 1;
    }
  }
}
