/** The workflow orchestrator: node runs are started when every dependency has completed. */
module Workflow {
  import opened Common

  datatype NodeKind = Agent | Action | Wait | Subflow

  datatype NodeStatus = NodePending | NodeRunning | NodeCompleted | NodeFailed

  datatype NodeRun = NodeRun(nodeRunId: string, nodeId: string, kind: NodeKind, status: NodeStatus,
                             dependencies: seq<string>)

  datatype RunStatus = RunPending | RunRunning | RunCompleted | RunFailed

  datatype Edge = Edge(source: string, target: string)

  datatype Definition = Definition(nodes: seq<string>, edges: seq<Edge>)

  datatype RunState = RunState(nodeRuns: seq<NodeRun>, status: RunStatus)

  datatype ScheduleDecision = ScheduleDecision(advanced: bool, nodeRunIds: seq<string>)

  function KindOf(nodeId: string): NodeKind {
    if "agent:" <= nodeId then Agent
    else if "action:" <= nodeId then Action
    else if "wait:" <= nodeId then Wait
    else if "subflow:" <= nodeId then Subflow
    else Action
  }

  // ---------------------------------------------------------------------
  // The operations on values
  // ---------------------------------------------------------------------

  function Dependencies(edges: seq<Edge>, nodeId: string): seq<string> {
    if edges == [] then []
    else
      var earlier, last := Dependencies(edges[..|edges| - 1], nodeId), edges[|edges| - 1];
      if last.target == nodeId then earlier + [last.source] else earlier
  }

  function NewNodeRun(definition: Definition, workflowRunId: string, nodeId: string): NodeRun {
    NodeRun(workflowRunId + ":" + nodeId, nodeId, KindOf(nodeId), NodePending, Dependencies(definition.edges, nodeId))
  }

  function Instantiated(definition: Definition, workflowRunId: string): RunState {
    RunState(
      seq(|definition.nodes|, i requires 0 <= i < |definition.nodes| =>
        NewNodeRun(definition, workflowRunId, definition.nodes[i])),
      RunPending)
  }

  function CompletedIds(nodeRuns: seq<NodeRun>): set<string> {
    set nodeRun <- nodeRuns | nodeRun.status == NodeCompleted :: nodeRun.nodeId
  }

  predicate Ready(nodeRun: NodeRun, completed: set<string>) {
    nodeRun.status == NodePending && forall dep <- nodeRun.dependencies :: dep in completed
  }

  function Started(nodeRun: NodeRun, completed: set<string>): NodeRun {
    if Ready(nodeRun, completed) then nodeRun.(status := NodeRunning) else nodeRun
  }

  function StartedAll(nodeRuns: seq<NodeRun>, completed: set<string>): seq<NodeRun> {
    seq(|nodeRuns|, i requires 0 <= i < |nodeRuns| => Started(nodeRuns[i], completed))
  }

  /** The ids of the node runs that become running, in order. */
  function Advanced(nodeRuns: seq<NodeRun>, completed: set<string>): seq<string> {
    if nodeRuns == [] then []
    else
      var earlier, last := Advanced(nodeRuns[..|nodeRuns| - 1], completed), nodeRuns[|nodeRuns| - 1];
      if Ready(last, completed) then earlier + [last.nodeRunId] else earlier
  }

  function Scheduled(state: RunState): RunState {
    var completed := CompletedIds(state.nodeRuns);
    RunState(StartedAll(state.nodeRuns, completed),
             if Advanced(state.nodeRuns, completed) != [] then RunRunning else state.status)
  }

  /** The first node run with an id gets a new status; without one nothing changes. */
  function WithStatus(nodeRuns: seq<NodeRun>, nodeId: string, status: NodeStatus): seq<NodeRun> {
    if nodeRuns == [] then []
    else if nodeRuns[0].nodeId == nodeId then [nodeRuns[0].(status := status)] + nodeRuns[1..]
    else [nodeRuns[0]] + WithStatus(nodeRuns[1..], nodeId, status)
  }

  lemma {:induction false} FirstMatch(nodeRuns: seq<NodeRun>, i: nat, nodeId: string, status: NodeStatus)
    requires i < |nodeRuns| && nodeRuns[i].nodeId == nodeId
    requires forall j | 0 <= j < i :: nodeRuns[j].nodeId != nodeId
    ensures WithStatus(nodeRuns, nodeId, status) == nodeRuns[i := nodeRuns[i].(status := status)]
  {
    if i > 0 {
      FirstMatch(nodeRuns[1..], i - 1, nodeId, status);
    }
  }

  lemma {:induction false} NoMatch(nodeRuns: seq<NodeRun>, nodeId: string, status: NodeStatus)
    requires forall nodeRun <- nodeRuns :: nodeRun.nodeId != nodeId
    ensures WithStatus(nodeRuns, nodeId, status) == nodeRuns
  {
    if nodeRuns != [] {
      NoMatch(nodeRuns[1..], nodeId, status);
    }
  }

  predicate AllCompleted(nodeRuns: seq<NodeRun>) {
    forall nodeRun <- nodeRuns :: nodeRun.status == NodeCompleted
  }

  function NodeDone(state: RunState, nodeId: string): RunState {
    var nodeRuns := WithStatus(state.nodeRuns, nodeId, NodeCompleted);
    RunState(nodeRuns, if AllCompleted(nodeRuns) then RunCompleted else state.status)
  }

  function NodeFailure(state: RunState, nodeId: string): RunState {
    RunState(WithStatus(state.nodeRuns, nodeId, NodeFailed), RunFailed)
  }

  // ---------------------------------------------------------------------
  // The orchestrator
  // ---------------------------------------------------------------------

  class WorkflowRun {
    const workflowRunId: string
    var nodeRuns: seq<NodeRun>
    var status: RunStatus

    constructor (workflowRunId: string)
      ensures this.workflowRunId == workflowRunId && View() == RunState([], RunPending)
    {
      this.workflowRunId := workflowRunId;
      nodeRuns, status := [], RunPending;
    }

    function View(): RunState
      reads this
    {
      RunState(nodeRuns, status)
    }
  }

  class WorkflowOrchestrator {
    constructor () {}

    method Instantiate(definition: Definition, workflowRunId: string) returns (run: WorkflowRun)
      ensures fresh(run) && run.workflowRunId == workflowRunId
      ensures run.View() == Instantiated(definition, workflowRunId)
    {
      run := new WorkflowRun(workflowRunId);
      for n := 0 to |definition.nodes|
        invariant run.status == RunPending
        invariant run.nodeRuns == Instantiated(definition, workflowRunId).nodeRuns[..n]
      {
        var nodeId := definition.nodes[n];
        run.nodeRuns := run.nodeRuns + [NewNodeRun(definition, workflowRunId, nodeId)];
      }
    }

    /** Which nodes are ready is decided against the nodes completed before the pass. */
    method ScheduleReady(run: WorkflowRun) returns (decision: ScheduleDecision)
      modifies run
      ensures run.View() == Scheduled(old(run.View()))
      ensures decision.nodeRunIds == Advanced(old(run.nodeRuns), CompletedIds(old(run.nodeRuns)))
      ensures decision.advanced == (decision.nodeRunIds != [])
    {
      ghost var before := run.nodeRuns;
      var completed := CompletedIds(run.nodeRuns);
      var advanced: seq<string> := [];
      for index := 0 to |run.nodeRuns|
        invariant |run.nodeRuns| == |before| && run.status == old(run.status)
        invariant forall i | 0 <= i < index :: run.nodeRuns[i] == Started(before[i], completed)
        invariant forall i | index <= i < |before| :: run.nodeRuns[i] == before[i]
        invariant advanced == Advanced(before[..index], completed)
      {
        var nodeRun := run.nodeRuns[index];
        assert before[..index + 1][..index] == before[..index];
        if nodeRun.status != NodePending {
          continue;
        }
        if forall dep <- nodeRun.dependencies :: dep in completed {
          run.nodeRuns := run.nodeRuns[index := nodeRun.(status := NodeRunning)];
          advanced := advanced + [nodeRun.nodeRunId];
        }
      }
      assert before[..|before|] == before;
      if advanced != [] {
        run.status := RunRunning;
      }
      return ScheduleDecision(advanced != [], advanced);
    }

    method SetFirst(run: WorkflowRun, nodeId: string, status: NodeStatus)
      modifies run`nodeRuns
      ensures run.nodeRuns == WithStatus(old(run.nodeRuns), nodeId, status)
    {
      hide WithStatus;
      ghost var before := run.nodeRuns;
      for index := 0 to |run.nodeRuns|
        invariant run.nodeRuns == before && forall i | 0 <= i < index :: before[i].nodeId != nodeId
      {
        var nodeRun := run.nodeRuns[index];
        if nodeRun.nodeId == nodeId {
          FirstMatch(before, index, nodeId, status);
          run.nodeRuns := run.nodeRuns[index := nodeRun.(status := status)];
          return;
        }
      }
      NoMatch(before, nodeId, status);
    }

    method CompleteNode(run: WorkflowRun, nodeId: string) returns (finished: bool)
      modifies run
      ensures run.View() == NodeDone(old(run.View()), nodeId)
      ensures finished == (run.status == RunCompleted)
    {
      SetFirst(run, nodeId, NodeCompleted);
      if AllCompleted(run.nodeRuns) {
        run.status := RunCompleted;
      }
      return run.status == RunCompleted;
    }

    method FailNode(run: WorkflowRun, nodeId: string) returns (finished: bool)
      modifies run
      ensures run.View() == NodeFailure(old(run.View()), nodeId) && !finished
    {
      SetFirst(run, nodeId, NodeFailed);
      run.status := RunFailed;
      return false;
    }
  }
}
