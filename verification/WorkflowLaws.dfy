/** Safety, progress and termination of the workflow orchestrator over every run. */
module WorkflowLaws {
  import opened Common
  import opened Workflow

  ghost predicate Distinct(nodes: seq<string>) {
    forall i, j | 0 <= i < j < |nodes| :: nodes[i] != nodes[j]
  }

  /** Node ids differ, and every edge starts at a node. */
  ghost predicate WellFormed(definition: Definition) {
    Distinct(definition.nodes) && forall edge <- definition.edges :: edge.source in definition.nodes
  }

  // ---------------------------------------------------------------------
  // Walks and cycles
  // ---------------------------------------------------------------------

  ghost predicate Walk(definition: Definition, path: seq<string>) {
    forall i | 0 <= i < |path| - 1 :: Edge(path[i], path[i + 1]) in definition.edges
  }

  ghost predicate IsCycle(definition: Definition, path: seq<string>) {
    path != [] && Walk(definition, path) && Edge(path[|path| - 1], path[0]) in definition.edges
  }

  ghost predicate Acyclic(definition: Definition) {
    forall path :: !IsCycle(definition, path)
  }

  lemma {:induction false} Repeat(path: seq<string>, pool: set<string>) returns (i: nat, j: nat)
    requires forall node <- path :: node in pool
    requires |path| > |pool|
    ensures i < j < |path| && path[i] == path[j]
  {
    var init, last := path[..|path| - 1], path[|path| - 1];
    if last in init {
      i :| 0 <= i < |init| && init[i] == last;
      j := |init|;
    } else {
      assert last in pool;
      i, j := Repeat(init, pool - {last});
    }
  }

  lemma {:induction false} FewNodes(nodes: seq<string>)
    ensures |(set node <- nodes)| <= |nodes|
  {
    if nodes != [] {
      var init, last := nodes[..|nodes| - 1], nodes[|nodes| - 1];
      FewNodes(init);
      assert (set node <- nodes) == (set node <- init) + {last};
    }
  }

  /** A walk longer than the number of nodes goes round a cycle. */
  lemma LongWalkHasCycle(definition: Definition, path: seq<string>) returns (cycle: seq<string>)
    requires Walk(definition, path) && |path| > |definition.nodes|
    requires forall node <- path :: node in definition.nodes
    ensures IsCycle(definition, cycle)
  {
    FewNodes(definition.nodes);
    var i, j := Repeat(path, set node <- definition.nodes);
    cycle := path[i..j];
    assert Edge(path[j - 1], path[j - 1 + 1]) in definition.edges;
    forall k | 0 <= k < |cycle| - 1 ensures Edge(cycle[k], cycle[k + 1]) in definition.edges {
      assert Edge(path[i + k], path[i + k + 1]) in definition.edges;
    }
  }

  // ---------------------------------------------------------------------
  // What every step keeps
  // ---------------------------------------------------------------------

  /** The node runs are the definition's nodes, with their dependencies. */
  ghost predicate Shape(definition: Definition, nodeRuns: seq<NodeRun>) {
    && |nodeRuns| == |definition.nodes|
    && forall i | 0 <= i < |nodeRuns| ::
         && nodeRuns[i].nodeId == definition.nodes[i]
         && nodeRuns[i].dependencies == Dependencies(definition.edges, definition.nodes[i])
  }

  /** Whatever has left pending has all its dependencies completed. */
  ghost predicate DependenciesDone(nodeRuns: seq<NodeRun>) {
    forall i | 0 <= i < |nodeRuns| && nodeRuns[i].status != NodePending ::
      forall dep <- nodeRuns[i].dependencies :: dep in CompletedIds(nodeRuns)
  }

  /** The run is completed exactly when it has nodes and all of them are. */
  ghost predicate StatusRight(state: RunState) {
    state.status == RunCompleted <==> state.nodeRuns != [] && AllCompleted(state.nodeRuns)
  }

  /** The nodes of a cycle are all still pending. */
  ghost predicate CyclePending(nodeRuns: seq<NodeRun>, cycle: seq<string>) {
    forall i | 0 <= i < |nodeRuns| && nodeRuns[i].nodeId in cycle :: nodeRuns[i].status == NodePending
  }

  ghost predicate Inv(definition: Definition, state: RunState) {
    Shape(definition, state.nodeRuns) && DependenciesDone(state.nodeRuns) && StatusRight(state)
  }

  lemma {:induction false} DependencyEdges(edges: seq<Edge>, nodeId: string, dep: string)
    ensures dep in Dependencies(edges, nodeId) <==> Edge(dep, nodeId) in edges
  {
    if edges != [] {
      DependencyEdges(edges[..|edges| - 1], nodeId, dep);
      assert edges == edges[..|edges| - 1] + [edges[|edges| - 1]];
    }
  }

  lemma CompletedExactly(definition: Definition, nodeRuns: seq<NodeRun>, i: nat)
    requires WellFormed(definition) && Shape(definition, nodeRuns) && i < |nodeRuns|
    ensures definition.nodes[i] in CompletedIds(nodeRuns) <==> nodeRuns[i].status == NodeCompleted
  {
    if definition.nodes[i] in CompletedIds(nodeRuns) {
      var j :| 0 <= j < |nodeRuns| && nodeRuns[j].status == NodeCompleted && nodeRuns[j].nodeId == definition.nodes[i];
      assert i == j;
    }
  }

  lemma InstantiatedInv(definition: Definition, workflowRunId: string)
    ensures Inv(definition, Instantiated(definition, workflowRunId))
  {
    var state := Instantiated(definition, workflowRunId);
    if state.nodeRuns != [] {
      assert state.nodeRuns[0].status == NodePending;
    }
  }

  lemma {:induction false} AdvancedWhenReady(nodeRuns: seq<NodeRun>, completed: set<string>)
    ensures Advanced(nodeRuns, completed) != [] <==> exists nodeRun <- nodeRuns :: Ready(nodeRun, completed)
  {
    if nodeRuns != [] {
      AdvancedWhenReady(nodeRuns[..|nodeRuns| - 1], completed);
      assert nodeRuns == nodeRuns[..|nodeRuns| - 1] + [nodeRuns[|nodeRuns| - 1]];
    }
  }

  /** A scheduling pass reports exactly the node runs whose status it changes, all from pending to running. */
  lemma {:induction false} AdvancedExactly(nodeRuns: seq<NodeRun>, completed: set<string>, id: string)
    ensures id in Advanced(nodeRuns, completed) <==>
            exists nodeRun <- nodeRuns :: nodeRun.nodeRunId == id && Started(nodeRun, completed) != nodeRun
    ensures forall nodeRun <- nodeRuns | Started(nodeRun, completed) != nodeRun ::
              nodeRun.status == NodePending && Started(nodeRun, completed) == nodeRun.(status := NodeRunning)
  {
    if nodeRuns != [] {
      AdvancedExactly(nodeRuns[..|nodeRuns| - 1], completed, id);
      assert nodeRuns == nodeRuns[..|nodeRuns| - 1] + [nodeRuns[|nodeRuns| - 1]];
    }
  }

  lemma ScheduledCompletes(nodeRuns: seq<NodeRun>, completed: set<string>)
    ensures CompletedIds(StartedAll(nodeRuns, completed)) == CompletedIds(nodeRuns)
  {
    var started := StartedAll(nodeRuns, completed);
    forall id ensures id in CompletedIds(started) <==> id in CompletedIds(nodeRuns) {
      if id in CompletedIds(nodeRuns) {
        var i :| 0 <= i < |nodeRuns| && nodeRuns[i].status == NodeCompleted && nodeRuns[i].nodeId == id;
        assert started[i] == nodeRuns[i];
      }
    }
  }

  lemma ScheduleKeepsInv(definition: Definition, state: RunState)
    requires Inv(definition, state)
    ensures Inv(definition, Scheduled(state))
  {
    var completed := CompletedIds(state.nodeRuns);
    var started := StartedAll(state.nodeRuns, completed);
    ScheduledCompletes(state.nodeRuns, completed);
    AdvancedWhenReady(state.nodeRuns, completed);
    hide CompletedIds;
    if nodeRun :| nodeRun in state.nodeRuns && Ready(nodeRun, completed) {
      var i :| 0 <= i < |started| && state.nodeRuns[i] == nodeRun;
      assert started[i].status == NodeRunning;
    } else {
      assert started == state.nodeRuns;
    }
  }

  /** A status written to a node run that has already left pending. */
  lemma WrittenAt(definition: Definition, nodeRuns: seq<NodeRun>, i: nat, status: NodeStatus)
    requires WellFormed(definition) && Shape(definition, nodeRuns) && i < |nodeRuns|
    ensures WithStatus(nodeRuns, definition.nodes[i], status) == nodeRuns[i := nodeRuns[i].(status := status)]
    ensures Shape(definition, WithStatus(nodeRuns, definition.nodes[i], status))
  {
    FirstMatch(nodeRuns, i, definition.nodes[i], status);
  }

  lemma WriteKeepsDependencies(nodeRuns: seq<NodeRun>, i: nat, status: NodeStatus)
    requires DependenciesDone(nodeRuns) && i < |nodeRuns| && nodeRuns[i].status != NodePending
    requires nodeRuns[i].status == NodeCompleted ==> status == NodeCompleted
    ensures DependenciesDone(nodeRuns[i := nodeRuns[i].(status := status)])
  {
    var after := nodeRuns[i := nodeRuns[i].(status := status)];
    forall id <- CompletedIds(nodeRuns) ensures id in CompletedIds(after) {
      var j :| 0 <= j < |nodeRuns| && nodeRuns[j].status == NodeCompleted && nodeRuns[j].nodeId == id;
      assert after[j].status == NodeCompleted && after[j].nodeId == id;
    }
  }

  lemma DoneKeepsInv(definition: Definition, state: RunState, i: nat)
    requires WellFormed(definition) && Inv(definition, state) && i < |state.nodeRuns|
    requires state.nodeRuns[i].status in {NodeRunning, NodeCompleted}
    ensures Inv(definition, NodeDone(state, definition.nodes[i]))
  {
    hide WithStatus, CompletedIds;
    WrittenAt(definition, state.nodeRuns, i, NodeCompleted);
    WriteKeepsDependencies(state.nodeRuns, i, NodeCompleted);
    assert NodeDone(state, definition.nodes[i]).nodeRuns != [];
    if state.nodeRuns[i].status == NodeCompleted {
      assert state.nodeRuns[i := state.nodeRuns[i].(status := NodeCompleted)] == state.nodeRuns;
    } else {
      assert state.status != RunCompleted;
    }
  }

  lemma FailureKeepsInv(definition: Definition, state: RunState, i: nat)
    requires WellFormed(definition) && Inv(definition, state) && i < |state.nodeRuns|
    requires state.nodeRuns[i].status == NodeRunning
    ensures Inv(definition, NodeFailure(state, definition.nodes[i]))
  {
    hide WithStatus, CompletedIds;
    WrittenAt(definition, state.nodeRuns, i, NodeFailed);
    WriteKeepsDependencies(state.nodeRuns, i, NodeFailed);
    var after := NodeFailure(state, definition.nodes[i]).nodeRuns;
    assert after[i] in after && after[i].status == NodeFailed;
  }

  /** A node on a cycle waits for another node on the cycle. */
  lemma CyclePredecessor(definition: Definition, cycle: seq<string>, node: string) returns (dep: string)
    requires IsCycle(definition, cycle) && node in cycle
    ensures dep in cycle && dep in Dependencies(definition.edges, node)
  {
    var k :| 0 <= k < |cycle| && cycle[k] == node;
    dep := if k == 0 then cycle[|cycle| - 1] else cycle[k - 1];
    assert k > 0 ==> Edge(cycle[k - 1], cycle[k - 1 + 1]) in definition.edges;
    DependencyEdges(definition.edges, node, dep);
  }

  lemma ScheduleKeepsCycle(definition: Definition, state: RunState, cycle: seq<string>)
    requires WellFormed(definition) && Shape(definition, state.nodeRuns)
    requires IsCycle(definition, cycle) && CyclePending(state.nodeRuns, cycle)
    ensures CyclePending(Scheduled(state).nodeRuns, cycle)
  {
    var nodeRuns := state.nodeRuns;
    forall i | 0 <= i < |nodeRuns| && nodeRuns[i].nodeId in cycle
      ensures !Ready(nodeRuns[i], CompletedIds(nodeRuns))
    {
      var dep := CyclePredecessor(definition, cycle, nodeRuns[i].nodeId);
      assert dep !in CompletedIds(nodeRuns);
    }
  }

  lemma WriteKeepsCycle(definition: Definition, nodeRuns: seq<NodeRun>, i: nat, status: NodeStatus, cycle: seq<string>)
    requires WellFormed(definition) && Shape(definition, nodeRuns) && i < |nodeRuns|
    requires nodeRuns[i].status != NodePending && CyclePending(nodeRuns, cycle)
    ensures CyclePending(WithStatus(nodeRuns, definition.nodes[i], status), cycle)
  {
    WrittenAt(definition, nodeRuns, i, status);
  }

  // ---------------------------------------------------------------------
  // Every run
  // ---------------------------------------------------------------------

  datatype Op = Schedule | Complete(nodeId: string) | Fail(nodeId: string)

  function Apply(state: RunState, op: Op): RunState {
    match op
    case Schedule => Scheduled(state)
    case Complete(nodeId) => NodeDone(state, nodeId)
    case Fail(nodeId) => NodeFailure(state, nodeId)
  }

  /** Only running nodes are completed or failed. */
  ghost predicate Legal(state: RunState, op: Op) {
    op.Schedule? || exists nodeRun <- state.nodeRuns :: nodeRun.nodeId == op.nodeId && nodeRun.status == NodeRunning
  }

  function StateAfter(definition: Definition, workflowRunId: string, ops: seq<Op>): RunState {
    if ops == [] then Instantiated(definition, workflowRunId)
    else Apply(StateAfter(definition, workflowRunId, ops[..|ops| - 1]), ops[|ops| - 1])
  }

  ghost predicate LegalRun(definition: Definition, workflowRunId: string, ops: seq<Op>) {
    ops == []
    || (&& LegalRun(definition, workflowRunId, ops[..|ops| - 1])
        && Legal(StateAfter(definition, workflowRunId, ops[..|ops| - 1]), ops[|ops| - 1]))
  }

  /** In every reachable state what has started has its dependencies completed, and the status is right. */
  lemma {:induction false} ReachableInv(definition: Definition, workflowRunId: string, ops: seq<Op>)
    requires WellFormed(definition) && LegalRun(definition, workflowRunId, ops)
    ensures Inv(definition, StateAfter(definition, workflowRunId, ops))
  {
    if ops == [] {
      InstantiatedInv(definition, workflowRunId);
    } else {
      var op := ops[|ops| - 1];
      var state := StateAfter(definition, workflowRunId, ops[..|ops| - 1]);
      ReachableInv(definition, workflowRunId, ops[..|ops| - 1]);
      hide Inv, WellFormed, NodeDone, NodeFailure, Scheduled;
      if op.Schedule? {
        ScheduleKeepsInv(definition, state);
      } else {
        var i := RunningIndex(definition, state, op.nodeId);
        if op.Complete? {
          DoneKeepsInv(definition, state, i);
        } else {
          FailureKeepsInv(definition, state, i);
        }
      }
    }
  }

  lemma RunningIndex(definition: Definition, state: RunState, nodeId: string) returns (i: nat)
    requires Inv(definition, state)
    requires exists nodeRun <- state.nodeRuns :: nodeRun.nodeId == nodeId && nodeRun.status == NodeRunning
    ensures i < |state.nodeRuns| == |definition.nodes|
    ensures definition.nodes[i] == nodeId && state.nodeRuns[i].status == NodeRunning
  {
    i :| 0 <= i < |state.nodeRuns| && state.nodeRuns[i].nodeId == nodeId && state.nodeRuns[i].status == NodeRunning;
  }

  /** A node on a cycle is pending in every reachable state. */
  lemma {:induction false} CycleNeverStarts(definition: Definition, workflowRunId: string, ops: seq<Op>, cycle: seq<string>)
    requires WellFormed(definition) && LegalRun(definition, workflowRunId, ops) && IsCycle(definition, cycle)
    ensures CyclePending(StateAfter(definition, workflowRunId, ops).nodeRuns, cycle)
  {
    if ops != [] {
      var op := ops[|ops| - 1];
      var state := StateAfter(definition, workflowRunId, ops[..|ops| - 1]);
      CycleNeverStarts(definition, workflowRunId, ops[..|ops| - 1], cycle);
      ReachableInv(definition, workflowRunId, ops[..|ops| - 1]);
      hide WellFormed, IsCycle, DependenciesDone, StatusRight, Scheduled, WithStatus;
      if op.Schedule? {
        ScheduleKeepsCycle(definition, state, cycle);
      } else {
        var i := RunningIndex(definition, state, op.nodeId);
        WriteKeepsCycle(definition, state.nodeRuns, i, if op.Complete? then NodeCompleted else NodeFailed, cycle);
      }
    }
  }

  // ---------------------------------------------------------------------
  // Progress
  // ---------------------------------------------------------------------

  /** Nothing is running, nothing has failed, and nothing can be scheduled. */
  ghost predicate Stuck(nodeRuns: seq<NodeRun>) {
    && (forall nodeRun <- nodeRuns :: nodeRun.status in {NodePending, NodeCompleted})
    && (forall nodeRun <- nodeRuns :: !Ready(nodeRun, CompletedIds(nodeRuns)))
  }

  /** In a stuck state a pending node waits for a pending node, which waits for a pending node, and so on. */
  lemma {:induction false} StuckWalk(definition: Definition, nodeRuns: seq<NodeRun>, i: nat, steps: nat)
    returns (path: seq<string>)
    requires WellFormed(definition) && Shape(definition, nodeRuns) && Stuck(nodeRuns)
    requires i < |nodeRuns| && nodeRuns[i].status == NodePending
    ensures Walk(definition, path) && |path| == steps + 1 && path[steps] == definition.nodes[i]
    ensures forall node <- path :: node in definition.nodes
    decreases steps
  {
    if steps == 0 {
      path := [definition.nodes[i]];
    } else {
      var j := PendingDependency(definition, nodeRuns, i);
      var earlier := StuckWalk(definition, nodeRuns, j, steps - 1);
      path := earlier + [definition.nodes[i]];
    }
  }

  lemma PendingDependency(definition: Definition, nodeRuns: seq<NodeRun>, i: nat) returns (j: nat)
    requires WellFormed(definition) && Shape(definition, nodeRuns) && Stuck(nodeRuns)
    requires i < |nodeRuns| && nodeRuns[i].status == NodePending
    ensures j < |nodeRuns| && nodeRuns[j].status == NodePending
    ensures Edge(definition.nodes[j], definition.nodes[i]) in definition.edges
  {
    assert !Ready(nodeRuns[i], CompletedIds(nodeRuns));
    var dep :| dep in nodeRuns[i].dependencies && dep !in CompletedIds(nodeRuns);
    DependencyEdges(definition.edges, definition.nodes[i], dep);
    assert Edge(dep, definition.nodes[i]).source in definition.nodes;
    j :| 0 <= j < |definition.nodes| && definition.nodes[j] == dep;
    CompletedExactly(definition, nodeRuns, j);
  }

  lemma StuckHasCycle(definition: Definition, nodeRuns: seq<NodeRun>) returns (cycle: seq<string>)
    requires WellFormed(definition) && Shape(definition, nodeRuns) && Stuck(nodeRuns) && !AllCompleted(nodeRuns)
    ensures IsCycle(definition, cycle)
  {
    var i :| 0 <= i < |nodeRuns| && nodeRuns[i].status != NodeCompleted;
    var path := StuckWalk(definition, nodeRuns, i, |definition.nodes|);
    cycle := LongWalkHasCycle(definition, path);
  }

  /** In an acyclic workflow without failures, something is running or ready until everything has completed. */
  lemma AcyclicMakesProgress(definition: Definition, state: RunState)
    requires WellFormed(definition) && Acyclic(definition) && Inv(definition, state)
    requires forall nodeRun <- state.nodeRuns :: nodeRun.status != NodeFailed
    requires !AllCompleted(state.nodeRuns)
    ensures || (exists nodeRun <- state.nodeRuns :: nodeRun.status == NodeRunning)
            || Advanced(state.nodeRuns, CompletedIds(state.nodeRuns)) != []
  {
    AdvancedWhenReady(state.nodeRuns, CompletedIds(state.nodeRuns));
    if Stuck(state.nodeRuns) {
      var cycle := StuckHasCycle(definition, state.nodeRuns);
    }
  }

  lemma ReachableProgress(definition: Definition, workflowRunId: string, ops: seq<Op>)
    requires WellFormed(definition) && Acyclic(definition) && LegalRun(definition, workflowRunId, ops)
    ensures var state := StateAfter(definition, workflowRunId, ops);
            (forall nodeRun <- state.nodeRuns :: nodeRun.status != NodeFailed) ==>
              || AllCompleted(state.nodeRuns)
              || (exists nodeRun <- state.nodeRuns :: nodeRun.status == NodeRunning)
              || Advanced(state.nodeRuns, CompletedIds(state.nodeRuns)) != []
  {
    hide WellFormed, Acyclic, StateAfter, LegalRun, Inv, CompletedIds, Advanced;
    ReachableInv(definition, workflowRunId, ops);
    var state := StateAfter(definition, workflowRunId, ops);
    if !AllCompleted(state.nodeRuns) && forall nodeRun <- state.nodeRuns :: nodeRun.status != NodeFailed {
      AcyclicMakesProgress(definition, state);
    }
  }

  // ---------------------------------------------------------------------
  // Rounds: schedule, then complete everything that runs
  // ---------------------------------------------------------------------

  function DoneAll(state: RunState, order: seq<string>): RunState {
    if order == [] then state else NodeDone(DoneAll(state, order[..|order| - 1]), order[|order| - 1])
  }

  /** The order lists exactly the running nodes, in any order. */
  ghost predicate ListsRunning(nodeRuns: seq<NodeRun>, order: seq<string>) {
    && (forall nodeRun <- nodeRuns :: nodeRun.nodeId in order <==> nodeRun.status == NodeRunning)
    && (forall id <- order :: exists nodeRun <- nodeRuns :: nodeRun.nodeId == id)
  }

  function Round(state: RunState, order: seq<string>): RunState {
    DoneAll(Scheduled(state), order)
  }

  function AfterRounds(definition: Definition, workflowRunId: string, orders: seq<seq<string>>): RunState {
    if orders == [] then Instantiated(definition, workflowRunId)
    else Round(AfterRounds(definition, workflowRunId, orders[..|orders| - 1]), orders[|orders| - 1])
  }

  ghost predicate ValidRounds(definition: Definition, workflowRunId: string, orders: seq<seq<string>>) {
    orders == []
    || (&& ValidRounds(definition, workflowRunId, orders[..|orders| - 1])
        && ListsRunning(Scheduled(AfterRounds(definition, workflowRunId, orders[..|orders| - 1])).nodeRuns,
                        orders[|orders| - 1]))
  }

  /** Between rounds nothing is running and nothing has failed. */
  ghost predicate Settled(nodeRuns: seq<NodeRun>) {
    forall i | 0 <= i < |nodeRuns| :: nodeRuns[i].status in {NodePending, NodeCompleted}
  }

  /** Completing listed nodes: those become completed, the others stay as they are. */
  ghost predicate DoneFrom(before: seq<NodeRun>, after: seq<NodeRun>, order: seq<string>) {
    && |after| == |before|
    && forall i | 0 <= i < |before| ::
         after[i].status == if before[i].nodeId in order then NodeCompleted else before[i].status
  }

  ghost predicate RunningIn(definition: Definition, nodeRuns: seq<NodeRun>, id: string)
    requires |nodeRuns| == |definition.nodes|
  {
    exists i | 0 <= i < |nodeRuns| :: definition.nodes[i] == id && nodeRuns[i].status == NodeRunning
  }

  lemma {:induction false} DoneAllDoes(definition: Definition, state: RunState, order: seq<string>)
    requires WellFormed(definition) && Inv(definition, state)
    requires forall id <- order :: RunningIn(definition, state.nodeRuns, id)
    ensures Inv(definition, DoneAll(state, order))
    ensures DoneFrom(state.nodeRuns, DoneAll(state, order).nodeRuns, order)
  {
    hide WellFormed, DependenciesDone, StatusRight;
    if order != [] {
      var init, last := order[..|order| - 1], order[|order| - 1];
      assert order == init + [last];
      DoneAllDoes(definition, state, init);
      assert RunningIn(definition, state.nodeRuns, last);
      var i :| 0 <= i < |state.nodeRuns| && definition.nodes[i] == last && state.nodeRuns[i].status == NodeRunning;
      DoneOneMore(definition, state, DoneAll(state, init), init, i);
    }
  }

  lemma DoneOneMore(definition: Definition, before: RunState, state: RunState, order: seq<string>, i: nat)
    requires WellFormed(definition) && Inv(definition, before) && Inv(definition, state)
    requires DoneFrom(before.nodeRuns, state.nodeRuns, order)
    requires i < |before.nodeRuns| && before.nodeRuns[i].status == NodeRunning
    ensures Inv(definition, NodeDone(state, definition.nodes[i]))
    ensures DoneFrom(before.nodeRuns, NodeDone(state, definition.nodes[i]).nodeRuns, order + [definition.nodes[i]])
  {
    hide DependenciesDone, StatusRight;
    WrittenAt(definition, state.nodeRuns, i, NodeCompleted);
    DoneKeepsInv(definition, state, i);
  }

  lemma ListedIsRunning(definition: Definition, nodeRuns: seq<NodeRun>, order: seq<string>, i: nat)
    requires WellFormed(definition) && |nodeRuns| == |definition.nodes| && i < |nodeRuns|
    requires definition.nodes[i] in order && forall id <- order :: RunningIn(definition, nodeRuns, id)
    ensures nodeRuns[i].status == NodeRunning
  {
    assert RunningIn(definition, nodeRuns, definition.nodes[i]);
  }

  lemma DoneAllKeepsCycle(definition: Definition, state: RunState, order: seq<string>, cycle: seq<string>)
    requires WellFormed(definition) && Inv(definition, state) && CyclePending(state.nodeRuns, cycle)
    requires Inv(definition, DoneAll(state, order)) && DoneFrom(state.nodeRuns, DoneAll(state, order).nodeRuns, order)
    requires forall id <- order :: RunningIn(definition, state.nodeRuns, id)
    ensures CyclePending(DoneAll(state, order).nodeRuns, cycle)
  {
    var after := DoneAll(state, order).nodeRuns;
    hide DoneAll;
    forall i | 0 <= i < |after| && definition.nodes[i] in order ensures state.nodeRuns[i].status == NodeRunning {
      ListedIsRunning(definition, state.nodeRuns, order, i);
    }
  }

  lemma ScheduledShape(definition: Definition, state: RunState, order: seq<string>)
    requires Shape(definition, state.nodeRuns) && ListsRunning(Scheduled(state).nodeRuns, order)
    requires |Scheduled(state).nodeRuns| == |definition.nodes|
    ensures forall id <- order :: RunningIn(definition, Scheduled(state).nodeRuns, id)
  {
    var nodeRuns := Scheduled(state).nodeRuns;
    forall id <- order ensures RunningIn(definition, nodeRuns, id) {
      var i :| 0 <= i < |nodeRuns| && nodeRuns[i].nodeId == id;
      assert definition.nodes[i] == id;
    }
  }

  /** After a round exactly the nodes that were completed or ready are completed. */
  ghost predicate RoundFrom(before: seq<NodeRun>, after: seq<NodeRun>) {
    && |after| == |before|
    && forall i | 0 <= i < |before| ::
         after[i].status ==
         if before[i].status == NodeCompleted || Ready(before[i], CompletedIds(before)) then NodeCompleted else NodePending
  }

  lemma RoundDoes(definition: Definition, state: RunState, order: seq<string>)
    requires WellFormed(definition) && Inv(definition, state) && Settled(state.nodeRuns)
    requires ListsRunning(Scheduled(state).nodeRuns, order)
    ensures Inv(definition, Round(state, order))
    ensures RoundFrom(state.nodeRuns, Round(state, order).nodeRuns)
  {
    hide WellFormed, DependenciesDone, StatusRight, CompletedIds;
    ScheduleKeepsInv(definition, state);
    ScheduledShape(definition, state, order);
    DoneAllDoes(definition, Scheduled(state), order);
  }

  /** A round keeps the nodes of a cycle pending. */
  lemma RoundKeepsCycle(definition: Definition, state: RunState, order: seq<string>, cycle: seq<string>)
    requires WellFormed(definition) && Inv(definition, state) && Settled(state.nodeRuns)
    requires ListsRunning(Scheduled(state).nodeRuns, order)
    requires IsCycle(definition, cycle) && CyclePending(state.nodeRuns, cycle)
    ensures CyclePending(Round(state, order).nodeRuns, cycle)
  {
    ScheduleKeepsInv(definition, state);
    ScheduledShape(definition, state, order);
    DoneAllDoes(definition, Scheduled(state), order);
    ScheduleKeepsCycle(definition, state, cycle);
    hide IsCycle, WellFormed, Shape, Scheduled;
    DoneAllKeepsCycle(definition, Scheduled(state), order, cycle);
  }

  lemma {:induction false} RoundsKeepCycle(definition: Definition, workflowRunId: string, orders: seq<seq<string>>,
                                           cycle: seq<string>)
    requires WellFormed(definition) && ValidRounds(definition, workflowRunId, orders) && IsCycle(definition, cycle)
    ensures CyclePending(AfterRounds(definition, workflowRunId, orders).nodeRuns, cycle)
  {
    if orders != [] {
      var init := orders[..|orders| - 1];
      RoundsKeepCycle(definition, workflowRunId, init, cycle);
      RoundsKeepInv(definition, workflowRunId, init);
      RoundKeepsCycle(definition, AfterRounds(definition, workflowRunId, init), orders[|orders| - 1], cycle);
    }
  }

  lemma {:induction false} RoundsKeepInv(definition: Definition, workflowRunId: string, orders: seq<seq<string>>)
    requires WellFormed(definition) && ValidRounds(definition, workflowRunId, orders)
    ensures Inv(definition, AfterRounds(definition, workflowRunId, orders))
    ensures Settled(AfterRounds(definition, workflowRunId, orders).nodeRuns)
  {
    hide WellFormed, Inv, Round;
    if orders == [] {
      InstantiatedInv(definition, workflowRunId);
    } else {
      RoundsKeepInv(definition, workflowRunId, orders[..|orders| - 1]);
      RoundDoes(definition, AfterRounds(definition, workflowRunId, orders[..|orders| - 1]), orders[|orders| - 1]);
    }
  }

  /** In an acyclic workflow each round completes at least one more node. */
  lemma RoundCompletesMore(definition: Definition, state: RunState, order: seq<string>)
    requires WellFormed(definition) && Acyclic(definition) && Inv(definition, state) && Settled(state.nodeRuns)
    requires ListsRunning(Scheduled(state).nodeRuns, order)
    ensures |CompletedIds(Round(state, order).nodeRuns)| > |CompletedIds(state.nodeRuns)|
            || AllCompleted(Round(state, order).nodeRuns)
  {
    RoundDoes(definition, state, order);
    var before, after := state.nodeRuns, Round(state, order).nodeRuns;
    hide Round;
    if AllCompleted(before) {
      assert forall i | 0 <= i < |after| :: before[i] in before;
    } else {
      AcyclicMakesProgress(definition, state);
      AdvancedWhenReady(before, CompletedIds(before));
      var i :| 0 <= i < |before| && Ready(before[i], CompletedIds(before));
      MoreCompleted(definition, before, after, i);
    }
  }

  lemma MoreCompleted(definition: Definition, before: seq<NodeRun>, after: seq<NodeRun>, i: nat)
    requires WellFormed(definition) && Shape(definition, before) && Shape(definition, after)
    requires RoundFrom(before, after) && i < |before| && Ready(before[i], CompletedIds(before))
    ensures |CompletedIds(after)| > |CompletedIds(before)|
  {
    CompletedExactly(definition, before, i);
    CompletedExactly(definition, after, i);
    forall id <- CompletedIds(before) ensures id in CompletedIds(after) {
      var j :| 0 <= j < |before| && before[j].status == NodeCompleted && before[j].nodeId == id;
      assert after[j].status == NodeCompleted && after[j].nodeId == id;
    }
    assert CompletedIds(before) + {definition.nodes[i]} <= CompletedIds(after);
    Larger(CompletedIds(before) + {definition.nodes[i]}, CompletedIds(after));
  }

  lemma Larger(a: set<string>, b: set<string>)
    requires a <= b
    ensures |a| <= |b|
  {
    assert b == a + (b - a);
  }

  lemma {:induction false} RoundsCount(definition: Definition, workflowRunId: string, orders: seq<seq<string>>)
    requires WellFormed(definition) && Acyclic(definition) && ValidRounds(definition, workflowRunId, orders)
    ensures |CompletedIds(AfterRounds(definition, workflowRunId, orders).nodeRuns)| >= |orders|
            || AllCompleted(AfterRounds(definition, workflowRunId, orders).nodeRuns)
  {
    hide Round, WellFormed, Acyclic, Inv, CompletedIds;
    if orders != [] {
      var init, last := orders[..|orders| - 1], orders[|orders| - 1];
      var state := AfterRounds(definition, workflowRunId, init);
      RoundsCount(definition, workflowRunId, init);
      RoundsKeepInv(definition, workflowRunId, init);
      if AllCompleted(state.nodeRuns) {
        DoneStaysDone(definition, state, last);
      } else {
        RoundCompletesMore(definition, state, last);
      }
    }
  }

  lemma DoneStaysDone(definition: Definition, state: RunState, order: seq<string>)
    requires WellFormed(definition) && Inv(definition, state) && Settled(state.nodeRuns)
    requires ListsRunning(Scheduled(state).nodeRuns, order) && AllCompleted(state.nodeRuns)
    ensures AllCompleted(Round(state, order).nodeRuns)
  {
    RoundDoes(definition, state, order);
    assert forall i | 0 <= i < |state.nodeRuns| :: state.nodeRuns[i] in state.nodeRuns;
  }

  lemma AllNodesCompleted(definition: Definition, nodeRuns: seq<NodeRun>)
    requires WellFormed(definition) && Shape(definition, nodeRuns)
    requires |CompletedIds(nodeRuns)| >= |definition.nodes|
    ensures AllCompleted(nodeRuns)
  {
    var nodes := set node <- definition.nodes;
    FewNodes(definition.nodes);
    assert CompletedIds(nodeRuns) <= nodes;
    assert nodes == CompletedIds(nodeRuns) + (nodes - CompletedIds(nodeRuns));
    assert nodes - CompletedIds(nodeRuns) == {};
    forall i | 0 <= i < |nodeRuns| ensures nodeRuns[i].status == NodeCompleted {
      assert definition.nodes[i] in nodes;
      CompletedExactly(definition, nodeRuns, i);
    }
  }

  /**
   * Scheduling and completing, round by round, finishes a workflow of n nodes within n rounds
   * exactly when its graph has no cycle.
   */
  lemma FinishesExactlyWhenAcyclic(definition: Definition, workflowRunId: string, orders: seq<seq<string>>)
    requires WellFormed(definition) && definition.nodes != []
    requires ValidRounds(definition, workflowRunId, orders) && |orders| >= |definition.nodes|
    ensures AfterRounds(definition, workflowRunId, orders).status == RunCompleted <==> Acyclic(definition)
  {
    hide ValidRounds, AfterRounds;
    var state := AfterRounds(definition, workflowRunId, orders);
    RoundsKeepInv(definition, workflowRunId, orders);
    if Acyclic(definition) {
      RoundsCount(definition, workflowRunId, orders);
      if !AllCompleted(state.nodeRuns) {
        AllNodesCompleted(definition, state.nodeRuns);
      }
    } else {
      var cycle :| IsCycle(definition, cycle);
      RoundsKeepCycle(definition, workflowRunId, orders, cycle);
      CycleNodeIsPending(definition, state.nodeRuns, cycle);
    }
  }

  lemma CycleNodeIsPending(definition: Definition, nodeRuns: seq<NodeRun>, cycle: seq<string>)
    requires WellFormed(definition) && Shape(definition, nodeRuns)
    requires IsCycle(definition, cycle) && CyclePending(nodeRuns, cycle)
    ensures !AllCompleted(nodeRuns)
  {
    var edge := Edge(cycle[|cycle| - 1], cycle[0]);
    assert edge.source in definition.nodes;
    var i :| 0 <= i < |definition.nodes| && definition.nodes[i] == edge.source;
    assert nodeRuns[i].nodeId in cycle && nodeRuns[i] in nodeRuns;
  }

  // ---------------------------------------------------------------------
  // What an instance starts with
  // ---------------------------------------------------------------------

  predicate StartsWith(text: string, prefix: string) {
    |prefix| <= |text| && text[..|prefix|] == prefix
  }

  /** One pending node run for each node, in order, of the kind its id announces, waiting for its incoming edges. */
  lemma InstantiatedExactly(definition: Definition, workflowRunId: string, i: nat)
    requires i < |definition.nodes|
    ensures var state, node := Instantiated(definition, workflowRunId), definition.nodes[i];
            && state.status == RunPending && |state.nodeRuns| == |definition.nodes|
            && var nodeRun := state.nodeRuns[i];
               && nodeRun.nodeId == node && nodeRun.nodeRunId == workflowRunId + ":" + node
               && nodeRun.status == NodePending
               && (nodeRun.kind == Agent <==> StartsWith(node, "agent:"))
               && (nodeRun.kind == Wait <==> StartsWith(node, "wait:"))
               && (nodeRun.kind == Subflow <==> StartsWith(node, "subflow:"))
               && (forall source :: source in nodeRun.dependencies <==> Edge(source, node) in definition.edges)
  {
    var node := definition.nodes[i];
    forall source ensures source in Dependencies(definition.edges, node) <==> Edge(source, node) in definition.edges {
      DependencyEdges(definition.edges, node, source);
    }
    hide Dependencies;
    KindExactly(node);
  }

  lemma KindExactly(node: string)
    ensures KindOf(node) == Agent <==> StartsWith(node, "agent:")
    ensures KindOf(node) == Wait <==> StartsWith(node, "wait:")
    ensures KindOf(node) == Subflow <==> StartsWith(node, "subflow:")
  {
    assert "agent:"[1] == 'g' && "action:"[1] == 'c' && "wait:"[0] == 'w' && "subflow:"[0] == 's';
    if StartsWith(node, "agent:") {
      assert node[1] == node[..6][1];
    }
    if StartsWith(node, "action:") {
      assert node[1] == node[..7][1];
    }
    if StartsWith(node, "wait:") {
      assert node[0] == node[..5][0];
    }
    if StartsWith(node, "subflow:") {
      assert node[0] == node[..8][0];
    }
  }

  /** A pass leaves the run running when it reports anything, and changes nothing at all otherwise. */
  lemma PassSetsStatus(state: RunState)
    ensures var reported := Advanced(state.nodeRuns, CompletedIds(state.nodeRuns));
            && (reported != [] ==> Scheduled(state).status == RunRunning)
            && (reported == [] ==> Scheduled(state) == state)
  {
    if Advanced(state.nodeRuns, CompletedIds(state.nodeRuns)) == [] {
      NothingReported(state.nodeRuns, CompletedIds(state.nodeRuns));
    }
  }

  lemma {:induction false} NothingReported(nodeRuns: seq<NodeRun>, completed: set<string>)
    requires Advanced(nodeRuns, completed) == []
    ensures StartedAll(nodeRuns, completed) == nodeRuns
  {
    if nodeRuns != [] {
      var init, last := nodeRuns[..|nodeRuns| - 1], nodeRuns[|nodeRuns| - 1];
      NothingReported(init, completed);
      assert forall i | 0 <= i < |init| :: StartedAll(init, completed)[i] == StartedAll(nodeRuns, completed)[i];
    }
  }
}
