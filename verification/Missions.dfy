/** Durable task graphs: missions, their nodes and the operations on them (crates/igris-orchestrator/src/lib.rs). */
module Missions {
  import opened Collections

  datatype NodeState = Pending | Running | Paused | Completed | Failed | Cancelled

  datatype MissionState = Running | Paused | Cancelled | Completed | Failed

  datatype OrchestratorError = UnknownNode(id: Uuid) | NotRunning | DependencyBlocked(name: string)

  datatype TaskNode = TaskNode(
    name: string,
    state: NodeState,
    attempts: nat,
    maxRetries: nat,
    timeoutMs: Option<nat>,
    dependsOn: seq<Uuid>,
    requiresVerification: bool,
    verified: bool,
    lastError: Option<string>,
    checkpoint: Option<string>)
  {
    predicate IsDone() {
      state.Completed? && (!requiresVerification || verified)
    }
  }

  /** The value of a mission at one moment. */
  datatype Snapshot = Snapshot(nodes: map<Uuid, TaskNode>, order: seq<Uuid>, state: MissionState)

  // ----------------------------------------------------------------- queries

  predicate DepsSatisfied(nodes: map<Uuid, TaskNode>, n: TaskNode) {
    forall d | d in n.dependsOn :: d in nodes && nodes[d].IsDone()
  }

  predicate IsReady(m: Snapshot, id: Uuid) {
    && m.state.Running? && id in m.nodes
    && m.nodes[id].state.Pending? && DepsSatisfied(m.nodes, m.nodes[id])
  }

  predicate IsResumable(m: Snapshot, id: Uuid) {
    && id in m.nodes
    && ((m.nodes[id].state.Pending? && DepsSatisfied(m.nodes, m.nodes[id])) || m.nodes[id].state.Running?)
  }

  predicate DoneIn(m: Snapshot, id: Uuid) {
    id in m.nodes && m.nodes[id].IsDone()
  }

  predicate AllDone(m: Snapshot) {
    forall id | id in m.nodes :: m.nodes[id].IsDone()
  }

  function ReadyTasks(m: Snapshot): seq<Uuid> {
    if m.state.Running? then Filter(m.order, id => IsReady(m, id)) else []
  }

  function ResumePoint(m: Snapshot): Option<Uuid> {
    First(m.order, id => IsResumable(m, id))
  }

  function ProgressPct(m: Snapshot): nat {
    if m.order == [] then 100 else |Filter(m.order, id => DoneIn(m, id))| * 100 / |m.order|
  }

  // ------------------------------------------------- what the operations do

  function Refreshed(m: Snapshot): Snapshot {
    if !m.state.Running? then m
    else if exists id | id in m.nodes :: m.nodes[id].state.Failed? then m.(state := MissionState.Failed)
    else if m.nodes != map[] && AllDone(m) then m.(state := MissionState.Completed)
    else m
  }

  function Put(m: Snapshot, id: Uuid, n: TaskNode): Snapshot {
    m.(nodes := m.nodes[id := n])
  }

  function AfterAdd(m: Snapshot, id: Uuid, n: TaskNode): Snapshot {
    Snapshot(m.nodes[id := n], m.order + [id], m.state)
  }

  function Began(n: TaskNode): TaskNode {
    n.(state := NodeState.Running, attempts := n.attempts + 1, lastError := None)
  }

  function Succeeded(n: TaskNode, checkpoint: Option<string>): TaskNode {
    n.(state := NodeState.Completed,
       checkpoint := if checkpoint.Some? then checkpoint else n.checkpoint,
       verified := n.verified || !n.requiresVerification)
  }

  function FailedOnce(n: TaskNode, error: string): TaskNode {
    n.(state := if n.attempts <= n.maxRetries then NodeState.Pending else NodeState.Failed, lastError := Some(error))
  }

  function AfterBegin(m: Snapshot, id: Uuid): Result<Snapshot, OrchestratorError> {
    if !m.state.Running? then Err(NotRunning)
    else if id !in m.nodes then Err(UnknownNode(id))
    else if !DepsSatisfied(m.nodes, m.nodes[id]) then Err(DependencyBlocked(m.nodes[id].name))
    else Ok(Put(m, id, Began(m.nodes[id])))
  }

  function AfterSuccess(m: Snapshot, id: Uuid, checkpoint: Option<string>): Snapshot {
    Refreshed(if id in m.nodes then Put(m, id, Succeeded(m.nodes[id], checkpoint)) else m)
  }

  function AfterFailure(m: Snapshot, id: Uuid, error: string): Snapshot {
    if id in m.nodes then Refreshed(Put(m, id, FailedOnce(m.nodes[id], error))) else m
  }

  function AfterVerify(m: Snapshot, id: Uuid): Snapshot {
    if id in m.nodes && m.nodes[id].state.Completed?
    then Refreshed(Put(m, id, m.nodes[id].(verified := true)))
    else m
  }

  function AfterCheckpoint(m: Snapshot, id: Uuid, data: string): Snapshot {
    if id in m.nodes then Put(m, id, m.nodes[id].(checkpoint := Some(data))) else m
  }

  function AfterPause(m: Snapshot): Snapshot {
    m.(state := MissionState.Paused)
  }

  function AfterResume(m: Snapshot): Snapshot {
    if m.state.Paused? then m.(state := MissionState.Running) else m
  }

  function Dropped(n: TaskNode): TaskNode {
    if n.state.Pending? || n.state.Running? then n.(state := NodeState.Cancelled) else n
  }

  function AfterCancel(m: Snapshot): Snapshot {
    m.(state := MissionState.Cancelled, nodes := map id | id in m.nodes :: Dropped(m.nodes[id]))
  }

  function Reclaimed(n: TaskNode): TaskNode {
    if n.state.Running? then n.(state := NodeState.Pending) else n
  }

  function AfterReclaim(m: Snapshot): Snapshot {
    m.(nodes := map id | id in m.nodes :: Reclaimed(m.nodes[id]))
  }

  // --------------------------------------------------------------- the class

  class Mission {
    var nodes: map<Uuid, TaskNode>
    var order: seq<Uuid>
    var state: MissionState

    constructor ()
      ensures Now() == Snapshot(map[], [], MissionState.Running)
    {
      nodes, order, state := map[], [], MissionState.Running;
    }

    function Now(): Snapshot
      reads this
    {
      Snapshot(nodes, order, state)
    }

    method Add(id: Uuid, node: TaskNode)
      modifies this
      ensures Now() == AfterAdd(old(Now()), id, node)
      ensures nodes == old(nodes)[id := node] && order == old(order) + [id] && state == old(state)
    {
      order := order + [id];
      nodes := nodes[id := node];
    }

    method Checkpoint(id: Uuid, data: string)
      modifies this
      ensures Now() == AfterCheckpoint(old(Now()), id, data)
    {
      if id in nodes {
        nodes := nodes[id := nodes[id].(checkpoint := Some(data))];
      }
    }

    method Pause()
      modifies this
      ensures Now() == AfterPause(old(Now()))
    {
      state := MissionState.Paused;
    }

    method Resume()
      modifies this
      ensures Now() == AfterResume(old(Now()))
    {
      if state.Paused? {
        state := MissionState.Running;
      }
    }

    method Cancel()
      modifies this
      ensures Now() == AfterCancel(old(Now()))
    {
      state := MissionState.Cancelled;
      var ids := Keys(nodes);
      var i := 0;
      while i < |ids|
        invariant 0 <= i <= |ids|
        invariant order == old(order) && state.Cancelled? && nodes.Keys == old(nodes).Keys
        invariant forall k :: 0 <= k < i ==> nodes[ids[k]] == Dropped(old(nodes)[ids[k]])
        invariant forall k :: i <= k < |ids| ==> nodes[ids[k]] == old(nodes)[ids[k]]
      {
        nodes := nodes[ids[i] := Dropped(nodes[ids[i]])];
        i := i + 1;
      }
    }

    method Begin(id: Uuid) returns (r: Result<(), OrchestratorError>)
      modifies this
      ensures var b := AfterBegin(old(Now()), id);
              match b
              case Ok(m) => r == Ok(()) && Now() == m
              case Err(e) => r == Err(e) && Now() == old(Now())
      ensures r.Ok? <==>
                && old(state).Running? && id in old(nodes)
                && forall d :: d in old(nodes)[id].dependsOn ==> d in old(nodes) && old(nodes)[d].IsDone()
    {
      if !state.Running? {
        return Err(NotRunning);
      }
      if id !in nodes {
        return Err(UnknownNode(id));
      }
      if !DepsSatisfied(nodes, nodes[id]) {
        return Err(DependencyBlocked(nodes[id].name));
      }
      nodes := nodes[id := Began(nodes[id])];
      return Ok(());
    }

    method RecordSuccess(id: Uuid, checkpoint: Option<string>)
      modifies this
      ensures Now() == AfterSuccess(old(Now()), id, checkpoint)
    {
      if id in nodes {
        nodes := nodes[id := Succeeded(nodes[id], checkpoint)];
      }
      RefreshState();
    }

    /** True when the node will be retried. */
    method RecordFailure(id: Uuid, error: string) returns (retry: bool)
      modifies this
      ensures Now() == AfterFailure(old(Now()), id, error)
      ensures retry <==> id in nodes && nodes[id].state.Pending?
    {
      if id !in nodes {
        return false;
      }
      var n := nodes[id];
      retry := n.attempts <= n.maxRetries;
      nodes := nodes[id := FailedOnce(n, error)];
      RefreshState();
    }

    method VerifyNode(id: Uuid) returns (ok: bool)
      modifies this
      ensures Now() == AfterVerify(old(Now()), id)
      ensures ok <==> id in old(nodes) && old(nodes)[id].state.Completed?
    {
      if id in nodes && nodes[id].state.Completed? {
        nodes := nodes[id := nodes[id].(verified := true)];
        RefreshState();
        return true;
      }
      return false;
    }

    method RefreshState()
      modifies this
      ensures Now() == Refreshed(old(Now()))
    {
      if !state.Running? {
        return;
      }
      if exists id | id in nodes :: nodes[id].state.Failed? {
        state := MissionState.Failed;
      } else if nodes != map[] && AllDone(Now()) {
        state := MissionState.Completed;
      }
    }

    method ReclaimRunning()
      modifies this
      ensures Now() == AfterReclaim(old(Now()))
    {
      var ids := Keys(nodes);
      var i := 0;
      while i < |ids|
        invariant 0 <= i <= |ids|
        invariant order == old(order) && state == old(state) && nodes.Keys == old(nodes).Keys
        invariant forall k :: 0 <= k < i ==> nodes[ids[k]] == Reclaimed(old(nodes)[ids[k]])
        invariant forall k :: i <= k < |ids| ==> nodes[ids[k]] == old(nodes)[ids[k]]
      {
        nodes := nodes[ids[i] := Reclaimed(nodes[ids[i]])];
        i := i + 1;
      }
    }
  }
}
