/** What the operations mean field by field, and how a node's fields follow from the events of a run. */
module MissionHistory {
  import opened Collections
  import opened Missions
  import opened MissionRuns
  import opened MissionCompletion

  // ---------------------------------------------------------------- answers

  /** Everything the node depends on is present, completed, and verified where that is required. */
  predicate DepsDone(nodes: map<Uuid, TaskNode>, n: TaskNode) {
    forall d | d in n.dependsOn ::
      d in nodes && nodes[d].state == NodeState.Completed && (nodes[d].requiresVerification ==> nodes[d].verified)
  }

  /** What `begin` answers, and what it changes. */
  lemma BeginAnswers(m: Snapshot, id: Uuid)
    ensures var r := AfterBegin(m, id);
            && (r == Err(NotRunning) <==> m.state != MissionState.Running)
            && (r == Err(UnknownNode(id)) <==> m.state == MissionState.Running && id !in m.nodes)
            && (r.Err? && r.error.DependencyBlocked? <==>
                m.state == MissionState.Running && id in m.nodes && !DepsDone(m.nodes, m.nodes[id]))
            && (r.Err? && r.error.DependencyBlocked? ==> r.error.name == m.nodes[id].name)
            && (r.Ok? ==>
                && r.value.order == m.order && r.value.state == m.state && r.value.nodes.Keys == m.nodes.Keys
                && (forall x :: x in m.nodes && x != id ==> r.value.nodes[x] == m.nodes[x])
                && r.value.nodes[id].state == NodeState.Running
                && r.value.nodes[id].attempts == m.nodes[id].attempts + 1)
  {
  }

  /** Running and completed nodes of every run have everything they depend on done. */
  lemma RunsKeepDepsDone(m: Snapshot, run: seq<Event>, id: Uuid)
    requires Fresh(m) && Disciplined(m, run) && id in After(m, run).nodes
    requires After(m, run).nodes[id].state in {NodeState.Running, NodeState.Completed}
    ensures DepsDone(After(m, run).nodes, After(m, run).nodes[id])
  {
    FreshRunsAreSafe(m, run);
  }

  /** The tasks handed out are pending, in a running mission, with everything they depend on done. */
  lemma HandedOutIff(m: Snapshot, id: Uuid)
    ensures id in ReadyTasks(m) <==>
              && m.state == MissionState.Running && id in m.order && id in m.nodes
              && m.nodes[id].state == NodeState.Pending && DepsDone(m.nodes, m.nodes[id])
  {
    ReadyTasksAreReady(m);
  }

  // ------------------------------------------------------------- one step

  /** The state of a node after a step. */
  lemma NodeStateNext(m: Snapshot, e: Event, id: Uuid)
    requires Allowed(m, e) && id in m.nodes
    ensures id in Step(m, e).nodes
    ensures var n, s := m.nodes[id], Step(m, e).nodes[id].state;
            && (e == Begin(id) ==> n.state == NodeState.Pending && s == NodeState.Running)
            && (e.Success? && e.id == id ==> n.state == NodeState.Running && s == NodeState.Completed)
            && (e.Failure? && e.id == id ==>
                && n.state == NodeState.Running
                && s == if n.attempts > n.maxRetries then NodeState.Failed else NodeState.Pending)
            && (e == Cancel ==>
                s == if n.state in {NodeState.Pending, NodeState.Running} then NodeState.Cancelled else n.state)
            && (e == Reclaim ==> s == if n.state == NodeState.Running then NodeState.Pending else n.state)
            && (e.Verify? || e.SetCheckpoint? || e == Pause || e == Resume ==> s == n.state)
            && ((e.Begin? || e.Success? || e.Failure?) && e.id != id ==> s == n.state)
  {
    StepByNode(m, e);
    assert MayTouch(m.nodes[id], e, id);
  }

  /** The events after which the mission looks at its nodes. */
  predicate Looks(m: Snapshot, e: Event) {
    e.Success? || e.Failure? || (e.Verify? && e.id in m.nodes && m.nodes[e.id].state == NodeState.Completed)
  }

  ghost predicate SomeFailed(m: Snapshot) {
    exists id :: id in m.nodes && m.nodes[id].state == NodeState.Failed
  }

  ghost predicate EverythingDone(m: Snapshot) {
    && m.nodes != map[]
    && forall id :: id in m.nodes ==>
         m.nodes[id].state == NodeState.Completed && (m.nodes[id].requiresVerification ==> m.nodes[id].verified)
  }

  /** What a look makes of a running mission. */
  lemma LookDecides(m: Snapshot)
    ensures Refreshed(m).nodes == m.nodes && Refreshed(m).order == m.order
    ensures Refreshed(m).state ==
            if m.state == MissionState.Running && SomeFailed(m) then MissionState.Failed
            else if m.state == MissionState.Running && EverythingDone(m) then MissionState.Completed
            else m.state
  {
  }

  /** The state of the mission after a step. */
  lemma MissionStateNext(m: Snapshot, e: Event)
    requires Allowed(m, e)
    ensures var m' := Step(m, e);
            && (e == Pause ==> m'.state == MissionState.Paused)
            && (e == Resume ==> m'.state == if m.state == MissionState.Paused then MissionState.Running else m.state)
            && (e == Cancel ==> m'.state == MissionState.Cancelled)
            && (e != Pause && e != Resume && e != Cancel && !Looks(m, e) ==> m'.state == m.state)
            && (Looks(m, e) ==>
                  m'.state == if m.state == MissionState.Running && SomeFailed(m') then MissionState.Failed
                              else if m.state == MissionState.Running && EverythingDone(m') then MissionState.Completed
                              else m.state)
  {
    match e {
      case Begin(id) => BeginByNode(m, id);
      case Success(id, checkpoint) => LookDecides(Put(m, id, Succeeded(m.nodes[id], checkpoint)));
      case Failure(id, error) => LookDecides(Put(m, id, FailedOnce(m.nodes[id], error)));
      case Verify(id) =>
        if Looks(m, e) {
          LookDecides(Put(m, id, m.nodes[id].(verified := true)));
        }
      case _ =>
    }
  }

  // ------------------------------------------------------------ whole runs

  /** The checkpoint set last. */
  function LastCheckpoint(run: seq<Event>, id: Uuid, first: Option<string>): Option<string>
    decreases |run|
  {
    if run == [] then first
    else
      var now := match run[0]
                 case Success(i, checkpoint) => if i == id && checkpoint.Some? then checkpoint else first
                 case SetCheckpoint(i, data) => if i == id then Some(data) else first
                 case _ => first;
      LastCheckpoint(run[1..], id, now)
  }

  /** The error of the last failure, until the node is begun again. */
  function LastError(run: seq<Event>, id: Uuid, first: Option<string>): Option<string>
    decreases |run|
  {
    if run == [] then first
    else
      var now := match run[0]
                 case Begin(i) => if i == id then None else first
                 case Failure(i, error) => if i == id then Some(error) else first
                 case _ => first;
      LastError(run[1..], id, now)
  }

  /** Some step verified the node: `verify_node` on it when completed, or its success when none is required. */
  predicate Verified(m: Snapshot, run: seq<Event>, id: Uuid)
    decreases |run|
  {
    && run != [] && id in m.nodes
    && (|| (run[0] == Verify(id) && m.nodes[id].state == NodeState.Completed)
        || (run[0].Success? && run[0].id == id && !m.nodes[id].requiresVerification)
        || Verified(Step(m, run[0]), run[1..], id))
  }

  predicate SameTask(n: TaskNode, n': TaskNode) {
    && n'.name == n.name && n'.timeoutMs == n.timeoutMs && n'.maxRetries == n.maxRetries
    && n'.dependsOn == n.dependsOn && n'.requiresVerification == n.requiresVerification
  }

  /**
   Through retries, reclaimed leases and pauses a node carries the checkpoint set last and the error of
   its last failure, is verified only by a step that verifies it, and stays the same task.
   */
  lemma {:induction false} FieldsFollowRun(m: Snapshot, run: seq<Event>, id: Uuid)
    requires Disciplined(m, run) && id in m.nodes
    ensures id in After(m, run).nodes
    ensures var n, n' := m.nodes[id], After(m, run).nodes[id];
            && SameTask(n, n')
            && n'.checkpoint == LastCheckpoint(run, id, n.checkpoint)
            && n'.lastError == LastError(run, id, n.lastError)
            && (n'.verified <==> n.verified || Verified(m, run, id))
    decreases |run|
  {
    if run == [] {
    } else {
      StepFields(m, run[0], id);
      FieldsFollowRun(Step(m, run[0]), run[1..], id);
    }
  }

  lemma StepFields(m: Snapshot, e: Event, id: Uuid)
    requires Allowed(m, e) && id in m.nodes
    ensures id in Step(m, e).nodes
    ensures var n, n' := m.nodes[id], Step(m, e).nodes[id];
            && SameTask(n, n')
            && n'.checkpoint == LastCheckpoint([e], id, n.checkpoint)
            && n'.lastError == LastError([e], id, n.lastError)
            && (n'.verified <==>
                || n.verified || (e == Verify(id) && n.state == NodeState.Completed)
                || (e.Success? && e.id == id && !n.requiresVerification))
  {
    StepByNode(m, e);
    NodeFields(m.nodes[id], e, id);
  }

  lemma NodeFields(n: TaskNode, e: Event, id: Uuid)
    ensures var n' := NodeAfter(n, e, id);
            && SameTask(n, n')
            && n'.checkpoint == LastCheckpoint([e], id, n.checkpoint)
            && n'.lastError == LastError([e], id, n.lastError)
            && (n'.verified <==>
                || n.verified || (e == Verify(id) && n.state == NodeState.Completed)
                || (e.Success? && e.id == id && !n.requiresVerification))
  {
    assert [e][1..] == [];
  }

  // ------------------------------------------------------------- summaries

  /** The first task, in order, that is pending with everything it depends on done, or running. */
  lemma ResumePointIsFirst(m: Snapshot)
    requires ResumePoint(m).Some?
    ensures var id := ResumePoint(m).value;
            && (exists i :: 0 <= i < |m.order| && m.order[i] == id &&
                            forall j :: 0 <= j < i ==> !Unfinished(m, m.order[j]))
            && Unfinished(m, id)
  {
    FirstIsFirst(m.order, id => IsResumable(m, id));
    var i :| 0 <= i < |m.order| && m.order[i] == ResumePoint(m).value
            && forall j :: 0 <= j < i ==> !IsResumable(m, m.order[j]);
    assert forall j :: 0 <= j < i ==> !Unfinished(m, m.order[j]);
  }

  predicate Unfinished(m: Snapshot, id: Uuid) {
    && id in m.nodes
    && (|| m.nodes[id].state == NodeState.Running
        || (m.nodes[id].state == NodeState.Pending && DepsDone(m.nodes, m.nodes[id])))
  }

  /** The entries of the order whose nodes are done. */
  function DonePlaces(m: Snapshot): set<int> {
    set i | 0 <= i < |m.order| && DoneIn(m, m.order[i])
  }

  /** Progress is the percentage of the entries that are done, rounded down. */
  lemma ProgressIsPercentage(m: Snapshot)
    requires m.order != []
    ensures ProgressPct(m) * |m.order| <= 100 * |DonePlaces(m)| < (ProgressPct(m) + 1) * |m.order|
  {
    FilterCounts(m.order, id => DoneIn(m, id), 0);
    assert m.order[0..] == m.order;
    assert DonePlaces(m) == Positions(m.order, id => DoneIn(m, id), 0);
    RoundedDown(|DonePlaces(m)| * 100, |m.order|);
  }

  lemma RoundedDown(x: nat, n: nat)
    requires n > 0
    ensures (x / n) * n <= x < (x / n + 1) * n
  {
    assert x == n * (x / n) + x % n;
  }
}
