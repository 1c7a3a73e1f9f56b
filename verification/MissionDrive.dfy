/** The loop that runs a mission to quiescence (apps/cli/src/main.rs). */
module MissionDrive {
  import opened Collections
  import opened Missions
  import opened MissionRuns
  import opened TaskGraph

  datatype LogLine = LogLine(name: string, pct: nat)

  /** A node that has been run once: one attempt more, completed, verified unless it has to be. */
  function RunOnce(n: TaskNode): TaskNode {
    n.(state := NodeState.Completed, attempts := n.attempts + 1, lastError := None, checkpoint := Some("cli-demo"),
       verified := n.verified || !n.requiresVerification)
  }

  /** The nodes started have run once; the others are as they were. */
  ghost predicate DrivenNodes(before: map<Uuid, TaskNode>, nodes: map<Uuid, TaskNode>, started: seq<Uuid>) {
    && nodes.Keys == before.Keys && (forall id :: id in started ==> id in before)
    && forall id :: id in before ==> nodes[id] == if id in started then RunOnce(before[id]) else before[id]
  }

  /** What the loop keeps. */
  ghost predicate Driving(start: Snapshot, m: Snapshot, started: seq<Uuid>) {
    && m.order == start.order
    && Ordered(start.nodes, started)
    && DrivenNodes(start.nodes, m.nodes, started)
    && (m.state.Completed? <==> m.nodes != map[] && AllDone(m))
    && (m.state.Completed? || m.state.Running?)
  }

  ghost predicate CanStart(start: Snapshot) {
    && start.state.Running?
    && (forall id :: id in start.order <==> id in start.nodes)
    && (forall id :: id in start.nodes ==> start.nodes[id].state.Pending?)
  }

  lemma DoneIsStarted(start: Snapshot, m: Snapshot, started: seq<Uuid>, id: Uuid)
    requires CanStart(start) && Driving(start, m, started) && id in start.nodes
    ensures m.nodes[id].IsDone() <==> id in started && !Gated(start.nodes[id])
  {
  }

  lemma NextIsNew(start: Snapshot, m: Snapshot, started: seq<Uuid>, id: Uuid)
    requires CanStart(start) && Driving(start, m, started) && id in ReadyTasks(m)
    ensures IsReady(m, id) && AfterBegin(m, id) == Ok(Put(m, id, Began(m.nodes[id])))
    ensures id in start.nodes && id !in started
    ensures Ordered(start.nodes, started + [id])
  {
    ReadyTasksAreReady(m);
    forall d | d in start.nodes[id].dependsOn ensures Usable(start.nodes, d) && d in started {
      DoneIsStarted(start, m, started, d);
    }
    OrderedSnoc(start.nodes, started, id);
  }

  lemma CompleteOne(before: map<Uuid, TaskNode>, nodes: map<Uuid, TaskNode>, started: seq<Uuid>, id: Uuid)
    requires DrivenNodes(before, nodes, started) && id in before && id !in started
    ensures DrivenNodes(before, nodes[id := Succeeded(Began(nodes[id]), Some("cli-demo"))], started + [id])
  {
  }

  /** Without failed nodes a running mission is refreshed to Completed or left running. */
  lemma NoneFailed(start: Snapshot, mid: Snapshot, started: seq<Uuid>)
    requires CanStart(start) && DrivenNodes(start.nodes, mid.nodes, started) && mid.state.Running?
    ensures Refreshed(mid) == if mid.nodes != map[] && AllDone(mid) then mid.(state := MissionState.Completed) else mid
  {
  }

  lemma StartNext(start: Snapshot, m: Snapshot, started: seq<Uuid>, id: Uuid)
    requires CanStart(start) && Driving(start, m, started) && id in ReadyTasks(m)
    ensures AfterBegin(m, id).Ok?
    ensures Driving(start, AfterSuccess(AfterBegin(m, id).value, id, Some("cli-demo")), started + [id])
  {
    NextIsNew(start, m, started, id);
    CompleteOne(start.nodes, m.nodes, started, id);
    var mid := m.(nodes := m.nodes[id := Succeeded(Began(m.nodes[id]), Some("cli-demo"))]);
    var begun := AfterBegin(m, id).value;
    assert Put(begun, id, Succeeded(begun.nodes[id], Some("cli-demo"))) == mid by {
      assert begun.nodes[id := Succeeded(begun.nodes[id], Some("cli-demo"))] == mid.nodes;
    }
    NoneFailed(start, mid, started + [id]);
  }

  /** When nothing is ready, exactly the runnable nodes have been started. */
  lemma QuietMeansRunnableStarted(start: Snapshot, m: Snapshot, started: seq<Uuid>, id: Uuid)
    requires CanStart(start) && Driving(start, m, started) && ReadyTasks(m) == []
    ensures id in started <==> Runnable(start.nodes, id)
  {
    if id in started {
      var i :| 0 <= i < |started| && started[i] == id;
      StartedIsRunnable(start.nodes, started, i);
    } else if id in start.nodes {
      var stuck := set u | u in start.nodes && u !in started;
      FilterEmpty(m.order, u => IsReady(m, u));
      forall u | u in stuck
        ensures exists d :: d in start.nodes[u].dependsOn && (!Usable(start.nodes, d) || d in stuck)
      {
        assert !IsReady(m, u);
        assert !m.nodes[u].IsDone();
        var d :| d in m.nodes[u].dependsOn && !(d in m.nodes && m.nodes[d].IsDone());
        assert d in start.nodes[u].dependsOn && (!Usable(start.nodes, d) || d in stuck);
      }
      StuckIsNotRunnable(start.nodes, stuck, id);
    }
  }

  lemma StartedFits(start: Snapshot, started: seq<Uuid>)
    requires Ordered(start.nodes, started)
    ensures |started| <= |start.nodes|
  {
    forall x | x in started ensures x in start.nodes.Keys {
      var i :| 0 <= i < |started| && started[i] == x;
    }
    DistinctLength(started, start.nodes.Keys);
  }

  /** Progress once the nodes of `started` have run: those of them that are not gated are done. */
  function PctAfter(start: Snapshot, started: seq<Uuid>): nat {
    if start.order == [] then 100
    else |Filter(start.order, id => id in started && Usable(start.nodes, id))| * 100 / |start.order|
  }

  lemma ProgressIsPctAfter(start: Snapshot, m: Snapshot, started: seq<Uuid>)
    requires CanStart(start) && Driving(start, m, started)
    ensures ProgressPct(m) == PctAfter(start, started)
  {
    forall id | id in start.order ensures DoneIn(m, id) <==> id in started && Usable(start.nodes, id) {
      DoneIsStarted(start, m, started, id);
    }
    SameSelection(start.order, id => DoneIn(m, id), id => id in started && Usable(start.nodes, id));
  }

  /** Not yet started, with everything it depends on started and usable. */
  ghost predicate Waiting(start: Snapshot, started: seq<Uuid>, id: Uuid) {
    && id in start.nodes && id !in started
    && forall d :: d in start.nodes[id].dependsOn ==> d in started && Usable(start.nodes, d)
  }

  /** Each of `started` is the first in the order of the mission that was waiting then. */
  ghost predicate FirstWaitingFirst(start: Snapshot, started: seq<Uuid>) {
    forall i :: 0 <= i < |started| ==> IsNext(start, started[..i], started[i])
  }

  ghost predicate IsNext(start: Snapshot, started: seq<Uuid>, id: Uuid) {
    && Waiting(start, started, id)
    && exists k :: 0 <= k < |start.order| && start.order[k] == id &&
                   forall j :: 0 <= j < k ==> !Waiting(start, started, start.order[j])
  }

  lemma ReadyIffWaiting(start: Snapshot, m: Snapshot, started: seq<Uuid>, id: Uuid)
    requires CanStart(start) && Driving(start, m, started) && m.state.Running?
    ensures IsReady(m, id) <==> Waiting(start, started, id)
  {
    if id in start.nodes {
      forall d | d in start.nodes[id].dependsOn
        ensures d in m.nodes && m.nodes[d].IsDone() <==> d in started && Usable(start.nodes, d)
      {
        if d in start.nodes {
          DoneIsStarted(start, m, started, d);
        }
      }
    }
  }

  lemma HeadIsNext(start: Snapshot, m: Snapshot, started: seq<Uuid>)
    requires CanStart(start) && Driving(start, m, started) && ReadyTasks(m) != []
    ensures IsNext(start, started, ReadyTasks(m)[0])
  {
    FilterHead(m.order, id => IsReady(m, id));
    FirstIsFirst(m.order, id => IsReady(m, id));
    forall id ensures IsReady(m, id) <==> Waiting(start, started, id) {
      ReadyIffWaiting(start, m, started, id);
    }
  }

  lemma FirstWaitingSnoc(start: Snapshot, started: seq<Uuid>, id: Uuid)
    requires FirstWaitingFirst(start, started) && IsNext(start, started, id)
    ensures FirstWaitingFirst(start, started + [id])
  {
    var s := started + [id];
    forall i | 0 <= i < |s| ensures IsNext(start, s[..i], s[i]) {
      if i < |started| {
        assert s[..i] == started[..i] && s[i] == started[i];
      } else {
        assert s[..i] == started;
      }
    }
  }

  ghost predicate Logged(start: Snapshot, started: seq<Uuid>, log: seq<LogLine>) {
    && |log| == |started|
    && forall i :: 0 <= i < |log| ==>
         started[i] in start.nodes && log[i] == LogLine(start.nodes[started[i]].name, PctAfter(start, started[..i + 1]))
  }

  /**
   Take the first ready task, begin it, record its success.  `started` are the ids begun, in order,
   always the first that was waiting:
   each once, each after its dependencies, and together exactly the runnable nodes; these have run
   once and nothing else has changed.
   */
  method Drive(m: Mission) returns (log: seq<LogLine>, ghost started: seq<Uuid>)
    requires CanStart(m.Now())
    modifies m
    ensures ReadyTasks(m.Now()) == [] && m.order == old(m.order)
    ensures Ordered(old(m.Now()).nodes, started) && FirstWaitingFirst(old(m.Now()), started)
    ensures m.nodes.Keys == old(m.nodes).Keys
    ensures forall id :: id in m.nodes ==>
              m.nodes[id] == if Runnable(old(m.nodes), id) then RunOnce(old(m.nodes)[id]) else old(m.nodes)[id]
    ensures forall id :: id in started <==> Runnable(old(m.nodes), id)
    ensures Logged(old(m.Now()), started, log)
    ensures Ungated(old(m.nodes)) ==>
              (m.state.Completed? <==> old(m.nodes) != map[] && Closed(old(m.nodes)) && Acyclic(old(m.nodes)))
  {
    ghost var start := m.Now();
    log, started := [], [];
    var ready := ReadyTasks(m.Now());
    DriveStarts(start);
    while ready != []
      invariant start == old(m.Now()) && ready == ReadyTasks(m.Now())
      invariant Driving(start, m.Now(), started) && FirstWaitingFirst(start, started)
      invariant Logged(start, started, log)
      decreases |start.nodes| - |started|
    {
      var id := ready[0];
      DriveStep(start, m.Now(), started, id, log);
      HeadIsNext(start, m.Now(), started);
      FirstWaitingSnoc(start, started, id);
      var begun := m.Begin(id);
      assert begun.Ok?;
      var name := m.nodes[id].name;
      m.RecordSuccess(id, Some("cli-demo"));
      started := started + [id];
      log := log + [LogLine(name, ProgressPct(m.Now()))];
      ready := ReadyTasks(m.Now());
    }
    Quiescent(start, m.Now(), started);
  }

  lemma DriveStarts(start: Snapshot)
    requires CanStart(start)
    ensures Driving(start, start, [])
  {
  }

  lemma DriveStep(start: Snapshot, m: Snapshot, started: seq<Uuid>, id: Uuid, log: seq<LogLine>)
    requires CanStart(start) && Driving(start, m, started) && id in ReadyTasks(m) && Logged(start, started, log)
    ensures AfterBegin(m, id).Ok? && id in AfterBegin(m, id).value.nodes
    ensures var begun := AfterBegin(m, id).value;
            var next := AfterSuccess(begun, id, Some("cli-demo"));
            && Driving(start, next, started + [id])
            && Logged(start, started + [id], log + [LogLine(begun.nodes[id].name, ProgressPct(next))])
    ensures |started| < |start.nodes|
  {
    NextIsNew(start, m, started, id);
    StartNext(start, m, started, id);
    StartedFits(start, started + [id]);
    ProgressIsPctAfter(start, AfterSuccess(AfterBegin(m, id).value, id, Some("cli-demo")), started + [id]);
    LogSnoc(start, started, id, log);
  }

  lemma LogSnoc(start: Snapshot, started: seq<Uuid>, id: Uuid, log: seq<LogLine>)
    requires Logged(start, started, log) && id in start.nodes
    ensures Logged(start, started + [id], log + [LogLine(start.nodes[id].name, PctAfter(start, started + [id]))])
  {
    var s := started + [id];
    assert s[..|s|] == s;
    assert forall i :: 0 <= i < |started| ==> s[i] == started[i] && s[..i + 1] == started[..i + 1];
  }

  lemma Quiescent(start: Snapshot, m: Snapshot, started: seq<Uuid>)
    requires CanStart(start) && Driving(start, m, started) && ReadyTasks(m) == []
    ensures forall id :: id in started <==> Runnable(start.nodes, id)
    ensures forall id :: id in m.nodes ==>
              m.nodes[id] == if Runnable(start.nodes, id) then RunOnce(start.nodes[id]) else start.nodes[id]
    ensures Ungated(start.nodes) ==>
              (m.state.Completed? <==> start.nodes != map[] && Closed(start.nodes) && Acyclic(start.nodes))
  {
    forall id ensures id in started <==> Runnable(start.nodes, id) {
      QuietMeansRunnableStarted(start, m, started, id);
    }
    if Ungated(start.nodes) {
      AllRunnableIff(start.nodes);
    }
  }
}
