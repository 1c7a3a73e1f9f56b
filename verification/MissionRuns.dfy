/** Disciplined runs of a mission: what every such run keeps, and where a crashed run resumes. */
module MissionRuns {
  import opened Collections
  import opened Missions

  // A run is disciplined if it begins only ready tasks and records outcomes only for running nodes;
  // everything else may happen at any time.

  datatype Event =
    | Begin(id: Uuid)
    | Success(id: Uuid, checkpoint: Option<string>)
    | Failure(id: Uuid, error: string)
    | Verify(id: Uuid)
    | SetCheckpoint(id: Uuid, data: string)
    | Pause
    | Resume
    | Cancel
    | Reclaim

  predicate RunningIn(m: Snapshot, id: Uuid) {
    id in m.nodes && m.nodes[id].state.Running?
  }

  predicate Allowed(m: Snapshot, e: Event) {
    match e
    case Begin(id) => id in ReadyTasks(m)
    case Success(id, _) => RunningIn(m, id)
    case Failure(id, _) => RunningIn(m, id)
    case _ => true
  }

  function Step(m: Snapshot, e: Event): Snapshot {
    match e
    case Begin(id) => var b := AfterBegin(m, id); if b.Ok? then b.value else m
    case Success(id, checkpoint) => AfterSuccess(m, id, checkpoint)
    case Failure(id, error) => AfterFailure(m, id, error)
    case Verify(id) => AfterVerify(m, id)
    case SetCheckpoint(id, data) => AfterCheckpoint(m, id, data)
    case Pause => AfterPause(m)
    case Resume => AfterResume(m)
    case Cancel => AfterCancel(m)
    case Reclaim => AfterReclaim(m)
  }

  function After(m: Snapshot, run: seq<Event>): Snapshot
    decreases |run|
  {
    if run == [] then m else After(Step(m, run[0]), run[1..])
  }

  predicate Disciplined(m: Snapshot, run: seq<Event>)
    decreases |run|
  {
    run == [] || (Allowed(m, run[0]) && Disciplined(Step(m, run[0]), run[1..]))
  }

  lemma AfterCons(m: Snapshot, e: Event, rest: seq<Event>)
    ensures After(m, [e] + rest) == After(Step(m, e), rest)
    ensures Disciplined(m, [e] + rest) <==> Allowed(m, e) && Disciplined(Step(m, e), rest)
  {
  }

  predicate IsWork(e: Event) {
    e.Begin? || e.Success? || e.Failure?
  }

  // ------------------------------------------------------------- the start

  /** A mission whose nodes have been added and none has been touched. */
  ghost predicate Fresh(m: Snapshot) {
    && m.state.Running?
    && (forall id :: id in m.order <==> id in m.nodes)
    && (forall id :: id in m.nodes ==> m.nodes[id].state.Pending? && m.nodes[id].attempts == 0)
  }

  lemma AddKeepsFresh(m: Snapshot, id: Uuid, n: TaskNode)
    requires Fresh(m) && n.state.Pending? && n.attempts == 0
    ensures Fresh(AfterAdd(m, id, n))
  {
  }

  /** The mission built by adding nodes one after the other. */
  function Built(nodes: seq<(Uuid, TaskNode)>): Snapshot {
    if nodes == [] then Snapshot(map[], [], MissionState.Running)
    else
      var (id, n) := nodes[|nodes| - 1];
      AfterAdd(Built(nodes[..|nodes| - 1]), id, n)
  }

  lemma {:induction false} BuiltIsFresh(nodes: seq<(Uuid, TaskNode)>)
    requires forall i :: 0 <= i < |nodes| ==> nodes[i].1.state.Pending? && nodes[i].1.attempts == 0
    ensures Fresh(Built(nodes))
    decreases |nodes|
  {
    if nodes == [] {
    } else {
      var (id, n) := nodes[|nodes| - 1];
      BuiltIsFresh(nodes[..|nodes| - 1]);
      AddKeepsFresh(Built(nodes[..|nodes| - 1]), id, n);
    }
  }

  lemma ReadyTasksAreReady(m: Snapshot)
    ensures forall id :: id in ReadyTasks(m) <==> id in m.order && IsReady(m, id)
  {
    FilterSelects(m.order, id => IsReady(m, id));
  }

  // --------------------------------------------------------- one step's frame

  /** What a disciplined step makes of node `id`. */
  function NodeAfter(n: TaskNode, e: Event, id: Uuid): TaskNode {
    match e
    case Begin(i) => if i == id then Began(n) else n
    case Success(i, checkpoint) => if i == id then Succeeded(n, checkpoint) else n
    case Failure(i, error) => if i == id then FailedOnce(n, error) else n
    case Verify(i) => if i == id && n.state.Completed? then n.(verified := true) else n
    case SetCheckpoint(i, data) => if i == id then n.(checkpoint := Some(data)) else n
    case Cancel => Dropped(n)
    case Reclaim => Reclaimed(n)
    case _ => n
  }

  lemma BeginByNode(m: Snapshot, id: Uuid)
    requires id in ReadyTasks(m)
    ensures IsReady(m, id) && AfterBegin(m, id) == Ok(Put(m, id, Began(m.nodes[id])))
  {
    ReadyTasksAreReady(m);
  }

  lemma RefreshedNodes(m: Snapshot)
    ensures Refreshed(m).nodes == m.nodes && Refreshed(m).order == m.order
  {
  }

  lemma OutcomeByNode(m: Snapshot, e: Event)
    requires e.Success? || e.Failure? || e.Verify?
    ensures Step(m, e).nodes.Keys == m.nodes.Keys && Step(m, e).order == m.order
    ensures forall id :: id in m.nodes ==> Step(m, e).nodes[id] == NodeAfter(m.nodes[id], e, id)
  {
    if e.id in m.nodes {
      RefreshedNodes(Put(m, e.id, NodeAfter(m.nodes[e.id], e, e.id)));
    }
  }

  lemma StepByNode(m: Snapshot, e: Event)
    requires Allowed(m, e)
    ensures Step(m, e).nodes.Keys == m.nodes.Keys && Step(m, e).order == m.order
    ensures forall id :: id in m.nodes ==> Step(m, e).nodes[id] == NodeAfter(m.nodes[id], e, id)
    ensures forall id :: id in m.nodes ==> MayTouch(m.nodes[id], e, id)
  {
    if e.Begin? {
      BeginByNode(m, e.id);
    } else if e.Success? || e.Failure? || e.Verify? {
      OutcomeByNode(m, e);
    }
  }

  predicate MayTouch(n: TaskNode, e: Event, id: Uuid) {
    && (e == Begin(id) ==> n.state.Pending?)
    && ((e.Success? || e.Failure?) && e.id == id ==> n.state.Running?)
  }

  /** How a disciplined step may change one node. */
  predicate NodeMoves(n: TaskNode, n': TaskNode) {
    && n'.dependsOn == n.dependsOn && n'.requiresVerification == n.requiresVerification && n'.maxRetries == n.maxRetries
    && (n.IsDone() ==> n'.IsDone()) && (n.verified ==> n'.verified)
  }

  lemma StepMovesNodes(m: Snapshot, e: Event)
    requires Allowed(m, e)
    ensures Step(m, e).nodes.Keys == m.nodes.Keys && Step(m, e).order == m.order
    ensures forall id :: id in m.nodes ==> NodeMoves(m.nodes[id], Step(m, e).nodes[id])
  {
    StepByNode(m, e);
    forall id | id in m.nodes ensures NodeMoves(m.nodes[id], Step(m, e).nodes[id]) {
      MovesOneNode(m.nodes[id], e, id);
    }
  }

  lemma MovesOneNode(n: TaskNode, e: Event, id: Uuid)
    requires MayTouch(n, e, id)
    ensures NodeMoves(n, NodeAfter(n, e, id))
  {
  }

  lemma DepsStaySatisfied(m: Snapshot, m': Snapshot, n: TaskNode)
    requires m'.nodes.Keys == m.nodes.Keys
    requires forall id :: id in m.nodes ==> NodeMoves(m.nodes[id], m'.nodes[id])
    requires DepsSatisfied(m.nodes, n)
    ensures DepsSatisfied(m'.nodes, n)
  {
  }

  // ------------------------------------------------------ safety of all runs

  /** Nothing runs or has completed before everything it depends on is done. */
  ghost predicate DepsFirst(m: Snapshot) {
    forall id :: id in m.nodes && (m.nodes[id].state.Running? || m.nodes[id].state.Completed?) ==>
      DepsSatisfied(m.nodes, m.nodes[id])
  }

  ghost predicate Safe(m: Snapshot) {
    && (forall id :: id in m.order <==> id in m.nodes)
    && DepsFirst(m)
    && (m.state.Completed? ==> m.nodes != map[] && AllDone(m))
  }

  /** A node that runs or has completed after a step did so before it, or has just been begun. */
  lemma OpensOnlyReady(m: Snapshot, e: Event, id: Uuid)
    requires DepsFirst(m) && Allowed(m, e) && id in Step(m, e).nodes && id in m.nodes
    requires Step(m, e).nodes[id].state.Running? || Step(m, e).nodes[id].state.Completed?
    ensures DepsSatisfied(m.nodes, m.nodes[id])
  {
    StepByNode(m, e);
    assert MayTouch(m.nodes[id], e, id);
    if e == Begin(id) {
      BeginByNode(m, id);
    }
  }

  lemma StepKeepsDepsFirst(m: Snapshot, e: Event)
    requires DepsFirst(m) && Allowed(m, e)
    ensures DepsFirst(Step(m, e))
  {
    var m' := Step(m, e);
    StepMovesNodes(m, e);
    forall id | id in m'.nodes && (m'.nodes[id].state.Running? || m'.nodes[id].state.Completed?)
      ensures DepsSatisfied(m'.nodes, m'.nodes[id])
    {
      OpensOnlyReady(m, e, id);
      DepsStaySatisfied(m, m', m.nodes[id]);
    }
  }

  lemma StepKeepsSafe(m: Snapshot, e: Event)
    requires Safe(m) && Allowed(m, e)
    ensures Safe(Step(m, e))
  {
    StepMovesNodes(m, e);
    StepKeepsDepsFirst(m, e);
  }

  lemma {:induction false} RunsAreSafe(m: Snapshot, run: seq<Event>)
    requires Safe(m) && Disciplined(m, run)
    ensures Safe(After(m, run))
    decreases |run|
  {
    if run == [] {
    } else {
      StepKeepsSafe(m, run[0]);
      RunsAreSafe(Step(m, run[0]), run[1..]);
    }
  }

  /** Dependency safety of every run from the start, and what the state Completed means. */
  lemma FreshRunsAreSafe(m: Snapshot, run: seq<Event>)
    requires Fresh(m) && Disciplined(m, run)
    ensures DepsFirst(After(m, run))
    ensures After(m, run).state.Completed? ==> AllDone(After(m, run))
  {
    RunsAreSafe(m, run);
  }

  /** Done nodes stay done, whatever happens later. */
  lemma {:induction false} DoneStaysDone(m: Snapshot, run: seq<Event>)
    requires Disciplined(m, run)
    ensures After(m, run).order == m.order && After(m, run).nodes.Keys == m.nodes.Keys
    ensures forall id :: id in m.nodes ==> NodeMoves(m.nodes[id], After(m, run).nodes[id])
    decreases |run|
  {
    if run == [] {
    } else {
      StepMovesNodes(m, run[0]);
      DoneStaysDone(Step(m, run[0]), run[1..]);
    }
  }

  /** The node but for what `verify_node` and explicit checkpoints may still change. */
  function Work(n: TaskNode): TaskNode {
    n.(verified := true, checkpoint := None)
  }

  ghost predicate Resets(run: seq<Event>, id: Uuid) {
    exists e :: e in run && e.SetCheckpoint? && e.id == id
  }

  /** The work of a done node is kept in every run, and its checkpoint in every run that does not set it again. */
  lemma {:induction false} DoneWorkIsKept(m: Snapshot, run: seq<Event>, id: Uuid)
    requires Disciplined(m, run) && DoneIn(m, id)
    ensures DoneIn(After(m, run), id) && Work(After(m, run).nodes[id]) == Work(m.nodes[id])
    ensures !Resets(run, id) ==> After(m, run).nodes[id].checkpoint == m.nodes[id].checkpoint
    decreases |run|
  {
    if run == [] {
    } else {
      var next := Step(m, run[0]);
      StepByNode(m, run[0]);
      assert MayTouch(m.nodes[id], run[0], id);
      assert DoneIn(next, id) && Work(next.nodes[id]) == Work(m.nodes[id]);
      DoneWorkIsKept(next, run[1..], id);
      assert run[0] in run && forall e :: e in run[1..] ==> e in run;
    }
  }

  ghost predicate NothingOpen(m: Snapshot) {
    forall id :: id in m.nodes ==> !m.nodes[id].state.Pending? && !m.nodes[id].state.Running?
  }

  /** After a cancel no work ever happens again, even if the mission is paused and resumed. */
  lemma {:induction false} CancelIsFinal(m: Snapshot, run: seq<Event>)
    requires NothingOpen(m) && Disciplined(m, run)
    ensures NothingOpen(After(m, run)) && forall e :: e in run ==> !IsWork(e)
    decreases |run|
  {
    if run == [] {
    } else {
      ReadyTasksAreReady(m);
      CancelIsFinal(Step(m, run[0]), run[1..]);
      assert run == [run[0]] + run[1..];
    }
  }

  lemma CancelClosesAll(m: Snapshot)
    ensures NothingOpen(AfterCancel(m))
    ensures forall id :: DoneIn(AfterCancel(m), id) <==> DoneIn(m, id)
  {
  }

  /** A mission that has ended stays as it ended unless it is paused or cancelled. */
  lemma {:induction false} EndedStaysEnded(m: Snapshot, run: seq<Event>)
    requires !m.state.Running? && !m.state.Paused?
    requires forall e :: e in run ==> !e.Pause? && !e.Cancel?
    ensures After(m, run).state == m.state
    decreases |run|
  {
    if run == [] {
    } else {
      assert run[0] in run;
      EndedStaysEnded(Step(m, run[0]), run[1..]);
    }
  }

  lemma DivBound(x: nat, n: nat, k: nat)
    requires n > 0
    ensures x / n < k <==> x < n * k
  {
    var q := x / n;
    assert n * q <= x < n * q + n;
    if q < k {
      assert n * (q + 1) <= n * k;
    } else {
      assert n * k <= n * q;
    }
  }

  lemma PercentGrows(a: nat, b: nat, n: nat)
    requires n > 0 && a <= b <= n
    ensures a * 100 / n <= b * 100 / n <= 100
    ensures b * 100 / n == 100 <==> b == n
  {
    DivBound(a * 100, n, b * 100 / n + 1);
    DivBound(b * 100, n, b * 100 / n + 1);
    DivBound(b * 100, n, 100);
    DivBound(b * 100, n, 101);
  }

  lemma ProgressGrows(m: Snapshot, run: seq<Event>)
    requires Disciplined(m, run)
    ensures ProgressPct(m) <= ProgressPct(After(m, run)) <= 100
  {
    var m' := After(m, run);
    DoneStaysDone(m, run);
    if m.order != [] {
      FilterGrows(m.order, id => DoneIn(m, id), id => DoneIn(m', id));
      PercentGrows(|Filter(m.order, id => DoneIn(m, id))|, |Filter(m.order, id => DoneIn(m', id))|, |m.order|);
    }
  }

  lemma ProgressFullIffAllDone(m: Snapshot)
    requires forall id :: id in m.order <==> id in m.nodes
    ensures ProgressPct(m) == 100 <==> AllDone(m)
  {
    if m.order != [] {
      var done := id => DoneIn(m, id);
      FilterAll(m.order, done);
      PercentGrows(0, |Filter(m.order, id => DoneIn(m, id))|, |m.order|);
    }
  }

  /** A verification gate opens only through an explicit `verify_node`. */
  lemma {:induction false} OnlyVerifyOpensGates(m: Snapshot, run: seq<Event>, id: Uuid)
    requires Disciplined(m, run) && id in m.nodes
    requires m.nodes[id].requiresVerification && !m.nodes[id].verified && Verify(id) !in run
    ensures id in After(m, run).nodes && !After(m, run).nodes[id].IsDone()
    decreases |run|
  {
    if run == [] {
    } else {
      StepMovesNodes(m, run[0]);
      assert run[0] in run;
      OnlyVerifyOpensGates(Step(m, run[0]), run[1..], id);
    }
  }

  // ---------------------------------------------------------- crash recovery

  /** Reclaiming leases touches neither what is done nor checkpoints nor attempts. */
  lemma ReclaimKeepsWork(m: Snapshot)
    ensures AfterReclaim(m).nodes.Keys == m.nodes.Keys && AfterReclaim(m).order == m.order
    ensures forall id :: id in m.nodes ==>
      var n, n' := m.nodes[id], AfterReclaim(m).nodes[id];
      n'.IsDone() == n.IsDone() && n'.checkpoint == n.checkpoint && n'.attempts == n.attempts
    ensures forall n :: DepsSatisfied(AfterReclaim(m).nodes, n) <==> DepsSatisfied(m.nodes, n)
  {
  }

  lemma ReclaimMakesReady(m: Snapshot, id: Uuid)
    requires DepsFirst(m)
    ensures IsResumable(AfterReclaim(m), id) <==> IsResumable(m, id)
    ensures m.state.Running? ==> (IsReady(AfterReclaim(m), id) <==> IsResumable(m, id))
  {
  }

  /** Where a run is resumed is where the crashed run stood, and it is the next task handed out. */
  lemma ResumesWhereItStood(m: Snapshot, run: seq<Event>)
    requires Fresh(m) && Disciplined(m, run)
    ensures var crashed := After(m, run);
            var restarted := AfterReclaim(crashed);
            && ResumePoint(restarted) == ResumePoint(crashed)
            && (crashed.state.Running? ==>
                ResumePoint(crashed) == if ReadyTasks(restarted) == [] then None else Some(ReadyTasks(restarted)[0]))
  {
    var crashed := After(m, run);
    var restarted := AfterReclaim(crashed);
    FreshRunsAreSafe(m, run);
    forall id ensures IsResumable(restarted, id) <==> IsResumable(crashed, id)
              ensures crashed.state.Running? ==> (IsReady(restarted, id) <==> IsResumable(crashed, id)) {
      ReclaimMakesReady(crashed, id);
    }
    SameSelection(crashed.order, id => IsResumable(crashed, id), id => IsResumable(restarted, id));
    if crashed.state.Running? {
      SameSelection(crashed.order, id => IsResumable(crashed, id), id => IsReady(restarted, id));
      FilterHead(crashed.order, id => IsReady(restarted, id));
    }
  }

  /** How often `id` lost its lease during the run. */
  function Reclaims(m: Snapshot, run: seq<Event>, id: Uuid): nat
    decreases |run|
  {
    if run == [] then 0
    else (if run[0].Reclaim? && RunningIn(m, id) then 1 else 0) + Reclaims(Step(m, run[0]), run[1..], id)
  }

  /** `lost` is how often the node's lease has been reclaimed so far. */
  predicate WithinBudget(n: TaskNode, lost: nat) {
    n.attempts <= n.maxRetries + lost + (if n.state.Pending? then 0 else 1)
  }

  lemma StepWithinBudget(m: Snapshot, e: Event, id: Uuid, lost: nat)
    requires Allowed(m, e) && id in m.nodes && WithinBudget(m.nodes[id], lost)
    ensures id in Step(m, e).nodes
    ensures WithinBudget(Step(m, e).nodes[id], lost + (if e.Reclaim? && RunningIn(m, id) then 1 else 0))
  {
    StepByNode(m, e);
    assert MayTouch(m.nodes[id], e, id);
  }

  lemma {:induction false} RunWithinBudget(m: Snapshot, run: seq<Event>, id: Uuid, lost: nat)
    requires Disciplined(m, run) && id in m.nodes && WithinBudget(m.nodes[id], lost)
    ensures id in After(m, run).nodes
    ensures WithinBudget(After(m, run).nodes[id], lost + Reclaims(m, run, id))
    decreases |run|
  {
    if run == [] {
    } else {
      StepWithinBudget(m, run[0], id, lost);
      RunWithinBudget(Step(m, run[0]), run[1..], id, lost + (if run[0].Reclaim? && RunningIn(m, id) then 1 else 0));
    }
  }

  /** Attempts are bounded by the retries granted plus the leases lost to crashes. */
  lemma AttemptsBounded(m: Snapshot, run: seq<Event>, id: Uuid)
    requires Fresh(m) && Disciplined(m, run) && id in m.nodes
    ensures id in After(m, run).nodes
    ensures After(m, run).nodes[id].attempts <= m.nodes[id].maxRetries + 1 + Reclaims(m, run, id)
  {
    DoneStaysDone(m, run);
    RunWithinBudget(m, run, id, 0);
  }

  ghost predicate FailedOnlyExhausted(m: Snapshot) {
    forall id :: id in m.nodes && m.nodes[id].state.Failed? ==> m.nodes[id].attempts > m.nodes[id].maxRetries
  }

  /** No node is given up before it has used the retries granted. */
  lemma {:induction false} NoneFailsEarly(m: Snapshot, run: seq<Event>)
    requires FailedOnlyExhausted(m) && Disciplined(m, run)
    ensures FailedOnlyExhausted(After(m, run))
    decreases |run|
  {
    if run == [] {
    } else {
      StepMovesNodes(m, run[0]);
      NoneFailsEarly(Step(m, run[0]), run[1..]);
    }
  }

  // ---------------------------------------------------- without the discipline

  /** Outside the discipline: `begin` does not ask for a pending node, and undoes a done one. */
  lemma BeginKeepsDoneIffNotDone(m: Snapshot, id: Uuid)
    requires AfterBegin(m, id).Ok?
    ensures (forall x :: DoneIn(m, x) ==> DoneIn(AfterBegin(m, id).value, x)) <==> !DoneIn(m, id)
  {
  }

  /** In every run a done node can be begun, and so undone, exactly while the mission is running. */
  lemma DoneCanBeBegunIff(m: Snapshot, run: seq<Event>, id: Uuid)
    requires Fresh(m) && Disciplined(m, run) && DoneIn(After(m, run), id)
    ensures AfterBegin(After(m, run), id).Ok? <==> After(m, run).state.Running?
    ensures AfterBegin(After(m, run), id).Ok? ==> !DoneIn(AfterBegin(After(m, run), id).value, id)
  {
    FreshRunsAreSafe(m, run);
  }

  /** Two free nodes of which the first is done: beginning it again succeeds and undoes it. */
  lemma BeginUndoesDone(m: Snapshot, id: Uuid, other: Uuid)
    requires Fresh(m) && id in m.nodes && other in m.nodes && id != other
    requires m.nodes[id].dependsOn == [] && !m.nodes[id].requiresVerification
    ensures var run := [Begin(id), Success(id, None)];
            var end := After(m, run);
            && Disciplined(m, run) && DoneIn(end, id)
            && AfterBegin(end, id).Ok? && !DoneIn(AfterBegin(end, id).value, id)
  {
    var begun := Step(m, Begin(id));
    assert IsReady(m, id);
    ReadyTasksAreReady(m);
    BeginByNode(m, id);
    var worked := Put(begun, id, Succeeded(begun.nodes[id], None));
    assert !worked.nodes[other].IsDone();
    assert Refreshed(worked) == worked;
    AfterCons(begun, Success(id, None), []);
    AfterCons(m, Begin(id), [Success(id, None)]);
    assert [Success(id, None)] + [] == [Success(id, None)];
    assert [Begin(id)] + [Success(id, None)] == [Begin(id), Success(id, None)];
  }
}
