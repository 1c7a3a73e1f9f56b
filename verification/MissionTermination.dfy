/** How much work a run can hold, and how a run ends in which nothing more can be done. */
module MissionTermination {
  import opened Collections
  import opened Missions
  import opened MissionRuns
  import opened MissionCompletion
  import opened TaskGraph

  ghost predicate Working(run: seq<Event>) {
    forall e :: e in run ==> IsWork(e)
  }

  // ----------------------------------------------------------------- measure

  /** Steps a node may still take: two for each attempt left, one to end the attempt under way. */
  function StepsLeft(n: TaskNode): nat
    requires WithinBudget(n, 0)
  {
    match n.state
    case Pending => 2 * (n.maxRetries + 1 - n.attempts)
    case Running => 2 * (n.maxRetries + 1 - n.attempts) + 1
    case _ => 0
  }

  function AttemptsLeft(n: TaskNode): nat
    requires WithinBudget(n, 0)
  {
    n.maxRetries + 1 - n.attempts
  }

  ghost predicate Budgeted(nodes: map<Uuid, TaskNode>, order: seq<Uuid>) {
    && (forall id :: id in nodes ==> WithinBudget(nodes[id], 0))
    && (forall id :: id in order ==> id in nodes)
  }

  function TotalSteps(nodes: map<Uuid, TaskNode>, order: seq<Uuid>): nat
    requires Budgeted(nodes, order)
  {
    if order == [] then 0 else StepsLeft(nodes[order[0]]) + TotalSteps(nodes, order[1..])
  }

  function TotalAttempts(nodes: map<Uuid, TaskNode>, order: seq<Uuid>): nat
    requires Budgeted(nodes, order)
  {
    if order == [] then 0 else AttemptsLeft(nodes[order[0]]) + TotalAttempts(nodes, order[1..])
  }

  /** The attempts a mission grants altogether. */
  function Granted(nodes: map<Uuid, TaskNode>, order: seq<Uuid>): nat
    requires forall id :: id in order ==> id in nodes
  {
    if order == [] then 0 else nodes[order[0]].maxRetries + 1 + Granted(nodes, order[1..])
  }

  lemma {:induction false} UpdateTotals(nodes: map<Uuid, TaskNode>, order: seq<Uuid>, id: Uuid, n: TaskNode)
    requires id in nodes && Budgeted(nodes, order) && WithinBudget(n, 0)
    requires StepsLeft(n) < StepsLeft(nodes[id]) && AttemptsLeft(n) <= AttemptsLeft(nodes[id])
    ensures Budgeted(nodes[id := n], order)
    ensures TotalSteps(nodes[id := n], order) <= TotalSteps(nodes, order)
    ensures id in order ==> TotalSteps(nodes[id := n], order) < TotalSteps(nodes, order)
    ensures TotalAttempts(nodes[id := n], order) <= TotalAttempts(nodes, order)
    ensures id in order && AttemptsLeft(n) < AttemptsLeft(nodes[id]) ==>
              TotalAttempts(nodes[id := n], order) < TotalAttempts(nodes, order)
    decreases |order|
  {
    if order == [] {
    } else {
      UpdateTotals(nodes, order[1..], id, n);
    }
  }

  ghost predicate Measured(m: Snapshot) {
    Budgeted(m.nodes, m.order) && forall id :: id in m.nodes ==> id in m.order
  }

  lemma WorkTouchesOne(m: Snapshot, e: Event)
    requires Allowed(m, e) && IsWork(e)
    ensures e.id in m.nodes
    ensures MayTouch(m.nodes[e.id], e, e.id)
    ensures Step(m, e).nodes == m.nodes[e.id := NodeAfter(m.nodes[e.id], e, e.id)] && Step(m, e).order == m.order
  {
    StepByNode(m, e);
    ReadyTasksAreReady(m);
  }

  lemma WorkSpends(m: Snapshot, e: Event)
    requires Measured(m) && Allowed(m, e) && IsWork(e)
    ensures Measured(Step(m, e))
    ensures TotalSteps(Step(m, e).nodes, m.order) < TotalSteps(m.nodes, m.order)
    ensures TotalAttempts(Step(m, e).nodes, m.order) + (if e.Begin? then 1 else 0) <= TotalAttempts(m.nodes, m.order)
    ensures Step(m, e).order == m.order
  {
    WorkTouchesOne(m, e);
    UpdateTotals(m.nodes, m.order, e.id, NodeAfter(m.nodes[e.id], e, e.id));
  }

  function Begins(run: seq<Event>): nat {
    if run == [] then 0 else (if run[0].Begin? then 1 else 0) + Begins(run[1..])
  }

  lemma {:induction false} WorkRunsAreBounded(m: Snapshot, run: seq<Event>)
    requires Measured(m) && Disciplined(m, run) && Working(run)
    ensures |run| <= TotalSteps(m.nodes, m.order)
    ensures Begins(run) <= TotalAttempts(m.nodes, m.order)
    decreases |run|
  {
    if run == [] {
    } else {
      assert run[0] in run;
      WorkSpends(m, run[0]);
      WorkRunsAreBounded(Step(m, run[0]), run[1..]);
    }
  }

  lemma {:induction false} FreshTotals(nodes: map<Uuid, TaskNode>, order: seq<Uuid>)
    requires Budgeted(nodes, order)
    requires forall id :: id in nodes ==> nodes[id].state.Pending? && nodes[id].attempts == 0
    ensures TotalSteps(nodes, order) == 2 * Granted(nodes, order)
    ensures TotalAttempts(nodes, order) == Granted(nodes, order)
    decreases |order|
  {
    if order == [] {
    } else {
      FreshTotals(nodes, order[1..]);
    }
  }

  /** Every interleaving ends: at most one begin and one outcome for each attempt granted. */
  lemma {:induction false} WorkTerminates(m: Snapshot, run: seq<Event>)
    requires Fresh(m) && Disciplined(m, run) && Working(run)
    ensures |run| <= 2 * Granted(m.nodes, m.order)
    ensures Begins(run) <= Granted(m.nodes, m.order)
  {
    WorkRunsAreBounded(m, run);
    FreshTotals(m.nodes, m.order);
  }

  // ---------------------------------------------------------- lost leases

  function Works(run: seq<Event>): nat {
    if run == [] then 0 else (if IsWork(run[0]) then 1 else 0) + Works(run[1..])
  }

  /** The begins and outcomes of one node. */
  function WorksOf(run: seq<Event>, id: Uuid): nat {
    if run == [] then 0 else (if IsWork(run[0]) && run[0].id == id then 1 else 0) + WorksOf(run[1..], id)
  }

  function BeginsOf(run: seq<Event>, id: Uuid): nat {
    if run == [] then 0 else (if run[0] == Begin(id) then 1 else 0) + BeginsOf(run[1..], id)
  }

  function Busy(m: Snapshot, id: Uuid): nat {
    if RunningIn(m, id) then 1 else 0
  }

  lemma StepCountsWork(m: Snapshot, e: Event, id: Uuid)
    requires Allowed(m, e) && id in m.nodes
    ensures id in Step(m, e).nodes
    ensures Step(m, e).nodes[id].attempts == m.nodes[id].attempts + BeginsOf([e], id)
    ensures WorksOf([e], id) + Busy(Step(m, e), id) <= 2 * BeginsOf([e], id) + Busy(m, id)
  {
    StepByNode(m, e);
    assert MayTouch(m.nodes[id], e, id);
  }

  /** The attempts of a node count its begins, and a begin allows for one outcome. */
  lemma {:induction false} RunCountsWork(m: Snapshot, run: seq<Event>, id: Uuid)
    requires Disciplined(m, run) && id in m.nodes
    ensures id in After(m, run).nodes
    ensures After(m, run).nodes[id].attempts == m.nodes[id].attempts + BeginsOf(run, id)
    ensures WorksOf(run, id) + Busy(After(m, run), id) <= 2 * BeginsOf(run, id) + Busy(m, id)
    decreases |run|
  {
    if run == [] {
    } else {
      StepCountsWork(m, run[0], id);
      RunCountsWork(Step(m, run[0]), run[1..], id);
    }
  }

  function SumWorks(run: seq<Event>, order: seq<Uuid>): nat {
    if order == [] then 0 else WorksOf(run, order[0]) + SumWorks(run, order[1..])
  }

  /** The leases lost during the run by the nodes of `order`. */
  function SumReclaims(m: Snapshot, run: seq<Event>, order: seq<Uuid>): nat {
    if order == [] then 0 else Reclaims(m, run, order[0]) + SumReclaims(m, run, order[1..])
  }

  lemma {:induction false} SumWorksCons(run: seq<Event>, order: seq<Uuid>)
    requires run != []
    ensures SumWorks(run, order) >= SumWorks(run[1..], order)
    ensures IsWork(run[0]) && run[0].id in order ==> SumWorks(run, order) > SumWorks(run[1..], order)
    decreases |order|
  {
    if order == [] {
    } else {
      SumWorksCons(run, order[1..]);
    }
  }

  lemma {:induction false} WorksAreOfSomeNode(m: Snapshot, run: seq<Event>, order: seq<Uuid>)
    requires Disciplined(m, run) && forall id :: id in m.nodes ==> id in order
    ensures Works(run) <= SumWorks(run, order)
    decreases |run|
  {
    if run == [] {
    } else {
      ReadyTasksAreReady(m);
      StepMovesNodes(m, run[0]);
      WorksAreOfSomeNode(Step(m, run[0]), run[1..], order);
      SumWorksCons(run, order);
    }
  }

  lemma {:induction false} SumWorksBound(m: Snapshot, run: seq<Event>, order: seq<Uuid>)
    requires Fresh(m) && Disciplined(m, run) && forall id :: id in order ==> id in m.nodes
    ensures SumWorks(run, order) <= 2 * (Granted(m.nodes, order) + SumReclaims(m, run, order))
    decreases |order|
  {
    if order == [] {
    } else {
      SumWorksBound(m, run, order[1..]);
      RunCountsWork(m, run, order[0]);
      AttemptsBounded(m, run, order[0]);
    }
  }

  /** In any run whatever: two work steps for each attempt granted and each lease reclaimed, at most. */
  lemma WorkIsBounded(m: Snapshot, run: seq<Event>)
    requires Fresh(m) && Disciplined(m, run)
    ensures Works(run) <= 2 * (Granted(m.nodes, m.order) + SumReclaims(m, run, m.order))
  {
    WorksAreOfSomeNode(m, run, m.order);
    SumWorksBound(m, run, m.order);
  }

  // --------------------------------------------------------- no deadlock

  /** What runs without pause and cancel keep. */
  ghost predicate AtWork(start: map<Uuid, TaskNode>, m: Snapshot) {
    && EndsInTime(m) && (forall id :: id in m.order <==> id in m.nodes)
    && m.nodes.Keys == start.Keys
    && (forall id :: id in start ==> m.nodes[id].dependsOn == start[id].dependsOn)
    && (forall id :: id in start ==> !m.nodes[id].state.Paused? && !m.nodes[id].state.Cancelled?)
    && (m.state.Running? ==> forall id :: id in m.nodes ==> !m.nodes[id].state.Failed?)
  }

  /** No step but a cancel closes a node, and only a failure can fail one. */
  lemma StepClosesNone(m: Snapshot, e: Event, id: Uuid)
    requires Allowed(m, e) && !e.Cancel? && id in m.nodes
    ensures id in Step(m, e).nodes
    ensures var n, n' := m.nodes[id], Step(m, e).nodes[id];
            && (n'.state.Paused? ==> n.state.Paused?) && (n'.state.Cancelled? ==> n.state.Cancelled?)
            && (n'.state.Failed? ==> n.state.Failed? || e.Failure?)
  {
  }

  /** A failure that leaves the mission running has failed no node. */
  lemma FailureEndsOrRequeues(m: Snapshot, id: Uuid, error: string)
    requires RunningIn(m, id) && AfterFailure(m, id, error).state.Running?
    ensures forall x :: x in AfterFailure(m, id, error).nodes ==> !AfterFailure(m, id, error).nodes[x].state.Failed?
  {
  }

  lemma RunningWasRunning(m: Snapshot, e: Event)
    requires EndsInTime(m) && Allowed(m, e) && Step(m, e).state.Running?
    ensures m.state.Running?
  {
  }

  lemma StepKeepsAtWork(start: map<Uuid, TaskNode>, m: Snapshot, e: Event)
    requires AtWork(start, m) && Allowed(m, e) && !e.Pause? && !e.Cancel?
    ensures AtWork(start, Step(m, e))
  {
    var m' := Step(m, e);
    StepEndsInTime(m, e);
    StepMovesNodes(m, e);
    forall id | id in start
      ensures !m'.nodes[id].state.Paused? && !m'.nodes[id].state.Cancelled?
      ensures m'.state.Running? ==> !m'.nodes[id].state.Failed?
    {
      StepClosesNone(m, e, id);
      if m'.state.Running? {
        RunningWasRunning(m, e);
        if e.Failure? {
          FailureEndsOrRequeues(m, e.id, e.error);
        }
      }
    }
  }

  lemma {:induction false} RunKeepsAtWork(start: map<Uuid, TaskNode>, m: Snapshot, run: seq<Event>)
    requires AtWork(start, m) && Disciplined(m, run) && Uninterrupted(run)
    ensures AtWork(start, After(m, run))
    decreases |run|
  {
    if run == [] {
    } else {
      assert run[0] in run;
      StepKeepsAtWork(start, m, run[0]);
      RunKeepsAtWork(start, Step(m, run[0]), run[1..]);
    }
  }

  /** No begin, success or failure is possible. */
  ghost predicate Quiet(m: Snapshot) {
    ReadyTasks(m) == [] && forall id :: !RunningIn(m, id)
  }

  ghost predicate NoneAwaitsVerification(m: Snapshot) {
    forall id :: id in m.nodes && m.nodes[id].state.Completed? ==> m.nodes[id].IsDone()
  }

  /** The same graph without its gates. */
  function Opened(nodes: map<Uuid, TaskNode>): map<Uuid, TaskNode> {
    map id | id in nodes :: nodes[id].(verified := true)
  }

  lemma OpenedIsRunnable(nodes: map<Uuid, TaskNode>, u: Uuid)
    requires Closed(nodes) && Acyclic(nodes) && u in nodes
    ensures Runnable(Opened(nodes), u)
  {
    forall p: seq<Uuid> | DepPath(Opened(nodes), p) ensures Distinct(p) {
      assert DepPath(nodes, p);
    }
    AllRunnableIff(Opened(nodes));
  }

  lemma OpenIsPending(start: map<Uuid, TaskNode>, m: Snapshot, id: Uuid)
    requires AtWork(start, m) && Quiet(m) && m.state.Running? && NoneAwaitsVerification(m)
    requires id in m.nodes && !m.nodes[id].IsDone()
    ensures m.nodes[id].state.Pending?
  {
    assert !RunningIn(m, id);
  }

  /** What is open in a quiet running mission can never run, gates or not. */
  lemma OpenIsNotRunnable(start: map<Uuid, TaskNode>, m: Snapshot, u: Uuid)
    requires AtWork(start, m) && Quiet(m) && m.state.Running? && NoneAwaitsVerification(m)
    requires u in m.nodes && !m.nodes[u].IsDone()
    ensures !Runnable(Opened(start), u)
  {
    var stuck := set id | id in m.nodes && m.nodes[id].state.Pending?;
    FilterEmpty(m.order, id => IsReady(m, id));
    forall v | v in stuck
      ensures v in Opened(start)
      ensures exists d :: d in Opened(start)[v].dependsOn && (!Usable(Opened(start), d) || d in stuck)
    {
      assert !IsReady(m, v);
      var d :| d in m.nodes[v].dependsOn && !(d in m.nodes && m.nodes[d].IsDone());
      if d in m.nodes {
        OpenIsPending(start, m, d);
      }
      assert d in Opened(start)[v].dependsOn && (!Usable(Opened(start), d) || d in stuck);
    }
    OpenIsPending(start, m, u);
    StuckIsNotRunnable(Opened(start), stuck, u);
  }

  /**
   A run over a closed, acyclic graph, with crashes and verifications at any point, that can do no
   more work and leaves no completed node to verify, has ended completed or failed.
   */
  lemma {:induction false} NoDeadlock(m: Snapshot, run: seq<Event>)
    requires Fresh(m) && m.nodes != map[] && Closed(m.nodes) && Acyclic(m.nodes)
    requires Disciplined(m, run) && Uninterrupted(run)
    requires Quiet(After(m, run)) && NoneAwaitsVerification(After(m, run))
    ensures After(m, run).state.Completed? || After(m, run).state.Failed?
  {
    FreshIsAtWork(m);
    RunKeepsAtWork(m.nodes, m, run);
    if After(m, run).state.Running? {
      var u :| u in After(m, run).nodes && !After(m, run).nodes[u].IsDone();
      OpenIsNotRunnable(m.nodes, After(m, run), u);
      OpenedIsRunnable(m.nodes, u);
    }
  }

  lemma FreshIsAtWork(m: Snapshot)
    requires Fresh(m) && m.nodes != map[]
    ensures AtWork(m.nodes, m)
  {
    var id :| id in m.nodes;
    assert !m.nodes[id].IsDone();
  }

  /** Without gates nothing awaits verification. */
  lemma {:induction false} UngatedNoDeadlock(m: Snapshot, run: seq<Event>)
    requires Fresh(m) && m.nodes != map[] && Closed(m.nodes) && Acyclic(m.nodes) && Ungated(m.nodes)
    requires Disciplined(m, run) && Uninterrupted(run) && Quiet(After(m, run))
    ensures After(m, run).state.Completed? || After(m, run).state.Failed?
  {
    DoneStaysDone(m, run);
    assert NoneAwaitsVerification(After(m, run)) by {
      forall id | id in m.nodes ensures !Gated(After(m, run).nodes[id]) {
        assert !Gated(m.nodes[id]) && NodeMoves(m.nodes[id], After(m, run).nodes[id]);
      }
    }
    NoDeadlock(m, run);
  }

  // ------------------------------------------------- the same on any graph

  /** `listed` are the done nodes, each after its dependencies. */
  ghost predicate ListsDone(start: map<Uuid, TaskNode>, m: Snapshot, listed: seq<Uuid>) {
    Ordered(Opened(start), listed) && forall id :: id in listed <==> DoneIn(m, id)
  }

  ghost predicate SameGraph(start: map<Uuid, TaskNode>, nodes: map<Uuid, TaskNode>) {
    nodes.Keys == start.Keys && forall id :: id in start ==> nodes[id].dependsOn == start[id].dependsOn
  }

  /** A step makes at most the node it names done, and that one was under way. */
  lemma DoneOneMore(m: Snapshot, e: Event, id: Uuid)
    requires Allowed(m, e) && DoneIn(Step(m, e), id) && !DoneIn(m, id)
    ensures (e.Success? || e.Verify?) && e.id == id
    ensures id in m.nodes && (m.nodes[id].state.Running? || m.nodes[id].state.Completed?)
  {
    StepByNode(m, e);
    assert MayTouch(m.nodes[id], e, id);
  }

  lemma StepListsDone(start: map<Uuid, TaskNode>, m: Snapshot, e: Event, listed: seq<Uuid>) returns (more: seq<Uuid>)
    requires SameGraph(start, m.nodes) && DepsFirst(m) && Allowed(m, e) && ListsDone(start, m, listed)
    ensures SameGraph(start, Step(m, e).nodes) && ListsDone(start, Step(m, e), more)
  {
    var m' := Step(m, e);
    StepMovesNodes(m, e);
    forall id | DoneIn(m, id) ensures DoneIn(m', id) {
      assert NodeMoves(m.nodes[id], m'.nodes[id]);
    }
    more := listed;
    if id :| DoneIn(m', id) && !DoneIn(m, id) {
      DoneOneMore(m, e, id);
      NextIsListed(start, m, id, listed);
      more := listed + [id];
    }
    forall id | DoneIn(m', id) ensures id in more {
      if !DoneIn(m, id) {
        DoneOneMore(m, e, id);
      }
    }
  }

  lemma NextIsListed(start: map<Uuid, TaskNode>, m: Snapshot, id: Uuid, listed: seq<Uuid>)
    requires SameGraph(start, m.nodes) && DepsFirst(m) && ListsDone(start, m, listed)
    requires id in m.nodes && !DoneIn(m, id) && (m.nodes[id].state.Running? || m.nodes[id].state.Completed?)
    ensures Ordered(Opened(start), listed + [id])
  {
    forall d | d in Opened(start)[id].dependsOn ensures Usable(Opened(start), d) && d in listed {
      assert d in m.nodes[id].dependsOn && DoneIn(m, d);
    }
    OrderedSnoc(Opened(start), listed, id);
  }

  lemma {:induction false} RunListsDone(start: map<Uuid, TaskNode>, m: Snapshot, run: seq<Event>, listed: seq<Uuid>)
    returns (more: seq<Uuid>)
    requires SameGraph(start, m.nodes) && DepsFirst(m) && Disciplined(m, run) && ListsDone(start, m, listed)
    ensures ListsDone(start, After(m, run), more)
    decreases |run|
  {
    if run == [] {
      more := listed;
    } else {
      var next := StepListsDone(start, m, run[0], listed);
      StepKeepsDepsFirst(m, run[0]);
      more := RunListsDone(start, Step(m, run[0]), run[1..], next);
    }
  }

  /** In any run whatever, only nodes without missing or cyclic dependencies get done. */
  lemma DoneIsRunnable(m: Snapshot, run: seq<Event>, id: Uuid)
    requires Fresh(m) && Disciplined(m, run) && DoneIn(After(m, run), id)
    ensures Runnable(Opened(m.nodes), id)
  {
    var listed := RunListsDone(m.nodes, m, run, []);
    var i :| 0 <= i < |listed| && listed[i] == id;
    StartedIsRunnable(Opened(m.nodes), listed, i);
  }

  /**
   The run has no pause and no cancel, can do no more work, leaves nothing to verify and has not failed.
   */
  ghost predicate WorkedOut(m: Snapshot, run: seq<Event>) {
    && Disciplined(m, run) && Uninterrupted(run)
    && Quiet(After(m, run)) && NoneAwaitsVerification(After(m, run)) && !After(m, run).state.Failed?
  }

  /** Worked out, on any graph, means that exactly the nodes without missing or cyclic dependencies are done. */
  lemma DoneIffRunnable(m: Snapshot, run: seq<Event>, id: Uuid)
    requires Fresh(m) && m.nodes != map[] && WorkedOut(m, run)
    ensures DoneIn(After(m, run), id) <==> Runnable(Opened(m.nodes), id)
  {
    var end := After(m, run);
    FreshIsAtWork(m);
    RunKeepsAtWork(m.nodes, m, run);
    if DoneIn(end, id) {
      DoneIsRunnable(m, run, id);
    } else if id in m.nodes && end.state.Running? {
      OpenIsNotRunnable(m.nodes, end, id);
    }
  }

  /** Whether the mission is Completed follows from what is done. */
  lemma StateOfWorkedOut(m: Snapshot, run: seq<Event>)
    requires Fresh(m) && m.nodes != map[] && WorkedOut(m, run)
    ensures After(m, run).state == if AllRunnable(m) then MissionState.Completed else MissionState.Running
  {
    var end := After(m, run);
    FreshIsAtWork(m);
    RunKeepsAtWork(m.nodes, m, run);
    forall id | id in m.nodes ensures end.nodes[id].IsDone() <==> Runnable(Opened(m.nodes), id) {
      DoneIffRunnable(m, run, id);
    }
    assert AllDone(end) <==> AllRunnable(m);
  }

  ghost predicate AllRunnable(m: Snapshot) {
    forall id :: id in m.nodes ==> Runnable(Opened(m.nodes), id)
  }

  /** The schedule does not matter: any two such runs have done the same nodes and end in the same state. */
  lemma {:induction false} OutcomeIsScheduleFree(m: Snapshot, one: seq<Event>, other: seq<Event>)
    requires Fresh(m) && m.nodes != map[] && WorkedOut(m, one) && WorkedOut(m, other)
    ensures forall id :: DoneIn(After(m, one), id) <==> DoneIn(After(m, other), id)
    ensures After(m, one).state == After(m, other).state
  {
    forall id ensures DoneIn(After(m, one), id) <==> DoneIn(After(m, other), id) {
      DoneIffRunnable(m, one, id);
      DoneIffRunnable(m, other, id);
    }
    StateOfWorkedOut(m, one);
    StateOfWorkedOut(m, other);
  }
}
