/** When a mission whose nodes are all done is also Completed, and the runs in which it is not. */
module MissionCompletion {
  import opened Collections
  import opened Missions
  import opened MissionRuns

  /** No pause and no cancel. */
  ghost predicate Uninterrupted(run: seq<Event>) {
    forall e :: e in run ==> !e.Pause? && !e.Cancel?
  }

  /** The steps that can find everything done: a success, or the verification of a completed node. */
  predicate Finishing(m: Snapshot, e: Event) {
    e.Success? || (e.Verify? && e.id in m.nodes && m.nodes[e.id].state.Completed?)
  }

  /** One step: what completes a mission and what keeps it completed. */
  lemma CompletedNext(m: Snapshot, e: Event)
    requires Allowed(m, e)
    ensures Step(m, e).state.Completed? <==>
              || (m.state.Completed? && !e.Pause? && !e.Cancel?)
              || (m.state.Running? && Finishing(m, e) && AllDone(Step(m, e)))
  {
    match e {
      case Success(id, checkpoint) => LastSuccessCompletes(m, id, checkpoint);
      case Failure(id, error) => FailureNeverCompletes(m, id, error);
      case Verify(id) => LastVerifyCompletes(m, id);
      case _ =>
    }
  }

  /** The success that leaves everything done completes the mission exactly when the mission is running. */
  lemma LastSuccessCompletes(m: Snapshot, id: Uuid, checkpoint: Option<string>)
    requires RunningIn(m, id)
    ensures AfterSuccess(m, id, checkpoint).state.Completed? <==>
              m.state.Completed? || (m.state.Running? && AllDone(AfterSuccess(m, id, checkpoint)))
  {
    assert id in AfterSuccess(m, id, checkpoint).nodes;
  }

  lemma LastVerifyCompletes(m: Snapshot, id: Uuid)
    ensures AfterVerify(m, id).state.Completed? <==>
              m.state.Completed? || (m.state.Running? && Finishing(m, Verify(id)) && AllDone(AfterVerify(m, id)))
  {
    if Finishing(m, Verify(id)) {
      assert id in AfterVerify(m, id).nodes;
    }
  }

  lemma FailureNeverCompletes(m: Snapshot, id: Uuid, error: string)
    requires RunningIn(m, id)
    ensures AfterFailure(m, id, error).state.Completed? <==> m.state.Completed?
  {
    assert id in AfterFailure(m, id, error).nodes && !AfterFailure(m, id, error).nodes[id].IsDone();
  }

  // ------------------------------------------------- runs without interruption

  /** What such runs keep: while the mission runs something is not done, and every end has its reason. */
  ghost predicate EndsInTime(m: Snapshot) {
    && m.nodes != map[]
    && (m.state.Running? ==> !AllDone(m))
    && (m.state.Completed? ==> AllDone(m))
    && (m.state.Failed? ==> exists id :: id in m.nodes && m.nodes[id].state.Failed?)
    && !m.state.Paused? && !m.state.Cancelled?
  }

  lemma FailedNodeStays(m: Snapshot, e: Event, id: Uuid)
    requires Allowed(m, e) && !e.Cancel? && id in m.nodes && m.nodes[id].state.Failed?
    ensures id in Step(m, e).nodes && Step(m, e).nodes[id].state.Failed?
  {
    ReadyTasksAreReady(m);
  }

  lemma BeginEndsInTime(m: Snapshot, id: Uuid)
    requires EndsInTime(m) && id in ReadyTasks(m)
    ensures EndsInTime(Step(m, Begin(id)))
  {
    ReadyTasksAreReady(m);
    assert id in Step(m, Begin(id)).nodes && !Step(m, Begin(id)).nodes[id].IsDone();
  }

  lemma RefreshEndsInTime(m: Snapshot)
    requires m.nodes != map[] && m.state.Running?
    ensures EndsInTime(Refreshed(m))
  {
  }

  /** Outcomes and verifications in a mission that has ended leave it ended for the same reason. */
  lemma EndedEndsInTime(m: Snapshot, e: Event)
    requires EndsInTime(m) && !m.state.Running? && Allowed(m, e) && !e.Pause? && !e.Cancel?
    ensures EndsInTime(Step(m, e))
  {
    StepMovesNodes(m, e);
    ReadyTasksAreReady(m);
    if m.state.Failed? {
      var id :| id in m.nodes && m.nodes[id].state.Failed?;
      FailedNodeStays(m, e, id);
    }
  }

  lemma StepEndsInTime(m: Snapshot, e: Event)
    requires EndsInTime(m) && Allowed(m, e) && !e.Pause? && !e.Cancel?
    ensures EndsInTime(Step(m, e))
  {
    if !m.state.Running? {
      EndedEndsInTime(m, e);
    } else {
      match e {
        case Begin(id) => BeginEndsInTime(m, id);
        case Success(id, checkpoint) => RefreshEndsInTime(Put(m, id, Succeeded(m.nodes[id], checkpoint)));
        case Failure(id, error) => RefreshEndsInTime(Put(m, id, FailedOnce(m.nodes[id], error)));
        case Verify(id) =>
          if Finishing(m, e) {
            RefreshEndsInTime(Put(m, id, m.nodes[id].(verified := true)));
          }
        case SetCheckpoint(id, data) => SameDoneness(m, e);
        case Reclaim => SameDoneness(m, e);
        case _ =>
      }
    }
  }

  lemma SameDoneness(m: Snapshot, e: Event)
    requires m.nodes != map[] && (e.SetCheckpoint? || e.Reclaim?)
    ensures Step(m, e).nodes != map[] && Step(m, e).state == m.state && (AllDone(Step(m, e)) <==> AllDone(m))
  {
    var m' := Step(m, e);
    assert m'.nodes.Keys == m.nodes.Keys;
    assert forall id :: id in m.nodes ==> (m'.nodes[id].IsDone() <==> m.nodes[id].IsDone());
  }

  lemma {:induction false} RunEndsInTime(m: Snapshot, run: seq<Event>)
    requires EndsInTime(m) && Disciplined(m, run) && Uninterrupted(run)
    ensures EndsInTime(After(m, run))
    decreases |run|
  {
    if run == [] {
    } else {
      assert run[0] in run;
      StepEndsInTime(m, run[0]);
      RunEndsInTime(Step(m, run[0]), run[1..]);
    }
  }

  /** Without pause and cancel, a mission is Completed at exactly the moments at which everything is done. */
  lemma {:induction false} CompletedIffAllDone(m: Snapshot, run: seq<Event>)
    requires Fresh(m) && m.nodes != map[] && Disciplined(m, run) && Uninterrupted(run)
    ensures After(m, run).state.Completed? <==> AllDone(After(m, run))
  {
    assert !AllDone(m) by {
      var id :| id in m.nodes;
      assert !m.nodes[id].IsDone();
    }
    RunEndsInTime(m, run);
  }

  // ------------------------------------------------------------ all other runs

  /** Step `i` finds everything done while the mission is running, and nothing interrupts it later. */
  ghost predicate CompletesAt(m: Snapshot, run: seq<Event>, i: nat) {
    && i < |run| && Uninterrupted(run[i + 1..])
    && var before := After(m, run[..i]);
       before.state.Running? && Finishing(before, run[i]) && AllDone(Step(before, run[i]))
  }

  lemma CompletesAtShifts(m: Snapshot, run: seq<Event>, i: nat)
    requires run != []
    ensures CompletesAt(m, run, i + 1) <==> CompletesAt(Step(m, run[0]), run[1..], i)
  {
    if i + 1 < |run| {
      assert run[..i + 1][0] == run[0] && run[..i + 1][1..] == run[1..][..i];
      assert run[1..][i] == run[i + 1] && run[1..][i + 1..] == run[i + 1 + 1..];
    }
  }

  lemma {:induction false} CompletedFrom(m: Snapshot, run: seq<Event>)
    requires Disciplined(m, run)
    ensures After(m, run).state.Completed? <==>
              (m.state.Completed? && Uninterrupted(run)) || exists i: nat :: CompletesAt(m, run, i)
    decreases |run|
  {
    if run == [] {
    } else {
      var e, rest := run[0], run[1..];
      var next := Step(m, e);
      CompletedNext(m, e);
      CompletedFrom(next, rest);
      assert Uninterrupted(run) <==> !e.Pause? && !e.Cancel? && Uninterrupted(rest) by {
        assert run == [e] + rest;
      }
      assert CompletesAt(m, run, 0) <==>
             m.state.Running? && Finishing(m, e) && AllDone(next) && Uninterrupted(rest) by {
        assert run[..0] == [] && run[0 + 1..] == rest;
      }
      ShiftWitness(m, run);
    }
  }

  lemma ShiftWitness(m: Snapshot, run: seq<Event>)
    requires run != []
    ensures (exists i: nat :: CompletesAt(m, run, i)) <==>
              CompletesAt(m, run, 0) || exists i: nat :: CompletesAt(Step(m, run[0]), run[1..], i)
  {
    if exists i: nat :: CompletesAt(Step(m, run[0]), run[1..], i) {
      var i: nat :| CompletesAt(Step(m, run[0]), run[1..], i);
      CompletesAtShifts(m, run, i);
    }
    if exists i: nat :: CompletesAt(m, run, i) {
      var i: nat :| CompletesAt(m, run, i);
      if i > 0 {
        CompletesAtShifts(m, run, i - 1);
      }
    }
  }

  /**
   In any run: the mission ends Completed exactly when some success or verification found everything
   done while the mission was running, and no pause or cancel came after it.
   */
  lemma CompletedIffFinishedRunning(m: Snapshot, run: seq<Event>)
    requires Fresh(m) && Disciplined(m, run)
    ensures After(m, run).state.Completed? <==> exists i: nat :: CompletesAt(m, run, i)
  {
    CompletedFrom(m, run);
  }

  // --------------------------------------------------- runs that miss completion

  /** Everything is done, yet the mission is running with nothing to hand out. */
  ghost predicate MissedCompletion(m: Snapshot) {
    AllDone(m) && m.state.Running? && ReadyTasks(m) == []
  }

  /** A mission of one node. */
  function Solo(id: Uuid, n: TaskNode, state: MissionState): Snapshot {
    Snapshot(map[id := n], [id], state)
  }

  lemma SoloSteps(id: Uuid, n: TaskNode, state: MissionState)
    ensures AfterPause(Solo(id, n, state)) == Solo(id, n, MissionState.Paused)
    ensures AfterResume(Solo(id, n, MissionState.Paused)) == Solo(id, n, MissionState.Running)
    ensures n.state.Completed? && state.Paused? ==>
              AfterVerify(Solo(id, n, state), id) == Solo(id, n.(verified := true), state)
  {
    assert map[id := n][id := n.(verified := true)] == map[id := n.(verified := true)];
  }

  lemma SoloSuccess(id: Uuid, n: TaskNode, state: MissionState)
    ensures var done := Succeeded(n, None);
            AfterSuccess(Solo(id, n, state), id, None) ==
            Solo(id, done, if state.Running? && done.IsDone() then MissionState.Completed else state)
  {
    var done := Succeeded(n, None);
    assert Put(Solo(id, n, state), id, done) == Solo(id, done, state) by {
      assert map[id := n][id := done] == map[id := done];
    }
    assert id in Solo(id, done, state).nodes;
  }

  lemma SoloBegin(id: Uuid, n: TaskNode)
    requires n.state.Pending? && n.dependsOn == []
    ensures Allowed(Solo(id, n, MissionState.Running), Begin(id))
    ensures Step(Solo(id, n, MissionState.Running), Begin(id)) == Solo(id, Began(n), MissionState.Running)
  {
    var m := Solo(id, n, MissionState.Running);
    ReadyTasksAreReady(m);
    assert id in m.order && IsReady(m, id);
    assert map[id := n][id := Began(n)] == map[id := Began(n)];
  }

  lemma SoloMissed(id: Uuid, n: TaskNode)
    requires n.IsDone()
    ensures MissedCompletion(Solo(id, n, MissionState.Running))
  {
    var m := Solo(id, n, MissionState.Running);
    FilterEmpty(m.order, x => IsReady(m, x));
  }

  lemma LastStep(m: Snapshot, e: Event)
    requires Allowed(m, e)
    ensures Disciplined(m, [e]) && After(m, [e]) == Step(m, e)
  {
    AfterCons(m, e, []);
    assert [e] + [] == [e];
  }

  /** The last success comes while the mission is paused. */
  lemma PauseCanMissCompletion(id: Uuid, n: TaskNode)
    requires n.state.Pending? && n.attempts == 0 && n.dependsOn == [] && !n.requiresVerification
    ensures var m, run := Solo(id, n, MissionState.Running), [Begin(id), Pause, Success(id, None), Resume];
            Fresh(m) && Disciplined(m, run) && MissedCompletion(After(m, run))
  {
    var begun, done := Began(n), Succeeded(Began(n), None);
    SoloBegin(id, n);
    SoloSteps(id, begun, MissionState.Running);
    SoloSuccess(id, begun, MissionState.Paused);
    SoloSteps(id, done, MissionState.Paused);
    SoloMissed(id, done);
    LastStep(Solo(id, done, MissionState.Paused), Resume);
    AfterCons(Solo(id, begun, MissionState.Paused), Success(id, None), [Resume]);
    AfterCons(Solo(id, begun, MissionState.Running), Pause, [Success(id, None), Resume]);
    AfterCons(Solo(id, n, MissionState.Running), Begin(id), [Pause, Success(id, None), Resume]);
  }

  /** The mission has completed, and a pause and resume make it running again. */
  lemma PauseUndoesCompletion(id: Uuid, n: TaskNode)
    requires n.state.Pending? && n.attempts == 0 && n.dependsOn == [] && !n.requiresVerification
    ensures var m, run := Solo(id, n, MissionState.Running), [Begin(id), Success(id, None), Pause, Resume];
            && Fresh(m) && Disciplined(m, run)
            && After(m, run[..2]).state.Completed? && MissedCompletion(After(m, run))
  {
    var begun, done := Began(n), Succeeded(Began(n), None);
    SoloBegin(id, n);
    SoloSuccess(id, begun, MissionState.Running);
    SoloSteps(id, done, MissionState.Completed);
    SoloMissed(id, done);
    LastStep(Solo(id, done, MissionState.Paused), Resume);
    AfterCons(Solo(id, done, MissionState.Completed), Pause, [Resume]);
    AfterCons(Solo(id, begun, MissionState.Running), Success(id, None), [Pause, Resume]);
    AfterCons(Solo(id, n, MissionState.Running), Begin(id), [Success(id, None), Pause, Resume]);
    LastStep(Solo(id, begun, MissionState.Running), Success(id, None));
    AfterCons(Solo(id, n, MissionState.Running), Begin(id), [Success(id, None)]);
    assert [Begin(id), Success(id, None), Pause, Resume][..2] == [Begin(id), Success(id, None)];
  }

  /** The last verification comes while the mission is paused. */
  lemma PausedVerifyMissesCompletion(id: Uuid, n: TaskNode)
    requires n.state.Pending? && n.attempts == 0 && n.dependsOn == [] && n.requiresVerification && !n.verified
    ensures var m, run := Solo(id, n, MissionState.Running), [Begin(id), Success(id, None), Pause, Verify(id), Resume];
            Fresh(m) && Disciplined(m, run) && MissedCompletion(After(m, run))
  {
    var begun, done := Began(n), Succeeded(Began(n), None);
    var verified := done.(verified := true);
    SoloBegin(id, n);
    SoloSuccess(id, begun, MissionState.Running);
    SoloSteps(id, done, MissionState.Running);
    SoloSteps(id, done, MissionState.Paused);
    SoloSteps(id, verified, MissionState.Paused);
    SoloMissed(id, verified);
    LastStep(Solo(id, verified, MissionState.Paused), Resume);
    AfterCons(Solo(id, done, MissionState.Paused), Verify(id), [Resume]);
    AfterCons(Solo(id, done, MissionState.Running), Pause, [Verify(id), Resume]);
    AfterCons(Solo(id, begun, MissionState.Running), Success(id, None), [Pause, Verify(id), Resume]);
    AfterCons(Solo(id, n, MissionState.Running), Begin(id), [Success(id, None), Pause, Verify(id), Resume]);
  }
}
