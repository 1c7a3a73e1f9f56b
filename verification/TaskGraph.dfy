/**
 The dependency graph of a mission: which nodes can ever be run.

 A node can be run if no path of dependencies from it is broken or cyclic; nodes that wait for one
 another never are, and whatever is listed after its dependencies always is.
 */
module TaskGraph {
  import opened Collections
  import opened Missions

  /** `p` follows dependencies: each id is named in the `dependsOn` of the one before it. */
  ghost predicate DepPath(nodes: map<Uuid, TaskNode>, p: seq<Uuid>) {
    |p| > 0 && forall i :: 0 <= i < |p| - 1 ==> p[i] in nodes && p[i + 1] in nodes[p[i]].dependsOn
  }

  /** Completing this node does not yet make it done. */
  predicate Gated(n: TaskNode) {
    n.requiresVerification && !n.verified
  }

  predicate Usable(nodes: map<Uuid, TaskNode>, d: Uuid) {
    d in nodes && !Gated(nodes[d])
  }

  /** No dependency, however far down, is missing, gated or part of a cycle. */
  ghost predicate Runnable(nodes: map<Uuid, TaskNode>, id: Uuid) {
    && id in nodes
    && forall p: seq<Uuid> :: DepPath(nodes, p) && p[0] == id ==>
         Distinct(p) && forall i :: 0 < i < |p| ==> Usable(nodes, p[i])
  }

  ghost predicate Closed(nodes: map<Uuid, TaskNode>) {
    forall id, d :: id in nodes && d in nodes[id].dependsOn ==> d in nodes
  }

  ghost predicate Acyclic(nodes: map<Uuid, TaskNode>) {
    forall p: seq<Uuid> :: DepPath(nodes, p) ==> Distinct(p)
  }

  ghost predicate Ungated(nodes: map<Uuid, TaskNode>) {
    forall id :: id in nodes ==> !Gated(nodes[id])
  }

  lemma {:induction false} PathStaysInside(nodes: map<Uuid, TaskNode>, p: seq<Uuid>)
    requires Closed(nodes) && DepPath(nodes, p) && p[0] in nodes
    ensures forall i :: 0 <= i < |p| ==> p[i] in nodes
    decreases |p|
  {
    if |p| <= 1 {
    } else {
      var q := p[..|p| - 1];
      PathStaysInside(nodes, q);
      assert q[|p| - 2] == p[|p| - 2];
    }
  }

  /** A graph without gates is runnable throughout exactly when it is closed and acyclic. */
  lemma AllRunnableIff(nodes: map<Uuid, TaskNode>)
    requires Ungated(nodes)
    ensures (forall id :: id in nodes ==> Runnable(nodes, id)) <==> Closed(nodes) && Acyclic(nodes)
  {
    if Closed(nodes) && Acyclic(nodes) {
      forall id: Uuid, p: seq<Uuid> | id in nodes && DepPath(nodes, p) && p[0] == id
        ensures Distinct(p) && forall i :: 0 < i < |p| ==> Usable(nodes, p[i])
      {
        PathStaysInside(nodes, p);
      }
    }
    if forall id :: id in nodes ==> Runnable(nodes, id) {
      forall id, d | id in nodes && d in nodes[id].dependsOn ensures d in nodes {
        var p := [id, d];
        assert DepPath(nodes, p) && p[0] == id;
        assert Usable(nodes, p[1]);
      }
      forall p: seq<Uuid> | DepPath(nodes, p) ensures Distinct(p) {
        if |p| > 1 {
          assert Runnable(nodes, p[0]);
        }
      }
    }
  }

  // ------------------------------------------------------------- stuck nodes

  /** Every node of `stuck` waits for something unusable or for another node of `stuck`. */
  ghost predicate WaitsFor(nodes: map<Uuid, TaskNode>, stuck: set<Uuid>) {
    forall u :: u in stuck ==>
      u in nodes && exists d :: d in nodes[u].dependsOn && (!Usable(nodes, d) || d in stuck)
  }

  lemma {:induction false} PathInStuck(nodes: map<Uuid, TaskNode>, stuck: set<Uuid>, u: Uuid,
          n: nat) returns (p: seq<Uuid>)
    requires WaitsFor(nodes, stuck) && u in stuck && Runnable(nodes, u)
    ensures |p| == n + 1 && p[0] == u && DepPath(nodes, p) && forall x :: x in p ==> x in stuck
    decreases n
  {
    if n == 0 {
      p := [u];
    } else {
      var q := PathInStuck(nodes, stuck, u, n - 1);
      var last := q[n - 1];
      var d :| d in nodes[last].dependsOn && (!Usable(nodes, d) || d in stuck);
      p := q + [d];
      assert DepPath(nodes, p) && p[0] == u;
      assert Usable(nodes, p[n]);
    }
  }

  /** Nodes that wait for each other can never run. */
  lemma StuckIsNotRunnable(nodes: map<Uuid, TaskNode>, stuck: set<Uuid>, u: Uuid)
    requires WaitsFor(nodes, stuck) && u in stuck
    ensures !Runnable(nodes, u)
  {
    if Runnable(nodes, u) {
      var p := PathInStuck(nodes, stuck, u, |stuck|);
      DistinctLength(p, stuck);
    }
  }

  // ------------------------------------------------- executed in some order

  /** `started` lists nodes so that each comes after its dependencies, all of them usable. */
  ghost predicate Ordered(nodes: map<Uuid, TaskNode>, started: seq<Uuid>) {
    && Distinct(started)
    && forall i :: 0 <= i < |started| ==>
         started[i] in nodes &&
         forall d :: d in nodes[started[i]].dependsOn ==> Usable(nodes, d) && d in started[..i]
  }

  lemma OrderedSnoc(nodes: map<Uuid, TaskNode>, started: seq<Uuid>, id: Uuid)
    requires Ordered(nodes, started) && id in nodes && id !in started
    requires forall d :: d in nodes[id].dependsOn ==> Usable(nodes, d) && d in started
    ensures Ordered(nodes, started + [id])
  {
    var s := started + [id];
    forall i, d | 0 <= i < |s| && d in nodes[s[i]].dependsOn ensures Usable(nodes, d) && d in s[..i] {
      if i < |started| {
        assert s[..i] == started[..i];
      } else {
        assert s[..i] == started;
      }
    }
  }

  lemma {:induction false} PathGoesBack(nodes: map<Uuid, TaskNode>, started: seq<Uuid>, p: seq<Uuid>, i: nat)
    requires Ordered(nodes, started) && DepPath(nodes, p) && i < |started| && p[0] == started[i]
    ensures Distinct(p) && forall k :: 0 < k < |p| ==> Usable(nodes, p[k]) && p[k] in started[..i]
    decreases |p|
  {
    if |p| <= 1 {
    } else {
      var q := p[1..];
      assert p[1] in nodes[p[0]].dependsOn;
      var j :| 0 <= j < i && started[j] == p[1];
      assert forall k :: 0 <= k < |q| ==> q[k] == p[k + 1];
      PathGoesBack(nodes, started, q, j);
      forall k | 0 < k < |p| ensures Usable(nodes, p[k]) && p[k] in started[..i] && p[k] != p[0] {
        if k > 1 {
          assert q[k - 1] in started[..j];
        }
      }
    }
  }

  lemma StartedIsRunnable(nodes: map<Uuid, TaskNode>, started: seq<Uuid>, i: nat)
    requires Ordered(nodes, started) && i < |started|
    ensures Runnable(nodes, started[i])
  {
    forall p: seq<Uuid> | DepPath(nodes, p) && p[0] == started[i]
      ensures Distinct(p) && forall k :: 0 < k < |p| ==> Usable(nodes, p[k])
    {
      PathGoesBack(nodes, started, p, i);
    }
  }
}
