/** Depth-bounded breadth-first search over the memory graph (crates/igris-memory/src/lib.rs). */
module Neighbors {
  import opened Collections
  import opened Memory

  datatype Edge = Edge(from: Uuid, to: Uuid, relation: string)

  // ---------------------------------------------------------------- distance

  predicate Adjacent(edges: set<Edge>, x: Uuid, y: Uuid) {
    exists e | e in edges :: (e.from == x && e.to == y) || (e.from == y && e.to == x)
  }

  ghost predicate Walk(edges: set<Edge>, p: seq<Uuid>, s: Uuid, x: Uuid) {
    && |p| > 0 && p[0] == s && p[|p| - 1] == x
    && forall i :: 0 <= i < |p| - 1 ==> Adjacent(edges, p[i], p[i + 1])
  }

  /** Some walk of at most `k` hops leads from `s` to `x`, through any nodes. */
  ghost predicate Within(edges: set<Edge>, s: Uuid, x: Uuid, k: nat) {
    exists p :: Walk(edges, p, s, x) && |p| <= k + 1
  }

  ghost predicate AtDistance(edges: set<Edge>, s: Uuid, x: Uuid, k: nat) {
    Within(edges, s, x, k) && (k > 0 ==> !Within(edges, s, x, k - 1))
  }

  lemma WithinSelf(edges: set<Edge>, s: Uuid, x: Uuid)
    ensures Within(edges, s, x, 0) <==> x == s
  {
    assert Walk(edges, [s], s, s);
  }

  lemma WithinMore(edges: set<Edge>, s: Uuid, x: Uuid, k: nat, l: nat)
    requires Within(edges, s, x, k) && k <= l
    ensures Within(edges, s, x, l)
  {
  }

  lemma OneHopMore(edges: set<Edge>, s: Uuid, x: Uuid, y: Uuid, k: nat)
    requires Within(edges, s, x, k) && Adjacent(edges, x, y)
    ensures Within(edges, s, y, k + 1)
  {
    var p :| Walk(edges, p, s, x) && |p| <= k + 1;
    assert Walk(edges, p + [y], s, y);
  }

  lemma LastHop(edges: set<Edge>, s: Uuid, x: Uuid, k: nat) returns (y: Uuid)
    requires Within(edges, s, x, k + 1) && !Within(edges, s, x, k)
    ensures Within(edges, s, y, k) && Adjacent(edges, y, x)
  {
    var p :| Walk(edges, p, s, x) && |p| <= k + 2;
    assert |p| == k + 2;
    var q := p[..|p| - 1];
    y := q[|q| - 1];
    assert Walk(edges, q, s, y);
  }

  lemma DistanceUnique(edges: set<Edge>, s: Uuid, x: Uuid, k: nat, l: nat)
    requires AtDistance(edges, s, x, k) && Within(edges, s, x, l)
    ensures k <= l
    ensures AtDistance(edges, s, x, l) ==> k == l
  {
  }

  function Reversed(p: seq<Uuid>): seq<Uuid> {
    seq(|p|, i requires 0 <= i < |p| => p[|p| - 1 - i])
  }

  /** Edges are followed both ways, so distances are symmetric. */
  lemma DistanceSymmetric(edges: set<Edge>, s: Uuid, x: Uuid, k: nat)
    ensures Within(edges, s, x, k) <==> Within(edges, x, s, k)
    ensures AtDistance(edges, s, x, k) <==> AtDistance(edges, x, s, k)
  {
    WithinBack(edges, s, x, k);
    WithinBack(edges, x, s, k);
    if k > 0 {
      WithinBack(edges, s, x, k - 1);
      WithinBack(edges, x, s, k - 1);
    }
  }

  lemma WithinBack(edges: set<Edge>, s: Uuid, x: Uuid, k: nat)
    ensures Within(edges, s, x, k) ==> Within(edges, x, s, k)
  {
    if Within(edges, s, x, k) {
      var p :| Walk(edges, p, s, x) && |p| <= k + 1;
      var q := Reversed(p);
      forall i | 0 <= i < |q| - 1 ensures Adjacent(edges, q[i], q[i + 1]) {
        var j := |p| - 2 - i;
        assert Adjacent(edges, p[j], p[j + 1]);
      }
      assert Walk(edges, q, x, s);
    }
  }

  // -------------------------------------------------------------- the search

  /**
   The state between two pops: `all` are the ids seen, in the order they were seen, `level` their
   depths; the first `h` have been popped, the rest is the queue.
   */
  ghost predicate Searching(edges: set<Edge>, s: Uuid, cap: nat, all: seq<Uuid>, level: seq<nat>, h: nat) {
    && |all| == |level| > 0 && h <= |all|
    && all[0] == s && level[0] == 0 && Distinct(all)
    && (forall i :: 0 <= i < |all| ==> level[i] <= cap && AtDistance(edges, s, all[i], level[i]))
    && (forall i, j :: 0 <= i <= j < |all| ==> level[i] <= level[j])
    && (h < |all| ==> forall j :: h <= j < |all| ==> level[j] <= level[h] + 1)
    && (forall i, y :: 0 <= i < h && level[i] < cap && Adjacent(edges, all[i], y) ==> y in all)
  }

  /** How far the search is complete: the depth at the head of the queue, or the cap at the end. */
  ghost function Frontier(cap: nat, level: seq<nat>, h: nat): nat {
    if h < |level| then level[h] else cap
  }

  /** Everything as near as the frontier has been seen. */
  lemma {:induction false} SeenUpToFrontier(edges: set<Edge>, s: Uuid, cap: nat, all: seq<Uuid>,
          level: seq<nat>, h: nat, x: Uuid, k: nat)
    requires Searching(edges, s, cap, all, level, h)
    requires k <= Frontier(cap, level, h) && Within(edges, s, x, k)
    ensures x in all
    decreases k
  {
    if k == 0 {
      WithinSelf(edges, s, x);
    } else if Within(edges, s, x, k - 1) {
      SeenUpToFrontier(edges, s, cap, all, level, h, x, k - 1);
    } else {
      var y := LastHop(edges, s, x, k - 1);
      SeenUpToFrontier(edges, s, cap, all, level, h, y, k - 1);
      var i :| 0 <= i < |all| && all[i] == y;
      DistanceUnique(edges, s, y, level[i], k - 1);
    }
  }

  /** A neighbour of the head that has not been seen lies one level further out. */
  lemma SeeNew(edges: set<Edge>, s: Uuid, cap: nat, all: seq<Uuid>, level: seq<nat>, h: nat, y: Uuid)
    requires Searching(edges, s, cap, all, level, h)
    requires h < |all| && level[h] < cap && Adjacent(edges, all[h], y) && y !in all
    ensures Searching(edges, s, cap, all + [y], level + [level[h] + 1], h)
  {
    var d := level[h];
    OneHopMore(edges, s, all[h], y, d);
    if Within(edges, s, y, d) {
      SeenUpToFrontier(edges, s, cap, all, level, h, y, d);
    }
  }

  /** The id list of a search of depth `cap`. */
  ghost predicate IsBreadthFirst(edges: set<Edge>, s: Uuid, cap: nat, ids: seq<Uuid>) {
    && Distinct(ids)
    && (forall x :: x in ids <==> exists k: nat :: 1 <= k <= cap && AtDistance(edges, s, x, k))
    && forall i, j, k: nat, l: nat ::
         0 <= i <= j < |ids| && AtDistance(edges, s, ids[i], k) && AtDistance(edges, s, ids[j], l) ==> k <= l
  }

  lemma SearchDone(edges: set<Edge>, s: Uuid, cap: nat, all: seq<Uuid>, level: seq<nat>)
    requires Searching(edges, s, cap, all, level, |all|)
    ensures IsBreadthFirst(edges, s, cap, all[1..])
  {
    var ids := all[1..];
    forall x ensures x in ids <==> exists k: nat :: 1 <= k <= cap && AtDistance(edges, s, x, k) {
      if x in ids {
        var i :| 0 <= i < |ids| && ids[i] == x;
        assert AtDistance(edges, s, x, level[i + 1]);
        WithinSelf(edges, s, x);
        assert all[0] != all[i + 1];
      }
      if k: nat :| 1 <= k <= cap && AtDistance(edges, s, x, k) {
        WithinMore(edges, s, x, k, cap);
        SeenUpToFrontier(edges, s, cap, all, level, |all|, x, cap);
        WithinSelf(edges, s, x);
      }
    }
    forall i, j, k: nat, l: nat
      | 0 <= i <= j < |ids| && AtDistance(edges, s, ids[i], k) && AtDistance(edges, s, ids[j], l)
      ensures k <= l
    {
      DistanceUnique(edges, s, ids[i], k, level[i + 1]);
      DistanceUnique(edges, s, ids[j], l, level[j + 1]);
    }
  }

  // ------------------------------------------------------------- the program

  ghost function Elements(s: seq<Uuid>): set<Uuid> {
    set x | x in s
  }

  /** `rows` are the nodes next to `x`, in some order. */
  ghost predicate AreNeighbors(rows: seq<Uuid>, edges: set<Edge>, x: Uuid) {
    && (forall k :: 0 <= k < |rows| ==> Adjacent(edges, x, rows[k]))
    && (forall y :: Adjacent(edges, x, y) ==> y in Elements(rows))
  }

  /** The rows of the edge query, duplicates removed, in whatever order the database returns them. */
  method EdgeRows(edges: set<Edge>, cur: Uuid) returns (rows: seq<Uuid>)
    ensures AreNeighbors(rows, edges, cur) && Distinct(rows)
    ensures forall y :: y in rows <==>
              exists e :: e in edges && ((e.from == cur && e.to == y) || (e.from == y && e.to == cur))
  {
    rows := [];
    var rest := edges;
    while rest != {}
      invariant rest <= edges && Distinct(rows)
      invariant forall k :: 0 <= k < |rows| ==> Adjacent(edges, cur, rows[k])
      invariant forall e :: e in edges && e !in rest ==>
        (e.from == cur ==> e.to in rows) && (e.to == cur ==> e.from in rows)
      decreases |rest|
    {
      var e :| e in rest;
      if e.from == cur && e.to !in rows {
        rows := rows + [e.to];
      }
      if e.to == cur && e.from !in rows {
        rows := rows + [e.from];
      }
      rest := rest - {e};
    }
  }

  ghost function Endpoints(edges: set<Edge>): set<Uuid> {
    (set e | e in edges :: e.from) + (set e | e in edges :: e.to)
  }

  /** What the variables of the search hold once `popped` ids have left the queue. */
  ghost predicate Tracks(seen: set<Uuid>, queue: seq<(Uuid, nat)>, all: seq<Uuid>, level: seq<nat>, popped: nat) {
    && |all| == |level| && popped <= |all|
    && (forall x :: x in seen <==> x in all)
    && |queue| == |all| - popped
    && forall i :: 0 <= i < |queue| ==> queue[i] == (all[popped + i], level[popped + i])
  }

  lemma Pop(edges: set<Edge>, s: Uuid, cap: nat, seen: set<Uuid>, queue: seq<(Uuid, nat)>, all: seq<Uuid>,
          level: seq<nat>, h: nat)
    requires Searching(edges, s, cap, all, level, h) && Tracks(seen, queue, all, level, h) && queue != []
    ensures h < |all| && queue[0] == (all[h], level[h]) && Tracks(seen, queue[1..], all, level, h + 1)
    ensures |all| <= |{s} + Endpoints(edges)|
    ensures level[h] >= cap ==> Searching(edges, s, cap, all, level, h + 1)
  {
    assert queue[0] == (all[h + 0], level[h + 0]);
    AllFit(edges, s, cap, all, level, h);
  }

  lemma Push(edges: set<Edge>, s: Uuid, cap: nat, seen: set<Uuid>, queue: seq<(Uuid, nat)>, all: seq<Uuid>,
          level: seq<nat>, h: nat, y: Uuid)
    requires Searching(edges, s, cap, all, level, h) && h < |all| && Tracks(seen, queue, all, level, h + 1)
    requires level[h] < cap && Adjacent(edges, all[h], y) && y !in seen
    ensures Searching(edges, s, cap, all + [y], level + [level[h] + 1], h)
    ensures Tracks(seen + {y}, queue + [(y, level[h] + 1)], all + [y], level + [level[h] + 1], h + 1)
  {
    SeeNew(edges, s, cap, all, level, h, y);
  }

  lemma Expanded(edges: set<Edge>, s: Uuid, cap: nat, all: seq<Uuid>, level: seq<nat>, h: nat, rows: seq<Uuid>)
    requires Searching(edges, s, cap, all, level, h) && h < |all|
    requires AreNeighbors(rows, edges, all[h])
    requires forall y :: y in Elements(rows) ==> y in all
    ensures Searching(edges, s, cap, all, level, h + 1)
  {
  }

  lemma AllFit(edges: set<Edge>, s: Uuid, cap: nat, all: seq<Uuid>, level: seq<nat>, h: nat)
    requires Searching(edges, s, cap, all, level, h)
    ensures |all| <= |{s} + Endpoints(edges)|
  {
    forall x | x in all ensures x in {s} + Endpoints(edges) {
      var i :| 0 <= i < |all| && all[i] == x;
      if level[i] == 0 {
        WithinSelf(edges, s, x);
      } else {
        var y := LastHop(edges, s, x, level[i] - 1);
      }
    }
    DistinctLength(all, {s} + Endpoints(edges));
  }

  /** What holds while the rows of the id at position `h` are gone through. */
  ghost predicate Expanding(edges: set<Edge>, id: Uuid, depth: nat, cur: Uuid, d: nat,
                            seen: set<Uuid>, queue: seq<(Uuid, nat)>, outIds: seq<Uuid>, level: seq<nat>, h: nat)
  {
    var all := [id] + outIds;
    && Searching(edges, id, depth, all, level, h) && Tracks(seen, queue, all, level, h + 1)
    && h < |all| && all[h] == cur && level[h] == d < depth
  }

  /** A row not seen before is marked, listed and queued one level further out. */
  method SeeRow(edges: set<Edge>, id: Uuid, depth: nat, ghost cur: Uuid, d: nat, nid: Uuid,
                seen0: set<Uuid>, queue0: seq<(Uuid, nat)>, outIds0: seq<Uuid>, ghost level0: seq<nat>, ghost h: nat)
    returns (seen: set<Uuid>, queue: seq<(Uuid, nat)>, outIds: seq<Uuid>, ghost level: seq<nat>)
    requires Expanding(edges, id, depth, cur, d, seen0, queue0, outIds0, level0, h) && Adjacent(edges, cur, nid)
    ensures Expanding(edges, id, depth, cur, d, seen, queue, outIds, level, h)
    ensures seen0 <= seen && nid in seen
  {
    seen, queue, outIds, level := seen0, queue0, outIds0, level0;
    if nid !in seen {
      Push(edges, id, depth, seen, queue, [id] + outIds, level, h, nid);
      assert [id] + (outIds + [nid]) == [id] + outIds + [nid];
      seen := seen + {nid};
      outIds := outIds + [nid];
      queue := queue + [(nid, d + 1)];
      level := level + [d + 1];
    }
  }

  /** Every row has been seen, so the id at position `h` is done with. */
  lemma Visited(edges: set<Edge>, id: Uuid, depth: nat, cur: Uuid, d: nat, rows: seq<Uuid>,
          seen: set<Uuid>, queue: seq<(Uuid, nat)>, outIds: seq<Uuid>, level: seq<nat>, h: nat)
    requires Expanding(edges, id, depth, cur, d, seen, queue, outIds, level, h)
    requires AreNeighbors(rows, edges, cur) && Elements(rows) <= seen
    ensures Searching(edges, id, depth, [id] + outIds, level, h + 1)
    ensures Tracks(seen, queue, [id] + outIds, level, h + 1)
  {
    Expanded(edges, id, depth, [id] + outIds, level, h, rows);
  }

  /** The inner loop. */
  method Visit(edges: set<Edge>, id: Uuid, depth: nat, ghost cur: Uuid, rows: seq<Uuid>, d: nat,
               seen0: set<Uuid>, queue0: seq<(Uuid, nat)>, outIds0: seq<Uuid>, ghost level0: seq<nat>, ghost h: nat)
    returns (seen: set<Uuid>, queue: seq<(Uuid, nat)>, outIds: seq<Uuid>, ghost level: seq<nat>)
    requires Expanding(edges, id, depth, cur, d, seen0, queue0, outIds0, level0, h)
    requires AreNeighbors(rows, edges, cur)
    ensures Searching(edges, id, depth, [id] + outIds, level, h + 1)
    ensures Tracks(seen, queue, [id] + outIds, level, h + 1)
  {
    seen, queue, outIds, level := seen0, queue0, outIds0, level0;
    var i := 0;
    while i < |rows|
      invariant 0 <= i <= |rows|
      invariant Expanding(edges, id, depth, cur, d, seen, queue, outIds, level, h)
      invariant Elements(rows[..i]) <= seen
    {
      assert rows[..i + 1] == rows[..i] + [rows[i]];
      seen, queue, outIds, level := SeeRow(edges, id, depth, cur, d, rows[i], seen, queue, outIds, level, h);
      i := i + 1;
    }
    assert rows[..|rows|] == rows;
    Visited(edges, id, depth, cur, d, rows, seen, queue, outIds, level, h);
  }

  /** The ids within `depth` hops of `id`, for any depth. */
  method NeighborIds(edges: set<Edge>, id: Uuid, depth: nat) returns (outIds: seq<Uuid>)
    ensures IsBreadthFirst(edges, id, depth, outIds)
  {
    var seen := {id};
    var queue: seq<(Uuid, nat)> := [(id, 0)];
    outIds := [];
    ghost var level: seq<nat>, h := [0], 0;
    WithinSelf(edges, id, id);
    while queue != []
      invariant Searching(edges, id, depth, [id] + outIds, level, h)
      invariant Tracks(seen, queue, [id] + outIds, level, h)
      decreases |{id} + Endpoints(edges)| - h
    {
      Pop(edges, id, depth, seen, queue, [id] + outIds, level, h);
      var (cur, d) := queue[0];
      queue := queue[1..];
      if d < depth {
        var rows := EdgeRows(edges, cur);
        seen, queue, outIds, level := Visit(edges, id, depth, cur, rows, d, seen, queue, outIds, level, h);
      }
      h := h + 1;
    }
    SearchDone(edges, id, depth, [id] + outIds, level);
    assert ([id] + outIds)[1..] == outIds;
  }

  // ------------------------------------------------------------- the records

  function LiveAmong(records: map<Uuid, MemoryRecord>, ids: seq<Uuid>, now: int): seq<MemoryRecord> {
    if ids == [] then []
    else
      (if ids[0] in records && records[ids[0]].IsLive(now) then [records[ids[0]]] else [])
      + LiveAmong(records, ids[1..], now)
  }

  lemma {:induction false} LiveAmongSplit(records: map<Uuid, MemoryRecord>, ids: seq<Uuid>, more: seq<Uuid>, now: int)
    ensures LiveAmong(records, ids + more, now) == LiveAmong(records, ids, now) + LiveAmong(records, more, now)
    decreases |ids|
  {
    if ids == [] {
      assert ids + more == more;
    } else {
      assert (ids + more)[1..] == ids[1..] + more;
      LiveAmongSplit(records, ids[1..], more, now);
    }
  }

  lemma {:induction false} LiveAmongExactly(records: map<Uuid, MemoryRecord>, ids: seq<Uuid>, now: int)
    ensures forall r :: r in LiveAmong(records, ids, now) <==>
                        exists x :: x in ids && x in records && records[x] == r && r.IsLive(now)
    decreases |ids|
  {
    if ids == [] {
    } else {
      LiveAmongExactly(records, ids[1..], now);
      assert ids == [ids[0]] + ids[1..];
    }
  }

  /** The memory table: rows are keyed by their id. */
  ghost predicate Keyed(records: map<Uuid, MemoryRecord>) {
    forall x :: x in records ==> records[x].id == x
  }

  lemma {:induction false} LiveAmongDistinct(records: map<Uuid, MemoryRecord>, ids: seq<Uuid>, now: int)
    requires Keyed(records) && Distinct(ids)
    ensures Distinct(LiveAmong(records, ids, now))
    decreases |ids|
  {
    if ids == [] {
    } else {
      LiveAmongDistinct(records, ids[1..], now);
      LiveAmongExactly(records, ids[1..], now);
    }
  }

  ghost predicate NearestFirst(edges: set<Edge>, s: Uuid, ids: seq<Uuid>) {
    forall i, j, k: nat, l: nat ::
      0 <= i <= j < |ids| && AtDistance(edges, s, ids[i], k) && AtDistance(edges, s, ids[j], l) ==> k <= l
  }

  ghost predicate RecordsNearestFirst(edges: set<Edge>, s: Uuid, rs: seq<MemoryRecord>) {
    forall i, j, k: nat, l: nat ::
      0 <= i <= j < |rs| && AtDistance(edges, s, rs[i].id, k) && AtDistance(edges, s, rs[j].id, l) ==> k <= l
  }

  lemma {:induction false} LiveNearestFirst(
    records: map<Uuid, MemoryRecord>, edges: set<Edge>, s: Uuid, ids: seq<Uuid>, now: int)
    requires Keyed(records) && NearestFirst(edges, s, ids)
    ensures RecordsNearestFirst(edges, s, LiveAmong(records, ids, now))
    decreases |ids|
  {
    if ids == [] {
    } else {
      var rest := LiveAmong(records, ids[1..], now);
      LiveNearestFirst(records, edges, s, ids[1..], now);
      LiveAmongExactly(records, ids[1..], now);
      if ids[0] in records && records[ids[0]].IsLive(now) {
        var all := [records[ids[0]]] + rest;
        forall i, j, k: nat, l: nat
          | 0 <= i <= j < |all| && AtDistance(edges, s, all[i].id, k) && AtDistance(edges, s, all[j].id, l)
          ensures k <= l
        {
          HeadIsNearest(records, edges, s, ids, now, all, i, j, k, l);
        }
      }
    }
  }

  lemma HeadIsNearest(records: map<Uuid, MemoryRecord>, edges: set<Edge>, s: Uuid, ids: seq<Uuid>, now: int,
          all: seq<MemoryRecord>, i: int, j: int, k: nat, l: nat)
    requires Keyed(records) && NearestFirst(edges, s, ids) && ids != [] && ids[0] in records
    requires all == [records[ids[0]]] + LiveAmong(records, ids[1..], now)
    requires RecordsNearestFirst(edges, s, all[1..])
    requires 0 <= i <= j < |all| && AtDistance(edges, s, all[i].id, k) && AtDistance(edges, s, all[j].id, l)
    ensures k <= l
  {
    if i > 0 {
      assert all[i] == all[1..][i - 1] && all[j] == all[1..][j - 1];
    } else if j > 0 {
      LiveAmongExactly(records, ids[1..], now);
      assert all[j] in LiveAmong(records, ids[1..], now);
      var x :| x in ids[1..] && x in records && records[x] == all[j];
      var m :| 0 <= m < |ids[1..]| && ids[1..][m] == x;
      assert ids[m + 1] == x && ids[0] == all[0].id;
    } else {
      DistanceUnique(edges, s, all[0].id, k, l);
    }
  }

  function Depth(asked: nat): nat {
    if asked <= 3 then asked else 3
  }

  /**
   The live records at distance 1 to min(depth, 3) of `id`, each once and nearest first.  Distances
   count hops through any node, so a live record behind a deleted or expired one is found.
   */
  method FindNeighbors(records: map<Uuid, MemoryRecord>, edges: set<Edge>, id: Uuid, depth: nat, now: int)
    returns (out: seq<MemoryRecord>)
    requires Keyed(records)
    ensures exists ids ::
              IsBreadthFirst(edges, id, if depth <= 3 then depth else 3, ids) && out == LiveAmong(records, ids, now)
    ensures Distinct(out)
    ensures forall x :: x in records ==>
      (records[x] in out <==>
       && !records[x].deleted && (records[x].expiresAt.None? || now < records[x].expiresAt.value)
       && exists k: nat :: 1 <= k <= depth && k <= 3 && AtDistance(edges, id, x, k))
    ensures RecordsNearestFirst(edges, id, out)
  {
    var outIds := NeighborIds(edges, id, Depth(depth));
    out := [];
    var i := 0;
    while i < |outIds|
      invariant 0 <= i <= |outIds| && out == LiveAmong(records, outIds[..i], now)
    {
      var nid := outIds[i];
      LiveAmongSplit(records, outIds[..i], [nid], now);
      assert outIds[..i + 1] == outIds[..i] + [nid] && [nid][1..] == [];
      if nid in records && records[nid].IsLive(now) {
        out := out + [records[nid]];
      }
      i := i + 1;
    }
    assert outIds[..|outIds|] == outIds;
    LiveAmongDistinct(records, outIds, now);
    LiveNearestFirst(records, edges, id, outIds, now);
    LiveAmongExactly(records, outIds, now);
  }
}
