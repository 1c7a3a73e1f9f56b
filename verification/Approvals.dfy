/** Approvals that expire on a deadline, and the policy gate they open (crates/igris-policy/src/lib.rs). */
module Approvals {
  import opened Collections

  datatype Autonomy = Assist | Operate | Autonomous

  datatype PermissionLevel = L0Read | L1Write | L2Exec | L3Sensitive | L4Destructive

  datatype PolicyError = ApprovalRequired | Killed

  datatype ApprovalState = Pending | Approved | Denied | Expired

  datatype Approval = Approval(
    id: Uuid, summary: string, level: PermissionLevel, requestedAt: int, expiresAt: int, state: ApprovalState)

  type Items = map<Uuid, Approval>

  // ---------------------------------------------- operations, clock included

  datatype Op =
    | Request(id: Uuid, summary: string, level: PermissionLevel, ttl: int)
    | Approve(id: Uuid)
    | Deny(id: Uuid)
    | Get(id: Uuid)
    | IsApproved(id: Uuid)

  datatype Answer = Done | Flag(b: bool) | Found(a: Option<Approval>)

  datatype Call = Call(op: Op, now: int)

  function Requested(items: Items, id: Uuid, summary: string, level: PermissionLevel, ttl: int, now: int): Items {
    items[id := Approval(id, summary, level, now, now + ttl, Pending)]
  }

  predicate CanSettle(items: Items, id: Uuid, now: int) {
    id in items && items[id].state.Pending? && now <= items[id].expiresAt
  }

  function Settled(items: Items, id: Uuid, to: ApprovalState, now: int): Items {
    if CanSettle(items, id, now) then items[id := items[id].(state := to)] else items
  }

  function Overdue(a: Approval, now: int): bool {
    a.state.Pending? && now > a.expiresAt
  }

  function Swept(items: Items, id: Uuid, now: int): Items {
    if id in items && Overdue(items[id], now) then items[id := items[id].(state := Expired)] else items
  }

  function Lookup(items: Items, id: Uuid): Option<Approval> {
    if id in items then Some(items[id]) else None
  }

  predicate Grants(items: Items, id: Uuid) {
    id in items && items[id].state.Approved?
  }

  class ApprovalStore {
    var items: Items

    constructor ()
      ensures items == map[]
    {
      items := map[];
    }

    /** `id` is the fresh identifier. */
    method AddRequest(id: Uuid, summary: string, level: PermissionLevel, ttl: int, now: int)
      modifies this
      ensures items == Requested(old(items), id, summary, level, ttl, now)
      ensures items == old(items)[id := Approval(id, summary, level, now, now + ttl, Pending)]
    {
      items := items[id := Approval(id, summary, level, now, now + ttl, Pending)];
    }

    method Settle(id: Uuid, to: ApprovalState, now: int) returns (ok: bool)
      modifies this
      ensures items == Settled(old(items), id, to, now) && ok == CanSettle(old(items), id, now)
    {
      if id in items && items[id].state == Pending && now <= items[id].expiresAt {
        items := items[id := items[id].(state := to)];
        return true;
      }
      return false;
    }

    method Sweep(id: Uuid, now: int)
      modifies this
      ensures items == Swept(old(items), id, now)
    {
      if id in items && items[id].state == Pending && now > items[id].expiresAt {
        items := items[id := items[id].(state := Expired)];
      }
    }

    method Find(id: Uuid, now: int) returns (a: Option<Approval>)
      modifies this
      ensures items == Swept(old(items), id, now) && a == Lookup(items, id)
    {
      Sweep(id, now);
      a := if id in items then Some(items[id]) else None;
    }

    method CheckApproved(id: Uuid, now: int) returns (b: bool)
      modifies this
      ensures items == Swept(old(items), id, now) && b == Grants(items, id)
    {
      Sweep(id, now);
      b := id in items && items[id].state == Approved;
    }
  }

  /** One call on the store: expiry is noticed only when a request is looked at. */
  function LazyStep(items: Items, c: Call): (Items, Answer) {
    match c.op
    case Request(id, summary, level, ttl) => (Requested(items, id, summary, level, ttl, c.now), Done)
    case Approve(id) => (Settled(items, id, Approved, c.now), Flag(CanSettle(items, id, c.now)))
    case Deny(id) => (Settled(items, id, Denied, c.now), Flag(CanSettle(items, id, c.now)))
    case Get(id) => var s := Swept(items, id, c.now); (s, Found(Lookup(s, id)))
    case IsApproved(id) => var s := Swept(items, id, c.now); (s, Flag(Grants(s, id)))
  }

  // --------------------------------------- the simple form: a timer per item

  /** Every request past its deadline has expired. */
  function ExpireAll(items: Items, now: int): Items {
    map id | id in items :: Waited(items[id], now)
  }

  function Waited(a: Approval, now: int): Approval {
    if Overdue(a, now) then a.(state := Expired) else a
  }

  /** The store without a clock: expiry has already been done. */
  function TimelessStep(items: Items, c: Call): (Items, Answer) {
    match c.op
    case Request(id, summary, level, ttl) => (Requested(items, id, summary, level, ttl, c.now), Done)
    case Approve(id) => TimelessSettle(items, id, Approved)
    case Deny(id) => TimelessSettle(items, id, Denied)
    case Get(id) => (items, Found(Lookup(items, id)))
    case IsApproved(id) => (items, Flag(Grants(items, id)))
  }

  function TimelessSettle(items: Items, id: Uuid, to: ApprovalState): (Items, Answer) {
    if id in items && items[id].state.Pending? then (items[id := items[id].(state := to)], Flag(true))
    else (items, Flag(false))
  }

  function EagerStep(items: Items, c: Call): (Items, Answer) {
    TimelessStep(ExpireAll(items, c.now), c)
  }

  function LazyRun(items: Items, calls: seq<Call>): (Items, seq<Answer>)
    decreases |calls|
  {
    if calls == [] then (items, [])
    else
      var (next, answer) := LazyStep(items, calls[0]);
      var (end, answers) := LazyRun(next, calls[1..]);
      (end, [answer] + answers)
  }

  function EagerRun(items: Items, calls: seq<Call>): (Items, seq<Answer>)
    decreases |calls|
  {
    if calls == [] then (items, [])
    else
      var (next, answer) := EagerStep(items, calls[0]);
      var (end, answers) := EagerRun(next, calls[1..]);
      (end, [answer] + answers)
  }

  predicate TimeFlows(calls: seq<Call>, from: int)
    decreases |calls|
  {
    calls == [] || (from <= calls[0].now && TimeFlows(calls[1..], calls[0].now))
  }

  lemma StepAnswersAgree(lazy: Items, eager: Items, c: Call)
    requires ExpireAll(lazy, c.now) == ExpireAll(eager, c.now)
    ensures LazyStep(lazy, c).1 == EagerStep(eager, c).1
  {
  }

  lemma WaitTwice(items: Items, now: int, t: int)
    requires now <= t
    ensures ExpireAll(ExpireAll(items, now), t) == ExpireAll(items, t)
  {
    forall id | id in items ensures Waited(ExpireAll(items, now)[id], t) == Waited(items[id], t) {
    }
  }

  lemma WaitAfterUpdate(items: Items, id: Uuid, a: Approval, t: int)
    ensures ExpireAll(items[id := a], t) == ExpireAll(items, t)[id := Waited(a, t)]
  {
  }

  lemma WaitAfterSettle(items: Items, id: Uuid, to: ApprovalState, now: int, t: int)
    requires now <= t && !to.Pending?
    ensures ExpireAll(Settled(items, id, to, now), t) == ExpireAll(TimelessSettle(ExpireAll(items, now), id, to).0, t)
  {
    var x := ExpireAll(items, now);
    WaitTwice(items, now, t);
    if CanSettle(items, id, now) {
      WaitAfterUpdate(items, id, items[id].(state := to), t);
      WaitAfterUpdate(x, id, x[id].(state := to), t);
    }
  }

  lemma WaitAfterSweep(items: Items, id: Uuid, now: int, t: int)
    requires now <= t
    ensures ExpireAll(Swept(items, id, now), t) == ExpireAll(items, t)
  {
  }

  /** Waiting from now to `t` after a lazy step is waiting after the timeless step on the expired store. */
  lemma LazyThenWait(items: Items, c: Call, t: int)
    requires c.now <= t
    ensures ExpireAll(LazyStep(items, c).0, t) == ExpireAll(TimelessStep(ExpireAll(items, c.now), c).0, t)
  {
    WaitTwice(items, c.now, t);
    match c.op {
      case Request(id, summary, level, ttl) =>
        var a := Approval(id, summary, level, c.now, c.now + ttl, Pending);
        WaitAfterUpdate(items, id, a, t);
        WaitAfterUpdate(ExpireAll(items, c.now), id, a, t);
      case Approve(id) => WaitAfterSettle(items, id, Approved, c.now, t);
      case Deny(id) => WaitAfterSettle(items, id, Denied, c.now, t);
      case Get(id) => WaitAfterSweep(items, id, c.now, t);
      case IsApproved(id) => WaitAfterSweep(items, id, c.now, t);
    }
  }

  /** The two stores agree up to requests that are overdue but have not been looked at. */
  lemma StepAgrees(lazy: Items, eager: Items, c: Call)
    requires ExpireAll(lazy, c.now) == ExpireAll(eager, c.now)
    ensures LazyStep(lazy, c).1 == EagerStep(eager, c).1
    ensures forall t :: t >= c.now ==> ExpireAll(LazyStep(lazy, c).0, t) == ExpireAll(EagerStep(eager, c).0, t)
  {
    StepAnswersAgree(lazy, eager, c);
    forall t | t >= c.now ensures ExpireAll(LazyStep(lazy, c).0, t) == ExpireAll(EagerStep(eager, c).0, t) {
      LazyThenWait(lazy, c, t);
    }
  }

  /** Expiring lazily cannot be told from expiring every request at its deadline. */
  lemma {:induction false} LazyIsEager(lazy: Items, eager: Items, calls: seq<Call>, from: int)
    requires TimeFlows(calls, from)
    requires forall t :: t >= from ==> ExpireAll(lazy, t) == ExpireAll(eager, t)
    ensures LazyRun(lazy, calls).1 == EagerRun(eager, calls).1
    decreases |calls|
  {
    if calls == [] {
    } else {
      StepAgrees(lazy, eager, calls[0]);
      LazyIsEager(LazyStep(lazy, calls[0]).0, EagerStep(eager, calls[0]).0, calls[1..], calls[0].now);
    }
  }

  /** What each call does to its request, told from the request's state, deadline and the time. */
  lemma CallMeans(items: Items, c: Call, id: Uuid)
    requires id in items && !c.op.Request? && c.op.id == id
    ensures var (after, answer) := LazyStep(items, c);
            var open := items[id].state == Pending && c.now <= items[id].expiresAt;
            var overdue := items[id].state == Pending && c.now > items[id].expiresAt;
            && after.Keys == items.Keys && (forall x :: x in items && x != id ==> after[x] == items[x])
            && (c.op == Approve(id) ==>
                after[id] == (if open then items[id].(state := Approved) else items[id]) && answer == Flag(open))
            && (c.op == Deny(id) ==>
                after[id] == (if open then items[id].(state := Denied) else items[id]) && answer == Flag(open))
            && (c.op == Get(id) || c.op == IsApproved(id) ==>
                after[id] == if overdue then items[id].(state := Expired) else items[id])
            && (c.op == Get(id) ==> answer == Found(Some(after[id])))
            && (c.op == IsApproved(id) ==> answer == Flag(items[id].state == Approved))
  {
  }

  lemma RequestMeans(items: Items, id: Uuid, summary: string, level: PermissionLevel, ttl: int, now: int)
    ensures LazyStep(items, Call(Request(id, summary, level, ttl), now)) ==
            (items[id := Approval(id, summary, level, now, now + ttl, Pending)], Done)
  {
  }

  // ------------------------------------------------------ settling only once

  predicate Settles(c: Call, id: Uuid) {
    (c.op.Approve? || c.op.Deny?) && c.op.id == id
  }

  /** How many of the calls settled the request. */
  function SettleCount(items: Items, calls: seq<Call>, id: Uuid): nat
    decreases |calls|
  {
    if calls == [] then 0
    else (if Settles(calls[0], id) && LazyStep(items, calls[0]).1 == Flag(true) then 1 else 0)
         + SettleCount(LazyStep(items, calls[0]).0, calls[1..], id)
  }

  /** Identifiers are fresh: no request is made under an id already in use. */
  predicate FreshIds(items: Items, calls: seq<Call>)
    decreases |calls|
  {
    calls == [] ||
    ((calls[0].op.Request? ==> calls[0].op.id !in items) && FreshIds(LazyStep(items, calls[0]).0, calls[1..]))
  }

  /** A request is settled at most once, and not at all once it is settled or expired. */
  lemma {:induction false} SettledOnce(items: Items, calls: seq<Call>, id: Uuid)
    requires FreshIds(items, calls)
    ensures SettleCount(items, calls, id) <= 1
    ensures id in items && !items[id].state.Pending? ==> SettleCount(items, calls, id) == 0
    decreases |calls|
  {
    if calls == [] {
    } else {
      SettledOnce(LazyStep(items, calls[0]).0, calls[1..], id);
    }
  }

  /** Call `i` of the run granted `id`, no later than its deadline. */
  ghost predicate ApprovedInTime(items: Items, calls: seq<Call>, i: nat, id: Uuid) {
    && i < |calls| && calls[i].op == Approve(id)
    && CanSettle(LazyRun(items, calls[..i]).0, id, calls[i].now)
  }

  lemma {:induction false} RunSnoc(items: Items, calls: seq<Call>, c: Call)
    ensures LazyRun(items, calls + [c]).0 == LazyStep(LazyRun(items, calls).0, c).0
    decreases |calls|
  {
    if calls == [] {
      assert ([] + [c])[1..] == [];
      assert [] + [c] == [c];
    } else {
      assert (calls + [c])[1..] == calls[1..] + [c];
      RunSnoc(LazyStep(items, calls[0]).0, calls[1..], c);
    }
  }

  /** Whatever is approved was approved in time by some call of the run. */
  lemma {:induction false} ApprovalsAreTimely(calls: seq<Call>, id: Uuid)
    requires Grants(LazyRun(map[], calls).0, id)
    ensures exists i: nat :: ApprovedInTime(map[], calls, i, id)
    decreases |calls|
  {
    if calls == [] {
    } else {
      var n := |calls| - 1;
      var before := LazyRun(map[], calls[..n]).0;
      assert calls == calls[..n] + [calls[n]];
      RunSnoc(map[], calls[..n], calls[n]);
      if Grants(before, id) {
        ApprovalsAreTimely(calls[..n], id);
        var i: nat :| ApprovedInTime(map[], calls[..n], i, id);
        assert calls[..n][..i] == calls[..i];
        assert ApprovedInTime(map[], calls, i, id);
      } else {
        assert ApprovedInTime(map[], calls, n, id);
      }
    }
  }

  lemma {:induction false} RunSplits(items: Items, calls: seq<Call>, i: nat)
    requires i <= |calls|
    ensures var mid := LazyRun(items, calls[..i]).0;
            && LazyRun(items, calls).0 == LazyRun(mid, calls[i..]).0
            && (FreshIds(items, calls) ==> FreshIds(mid, calls[i..]))
    decreases i
  {
    if i == 0 {
      assert calls[..0] == [] && calls[0..] == calls;
    } else {
      assert calls[..i][0] == calls[0] && calls[..i][1..] == calls[1..][..i - 1];
      assert calls[1..][i - 1..] == calls[i..];
      RunSplits(LazyStep(items, calls[0]).0, calls[1..], i - 1);
    }
  }

  lemma {:induction false} ApprovedStays(items: Items, calls: seq<Call>, id: Uuid)
    requires FreshIds(items, calls) && Grants(items, id)
    ensures Grants(LazyRun(items, calls).0, id)
    decreases |calls|
  {
    if calls == [] {
    } else {
      ApprovedStays(LazyStep(items, calls[0]).0, calls[1..], id);
    }
  }

  /** With fresh identifiers, exactly what was approved in time is approved at the end. */
  lemma ApprovedIff(calls: seq<Call>, id: Uuid)
    requires FreshIds(map[], calls)
    ensures Grants(LazyRun(map[], calls).0, id) <==> exists i: nat :: ApprovedInTime(map[], calls, i, id)
  {
    if Grants(LazyRun(map[], calls).0, id) {
      ApprovalsAreTimely(calls, id);
    }
    if exists i: nat :: ApprovedInTime(map[], calls, i, id) {
      var i: nat :| ApprovedInTime(map[], calls, i, id);
      RunSplits(map[], calls, i);
      ApprovedStays(LazyStep(LazyRun(map[], calls[..i]).0, calls[i]).0, calls[i..][1..], id);
    }
  }

  // ------------------------------------------------ approval told from the calls

  /** Time does not go back, up to `now`. */
  ghost predicate InOrder(calls: seq<Call>, now: int) {
    && (forall i, j :: 0 <= i < j < |calls| ==> calls[i].now <= calls[j].now)
    && forall i :: 0 <= i < |calls| ==> calls[i].now <= now
  }

  predicate Asks(c: Call, id: Uuid) {
    c.op.Request? && c.op.id == id
  }

  /** Call `k` asked for `id`, the deadline then set is not over at `now`, and nobody has answered since. */
  ghost predicate OpenSince(calls: seq<Call>, k: int, id: Uuid, now: int) {
    && 0 <= k < |calls| && Asks(calls[k], id) && now <= calls[k].now + calls[k].op.ttl
    && forall j :: k < j < |calls| ==> calls[j].op != Approve(id) && calls[j].op != Deny(id)
  }

  ghost predicate Open(calls: seq<Call>, id: Uuid, now: int) {
    exists k :: OpenSince(calls, k, id, now)
  }

  lemma {:induction false} FreshSnoc(items: Items, calls: seq<Call>, c: Call)
    ensures FreshIds(items, calls + [c]) <==>
            FreshIds(items, calls) && (c.op.Request? ==> c.op.id !in LazyRun(items, calls).0)
    decreases |calls|
  {
    var all := calls + [c];
    if calls == [] {
      assert all[0] == c && all[1..] == [];
    } else {
      assert all[0] == calls[0] && all[1..] == calls[1..] + [c];
      FreshSnoc(LazyStep(items, calls[0]).0, calls[1..], c);
    }
  }

  lemma {:induction false} AskedIsKnown(calls: seq<Call>, id: Uuid, k: nat)
    requires k < |calls| && Asks(calls[k], id)
    ensures id in LazyRun(map[], calls).0
    decreases |calls|
  {
    var n := |calls| - 1;
    assert calls == calls[..n] + [calls[n]];
    RunSnoc(map[], calls[..n], calls[n]);
    if k < n {
      AskedIsKnown(calls[..n], id, k);
    }
  }

  lemma OpenIsKnown(calls: seq<Call>, id: Uuid, now: int)
    ensures Open(calls, id, now) ==> id in LazyRun(map[], calls).0
  {
    if Open(calls, id, now) {
      var k :| OpenSince(calls, k, id, now);
      AskedIsKnown(calls, id, k);
    }
  }

  lemma OpenOneMore(before: seq<Call>, c: Call, id: Uuid, now: int)
    ensures Open(before + [c], id, now) <==>
            || (Asks(c, id) && now <= c.now + c.op.ttl)
            || (c.op != Approve(id) && c.op != Deny(id) && Open(before, id, now))
  {
    var calls := before + [c];
    assert forall k :: 0 <= k < |before| ==> calls[k] == before[k];
    assert calls[|before|] == c;
    if Open(calls, id, now) {
      var k :| OpenSince(calls, k, id, now);
      if k < |before| {
        assert OpenSince(before, k, id, now);
      }
    }
    if Asks(c, id) && now <= c.now + c.op.ttl {
      assert OpenSince(calls, |before|, id, now);
    }
    if c.op != Approve(id) && c.op != Deny(id) && Open(before, id, now) {
      var k :| OpenSince(before, k, id, now);
      assert OpenSince(calls, k, id, now);
    }
  }

  lemma StepOpens(items: Items, c: Call, id: Uuid, now: int)
    requires c.now <= now
    ensures CanSettle(LazyStep(items, c).0, id, now) <==>
            if Asks(c, id) then now <= c.now + c.op.ttl
            else c.op != Approve(id) && c.op != Deny(id) && CanSettle(items, id, now)
  {
  }

  /** A request can be answered exactly when the calls so far have left it open. */
  lemma {:induction false} CanSettleIffOpen(calls: seq<Call>, id: Uuid, now: int)
    requires FreshIds(map[], calls) && InOrder(calls, now)
    ensures CanSettle(LazyRun(map[], calls).0, id, now) <==> Open(calls, id, now)
    decreases |calls|
  {
    if calls == [] {
    } else {
      var n := |calls| - 1;
      var before, c := calls[..n], calls[n];
      assert calls == before + [c];
      RunSnoc(map[], before, c);
      FreshSnoc(map[], before, c);
      CanSettleIffOpen(before, id, now);
      OpenOneMore(before, c, id, now);
      StepOpens(LazyRun(map[], before).0, c, id, now);
      OpenIsKnown(before, id, now);
    }
  }

  lemma {:induction false} FreshPrefix(items: Items, calls: seq<Call>, i: nat)
    requires FreshIds(items, calls) && i <= |calls|
    ensures FreshIds(items, calls[..i])
    decreases i
  {
    if i == 0 {
    } else {
      assert calls[..i][0] == calls[0] && calls[..i][1..] == calls[1..][..i - 1];
      FreshPrefix(LazyStep(items, calls[0]).0, calls[1..], i - 1);
    }
  }

  /**
   A request is approved at the end exactly when some call approved it at most its time-to-live after
   it was asked for, and nobody had answered it before.
   */
  lemma ApprovedIffCalled(calls: seq<Call>, id: Uuid, end: int)
    requires FreshIds(map[], calls) && InOrder(calls, end)
    ensures Grants(LazyRun(map[], calls).0, id) <==>
            exists i :: 0 <= i < |calls| && calls[i].op == Approve(id) && Open(calls[..i], id, calls[i].now)
  {
    ApprovedIff(calls, id);
    forall i: nat | i < |calls|
      ensures CanSettle(LazyRun(map[], calls[..i]).0, id, calls[i].now) <==> Open(calls[..i], id, calls[i].now)
    {
      FreshPrefix(map[], calls, i);
      CanSettleIffOpen(calls[..i], id, calls[i].now);
    }
    if i :| 0 <= i < |calls| && calls[i].op == Approve(id) && Open(calls[..i], id, calls[i].now) {
      assert ApprovedInTime(map[], calls, i, id);
    }
  }

  // ---------------------------------------------------------------- the gate

  function Rank(level: PermissionLevel): nat {
    match level
    case L0Read => 0
    case L1Write => 1
    case L2Exec => 2
    case L3Sensitive => 3
    case L4Destructive => 4
  }

  /** A level above L4Destructive, which the program would deny, does not exist. */
  datatype Policy = Policy(autonomy: Autonomy, maxAutoLevel: PermissionLevel, killed: bool) {
    function Check(level: PermissionLevel, risky: bool): Result<bool, PolicyError> {
      if killed then Err(Killed)
      else match autonomy
        case Assist => Err(ApprovalRequired)
        case Operate => if !risky && Rank(level) <= Rank(maxAutoLevel) then Ok(true) else Err(ApprovalRequired)
        case Autonomous => if Rank(level) <= Rank(maxAutoLevel) then Ok(true) else Err(ApprovalRequired)
    }

    predicate AdmitsAlone(level: PermissionLevel, risky: bool) {
      !autonomy.Assist? && Rank(level) <= Rank(maxAutoLevel) && (autonomy.Operate? ==> !risky)
    }
  }

  /** The levels a cap lets through, one by one. */
  function LevelsUpTo(cap: PermissionLevel): set<PermissionLevel> {
    match cap
    case L0Read => {L0Read}
    case L1Write => {L0Read, L1Write}
    case L2Exec => {L0Read, L1Write, L2Exec}
    case L3Sensitive => {L0Read, L1Write, L2Exec, L3Sensitive}
    case L4Destructive => {L0Read, L1Write, L2Exec, L3Sensitive, L4Destructive}
  }

  /** Which levels a policy admits without approval, and what it answers otherwise. */
  lemma AdmitsExactly(p: Policy, level: PermissionLevel, risky: bool)
    ensures p.AdmitsAlone(level, risky) <==>
              !p.autonomy.Assist? && level in LevelsUpTo(p.maxAutoLevel) && (p.autonomy.Operate? ==> !risky)
    ensures p.killed ==> p.Check(level, risky) == Err(Killed)
    ensures !p.killed ==>
              p.Check(level, risky) == if p.AdmitsAlone(level, risky) then Ok(true) else Err(ApprovalRequired)
  {
  }

  /** A level is never admitted under a cap below it; in particular nothing destructive below the top. */
  lemma DestructiveNeedsTopCap(p: Policy, risky: bool)
    requires p.AdmitsAlone(L4Destructive, risky)
    ensures p.maxAutoLevel == L4Destructive && !p.autonomy.Assist?
  {
  }

  /** What is admitted is admitted at every lower level, under every larger cap, and when it is not risky. */
  lemma AdmissionIsMonotone(
    p: Policy, level: PermissionLevel, lower: PermissionLevel, risky: bool, cap: PermissionLevel)
    requires p.AdmitsAlone(level, risky)
    requires lower in LevelsUpTo(level) && p.maxAutoLevel in LevelsUpTo(cap)
    ensures p.AdmitsAlone(lower, risky) && p.(maxAutoLevel := cap).AdmitsAlone(level, risky)
    ensures p.AdmitsAlone(level, false) && p.(autonomy := Autonomous).AdmitsAlone(level, risky)
  {
  }

  /** What the check answers over a store of approvals. */
  function Gate(p: Policy, level: PermissionLevel, risky: bool, items: Items, id: Uuid, now: int)
    : Result<bool, PolicyError>
  {
    if p.killed then Err(Killed)
    else if Grants(Swept(items, id, now), id) then Ok(true)
    else p.Check(level, risky)
  }

  method CheckWithApproval(p: Policy, level: PermissionLevel, risky: bool, approvals: ApprovalStore, id: Uuid, now: int)
    returns (r: Result<bool, PolicyError>)
    modifies approvals
    ensures r == Gate(p, level, risky, old(approvals.items), id, now)
    ensures r.Ok? <==>
              && !p.killed
              && (|| (id in old(approvals.items) && old(approvals.items)[id].state.Approved?)
                  || (!p.autonomy.Assist? && level in LevelsUpTo(p.maxAutoLevel) && (p.autonomy.Operate? ==> !risky)))
    ensures r.Ok? ==> r.value
    ensures r == Err(Killed) <==> p.killed
    ensures approvals.items == if p.killed then old(approvals.items) else Swept(old(approvals.items), id, now)
  {
    if p.killed {
      return Err(Killed);
    }
    var granted := approvals.CheckApproved(id, now);
    if granted {
      return Ok(true);
    }
    r := p.Check(level, risky);
  }

  /**
   After any run of the store the check answers yes exactly when the kill switch is off and some call
   of the run approved the request in time, or the policy admits the level on its own terms.
   */
  lemma GateOpensIff(p: Policy, level: PermissionLevel, risky: bool, calls: seq<Call>, id: Uuid, now: int)
    requires FreshIds(map[], calls)
    ensures var r := Gate(p, level, risky, LazyRun(map[], calls).0, id, now);
            && (r.Ok? <==>
                !p.killed &&
                (|| (exists i: nat :: ApprovedInTime(map[], calls, i, id))
                 || (!p.autonomy.Assist? && level in LevelsUpTo(p.maxAutoLevel) && (p.autonomy.Operate? ==> !risky))))
            && (r.Ok? ==> r.value)
  {
    ApprovedIff(calls, id);
  }

  /**
   An approval is not looked at again: neither the level it was asked for nor its deadline bounds what
   it opens, nor when.
   */
  lemma ApprovalOpensAnyLevel(p: Policy, items: Items, id: Uuid, level: PermissionLevel, risky: bool, now: int)
    requires Grants(items, id)
    ensures Gate(p, level, risky, items, id, now) == if p.killed then Err(Killed) else Ok(true)
  {
  }

  /** Approved for reading, used for destruction after the deadline. */
  lemma ReadApprovalOpensDestruction(p: Policy, id: Uuid, ttl: nat, later: int)
    requires !p.killed && later > ttl
    ensures var calls := [Call(Request(id, "read", L0Read, ttl), 0), Call(Approve(id), 0)];
            var items := LazyRun(map[], calls).0;
            && FreshIds(map[], calls)
            && id in items && items[id].level == L0Read && later > items[id].expiresAt
            && Gate(p, L4Destructive, true, items, id, later) == Ok(true)
  {
    var c, d := Call(Request(id, "read", L0Read, ttl), 0), Call(Approve(id), 0);
    assert [c, d][1..] == [d] && [d][1..] == [];
    var asked := LazyStep(map[], c).0;
    var granted := LazyStep(asked, d).0;
    assert LazyRun(asked, [d]).0 == granted;
    assert LazyRun(map[], [c, d]).0 == granted;
    assert FreshIds(asked, [d]);
    ApprovalOpensAnyLevel(p, granted, id, L4Destructive, true, later);
  }
}
