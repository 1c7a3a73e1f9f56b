/** Last-writer-wins replication (crates/igris-device/src/sync.rs). */
module Sync {
  import opened Collections
  import opened StringOrder

  datatype SyncRecord = SyncRecord(id: string, updatedMs: int, deviceId: string, deleted: bool, payload: seq<bv8>)

  datatype MergeReport = MergeReport(applied: nat, skippedStale: nat, tombstonesApplied: nat)

  // ------------------------------------------------------------------ stamps

  /** `other` supersedes `r`. */
  predicate SupersededBy(r: SyncRecord, other: SyncRecord) {
    r.updatedMs < other.updatedMs || (r.updatedMs == other.updatedMs && StringLess(r.deviceId, other.deviceId))
  }

  predicate SameStamp(r: SyncRecord, s: SyncRecord) {
    r.updatedMs == s.updatedMs && r.deviceId == s.deviceId
  }

  lemma StampOrder(r: SyncRecord, s: SyncRecord, t: SyncRecord)
    ensures SupersededBy(r, s) || SupersededBy(s, r) || SameStamp(r, s)
    ensures !(SupersededBy(r, s) && SupersededBy(s, r)) && (SameStamp(r, s) ==> !SupersededBy(r, s))
    ensures SupersededBy(r, s) && SupersededBy(s, t) ==> SupersededBy(r, t)
  {
    StringLessTrichotomy(r.deviceId, s.deviceId);
    if StringLess(r.deviceId, s.deviceId) && StringLess(s.deviceId, t.deviceId) {
      StringLessTransitive(r.deviceId, s.deviceId, t.deviceId);
    }
  }

  /** `r` is older than `s`, or as old and from a device whose id does not come after that of `s`. */
  ghost predicate NoNewer(r: SyncRecord, s: SyncRecord) {
    || r.updatedMs < s.updatedMs
    || (r.updatedMs == s.updatedMs && (r.deviceId == s.deviceId || LexBefore(r.deviceId, s.deviceId)))
  }

  lemma NoNewerIff(r: SyncRecord, s: SyncRecord)
    ensures NoNewer(r, s) <==> !SupersededBy(s, r)
  {
    StringLessIff(r.deviceId, s.deviceId);
    StringLessTrichotomy(r.deviceId, s.deviceId);
  }

  // ------------------------------------------------------------------- merge

  type Store = map<string, SyncRecord>

  predicate Takes(local: Store, r: SyncRecord) {
    r.id !in local || SupersededBy(local[r.id], r)
  }

  function MergeOne(local: Store, r: SyncRecord): Store {
    if Takes(local, r) then local[r.id := r] else local
  }

  function MergeAll(local: Store, batch: seq<SyncRecord>): Store
    decreases |batch|
  {
    if batch == [] then local else MergeAll(MergeOne(local, batch[0]), batch[1..])
  }

  function Count(report: MergeReport, taken: bool, r: SyncRecord): MergeReport {
    if !taken then report.(skippedStale := report.skippedStale + 1)
    else if r.deleted then report.(tombstonesApplied := report.tombstonesApplied + 1)
    else report.(applied := report.applied + 1)
  }

  function Total(report: MergeReport): nat {
    report.applied + report.skippedStale + report.tombstonesApplied
  }

  // ----------------------------------------------------------------- winners

  /** Records of one id and stamp are one record. */
  ghost predicate Consistent(given: iset<SyncRecord>) {
    forall r, s :: r in given && s in given && r.id == s.id && SameStamp(r, s) ==> r == s
  }

  /** `local` holds, for every id given, a given record that no given record of that id supersedes. */
  ghost predicate HoldsWinners(local: Store, given: iset<SyncRecord>) {
    && (forall r :: r in given ==> r.id in local && !SupersededBy(local[r.id], r))
    && (forall id :: id in local ==> local[id].id == id && local[id] in given)
  }

  /** A newest record of its id. */
  ghost predicate IsWinner(r: SyncRecord, given: iset<SyncRecord>) {
    r in given && forall s :: s in given && s.id == r.id ==> !SupersededBy(r, s)
  }

  /** No id has two different newest records. */
  ghost predicate OneWinner(given: iset<SyncRecord>) {
    forall r, s :: IsWinner(r, given) && IsWinner(s, given) && r.id == s.id ==> r == s
  }

  /** So it is when one id and stamp mean one record. */
  lemma ConsistentHasOneWinner(given: iset<SyncRecord>)
    requires Consistent(given)
    ensures OneWinner(given)
  {
    forall r, s | IsWinner(r, given) && IsWinner(s, given) && r.id == s.id ensures r == s {
      StampOrder(r, s, r);
    }
  }

  /** What two stores hold is determined by what they were given. */
  lemma WinnersUnique(a: Store, b: Store, given: iset<SyncRecord>)
    requires OneWinner(given) && HoldsWinners(a, given) && HoldsWinners(b, given)
    ensures a == b
  {
    forall id ensures id in a <==> id in b ensures id in a ==> a[id] == b[id] {
      if id in a {
        assert b[a[id].id] == b[id];
        assert IsWinner(a[id], given) && IsWinner(b[id], given);
      }
      if id in b {
        assert b[id] in given;
      }
    }
  }

  lemma SameWinners(a: Store, given: iset<SyncRecord>, b: Store, given': iset<SyncRecord>)
    requires OneWinner(given) && (forall r :: r in given <==> r in given')
    requires HoldsWinners(a, given) && HoldsWinners(b, given')
    ensures a == b
  {
    assert given == given';
    WinnersUnique(a, b, given);
  }

  lemma MergeOneHolds(local: Store, given: iset<SyncRecord>, r: SyncRecord)
    requires HoldsWinners(local, given)
    ensures HoldsWinners(MergeOne(local, r), given + iset{r})
  {
    var after := MergeOne(local, r);
    forall s | s in given + iset{r} ensures s.id in after && !SupersededBy(after[s.id], s) {
      StampOrder(r, r, r);
      if s in given && s.id == r.id {
        StampOrder(local[s.id], r, s);
        StampOrder(s, local[s.id], r);
      }
    }
  }

  ghost function Elements(batch: seq<SyncRecord>): iset<SyncRecord> {
    iset r | r in batch
  }

  lemma ElementsOneMore(given: iset<SyncRecord>, batch: seq<SyncRecord>)
    requires batch != []
    ensures given + iset{batch[0]} + Elements(batch[1..]) == given + Elements(batch)
  {
  }

  lemma {:induction false} MergeAllHolds(local: Store, given: iset<SyncRecord>, batch: seq<SyncRecord>)
    requires HoldsWinners(local, given)
    ensures HoldsWinners(MergeAll(local, batch), given + Elements(batch))
    decreases |batch|
  {
    if batch == [] {
      assert given + Elements(batch) == given;
    } else {
      MergeOneHolds(local, given, batch[0]);
      MergeAllHolds(MergeOne(local, batch[0]), given + iset{batch[0]}, batch[1..]);
      ElementsOneMore(given, batch);
    }
  }

  /** Order, batching and re-delivery do not matter: only the set of records merged does. */
  lemma MergeIsOrderFree(local: Store, given: iset<SyncRecord>, one: seq<SyncRecord>,
          other: seq<SyncRecord>)
    requires HoldsWinners(local, given) && OneWinner(given + Elements(one))
    requires forall r :: r in given + Elements(one) <==> r in given + Elements(other)
    ensures MergeAll(local, one) == MergeAll(local, other)
  {
    MergeAllHolds(local, given, one);
    MergeAllHolds(local, given, other);
    SameWinners(MergeAll(local, one), given + Elements(one), MergeAll(local, other), given + Elements(other));
  }

  /** An unconditional local write keeps the winners exactly when it is not older than what it replaces. */
  lemma PutLocalHoldsIff(local: Store, given: iset<SyncRecord>, r: SyncRecord)
    requires HoldsWinners(local, given)
    ensures HoldsWinners(local[r.id := r], given + iset{r}) <==> r.id !in local || !SupersededBy(r, local[r.id])
  {
    var after := local[r.id := r];
    if r.id in local && SupersededBy(r, local[r.id]) {
      assert local[r.id] in given + iset{r} && after[r.id] == r;
    } else {
      forall s | s in given + iset{r} ensures s.id in after && !SupersededBy(after[s.id], s) {
        StampOrder(r, r, r);
        if s in given && s.id == r.id {
          StampOrder(r, local[s.id], s);
          StampOrder(r, s, local[s.id]);
          StampOrder(local[s.id], r, s);
        }
      }
    }
  }

  /** A local write is what a merge would have done exactly when it is new, newer, or what is there already. */
  lemma PutLocalIsMergeIff(local: Store, r: SyncRecord)
    ensures local[r.id := r] == MergeOne(local, r) <==>
              r.id !in local || SupersededBy(local[r.id], r) || local[r.id] == r
  {
  }

  // --------------------------------------------------- histories of replicas

  /** Something happens at one engine: a local write, or a batch arrives from anywhere. */
  datatype Event =
    | Put(engine: string, record: SyncRecord)
    | Merge(engine: string, batch: seq<SyncRecord>)

  function StepStore(local: Store, ev: Event): Store {
    match ev
    case Put(_, r) => local[r.id := r]
    case Merge(_, batch) => MergeAll(local, batch)
  }

  function StoreOf(history: seq<Event>, engine: string): Store
    decreases |history|
  {
    if history == [] then map[]
    else
      var before := StoreOf(history[..|history| - 1], engine);
      var last := history[|history| - 1];
      if last.engine == engine then StepStore(before, last) else before
  }

  ghost function Brings(ev: Event): iset<SyncRecord> {
    match ev
    case Put(_, r) => iset{r}
    case Merge(_, batch) => Elements(batch)
  }

  /** All records the engine has ever been given. */
  ghost function Given(history: seq<Event>, engine: string): iset<SyncRecord>
    decreases |history|
  {
    if history == [] then iset{}
    else
      var before := Given(history[..|history| - 1], engine);
      var last := history[|history| - 1];
      if last.engine == engine then before + Brings(last) else before
  }

  /** No local write is older than what it replaces. */
  ghost predicate Timely(history: seq<Event>)
    decreases |history|
  {
    history == [] ||
    (var before, last := history[..|history| - 1], history[|history| - 1];
     Timely(before) &&
     (last.Put? ==>
        var local := StoreOf(before, last.engine);
        last.record.id in local ==> !SupersededBy(last.record, local[last.record.id])))
  }

  /** Every engine holds, for every id, the newest record it has ever been given. */
  lemma {:induction false} EnginesHoldWinners(history: seq<Event>, engine: string)
    requires Timely(history)
    ensures HoldsWinners(StoreOf(history, engine), Given(history, engine))
    decreases |history|
  {
    if history == [] {
    } else {
      var before, last := history[..|history| - 1], history[|history| - 1];
      EnginesHoldWinners(before, engine);
      if last.engine == engine {
        match last {
          case Put(_, r) => PutLocalHoldsIff(StoreOf(before, engine), Given(before, engine), r);
          case Merge(_, batch) => MergeAllHolds(StoreOf(before, engine), Given(before, engine), batch);
        }
      }
    }
  }

  /** Every engine holds, at every moment, the newest of what it has been given. */
  ghost predicate AlwaysNewest(history: seq<Event>) {
    forall n: nat, engine :: n <= |history| ==>
      HoldsWinners(StoreOf(history[..n], engine), Given(history[..n], engine))
  }

  lemma {:induction false} TimelyPrefix(history: seq<Event>, n: nat)
    requires Timely(history) && n <= |history|
    ensures Timely(history[..n])
    decreases |history|
  {
    if n == |history| {
      assert history[..n] == history;
    } else {
      var before := history[..|history| - 1];
      TimelyPrefix(before, n);
      assert before[..n] == history[..n];
    }
  }

  lemma {:induction false} NewestIsTimely(history: seq<Event>)
    requires AlwaysNewest(history)
    ensures Timely(history)
    decreases |history|
  {
    if history == [] {
    } else {
      var k := |history| - 1;
      var before, last := history[..k], history[k];
      forall n: nat, engine | n <= k ensures HoldsWinners(StoreOf(before[..n], engine), Given(before[..n], engine)) {
        assert before[..n] == history[..n];
      }
      NewestIsTimely(before);
      assert history[..k + 1] == history;
      assert HoldsWinners(StoreOf(history[..k], last.engine), Given(history[..k], last.engine));
      assert HoldsWinners(StoreOf(history[..k + 1], last.engine), Given(history[..k + 1], last.engine));
      if last.Put? {
        PutLocalHoldsIff(StoreOf(before, last.engine), Given(before, last.engine), last.record);
      }
    }
  }

  /** No local write is older than the resident record, told by the records' times and devices. */
  ghost predicate WritesOnTime(history: seq<Event>) {
    forall i :: 0 <= i < |history| ==> OnTime(StoreOf(history[..i], history[i].engine), history[i])
  }

  ghost predicate OnTime(local: Store, ev: Event) {
    ev.Put? && ev.record.id in local ==> NoNewer(local[ev.record.id], ev.record)
  }

  lemma OnTimeOneMore(history: seq<Event>)
    requires history != []
    ensures var before, last := history[..|history| - 1], history[|history| - 1];
            WritesOnTime(history) <==> WritesOnTime(before) && OnTime(StoreOf(before, last.engine), last)
  {
    var k := |history| - 1;
    var before, last := history[..k], history[k];
    forall i | 0 <= i < k ensures before[i] == history[i] && before[..i] == history[..i] {
    }
    if WritesOnTime(before) && OnTime(StoreOf(before, last.engine), last) {
      forall i | 0 <= i < |history| ensures OnTime(StoreOf(history[..i], history[i].engine), history[i]) {
        if i < k {
          assert before[i] == history[i] && before[..i] == history[..i];
        }
      }
    }
    if WritesOnTime(history) {
      forall i | 0 <= i < k ensures OnTime(StoreOf(before[..i], before[i].engine), before[i]) {
        assert before[i] == history[i] && before[..i] == history[..i];
      }
    }
  }

  lemma OnTimeIff(local: Store, ev: Event)
    ensures OnTime(local, ev) <==>
              (ev.Put? && ev.record.id in local ==> !SupersededBy(ev.record, local[ev.record.id]))
  {
    if ev.Put? && ev.record.id in local {
      NoNewerIff(local[ev.record.id], ev.record);
    }
  }

  lemma {:induction false} TimelyIffOnTime(history: seq<Event>)
    ensures Timely(history) <==> WritesOnTime(history)
    decreases |history|
  {
    if history == [] {
    } else {
      var before, last := history[..|history| - 1], history[|history| - 1];
      TimelyIffOnTime(before);
      OnTimeOneMore(history);
      OnTimeIff(StoreOf(before, last.engine), last);
    }
  }

  /** What an engine holds is what it was given last, by time and then by device. */
  lemma EnginesHoldLatest(history: seq<Event>, engine: string)
    requires WritesOnTime(history)
    ensures var local := StoreOf(history, engine);
            && (forall r :: r in Given(history, engine) ==> r.id in local && NoNewer(r, local[r.id]))
            && forall id :: id in local ==> local[id].id == id && local[id] in Given(history, engine)
  {
    TimelyIffOnTime(history);
    EnginesHoldWinners(history, engine);
    forall r | r in Given(history, engine) ensures NoNewer(r, StoreOf(history, engine)[r.id]) {
      NoNewerIff(r, StoreOf(history, engine)[r.id]);
    }
  }

  /** Engines always hold the newest of what they have been given exactly when every local write is timely. */
  lemma AlwaysNewestIffTimely(history: seq<Event>)
    ensures AlwaysNewest(history) <==> Timely(history)
  {
    if Timely(history) {
      forall n: nat, engine | n <= |history|
        ensures HoldsWinners(StoreOf(history[..n], engine), Given(history[..n], engine))
      {
        TimelyPrefix(history, n);
        EnginesHoldWinners(history[..n], engine);
      }
    } else if AlwaysNewest(history) {
      NewestIsTimely(history);
    }
  }

  /** Engines given the same records, in whatever histories, hold the same store. */
  lemma {:induction false} ReplicasConverge(history: seq<Event>, engine: string, history': seq<Event>, engine': string)
    requires Timely(history) && Timely(history')
    requires Given(history, engine) == Given(history', engine') && OneWinner(Given(history, engine))
    ensures StoreOf(history, engine) == StoreOf(history', engine')
  {
    EnginesHoldWinners(history, engine);
    EnginesHoldWinners(history', engine');
    WinnersUnique(StoreOf(history, engine), StoreOf(history', engine'), Given(history, engine));
  }

  lemma {:induction false} WinnerStays(local: Store, batch: seq<SyncRecord>, r: SyncRecord)
    requires r.id in local && local[r.id] == r && forall s :: s in batch && s.id == r.id ==> !SupersededBy(r, s)
    ensures r.id in MergeAll(local, batch) && MergeAll(local, batch)[r.id] == r
    decreases |batch|
  {
    if batch == [] {
    } else {
      assert batch[0] in batch;
      WinnerStays(MergeOne(local, batch[0]), batch[1..], r);
    }
  }

  lemma OneEvent(ev: Event)
    ensures Timely([ev])
    ensures StoreOf([ev], ev.engine) == StepStore(map[], ev) && Given([ev], ev.engine) == Brings(ev)
  {
    var history := [ev];
    assert history[..|history| - 1] == [] && history[|history| - 1] == ev;
    assert Timely([]) && StoreOf([], ev.engine) == map[] && Given([], ev.engine) == iset{};
  }

  /** A newest record wins if it is merged first. */
  lemma FirstWinnerWins(batch: seq<SyncRecord>, r: SyncRecord, engine: string)
    requires IsWinner(r, Elements(batch))
    ensures var history := [Merge(engine, [r] + batch)];
            && Timely(history) && Given(history, engine) == Elements(batch)
            && r.id in StoreOf(history, engine) && StoreOf(history, engine)[r.id] == r
  {
    OneEvent(Merge(engine, [r] + batch));
    assert Elements([r] + batch) == Elements(batch) by {
      assert forall s :: s in [r] + batch <==> s in batch;
    }
    assert ([r] + batch)[0] == r && ([r] + batch)[1..] == batch;
    assert MergeAll(map[], [r] + batch) == MergeAll(map[r.id := r], batch);
    WinnerStays(map[r.id := r], batch, r);
  }

  /** All engines given these records agree, whatever their histories. */
  ghost predicate AlwaysConverges(records: iset<SyncRecord>) {
    forall history, engine, history', engine' ::
      Timely(history) && Timely(history') && Given(history, engine) == records == Given(history', engine') ==>
        StoreOf(history, engine) == StoreOf(history', engine')
  }

  /** Engines given the same records always agree exactly when no id has two different newest records. */
  lemma ConvergesIffOneWinner(batch: seq<SyncRecord>)
    ensures AlwaysConverges(Elements(batch)) <==> OneWinner(Elements(batch))
  {
    if OneWinner(Elements(batch)) {
      OneWinnerConverges(Elements(batch));
    } else {
      TwoWinnersDiverge(batch);
    }
  }

  lemma OneWinnerConverges(records: iset<SyncRecord>)
    requires OneWinner(records)
    ensures AlwaysConverges(records)
  {
    forall history, engine, history', engine' |
      Timely(history) && Timely(history') && Given(history, engine) == records == Given(history', engine')
      ensures StoreOf(history, engine) == StoreOf(history', engine')
    {
      ReplicasConverge(history, engine, history', engine');
    }
  }

  lemma TwoWinners(given: iset<SyncRecord>) returns (r: SyncRecord, s: SyncRecord)
    requires !OneWinner(given)
    ensures IsWinner(r, given) && IsWinner(s, given) && r.id == s.id && r != s
  {
    r, s :| IsWinner(r, given) && IsWinner(s, given) && r.id == s.id && r != s;
  }

  lemma TwoHistoriesDiverge(records: iset<SyncRecord>, history: seq<Event>, history': seq<Event>, engine: string)
    requires Timely(history) && Timely(history')
    requires Given(history, engine) == records && Given(history', engine) == records
    requires StoreOf(history, engine) != StoreOf(history', engine)
    ensures !AlwaysConverges(records)
  {
  }

  lemma TwoWinnersDiverge(batch: seq<SyncRecord>)
    requires !OneWinner(Elements(batch))
    ensures !AlwaysConverges(Elements(batch))
  {
    var r, s := TwoWinners(Elements(batch));
    FirstWinnerWins(batch, r, "a");
    FirstWinnerWins(batch, s, "a");
    TwoHistoriesDiverge(Elements(batch), [Merge("a", [r] + batch)], [Merge("a", [s] + batch)], "a");
  }

  /**
   Two records of one id and stamp, both histories timely: the engine that writes the second one
   locally holds it, the engine that merges both holds the first.
   */
  lemma EqualStampsDiverge(r: SyncRecord, s: SyncRecord, engine: string)
    requires r.id == s.id && SameStamp(r, s) && r != s
    ensures var written, merged := [Merge(engine, [r]), Put(engine, s)], [Merge(engine, [r, s])];
            && Timely(written) && Timely(merged) && Given(written, engine) == Given(merged, engine)
            && StoreOf(written, engine) == map[r.id := s] && StoreOf(merged, engine) == map[r.id := r]
  {
    var written := [Merge(engine, [r]), Put(engine, s)];
    StampOrder(r, s, r);
    StampOrder(s, r, s);
    OneEvent(Merge(engine, [r]));
    OneEvent(Merge(engine, [r, s]));
    assert written[..1] == [Merge(engine, [r])];
    assert [r][1..] == [] && [r, s][1..] == [s] && [s][1..] == [];
    assert MergeAll(map[], [r]) == map[r.id := r];
    assert MergeAll(map[], [r, s]) == MergeAll(map[r.id := r], [s]) == map[r.id := r];
    assert StoreOf(written, engine) == map[r.id := r][s.id := s] == map[r.id := s];
    assert Given(written, engine) == iset{r} + iset{s} by {
      assert Elements([r]) == iset{r};
    }
    assert Elements([r, s]) == iset{r, s};
  }

  lemma TwoEvents(e: Event, f: Event)
    requires e.engine == f.engine
    ensures StoreOf([e, f], e.engine) == StepStore(StepStore(map[], e), f)
    ensures Given([e, f], e.engine) == Brings(e) + Brings(f)
  {
    var history := [e, f];
    OneEvent(e);
    assert history[..|history| - 1] == [e];
  }

  /** A local write older than what is there: the same records, one winner, and different stores. */
  lemma OlderWriteDiverges(newer: SyncRecord, older: SyncRecord, engine: string)
    requires older.id == newer.id && SupersededBy(older, newer)
    ensures var written, merged := [Put(engine, newer), Put(engine, older)], [Merge(engine, [newer, older])];
            && Given(written, engine) == Given(merged, engine) && OneWinner(Given(merged, engine))
            && Timely(merged) && !Timely(written)
            && StoreOf(written, engine) == map[newer.id := older] && StoreOf(merged, engine) == map[newer.id := newer]
  {
    var written := [Put(engine, newer), Put(engine, older)];
    StampOrder(older, newer, older);
    StampOrder(newer, newer, newer);
    OneEvent(Put(engine, newer));
    OneEvent(Merge(engine, [newer, older]));
    TwoEvents(Put(engine, newer), Put(engine, older));
    assert written[..1] == [Put(engine, newer)];
    assert [newer, older][1..] == [older] && [older][1..] == [];
    assert MergeAll(map[], [newer, older]) == MergeAll(map[newer.id := newer], [older]) == map[newer.id := newer];
    assert map[newer.id := newer][older.id := older] == map[newer.id := older];
    assert Elements([newer, older]) == iset{newer} + iset{older};
  }

  // ---------------------------------------------------------- delta exchange

  ghost predicate Keyed(local: Store) {
    forall id :: id in local ==> local[id].id == id
  }

  lemma {:induction false} MergeAllKeyed(local: Store, batch: seq<SyncRecord>)
    requires Keyed(local)
    ensures Keyed(MergeAll(local, batch))
    decreases |batch|
  {
    if batch == [] {
    } else {
      MergeAllKeyed(MergeOne(local, batch[0]), batch[1..]);
    }
  }

  ghost function Records(local: Store): iset<SyncRecord> {
    iset id | id in local :: local[id]
  }

  /** `batch` lists the records of `remote` newer than `since`, in some order. */
  ghost predicate IsDelta(batch: seq<SyncRecord>, remote: Store, since: int) {
    && (forall r :: r in batch ==> r in Records(remote) && r.updatedMs > since)
    && (forall id :: id in remote && remote[id].updatedMs > since ==> remote[id] in batch)
  }

  ghost predicate ListsAll(batch: seq<SyncRecord>, remote: Store) {
    && (forall r :: r in batch ==> r in Records(remote))
    && (forall id :: id in remote ==> remote[id] in batch)
  }

  /** `local` is up to date with everything `remote` knew at `since`. */
  ghost predicate UpToDate(local: Store, remote: Store, since: int) {
    forall id :: id in remote && remote[id].updatedMs <= since ==> id in local && !SupersededBy(local[id], remote[id])
  }

  /** Merging the delta into an up-to-date store leaves the winners of both whole stores. */
  lemma DeltaHoldsBoth(local: Store, remote: Store, since: int, delta: seq<SyncRecord>)
    requires Keyed(local) && Keyed(remote)
    requires UpToDate(local, remote, since) && IsDelta(delta, remote, since)
    ensures HoldsWinners(MergeAll(local, delta), Records(local) + Records(remote))
  {
    var after := MergeAll(local, delta);
    StampOrderAll(local);
    assert HoldsWinners(local, Records(local));
    MergeAllHolds(local, Records(local), delta);
    forall r | r in Records(local) + Records(remote) ensures r.id in after && !SupersededBy(after[r.id], r) {
      if r !in Records(local) && r !in Elements(delta) {
        assert r == remote[r.id] && local[r.id] in Records(local);
        StampOrder(local[r.id], after[r.id], r);
        StampOrder(after[r.id], r, local[r.id]);
      }
    }
  }

  lemma StampOrderAll(local: Store)
    ensures forall id :: id in local ==> !SupersededBy(local[id], local[id])
  {
    forall id | id in local ensures !SupersededBy(local[id], local[id]) {
      StampOrder(local[id], local[id], local[id]);
    }
  }

  lemma FullHoldsBoth(local: Store, remote: Store, full: seq<SyncRecord>)
    requires Keyed(local) && Keyed(remote) && ListsAll(full, remote)
    ensures HoldsWinners(MergeAll(local, full), Records(local) + Records(remote))
  {
    StampOrderAll(local);
    assert HoldsWinners(local, Records(local));
    MergeAllHolds(local, Records(local), full);
    assert Records(local) + Elements(full) == Records(local) + Records(remote);
  }

  lemma {:induction false} MergeAllFrame(local: Store, batch: seq<SyncRecord>, id: string)
    requires forall r :: r in batch ==> r.id != id
    ensures id in MergeAll(local, batch) <==> id in local
    ensures id in local ==> MergeAll(local, batch)[id] == local[id]
    decreases |batch|
  {
    if batch == [] {
    } else {
      assert batch[0] in batch;
      MergeAllFrame(MergeOne(local, batch[0]), batch[1..], id);
    }
  }

  /** The delta, in any order, is as good as the whole store exactly for an up-to-date receiver. */
  lemma DeltaIsEnoughIff(local: Store, remote: Store, since: int, delta: seq<SyncRecord>, full: seq<SyncRecord>)
    requires Keyed(local) && Keyed(remote) && OneWinner(Records(local) + Records(remote))
    requires IsDelta(delta, remote, since) && ListsAll(full, remote)
    ensures MergeAll(local, delta) == MergeAll(local, full) <==> UpToDate(local, remote, since)
  {
    FullHoldsBoth(local, remote, full);
    if UpToDate(local, remote, since) {
      DeltaHoldsBoth(local, remote, since, delta);
      WinnersUnique(MergeAll(local, delta), MergeAll(local, full), Records(local) + Records(remote));
    } else {
      var id :| id in remote && remote[id].updatedMs <= since && !(id in local && !SupersededBy(local[id], remote[id]));
      assert remote[id] in Records(remote);
      MergeAllFrame(local, delta, id);
    }
  }

  /** One delta each way leaves both engines with the same store. */
  lemma {:induction false} ExchangeConverges(
    a: Store, b: Store, sinceA: int, sinceB: int, deltaA: seq<SyncRecord>, deltaB: seq<SyncRecord>)
    requires Keyed(a) && Keyed(b) && OneWinner(Records(a) + Records(b))
    requires UpToDate(a, b, sinceB) && UpToDate(b, a, sinceA)
    requires IsDelta(deltaA, a, sinceA) && IsDelta(deltaB, b, sinceB)
    ensures MergeAll(a, deltaB) == MergeAll(b, deltaA)
  {
    DeltaHoldsBoth(a, b, sinceB, deltaB);
    DeltaHoldsBoth(b, a, sinceA, deltaA);
    SameWinners(MergeAll(a, deltaB), Records(a) + Records(b), MergeAll(b, deltaA), Records(b) + Records(a));
  }

  /** A tombstone is not revived by live copies that are no newer than it. */
  lemma {:induction false} TombstoneHolds(local: Store, batch: seq<SyncRecord>, id: string)
    requires id in local && local[id].deleted
    requires forall r :: r in batch && r.id == id && !r.deleted ==> !SupersededBy(local[id], r)
    ensures id in MergeAll(local, batch) && MergeAll(local, batch)[id].deleted
    decreases |batch|
  {
    if batch == [] {
    } else {
      var next := MergeOne(local, batch[0]);
      assert batch[0] in batch;
      forall r | r in batch[1..] && r.id == id && !r.deleted ensures !SupersededBy(next[id], r) {
        StampOrder(local[id], next[id], r);
      }
      TombstoneHolds(next, batch[1..], id);
    }
  }

  // ---------------------------------------------------------------- counters

  function CountAll(local: Store, batch: seq<SyncRecord>, report: MergeReport): MergeReport
    decreases |batch|
  {
    if batch == [] then report
    else CountAll(MergeOne(local, batch[0]), batch[1..], Count(report, Takes(local, batch[0]), batch[0]))
  }

  /** Every record of the batch is counted once. */
  lemma {:induction false} CountsAddUp(local: Store, batch: seq<SyncRecord>, report: MergeReport)
    ensures Total(CountAll(local, batch, report)) == Total(report) + |batch|
    decreases |batch|
  {
    if batch == [] {
    } else {
      CountsAddUp(MergeOne(local, batch[0]), batch[1..], Count(report, Takes(local, batch[0]), batch[0]));
    }
  }

  /** Delivering records the store already covers changes nothing and counts as stale. */
  lemma {:induction false} RedeliveryIsStale(local: Store, batch: seq<SyncRecord>, report: MergeReport)
    requires forall r :: r in batch ==> r.id in local && !SupersededBy(local[r.id], r)
    ensures MergeAll(local, batch) == local
    ensures CountAll(local, batch, report) == report.(skippedStale := report.skippedStale + |batch|)
    decreases |batch|
  {
    if batch == [] {
    } else {
      assert batch[0] in batch;
      RedeliveryIsStale(local, batch[1..], Count(report, false, batch[0]));
    }
  }

  lemma {:induction false} MergeSnoc(local: Store, batch: seq<SyncRecord>, r: SyncRecord, report: MergeReport)
    ensures MergeAll(local, batch + [r]) == MergeOne(MergeAll(local, batch), r)
    ensures CountAll(local, batch + [r], report) ==
            Count(CountAll(local, batch, report), Takes(MergeAll(local, batch), r), r)
    decreases |batch|
  {
    var all := batch + [r];
    if batch == [] {
      assert all[0] == r && all[1..] == [];
    } else {
      assert all[0] == batch[0] && all[1..] == batch[1..] + [r];
      MergeSnoc(MergeOne(local, batch[0]), batch[1..], r, Count(report, Takes(local, batch[0]), batch[0]));
    }
  }

  /** Record `i` of the batch is new, or newer than the resident record when its turn comes. */
  ghost predicate TakenAt(local: Store, batch: seq<SyncRecord>, i: int)
    requires 0 <= i < |batch|
  {
    var now := MergeAll(local, batch[..i]);
    batch[i].id !in now || !NoNewer(batch[i], now[batch[i].id])
  }

  ghost function LiveTaken(local: Store, batch: seq<SyncRecord>): set<int> {
    set i | 0 <= i < |batch| && TakenAt(local, batch, i) && !batch[i].deleted
  }

  ghost function TombstonesTaken(local: Store, batch: seq<SyncRecord>): set<int> {
    set i | 0 <= i < |batch| && TakenAt(local, batch, i) && batch[i].deleted
  }

  lemma TakenOneMore(local: Store, batch: seq<SyncRecord>, r: SyncRecord)
    ensures var all, n := batch + [r], |batch|;
            && LiveTaken(local, all) ==
               LiveTaken(local, batch) + (if TakenAt(local, all, n) && !r.deleted then {n} else {})
            && TombstonesTaken(local, all) ==
               TombstonesTaken(local, batch) + (if TakenAt(local, all, n) && r.deleted then {n} else {})
  {
    var all := batch + [r];
    assert forall i :: 0 <= i < |batch| ==> all[..i] == batch[..i] && all[i] == batch[i];
  }

  /** The report counts the live records taken, the tombstones taken, and the rest. */
  ghost predicate Reports(local: Store, batch: seq<SyncRecord>, report: MergeReport) {
    && report.applied == |LiveTaken(local, batch)| && report.tombstonesApplied == |TombstonesTaken(local, batch)|
    && Total(report) == |batch|
  }

  lemma ReportCounts(local: Store, batch: seq<SyncRecord>)
    ensures Reports(local, batch, CountAll(local, batch, MergeReport(0, 0, 0)))
  {
    CountsAddUp(local, batch, MergeReport(0, 0, 0));
    TakenCounts(local, batch);
  }

  lemma {:induction false} TakenCounts(local: Store, batch: seq<SyncRecord>)
    ensures CountAll(local, batch, MergeReport(0, 0, 0)).applied == |LiveTaken(local, batch)|
    ensures CountAll(local, batch, MergeReport(0, 0, 0)).tombstonesApplied == |TombstonesTaken(local, batch)|
    decreases |batch|
  {
    if batch == [] {
    } else {
      var n := |batch| - 1;
      var before, r := batch[..n], batch[n];
      var now := MergeAll(local, before);
      assert batch == before + [r];
      TakenCounts(local, before);
      MergeSnoc(local, before, r, MergeReport(0, 0, 0));
      TakenOneMore(local, before, r);
      if r.id in now {
        NoNewerIff(r, now[r.id]);
      }
      assert Takes(now, r) <==> TakenAt(local, batch, n);
    }
  }

  /**
   `after` holds nothing older than what was in `local` or what the batch brought, by time and then by
   device, and nothing else.
   */
  ghost predicate Latest(local: Store, batch: seq<SyncRecord>, after: Store) {
    && (forall r :: r in batch ==> r.id in after && NoNewer(r, after[r.id]))
    && (forall id :: id in local ==> id in after && NoNewer(local[id], after[id]))
    && (forall id :: id in after ==> FromEither(local, batch, after[id], id))
  }

  lemma MergeKeepsLatest(local: Store, batch: seq<SyncRecord>)
    ensures Latest(local, batch, MergeAll(local, batch))
  {
    MergeGrows(local, batch);
    var after := MergeAll(local, batch);
    forall r | r in batch ensures NoNewer(r, after[r.id]) {
      NoNewerIff(r, after[r.id]);
    }
    forall id | id in local ensures NoNewer(local[id], after[id]) {
      NoNewerIff(local[id], after[id]);
    }
  }

  /** `after` holds nothing superseded by `local` or `batch`, and nothing from elsewhere. */
  ghost predicate Grown(local: Store, batch: seq<SyncRecord>, after: Store) {
    && (forall r :: r in batch ==> r.id in after && !SupersededBy(after[r.id], r))
    && (forall id :: id in local ==> id in after && !SupersededBy(after[id], local[id]))
    && (forall id :: id in after ==> FromEither(local, batch, after[id], id))
  }

  predicate FromEither(local: Store, batch: seq<SyncRecord>, r: SyncRecord, id: string) {
    (id in local && r == local[id]) || r in batch
  }

  lemma GrownCons(local: Store, batch: seq<SyncRecord>, after: Store)
    requires batch != [] && Grown(MergeOne(local, batch[0]), batch[1..], after)
    ensures Grown(local, batch, after)
  {
    GrowsOne(local, batch[0], after);
    forall r | r in batch ensures r.id in after && !SupersededBy(after[r.id], r) {
      if r != batch[0] {
        assert r in batch[1..];
      }
    }
    forall id | id in after ensures FromEither(local, batch, after[id], id) {
      assert FromEither(MergeOne(local, batch[0]), batch[1..], after[id], id);
      assert batch[0] in batch;
    }
  }

  lemma {:induction false} MergeGrows(local: Store, batch: seq<SyncRecord>)
    ensures Grown(local, batch, MergeAll(local, batch))
    decreases |batch|
  {
    if batch == [] {
      StampOrderAll(local);
    } else {
      MergeGrows(MergeOne(local, batch[0]), batch[1..]);
      GrownCons(local, batch, MergeAll(local, batch));
    }
  }

  lemma GrowsOne(local: Store, r: SyncRecord, after: Store)
    requires forall id :: id in MergeOne(local, r) ==> id in after && !SupersededBy(after[id], MergeOne(local, r)[id])
    ensures r.id in after && !SupersededBy(after[r.id], r)
    ensures forall id :: id in local ==> id in after && !SupersededBy(after[id], local[id])
  {
    var next := MergeOne(local, r);
    assert r.id in next && r.id in after;
    StampOrder(after[r.id], next[r.id], r);
    StampOrder(after[r.id], r, next[r.id]);
    StampOrder(next[r.id], after[r.id], r);
    forall id | id in local ensures id in after && !SupersededBy(after[id], local[id]) {
      assert id in next;
      if id == r.id {
        StampOrder(after[id], local[id], r);
        StampOrder(local[id], r, after[id]);
      }
    }
  }

  // -------------------------------------------------------------- the engine

  class SyncEngine {
    var local: Store

    constructor ()
      ensures local == map[] && Keyed(local)
    {
      local := map[];
    }

    method PutLocal(record: SyncRecord)
      modifies this
      ensures local == old(local)[record.id := record]
      ensures Keyed(old(local)) ==> Keyed(local)
    {
      local := local[record.id := record];
    }

    method MergeBatch(remote: seq<SyncRecord>) returns (report: MergeReport)
      modifies this
      ensures local == MergeAll(old(local), remote)
      ensures report == CountAll(old(local), remote, MergeReport(0, 0, 0))
      ensures Latest(old(local), remote, local) && Reports(old(local), remote, report)
    {
      report := MergeReport(0, 0, 0);
      MergeKeepsLatest(local, remote);
      ReportCounts(local, remote);
      var i := 0;
      while i < |remote|
        invariant 0 <= i <= |remote|
        invariant MergeAll(local, remote[i..]) == MergeAll(old(local), remote)
        invariant CountAll(local, remote[i..], report) == CountAll(old(local), remote, MergeReport(0, 0, 0))
      {
        var r := remote[i];
        assert remote[i..][0] == r && remote[i..][1..] == remote[i + 1..];
        if r.id !in local {
          if r.deleted {
            report := report.(tombstonesApplied := report.tombstonesApplied + 1);
          } else {
            report := report.(applied := report.applied + 1);
          }
          local := local[r.id := r];
        } else {
          var cur := local[r.id];
          if !SupersededBy(cur, r) && !SupersededBy(r, cur) {
            report := report.(skippedStale := report.skippedStale + 1);
          } else if SupersededBy(cur, r) {
            if r.deleted {
              report := report.(tombstonesApplied := report.tombstonesApplied + 1);
            } else {
              report := report.(applied := report.applied + 1);
            }
            local := local[r.id := r];
          } else {
            report := report.(skippedStale := report.skippedStale + 1);
          }
        }
        i := i + 1;
      }
    }

    /** In the order of the hash map, whatever it is. */
    method DeltaSince(sinceMs: int) returns (delta: seq<SyncRecord>)
      ensures IsDelta(delta, local, sinceMs)
      ensures Keyed(local) ==> Distinct(delta)
    {
      var ids := Keys(local);
      delta := [];
      var i := 0;
      while i < |ids|
        invariant 0 <= i <= |ids|
        invariant forall r :: r in delta ==> r in Records(local) && r.updatedMs > sinceMs
        invariant Keyed(local) ==> Distinct(delta) && forall r :: r in delta ==> r.id in ids[..i]
        invariant forall k :: 0 <= k < i && local[ids[k]].updatedMs > sinceMs ==> local[ids[k]] in delta
      {
        if local[ids[i]].updatedMs > sinceMs {
          delta := delta + [local[ids[i]]];
        }
        i := i + 1;
      }
    }

    method Live() returns (live: seq<SyncRecord>)
      ensures forall r :: r in live ==> r in Records(local) && !r.deleted
      ensures forall id :: id in local && !local[id].deleted ==> local[id] in live
      ensures Keyed(local) ==> Distinct(live)
    {
      var ids := Keys(local);
      live := [];
      var i := 0;
      while i < |ids|
        invariant 0 <= i <= |ids|
        invariant forall r :: r in live ==> r in Records(local) && !r.deleted
        invariant Keyed(local) ==> Distinct(live) && forall r :: r in live ==> r.id in ids[..i]
        invariant forall k :: 0 <= k < i && !local[ids[k]].deleted ==> local[ids[k]] in live
      {
        if !local[ids[i]].deleted {
          live := live + [local[ids[i]]];
        }
        i := i + 1;
      }
    }
  }
}
