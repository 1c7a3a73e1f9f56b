/** The bounded context compiler (crates/igris-context/src/lib.rs). */
module Context {
  import opened Collections
  import opened Memory
  import opened Text

  datatype ContextBundle = ContextBundle(items: seq<MemoryRecord>, budgetChars: nat, usedChars: nat)

  function Importance(r: MemoryRecord): real {
    r.importance
  }

  function Size(r: MemoryRecord): nat {
    ByteLen(r.content)
  }

  function TotalSize(rs: seq<MemoryRecord>): nat {
    if rs == [] then 0 else Size(rs[0]) + TotalSize(rs[1..])
  }

  /** Drop every record whose id is that of the record kept just before it. */
  function DedupAdjacent(rs: seq<MemoryRecord>): seq<MemoryRecord>
    decreases |rs|
  {
    if |rs| <= 1 then rs
    else if rs[0].id == rs[1].id then DedupAdjacent([rs[0]] + rs[2..])
    else [rs[0]] + DedupAdjacent(rs[1..])
  }

  ghost predicate DistinctIds(rs: seq<MemoryRecord>) {
    forall i, j :: 0 <= i < j < |rs| ==> rs[i].id != rs[j].id
  }

  // ------------------------------------------------------------------ greedy

  function Greedy(rs: seq<MemoryRecord>, room: nat): seq<MemoryRecord> {
    if rs == [] then []
    else if Size(rs[0]) <= room then [rs[0]] + Greedy(rs[1..], room - Size(rs[0]))
    else Greedy(rs[1..], room)
  }

  function LeftOut(rs: seq<MemoryRecord>, room: nat): seq<MemoryRecord> {
    if rs == [] then []
    else if Size(rs[0]) <= room then LeftOut(rs[1..], room - Size(rs[0]))
    else [rs[0]] + LeftOut(rs[1..], room)
  }

  /** `part` is `whole` with some elements dropped. */
  ghost predicate Subsequence(part: seq<MemoryRecord>, whole: seq<MemoryRecord>) {
    if part == [] then true
    else whole != [] && (if part[0] == whole[0] then Subsequence(part[1..], whole[1..]) || Subsequence(part, whole[1..])
                         else Subsequence(part, whole[1..]))
  }

  lemma TotalSizeCons(r: MemoryRecord, rs: seq<MemoryRecord>)
    ensures TotalSize([r] + rs) == Size(r) + TotalSize(rs)
  {
  }

  /** The selection is maximal: it stays within the room and nothing left out still fits. */
  lemma {:induction false} GreedyIsMaximal(rs: seq<MemoryRecord>, room: nat)
    ensures TotalSize(Greedy(rs, room)) <= room
    ensures forall r :: r in LeftOut(rs, room) ==> TotalSize(Greedy(rs, room)) + Size(r) > room
    decreases |rs|
  {
    if rs == [] {
    } else {
      if Size(rs[0]) <= room {
        GreedyIsMaximal(rs[1..], room - Size(rs[0]));
        TotalSizeCons(rs[0], Greedy(rs[1..], room - Size(rs[0])));
      } else {
        GreedyIsMaximal(rs[1..], room);
      }
    }
  }

  lemma SplitCons(r: MemoryRecord, taken: seq<MemoryRecord>, left: seq<MemoryRecord>, rs: seq<MemoryRecord>)
    requires multiset(taken) + multiset(left) == multiset(rs)
    ensures multiset([r] + taken) + multiset(left) == multiset([r] + rs)
    ensures multiset(taken) + multiset([r] + left) == multiset([r] + rs)
  {
    assert multiset([r] + taken) == multiset([r]) + multiset(taken);
    assert multiset([r] + left) == multiset([r]) + multiset(left);
    assert multiset([r] + rs) == multiset([r]) + multiset(rs);
  }

  /** Every record is either taken or left out. */
  lemma {:induction false} GreedySplits(rs: seq<MemoryRecord>, room: nat)
    ensures multiset(Greedy(rs, room)) + multiset(LeftOut(rs, room)) == multiset(rs)
    decreases |rs|
  {
    if rs == [] {
    } else {
      var rest := if Size(rs[0]) <= room then room - Size(rs[0]) else room;
      GreedySplits(rs[1..], rest);
      SplitCons(rs[0], Greedy(rs[1..], rest), LeftOut(rs[1..], rest), rs[1..]);
      assert [rs[0]] + rs[1..] == rs;
    }
  }

  lemma {:induction false} GreedyKeepsOrder(rs: seq<MemoryRecord>, room: nat)
    ensures Subsequence(Greedy(rs, room), rs)
    decreases |rs|
  {
    if rs == [] {
    } else {
      if Size(rs[0]) <= room {
        GreedyKeepsOrder(rs[1..], room - Size(rs[0]));
        var taken := [rs[0]] + Greedy(rs[1..], room - Size(rs[0]));
        assert taken[1..] == Greedy(rs[1..], room - Size(rs[0]));
      } else {
        GreedyKeepsOrder(rs[1..], room);
      }
    }
  }

  /** A record is taken exactly if it fits beside what was taken before it. */
  lemma {:induction false} GreedyTakesWhatFits(before: seq<MemoryRecord>, r: MemoryRecord, room: nat)
    ensures var used := TotalSize(Greedy(before, room));
            Greedy(before + [r], room) == Greedy(before, room) + (if used + Size(r) <= room then [r] else [])
    decreases |before|
  {
    if before == [] {
      assert [r][1..] == [] && [] + [r] == [r];
    } else {
      assert (before + [r])[1..] == before[1..] + [r];
      if Size(before[0]) <= room {
        var rest := room - Size(before[0]);
        GreedyTakesWhatFits(before[1..], r, rest);
        var taken := [before[0]] + Greedy(before[1..], rest);
        assert taken[1..] == Greedy(before[1..], rest);
      } else {
        GreedyTakesWhatFits(before[1..], r, room);
      }
    }
  }

  // ----------------------------------------------------------- deduplication

  /** Records of one id stand next to each other. */
  ghost predicate Grouped(rs: seq<MemoryRecord>) {
    forall i, j, k :: 0 <= i < j < k < |rs| && rs[i].id == rs[k].id ==> rs[j].id == rs[i].id
  }

  ghost predicate HasId(rs: seq<MemoryRecord>, id: Uuid) {
    exists r :: r in rs && r.id == id
  }

  lemma HasIdCons(r: MemoryRecord, rs: seq<MemoryRecord>, id: nat)
    ensures HasId([r] + rs, id) <==> r.id == id || HasId(rs, id)
  {
  }

  /** No id gets lost. */
  lemma {:induction false} DedupKeepsIds(rs: seq<MemoryRecord>, id: nat)
    ensures HasId(DedupAdjacent(rs), id) <==> HasId(rs, id)
    decreases |rs|
  {
    if |rs| <= 1 {
    } else {
      assert rs == [rs[0]] + rs[1..];
      HasIdCons(rs[0], rs[1..], id);
      if rs[0].id == rs[1].id {
        DedupKeepsIds([rs[0]] + rs[2..], id);
        assert rs[1..] == [rs[1]] + rs[2..];
        HasIdCons(rs[1], rs[2..], id);
        HasIdCons(rs[0], rs[2..], id);
      } else {
        DedupKeepsIds(rs[1..], id);
        HasIdCons(rs[0], DedupAdjacent(rs[1..]), id);
      }
    }
  }

  /** Positions at which a new id begins. */
  ghost predicate Begins(rs: seq<MemoryRecord>, i: int) {
    0 <= i < |rs| && (i == 0 || rs[i - 1].id != rs[i].id)
  }

  /** `at` are positions of `rs` in order, among them every one at which a new id begins and no other. */
  ghost predicate AreBeginnings(at: seq<int>, rs: seq<MemoryRecord>) {
    && (forall k :: 0 <= k < |at| ==> Begins(rs, at[k]))
    && (forall k, l :: 0 <= k < l < |at| ==> at[k] < at[l])
    && forall i :: Begins(rs, i) ==> i in at
  }

  /** `part` are the records of `rs` that stand at `at`. */
  ghost predicate TakenAt(part: seq<MemoryRecord>, rs: seq<MemoryRecord>, at: seq<int>) {
    |part| == |at| && forall k :: 0 <= k < |at| ==> 0 <= at[k] < |rs| && part[k] == rs[at[k]]
  }

  /** Where the records that are kept stand: the first of each stretch of equal ids. */
  function Beginnings(rs: seq<MemoryRecord>): seq<int> {
    if rs == [] then []
    else
      var n := |rs| - 1;
      Beginnings(rs[..n]) + if n == 0 || rs[n - 1].id != rs[n].id then [n] else []
  }

  lemma BeginsOneMore(rs: seq<MemoryRecord>, i: int)
    requires rs != []
    ensures var n := |rs| - 1;
            Begins(rs, i) <==> if i == n then n == 0 || rs[n - 1].id != rs[n].id else Begins(rs[..n], i)
  {
  }

  lemma SameBeginnings(at: seq<int>, rs: seq<MemoryRecord>, rs': seq<MemoryRecord>)
    requires AreBeginnings(at, rs) && forall i :: Begins(rs, i) <==> Begins(rs', i)
    ensures AreBeginnings(at, rs')
  {
    forall k | 0 <= k < |at| ensures Begins(rs', at[k]) {
      assert Begins(rs, at[k]);
    }
  }

  lemma NewBeginning(at: seq<int>, rs: seq<MemoryRecord>, rs': seq<MemoryRecord>, n: int)
    requires AreBeginnings(at, rs) && (forall i :: Begins(rs', i) <==> Begins(rs, i) || i == n)
    requires n >= |rs|
    ensures AreBeginnings(at + [n], rs')
  {
    var more := at + [n];
    forall k | 0 <= k < |more| ensures Begins(rs', more[k]) {
      assert k < |at| ==> Begins(rs, at[k]);
    }
    forall k, l | 0 <= k < l < |more| ensures more[k] < more[l] {
      assert Begins(rs, at[k]);
    }
  }

  lemma {:induction false} BeginningsAre(rs: seq<MemoryRecord>)
    ensures AreBeginnings(Beginnings(rs), rs)
    decreases |rs|
  {
    if rs == [] {
    } else {
      var n := |rs| - 1;
      BeginningsAre(rs[..n]);
      forall i ensures Begins(rs, i) <==> if i == n then n == 0 || rs[n - 1].id != rs[n].id else Begins(rs[..n], i) {
        BeginsOneMore(rs, i);
      }
      if n == 0 || rs[n - 1].id != rs[n].id {
        NewBeginning(Beginnings(rs[..n]), rs[..n], rs, n);
      } else {
        SameBeginnings(Beginnings(rs[..n]), rs[..n], rs);
      }
    }
  }

  lemma {:induction false} DedupSnoc(rs: seq<MemoryRecord>, r: MemoryRecord)
    ensures DedupAdjacent(rs + [r]) ==
            DedupAdjacent(rs) + if rs == [] || rs[|rs| - 1].id != r.id then [r] else []
    decreases |rs|
  {
    var all := rs + [r];
    if rs == [] {
      assert all == [r];
    } else if |rs| == 1 {
      assert all == [rs[0], r] && all[1..] == [r] && all[2..] == [];
    } else if rs[0].id == rs[1].id {
      assert all[2..] == rs[2..] + [r];
      assert [all[0]] + all[2..] == ([rs[0]] + rs[2..]) + [r];
      DedupSnoc([rs[0]] + rs[2..], r);
    } else {
      assert all[1..] == rs[1..] + [r];
      DedupSnoc(rs[1..], r);
    }
  }

  lemma TakenOneMore(part: seq<MemoryRecord>, rs: seq<MemoryRecord>, at: seq<int>)
    requires rs != [] && TakenAt(part, rs[..|rs| - 1], at)
    ensures TakenAt(part, rs, at) && TakenAt(part + [rs[|rs| - 1]], rs, at + [|rs| - 1])
  {
    var n := |rs| - 1;
    forall k | 0 <= k < |at| ensures 0 <= at[k] < |rs| && part[k] == rs[at[k]] {
      assert part[k] == rs[..n][at[k]];
    }
  }

  lemma DedupTakesOneMore(rs: seq<MemoryRecord>)
    requires rs != []
    requires var n := |rs| - 1;
             && TakenAt(DedupAdjacent(rs[..n]), rs[..n], Beginnings(rs[..n]))
             && DedupAdjacent(rs) ==
                DedupAdjacent(rs[..n]) + if n == 0 || rs[n - 1].id != rs[n].id then [rs[n]] else []
    ensures TakenAt(DedupAdjacent(rs), rs, Beginnings(rs))
  {
    var n := |rs| - 1;
    TakenOneMore(DedupAdjacent(rs[..n]), rs, Beginnings(rs[..n]));
    assert Beginnings(rs) == Beginnings(rs[..n]) + if n == 0 || rs[n - 1].id != rs[n].id then [n] else [];
  }

  lemma {:induction false} DedupIsTaken(rs: seq<MemoryRecord>)
    ensures TakenAt(DedupAdjacent(rs), rs, Beginnings(rs))
    decreases |rs|
  {
    if rs == [] {
    } else {
      var n := |rs| - 1;
      DedupIsTaken(rs[..n]);
      DedupSnoc(rs[..n], rs[n]);
      assert rs == rs[..n] + [rs[n]];
      DedupTakesOneMore(rs);
    }
  }

  /** Of each stretch of equal ids the first record is kept, in order. */
  lemma DedupKeepsFirsts(rs: seq<MemoryRecord>)
    ensures TakenAt(DedupAdjacent(rs), rs, Beginnings(rs)) && AreBeginnings(Beginnings(rs), rs)
  {
    DedupIsTaken(rs);
    BeginningsAre(rs);
  }

  lemma {:induction false} DedupOfDistinct(rs: seq<MemoryRecord>)
    requires DistinctIds(rs)
    ensures DedupAdjacent(rs) == rs
    decreases |rs|
  {
    if |rs| <= 1 {
    } else {
      DedupOfDistinct(rs[1..]);
    }
  }

  /** Dropping adjacent repeats removes every repeated id exactly when equal ids stand together. */
  lemma {:induction false} DedupCompleteIffGrouped(rs: seq<MemoryRecord>)
    ensures DistinctIds(DedupAdjacent(rs)) <==> Grouped(rs)
    decreases |rs|
  {
    if |rs| <= 1 {
    } else {
      if rs[0].id == rs[1].id {
        DedupCompleteIffGrouped([rs[0]] + rs[2..]);
        GroupedWithoutRepeat(rs);
      } else {
        DedupCompleteIffGrouped(rs[1..]);
        DedupKeepsIds(rs[1..], rs[0].id);
        GroupedWithNewHead(rs);
        DistinctIdsCons(rs[0], DedupAdjacent(rs[1..]));
      }
    }
  }

  lemma DistinctIdsCons(r: MemoryRecord, rs: seq<MemoryRecord>)
    ensures DistinctIds([r] + rs) <==> DistinctIds(rs) && !HasId(rs, r.id)
  {
    var t := [r] + rs;
    if DistinctIds(t) {
      forall i, j | 0 <= i < j < |rs| ensures rs[i].id != rs[j].id {
        assert t[i + 1] == rs[i] && t[j + 1] == rs[j];
      }
      forall s | s in rs ensures s.id != r.id {
        var i :| 0 <= i < |rs| && rs[i] == s;
        assert t[0] == r && t[i + 1] == s;
      }
    }
  }

  lemma GroupedWithoutRepeat(rs: seq<MemoryRecord>)
    requires |rs| > 1 && rs[0].id == rs[1].id
    ensures Grouped(rs) <==> Grouped([rs[0]] + rs[2..])
  {
    var next := [rs[0]] + rs[2..];
    assert forall i :: 1 <= i < |next| ==> next[i] == rs[i + 1];
    if Grouped(next) {
      forall i, j, k | 0 <= i < j < k < |rs| && rs[i].id == rs[k].id ensures rs[j].id == rs[i].id {
        var i', j', k' := if i == 0 then 0 else i - 1, j - 1, k - 1;
        assert next[i'].id == rs[i].id && next[j'].id == rs[j].id && next[k'].id == rs[k].id;
      }
    }
    if Grouped(rs) {
      forall i, j, k | 0 <= i < j < k < |next| && next[i].id == next[k].id ensures next[j].id == next[i].id {
        assert rs[i + 1].id == next[i].id && rs[j + 1] == next[j] && rs[k + 1] == next[k];
      }
    }
  }

  lemma GroupedWithNewHead(rs: seq<MemoryRecord>)
    requires |rs| > 1 && rs[0].id != rs[1].id
    ensures Grouped(rs) <==> Grouped(rs[1..]) && !HasId(rs[1..], rs[0].id)
  {
  }

  // --------------------------------------------- repeated ids in what is compiled

  lemma {:induction false} GreedyKeepsDistinctIds(rs: seq<MemoryRecord>, room: nat)
    requires DistinctIds(rs)
    ensures DistinctIds(Greedy(rs, room)) && forall r :: r in Greedy(rs, room) ==> r in rs
    decreases |rs|
  {
    if rs == [] {
    } else {
      var rest := if Size(rs[0]) <= room then room - Size(rs[0]) else room;
      GreedyKeepsDistinctIds(rs[1..], rest);
      DistinctIdsCons(rs[0], rs[1..]);
      assert rs == [rs[0]] + rs[1..];
      DistinctIdsCons(rs[0], Greedy(rs[1..], rest));
    }
  }

  lemma {:induction false} GreedyTakesAll(rs: seq<MemoryRecord>, room: nat)
    requires TotalSize(rs) <= room
    ensures Greedy(rs, room) == rs
    decreases |rs|
  {
    if rs == [] {
    } else {
      GreedyTakesAll(rs[1..], room - Size(rs[0]));
    }
  }

  /** What `compile` selects. */
  function Compiled(records: seq<MemoryRecord>, budgetChars: nat): seq<MemoryRecord> {
    Greedy(DedupAdjacent(Sort(records, Importance)), budgetChars)
  }

  /** No budget lets a repeated id through exactly when the sort brings equal ids together. */
  lemma NeverRepeatsIffGrouped(records: seq<MemoryRecord>)
    ensures (forall budget: nat :: DistinctIds(Compiled(records, budget))) <==> Grouped(Sort(records, Importance))
  {
    var sorted := DedupAdjacent(Sort(records, Importance));
    DedupCompleteIffGrouped(Sort(records, Importance));
    GreedyTakesAll(sorted, TotalSize(sorted));
    if DistinctIds(sorted) {
      forall budget: nat ensures DistinctIds(Compiled(records, budget)) {
        GreedyKeepsDistinctIds(sorted, budget);
      }
    }
    assert Compiled(records, TotalSize(sorted)) == sorted;
  }

  /**
   Two copies of a record with another ranked between them: with room for all three both copies are
   selected, and only a budget too small for the second copy keeps it out.
   */
  lemma RepeatedIdSelected(a: MemoryRecord, b: MemoryRecord, c: MemoryRecord, budgetChars: nat)
    requires a.id == c.id != b.id && a.importance > b.importance > c.importance
    requires Size(a) + Size(b) <= budgetChars
    ensures !Grouped(Sort([a, b, c], Importance))
    ensures var items := Compiled([a, b, c], budgetChars);
            && items == (if TotalSize([a, b, c]) <= budgetChars then [a, b, c] else [a, b])
            && (DistinctIds(items) <==> budgetChars < TotalSize([a, b, c]))
  {
    SortOfThree(a, b, c);
    var rs := [a, b, c];
    assert rs[0].id == rs[2].id && rs[1].id != rs[0].id;
    assert rs[1..] == [b, c] && [b, c][1..] == [c] && [c][1..] == [];
    assert DedupAdjacent(rs) == rs by {
      assert DedupAdjacent([b, c]) == [b] + DedupAdjacent([c]);
    }
    assert TotalSize(rs) == Size(a) + Size(b) + Size(c) by {
      assert TotalSize([b, c]) == Size(b) + TotalSize([c]);
    }
    var room := budgetChars - Size(a);
    assert Greedy(rs, budgetChars) == [a] + Greedy([b, c], room);
    assert Greedy([b, c], room) == [b] + Greedy([c], room - Size(b));
    assert Greedy([c], room - Size(b)) == if Size(c) <= room - Size(b) then [c] else [];
    assert [a] + ([b] + [c]) == [a, b, c] && [a] + ([b] + []) == [a, b];
  }

  lemma SortOfThree(a: MemoryRecord, b: MemoryRecord, c: MemoryRecord)
    requires a.importance > b.importance > c.importance
    ensures Sort([a, b, c], Importance) == [a, b, c]
  {
    assert [a, b, c][1..] == [b, c] && [b, c][1..] == [c] && [c][1..] == [];
    assert Sort([c], Importance) == [c];
    assert Insert(b, [c], Importance) == [b, c];
  }

  // ------------------------------------------------------------- the program

  /** The texts of the items, one after the other. */
  function AllText(rs: seq<MemoryRecord>): string {
    if rs == [] then "" else rs[0].content + AllText(rs[1..])
  }

  lemma {:induction false} TotalSizeIsBytes(rs: seq<MemoryRecord>)
    ensures TotalSize(rs) == ByteLen(AllText(rs))
    decreases |rs|
  {
    if rs == [] {
    } else {
      TotalSizeIsBytes(rs[1..]);
      ByteLenSplit(rs[0].content, AllText(rs[1..]));
    }
  }

  lemma {:induction false} SubsequenceDescends(part: seq<MemoryRecord>, whole: seq<MemoryRecord>)
    requires Subsequence(part, whole) && Descending(whole, Importance)
    ensures Descending(part, Importance) && forall r :: r in part ==> r in whole
    decreases |whole|
  {
    if part == [] {
    } else if part[0] == whole[0] && Subsequence(part[1..], whole[1..]) {
      SubsequenceDescends(part[1..], whole[1..]);
      assert part == [part[0]] + part[1..];
      forall i | 0 < i < |part| ensures Importance(part[0]) >= Importance(part[i]) {
        assert part[i] == part[1..][i - 1] && part[i] in part[1..] && part[i] in whole[1..];
      }
    } else {
      SubsequenceDescends(part, whole[1..]);
    }
  }

  /** The items are ranked by importance, whatever was in the records. */
  lemma CompiledDescends(records: seq<MemoryRecord>, budgetChars: nat)
    ensures forall i, j :: 0 <= i < j < |Compiled(records, budgetChars)| ==>
              Compiled(records, budgetChars)[i].importance >= Compiled(records, budgetChars)[j].importance
  {
    var sorted := Sort(records, Importance);
    SortSorts(records, Importance);
    DedupKeepsFirsts(sorted);
    var at, kept := Beginnings(sorted), DedupAdjacent(sorted);
    assert Descending(kept, Importance) by {
      forall k, l | 0 <= k < l < |kept| ensures Importance(kept[k]) >= Importance(kept[l]) {
        assert kept[k] == sorted[at[k]] && kept[l] == sorted[at[l]] && at[k] < at[l];
      }
    }
    GreedyKeepsOrder(kept, budgetChars);
    SubsequenceDescends(Compiled(records, budgetChars), kept);
  }

  method Compile(records: seq<MemoryRecord>, budgetChars: nat) returns (b: ContextBundle)
    ensures b == ContextBundle(Compiled(records, budgetChars), budgetChars, TotalSize(b.items))
    ensures b.usedChars == ByteLen(AllText(b.items)) <= budgetChars
    ensures forall i, j :: 0 <= i < j < |b.items| ==> b.items[i].importance >= b.items[j].importance
    ensures DistinctIds(records) ==>
              var order := Sort(records, Importance);
              && Subsequence(b.items, order)
              && multiset(b.items) + multiset(LeftOut(order, budgetChars)) == multiset(records)
              && forall r :: r in LeftOut(order, budgetChars) ==> b.usedChars + ByteLen(r.content) > budgetChars
  {
    var sorted := DedupAdjacent(Sort(records, Importance));
    var used, items := 0, [];
    var i := 0;
    while i < |sorted|
      invariant 0 <= i <= |sorted|
      invariant items == Greedy(sorted[..i], budgetChars) && used == TotalSize(items) <= budgetChars
    {
      var r := sorted[i];
      var size := Size(r);
      GreedyTakesWhatFits(sorted[..i], r, budgetChars);
      assert sorted[..i + 1] == sorted[..i] + [r];
      i := i + 1;
      if used + size > budgetChars {
        continue;
      }
      TotalSizeOneMore(items, r);
      used := used + size;
      items := items + [r];
    }
    assert sorted[..|sorted|] == sorted;
    b := ContextBundle(items, budgetChars, used);
    GreedyIsMaximal(sorted, budgetChars);
    GreedyKeepsOrder(sorted, budgetChars);
    TotalSizeIsBytes(items);
    CompiledDescends(records, budgetChars);
    if DistinctIds(records) {
      DistinctSplits(records, budgetChars);
    }
  }

  /** For distinct ids what is selected and what is left out are the records. */
  lemma DistinctSplits(records: seq<MemoryRecord>, budgetChars: nat)
    requires DistinctIds(records)
    ensures var order := Sort(records, Importance);
            && DedupAdjacent(order) == order
            && multiset(Greedy(order, budgetChars)) + multiset(LeftOut(order, budgetChars)) == multiset(records)
  {
    var order := Sort(records, Importance);
    SortKeepsDistinctIds(records);
    DedupOfDistinct(order);
    GreedySplits(order, budgetChars);
    SortSorts(records, Importance);
  }

  lemma {:induction false} TotalSizeOneMore(rs: seq<MemoryRecord>, r: MemoryRecord)
    ensures TotalSize(rs + [r]) == TotalSize(rs) + Size(r)
    decreases |rs|
  {
    if rs == [] {
      assert [] + [r] == [r] && [r][1..] == [];
    } else {
      assert (rs + [r])[1..] == rs[1..] + [r];
      TotalSizeOneMore(rs[1..], r);
    }
  }

  lemma {:induction false} InsertKeepsDistinctIds(x: MemoryRecord, rs: seq<MemoryRecord>)
    requires DistinctIds(rs) && forall r :: r in rs ==> r.id != x.id
    ensures DistinctIds(Insert(x, rs, Importance))
    decreases |rs|
  {
    if rs == [] || Importance(rs[0]) <= Importance(x) {
      DistinctIdsCons(x, rs);
    } else {
      InsertKeepsDistinctIds(x, rs[1..]);
      InsertPermutes(x, rs[1..], Importance);
      var rest := Insert(x, rs[1..], Importance);
      forall r | r in rest ensures r.id != rs[0].id {
        assert r in multiset(rest);
        assert r == x || r in rs[1..];
      }
      DistinctIdsCons(rs[0], rest);
    }
  }

  lemma {:induction false} SortKeepsDistinctIds(rs: seq<MemoryRecord>)
    requires DistinctIds(rs)
    ensures DistinctIds(Sort(rs, Importance))
    decreases |rs|
  {
    if rs == [] {
    } else {
      SortKeepsDistinctIds(rs[1..]);
      SortKeepsElements(rs[1..], Importance);
      InsertKeepsDistinctIds(rs[0], Sort(rs[1..], Importance));
    }
  }
}
