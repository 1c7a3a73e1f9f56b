/** The hash-chained audit log (crates/igris-policy/src/lib.rs). */
module Audit {

  /** What goes into the hash of one entry; `at` is the time as RFC 3339 text. */
  datatype Hashed = Hashed(prevHash: nat, seqNo: nat, actor: string, action: string, target: string, ok: bool,
          at: string)

  datatype AuditEntry = AuditEntry(fields: Hashed, id: nat, hash: nat)

  /** The hash function is not looked into. */
  type HashFn = Hashed -> nat

  function EndHash(entries: seq<AuditEntry>): nat {
    if entries == [] then 0 else entries[|entries| - 1].hash
  }

  /** Every entry names its predecessor's hash and carries its own. */
  predicate Chained(h: HashFn, entries: seq<AuditEntry>) {
    forall i | 0 <= i < |entries| ::
      entries[i].fields.prevHash == EndHash(entries[..i]) && h(entries[i].fields) == entries[i].hash
  }

  ghost predicate Collision(h: HashFn, x: Hashed, y: Hashed) {
    x != y && h(x) == h(y)
  }

  lemma ChainedPrefix(h: HashFn, entries: seq<AuditEntry>, n: nat)
    requires Chained(h, entries) && n <= |entries|
    ensures Chained(h, entries[..n])
  {
  }

  ghost predicate Agree(a: seq<AuditEntry>, b: seq<AuditEntry>) {
    |a| == |b| && forall i :: 0 <= i < |a| ==> a[i].fields == b[i].fields && a[i].hash == b[i].hash
  }

  lemma AgreeOneMore(a: seq<AuditEntry>, b: seq<AuditEntry>)
    requires |a| == |b| > 0 && Agree(a[..|a| - 1], b[..|b| - 1])
    requires a[|a| - 1].fields == b[|b| - 1].fields && a[|a| - 1].hash == b[|b| - 1].hash
    ensures Agree(a, b)
  {
  }

  /**
   The end hash commits to the whole log: two verified logs of one length with one end hash agree
   on every hashed field of every entry, or a collision of the hash function has been found.
   */
  lemma {:induction false} EndHashCommits(h: HashFn, a: seq<AuditEntry>, b: seq<AuditEntry>) returns (at: nat)
    requires |a| == |b| && Chained(h, a) && Chained(h, b) && EndHash(a) == EndHash(b)
    ensures Agree(a, b) || (at < |a| && Collision(h, a[at].fields, b[at].fields))
    decreases |a|
  {
    at := 0;
    if a == [] {
    } else {
      var n := |a| - 1;
      assert a[n].fields.prevHash == EndHash(a[..n]) && b[n].fields.prevHash == EndHash(b[..n]);
      if a[n].fields != b[n].fields {
        assert h(a[n].fields) == h(b[n].fields);
        at := n;
      } else {
        ChainedPrefix(h, a, n);
        ChainedPrefix(h, b, n);
        at := EndHashCommits(h, a[..n], b[..n]);
        if Agree(a[..n], b[..n]) {
          AgreeOneMore(a, b);
        }
      }
    }
  }

  /** Something in the log hashes to the number an empty log ends with. */
  ghost predicate HitsZero(h: HashFn, log: seq<AuditEntry>, i: nat) {
    i < |log| && h(log[i].fields) == 0
  }

  /** An empty log and one that is not have the same end hash only through an entry that hashes to 0. */
  lemma EmptyEndHash(h: HashFn, log: seq<AuditEntry>)
    requires Chained(h, log) && log != [] && EndHash(log) == 0
    ensures HitsZero(h, log, |log| - 1)
  {
  }

  /**
   Whatever their lengths, two verified logs with one end hash agree, or a collision has been found at
   `i` and `j`, or an entry that hashes to 0.
   */
  lemma {:induction false} EndHashCommitsToLength(h: HashFn, a: seq<AuditEntry>, b: seq<AuditEntry>)
    returns (i: nat, j: nat)
    requires Chained(h, a) && Chained(h, b) && EndHash(a) == EndHash(b)
    ensures || Agree(a, b)
            || (i < |a| && j < |b| && Collision(h, a[i].fields, b[j].fields))
            || HitsZero(h, a, i) || HitsZero(h, b, j)
    decreases |a|
  {
    i, j := 0, 0;
    if a == [] && b == [] {
    } else if a == [] {
      j := |b| - 1;
      EmptyEndHash(h, b);
    } else if b == [] {
      i := |a| - 1;
      EmptyEndHash(h, a);
    } else {
      var m, n := |a| - 1, |b| - 1;
      assert a[m].fields.prevHash == EndHash(a[..m]) && b[n].fields.prevHash == EndHash(b[..n]);
      if a[m].fields != b[n].fields {
        assert h(a[m].fields) == h(b[n].fields);
        i, j := m, n;
      } else {
        ChainedPrefix(h, a, m);
        ChainedPrefix(h, b, n);
        i, j := EndHashCommitsToLength(h, a[..m], b[..n]);
        if Agree(a[..m], b[..n]) {
          AgreeOneMore(a, b);
        }
      }
    }
  }

  /** Cutting a log short moves the end hash, or needs a collision or an entry that hashes to 0. */
  lemma TruncationIsEvident(h: HashFn, log: seq<AuditEntry>, n: nat) returns (i: nat, j: nat)
    requires Chained(h, log) && n < |log|
    ensures || EndHash(log[..n]) != EndHash(log)
            || (i < n && j < |log| && Collision(h, log[i].fields, log[j].fields))
            || HitsZero(h, log, i) || HitsZero(h, log, j)
  {
    i, j := 0, 0;
    if EndHash(log[..n]) == EndHash(log) {
      ChainedPrefix(h, log, n);
      i, j := EndHashCommitsToLength(h, log[..n], log);
    }
  }

  /** Rewriting one entry of a verified log either breaks the chain, moves the end hash or needs a collision. */
  lemma RewriteIsEvident(h: HashFn, log: seq<AuditEntry>, i: nat, e: AuditEntry) returns (at: nat)
    requires i < |log| && Chained(h, log) && e.fields != log[i].fields
    ensures || !Chained(h, log[i := e])
            || EndHash(log[i := e]) != EndHash(log)
            || (at < |log| && Collision(h, log[at].fields, log[i := e][at].fields))
  {
    at := 0;
    if Chained(h, log[i := e]) && EndHash(log[i := e]) == EndHash(log) {
      at := EndHashCommits(h, log, log[i := e]);
      assert log[i := e][i] == e;
    }
  }

  lemma ChainedOneMore(h: HashFn, entries: seq<AuditEntry>, e: AuditEntry)
    requires Chained(h, entries) && e.fields.prevHash == EndHash(entries) && h(e.fields) == e.hash
    ensures Chained(h, entries + [e])
  {
  }

  class AuditLog {
    const h: HashFn
    var entries: seq<AuditEntry>

    constructor (h: HashFn)
      ensures this.h == h && entries == [] && Recorded()
    {
      this.h := h;
      entries := [];
    }

    /** What `record` alone produces. */
    ghost predicate Recorded()
      reads this
    {
      Chained(h, entries) && forall i :: 0 <= i < |entries| ==> entries[i].fields.seqNo == i
    }

    /** `id` and `at` are the fresh id and the clock's time as text. */
    method Record(actor: string, action: string, target: string, ok: bool, id: nat, at: string) returns (hash: nat)
      modifies this
      ensures var fields := Hashed(EndHash(old(entries)), |old(entries)|, actor, action, target, ok, at);
              entries == old(entries) + [AuditEntry(fields, id, hash)] && hash == h(fields)
      ensures old(Recorded()) ==> Recorded()
    {
      var fields := Hashed(EndHash(entries), |entries|, actor, action, target, ok, at);
      hash := h(fields);
      if Chained(h, entries) {
        ChainedOneMore(h, entries, AuditEntry(fields, id, hash));
      }
      entries := entries + [AuditEntry(fields, id, hash)];
    }

    method VerifyChain() returns (valid: bool)
      ensures valid <==> Chained(h, entries)
    {
      var prev := 0;
      var i := 0;
      while i < |entries|
        invariant 0 <= i <= |entries| && prev == EndHash(entries[..i])
        invariant forall k :: 0 <= k < i ==>
          entries[k].fields.prevHash == EndHash(entries[..k]) && h(entries[k].fields) == entries[k].hash
      {
        var e := entries[i];
        if e.fields.prevHash != prev {
          return false;
        }
        if h(e.fields) != e.hash {
          return false;
        }
        prev := e.hash;
        i := i + 1;
        assert entries[..i][i - 1] == e;
      }
      return true;
    }
  }
}
