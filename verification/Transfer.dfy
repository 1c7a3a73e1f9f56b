/** Chunked file transfer sessions (crates/igris-device/src/transfer.rs). */
module Transfer {
  import opened Collections

  const CHUNK_SIZE: nat := 1024 * 1024
  const SESSION_TTL: nat := 600_000
  const PENDING_TTL: nat := 120_000

  // -------------------------------------------------------- one file's chunks

  datatype FileSpec = FileSpec(name: string, size: nat, checksum: Option<string>)

  datatype Progress = Progress(spec: FileSpec, token: string, receivedBytes: nat, confirmed: seq<bool>)

  function ChunkCount(size: nat): nat {
    if size == 0 then 1 else (size + CHUNK_SIZE - 1) / CHUNK_SIZE
  }

  /** The chunks are the fewest pieces of one mebibyte that hold the file, and one for an empty file. */
  lemma ChunksHoldFile(size: nat)
    ensures ChunkCount(size) >= 1 && size <= ChunkCount(size) * 1048576
    ensures ChunkCount(size) > 1 ==> (ChunkCount(size) - 1) * 1048576 < size
  {
  }

  function NewProgress(spec: FileSpec, token: string): Progress {
    Progress(spec, token, 0, seq(ChunkCount(spec.size), _ => false))
  }

  function Min(a: nat, b: nat): nat {
    if a <= b then a else b
  }

  function Noted(p: Progress, n: nat): Progress {
    var received := p.receivedBytes + n;
    var done := Min(received / CHUNK_SIZE, |p.confirmed|);
    p.(receivedBytes := received,
       confirmed := seq(|p.confirmed|, i requires 0 <= i < |p.confirmed| =>
                          i < done || received >= p.spec.size || p.confirmed[i]))
  }

  function MissingFrom(confirmed: seq<bool>, i: nat): seq<nat>
    requires i <= |confirmed|
    decreases |confirmed| - i
  {
    if i == |confirmed| then []
    else (if confirmed[i] then [] else [i]) + MissingFrom(confirmed, i + 1)
  }

  function Missing(p: Progress): seq<nat> {
    MissingFrom(p.confirmed, 0)
  }

  /** The bytes that complete chunk `i` have arrived. */
  predicate Arrived(received: nat, size: nat, i: nat) {
    received >= Min((i + 1) * CHUNK_SIZE, size)
  }

  /** Never a chunk confirmed before its bytes are in. */
  predicate Sound(p: Progress) {
    && |p.confirmed| == ChunkCount(p.spec.size)
    && forall i | 0 <= i < |p.confirmed| :: p.confirmed[i] ==> Arrived(p.receivedBytes, p.spec.size, i)
  }

  /** A chunk is confirmed exactly when its bytes are in. */
  predicate Exact(p: Progress) {
    && |p.confirmed| == ChunkCount(p.spec.size)
    && forall i | 0 <= i < |p.confirmed| :: p.confirmed[i] <==> Arrived(p.receivedBytes, p.spec.size, i)
  }

  lemma NewIsSound(spec: FileSpec, token: string)
    ensures Sound(NewProgress(spec, token))
    ensures Exact(NewProgress(spec, token)) <==> spec.size > 0
  {
    var p := NewProgress(spec, token);
    if spec.size == 0 {
      assert Arrived(0, 0, 0) && !p.confirmed[0];
    }
  }

  lemma WholeChunks(received: nat, i: nat)
    ensures i < received / CHUNK_SIZE <==> (i + 1) * CHUNK_SIZE <= received
  {
  }

  /** Noting bytes brings the bits in step with the byte count, whatever was confirmed before. */
  lemma NotedIsExact(p: Progress, n: nat)
    requires Sound(p)
    ensures Exact(Noted(p, n))
  {
  }

  function NotedAll(p: Progress, uploads: seq<nat>): Progress
    decreases |uploads|
  {
    if uploads == [] then p else NotedAll(Noted(p, uploads[0]), uploads[1..])
  }

  function Sum(ns: seq<nat>): nat {
    if ns == [] then 0 else ns[0] + Sum(ns[1..])
  }

  lemma SameCountSameBits(p: Progress, q: Progress)
    requires Exact(p) && Exact(q) && p.spec == q.spec && p.receivedBytes == q.receivedBytes
    ensures p.confirmed == q.confirmed
  {
  }

  /** However an upload is cut into pieces, one upload of the sum leaves the same progress. */
  lemma {:induction false} SplittingIsFree(p: Progress, uploads: seq<nat>)
    requires Sound(p) && uploads != []
    ensures NotedAll(p, uploads) == Noted(p, Sum(uploads)) && Exact(NotedAll(p, uploads))
    decreases |uploads|
  {
    var q := Noted(p, uploads[0]);
    NotedIsExact(p, uploads[0]);
    NotedIsExact(p, Sum(uploads));
    if |uploads| == 1 {
      assert uploads[1..] == [];
    } else {
      SplittingIsFree(q, uploads[1..]);
      SameCountSameBits(Noted(p, Sum(uploads)), NotedAll(p, uploads));
    }
  }

  function Upto(from: nat, to: nat): seq<nat>
    decreases if from < to then to - from else 0
  {
    if from >= to then [] else [from] + Upto(from + 1, to)
  }

  lemma {:induction false} MissingIsSuffix(confirmed: seq<bool>, k: nat, i: nat)
    requires k <= |confirmed| && i <= |confirmed|
    requires forall j :: 0 <= j < |confirmed| ==> (confirmed[j] <==> j < k)
    ensures MissingFrom(confirmed, i) == Upto(if i <= k then k else i, |confirmed|)
    decreases |confirmed| - i
  {
    if i == |confirmed| {
    } else {
      MissingIsSuffix(confirmed, k, i + 1);
    }
  }

  function FirstMissing(received: nat, size: nat): nat {
    if received >= size then ChunkCount(size) else received / CHUNK_SIZE
  }

  /** The resume list is every chunk from the first incomplete one on; it is empty once all bytes are in. */
  lemma ResumeIsSuffix(p: Progress)
    requires Exact(p)
    ensures FirstMissing(p.receivedBytes, p.spec.size) <= ChunkCount(p.spec.size)
    ensures Missing(p) == Upto(FirstMissing(p.receivedBytes, p.spec.size), ChunkCount(p.spec.size))
    ensures Missing(p) == [] <==> p.receivedBytes >= p.spec.size
  {
    var k := FirstMissing(p.receivedBytes, p.spec.size);
    forall j | 0 <= j < |p.confirmed| ensures p.confirmed[j] <==> j < k {
      WholeChunks(p.receivedBytes, j);
    }
    MissingIsSuffix(p.confirmed, k, 0);
  }

  /** The bitset in place. */
  class FileProgress {
    const spec: FileSpec
    const token: string
    var receivedBytes: nat
    const confirmedChunks: array<bool>

    constructor (spec: FileSpec, token: string)
      ensures Now() == NewProgress(spec, token) && fresh(confirmedChunks)
    {
      this.spec, this.token, receivedBytes := spec, token, 0;
      confirmedChunks := new bool[ChunkCount(spec.size)](_ => false);
    }

    function Now(): Progress
      reads this, confirmedChunks
    {
      Progress(spec, token, receivedBytes, confirmedChunks[..])
    }

    method NoteBytes(n: nat)
      modifies this, confirmedChunks
      ensures Now() == Noted(old(Now()), n)
    {
      receivedBytes := receivedBytes + n;
      var done := Min(receivedBytes / CHUNK_SIZE, confirmedChunks.Length);
      var i := 0;
      while i < done
        invariant 0 <= i <= done && receivedBytes == old(receivedBytes) + n
        invariant forall k :: 0 <= k < i ==> confirmedChunks[k]
        invariant forall k :: i <= k < confirmedChunks.Length ==> confirmedChunks[k] == old(confirmedChunks[k])
      {
        confirmedChunks[i] := true;
        i := i + 1;
      }
      if receivedBytes >= spec.size {
        i := 0;
        while i < confirmedChunks.Length
          invariant 0 <= i <= confirmedChunks.Length && receivedBytes == old(receivedBytes) + n
          invariant forall k :: 0 <= k < i ==> confirmedChunks[k]
        {
          confirmedChunks[i] := true;
          i := i + 1;
        }
      }
    }

    method MissingChunks() returns (missing: seq<nat>)
      ensures missing == Missing(Now())
    {
      missing := [];
      var i := 0;
      while i < confirmedChunks.Length
        invariant 0 <= i <= confirmedChunks.Length
        invariant missing + MissingFrom(confirmedChunks[..], i) == Missing(Now())
      {
        if !confirmedChunks[i] {
          missing := missing + [i];
        }
        i := i + 1;
      }
    }
  }

  // ---------------------------------------------------------------- sessions

  datatype SessionState = Preparing | AwaitingApproval | Transferring | Completed | Denied | Expired | Failed

  datatype TransferSession = TransferSession(id: string, fromDevice: string, files: map<string, Progress>,
          state: SessionState, created: int)

  datatype TransferError =
    | UnknownSession
    | UnknownFile(file: string)
    | BadToken
    | WrongState(expected: SessionState, was: SessionState)
    | ChecksumMismatch(file: string, want: string, got: string)

  type Sessions = map<string, TransferSession>

  type Answer = Result<(), TransferError>

  /** The offered files by name; a later offer of the same name replaces an earlier one. */
  function FilesOf(specs: seq<FileSpec>, tokens: seq<string>): map<string, Progress>
    requires |tokens| == |specs|
  {
    if specs == [] then map[]
    else
      var n := |specs| - 1;
      FilesOf(specs[..n], tokens[..n])[specs[n].name := NewProgress(specs[n], tokens[n])]
  }

  /** The token of each file, by name. */
  function TokensOf(files: map<string, Progress>): map<string, string> {
    map f | f in files :: files[f].token
  }

  function Settle(s: Sessions, id: string, to: SessionState): (Sessions, Answer) {
    if id !in s then (s, Err(UnknownSession))
    else if !s[id].state.AwaitingApproval? then (s, Err(WrongState(AwaitingApproval, s[id].state)))
    else (s[id := s[id].(state := to)], Ok(()))
  }

  function TokenCheck(s: Sessions, id: string, file: string, token: string): Answer {
    if id !in s then Err(UnknownSession)
    else if file !in s[id].files then Err(UnknownFile(file))
    else if s[id].files[file].token == token then Ok(())
    else Err(BadToken)
  }

  function NoteOn(s: Sessions, id: string, file: string, token: string, n: nat): (Sessions, Answer) {
    var check := TokenCheck(s, id, file, token);
    if check.Err? then (s, check)
    else if !s[id].state.Transferring? then (s, Err(WrongState(Transferring, s[id].state)))
    else (s[id := s[id].(files := s[id].files[file := Noted(s[id].files[file], n)])], Ok(()))
  }

  /** The file is known, the token is the file's own, and the session is transferring. */
  predicate AcceptsUpload(s: Sessions, id: string, file: string, token: string) {
    id in s && file in s[id].files && s[id].files[file].token == token && s[id].state == Transferring
  }

  /** What an upload answers, and that nothing but the file's own bytes changes. */
  lemma UploadAnswers(s: Sessions, id: string, file: string, token: string, n: nat)
    ensures var (s', r) := NoteOn(s, id, file, token, n);
            && (r.Ok? <==> AcceptsUpload(s, id, file, token))
            && (r == Err(UnknownSession) <==> id !in s)
            && (r == Err(UnknownFile(file)) <==> id in s && file !in s[id].files)
            && (r == Err(BadToken) <==> id in s && file in s[id].files && s[id].files[file].token != token)
            && (r.Err? && r.error.WrongState? ==> r.error == WrongState(Transferring, s[id].state))
            && (r.Err? ==> s' == s)
            && (r.Ok? ==>
                && id in s' && file in s'[id].files
                && s'[id].files[file].receivedBytes == s[id].files[file].receivedBytes + n
                && s' == s[id := s[id].(files := s[id].files[file := s'[id].files[file]])])
  {
  }

  function Whole(p: Progress): Progress {
    p.(receivedBytes := p.spec.size, confirmed := seq(|p.confirmed|, _ => true))
  }

  predicate NoneMissing(files: map<string, Progress>) {
    forall f | f in files :: Missing(files[f]) == []
  }

  /** `got` is the checksum of the bytes presented. */
  function CompleteOn(s: Sessions, id: string, file: string, got: string): (Sessions, Answer) {
    if id !in s then (s, Err(UnknownSession))
    else if file !in s[id].files then (s, Err(UnknownFile(file)))
    else if !s[id].state.Transferring? then (s, Err(WrongState(Transferring, s[id].state)))
    else
      var want := s[id].files[file].spec.checksum;
      if want.Some? && got != want.value then
        (s[id := s[id].(state := SessionState.Failed)], Err(ChecksumMismatch(file, want.value, got)))
      else
        var files := s[id].files[file := Whole(s[id].files[file])];
        (s[id := s[id].(files := files, state := if NoneMissing(files) then Completed else Transferring)], Ok(()))
  }

  /** The file is known, the session transferring, and the checksum, if one was offered, the one presented. */
  predicate AcceptsFinish(s: Sessions, id: string, file: string, got: string) {
    && id in s && file in s[id].files && s[id].state == Transferring
    && (s[id].files[file].spec.checksum.None? || s[id].files[file].spec.checksum == Some(got))
  }

  /** What completing a file answers; a wrong checksum fails the whole session. */
  lemma FinishAnswers(s: Sessions, id: string, file: string, got: string)
    ensures var (s', r) := CompleteOn(s, id, file, got);
            && (r.Ok? <==> AcceptsFinish(s, id, file, got))
            && (r == Err(UnknownSession) <==> id !in s)
            && (r == Err(UnknownFile(file)) <==> id in s && file !in s[id].files)
            && (r.Err? && r.error.WrongState? ==> r.error == WrongState(Transferring, s[id].state))
            && (r.Err? && r.error.ChecksumMismatch? ==>
                r.error == ChecksumMismatch(file, s[id].files[file].spec.checksum.value, got))
            && (r.Err? && !r.error.ChecksumMismatch? ==> s' == s)
            && (r.Err? && r.error.ChecksumMismatch? ==> s' == s[id := s[id].(state := SessionState.Failed)])
            && (r.Ok? ==>
                && s'.Keys == s.Keys && s'[id].state in {Transferring, Completed}
                && s'[id].files.Keys == s[id].files.Keys
                && s'[id].files[file].receivedBytes == s[id].files[file].spec.size
                && forall f :: f in s[id].files && f != file ==> s'[id].files[f] == s[id].files[f])
  {
  }

  predicate Stale(t: TransferSession, now: int) {
    match t.state
    case AwaitingApproval => now - t.created > PENDING_TTL
    case Preparing => now - t.created > SESSION_TTL
    case Transferring => now - t.created > SESSION_TTL
    case _ => false
  }

  function SweptAt(t: TransferSession, now: int): TransferSession {
    if Stale(t, now) then t.(state := Expired) else t
  }

  function SweepAll(s: Sessions, now: int): Sessions {
    map id | id in s :: SweptAt(s[id], now)
  }

  /** What a sweep does to a session: two minutes to be approved, ten to be transferred, and nothing else. */
  lemma SweepExpires(s: Sessions, now: int, id: string)
    requires id in s
    ensures id in SweepAll(s, now)
    ensures var t := s[id];
            var overdue := || (t.state == AwaitingApproval && now > t.created + 120 * 1000)
                           || (t.state in {Preparing, Transferring} && now > t.created + 600 * 1000);
            SweepAll(s, now)[id] == if overdue then t.(state := Expired) else t
  {
  }

  class SessionManager {
    var sessions: Sessions

    constructor ()
      ensures sessions == map[]
    {
      sessions := map[];
    }

    /** `id` and `fresh` are the generated identifiers, `now` the clock. */
    method Prepare(fromDevice: string, specs: seq<FileSpec>, id: string, tokens: seq<string>,
            now: int) returns (r: Result<(string, map<string, string>), TransferError>)
      requires |tokens| == |specs|
      modifies this
      ensures sessions == Step(old(sessions), Offer(id, fromDevice, specs, tokens, now))
      ensures specs == [] ==> r == Err(UnknownFile("empty offer")) && sessions == old(sessions)
      ensures specs != [] ==> r == Ok((id, TokensOf(FilesOf(specs, tokens))))
      ensures specs != [] ==>
                && id in sessions && r.value.0 == id && r.value.1.Keys == sessions[id].files.Keys
                && forall f :: f in sessions[id].files ==> r.value.1[f] == sessions[id].files[f].token
      ensures specs != [] ==>
                var offered := TransferSession(id, fromDevice, FilesOf(specs, tokens), AwaitingApproval, now);
                sessions == old(sessions)[id := offered]
    {
      if specs == [] {
        return Err(UnknownFile("empty offer"));
      }
      var files: map<string, Progress>, given: map<string, string> := map[], map[];
      var i := 0;
      while i < |specs|
        invariant 0 <= i <= |specs| && files == FilesOf(specs[..i], tokens[..i]) && given == TokensOf(files)
      {
        given := given[specs[i].name := tokens[i]];
        files := files[specs[i].name := NewProgress(specs[i], tokens[i])];
        i := i + 1;
        assert specs[..i][..i - 1] == specs[..i - 1] && tokens[..i][..i - 1] == tokens[..i - 1];
      }
      assert specs[..|specs|] == specs && tokens[..|specs|] == tokens;
      sessions := sessions[id := TransferSession(id, fromDevice, files, AwaitingApproval, now)];
      return Ok((id, given));
    }

    method Decide(id: string, to: SessionState) returns (r: Answer)
      modifies this
      ensures (sessions, r) == Settle(old(sessions), id, to)
    {
      if id !in sessions {
        return Err(UnknownSession);
      }
      if sessions[id].state != AwaitingApproval {
        return Err(WrongState(AwaitingApproval, sessions[id].state));
      }
      sessions := sessions[id := sessions[id].(state := to)];
      return Ok(());
    }

    method Approve(id: string) returns (r: Answer)
      modifies this
      ensures (sessions, r) == Settle(old(sessions), id, Transferring)
      ensures r.Ok? <==> id in old(sessions) && old(sessions)[id].state.AwaitingApproval?
      ensures r.Ok? ==> sessions == old(sessions)[id := old(sessions)[id].(state := Transferring)]
      ensures r.Err? ==> sessions == old(sessions)
      ensures r == Err(UnknownSession) <==> id !in old(sessions)
      ensures r.Err? && id in old(sessions) ==> r.error == WrongState(AwaitingApproval, old(sessions)[id].state)
    {
      r := Decide(id, Transferring);
    }

    method Deny(id: string) returns (r: Answer)
      modifies this
      ensures (sessions, r) == Settle(old(sessions), id, SessionState.Denied)
      ensures r.Ok? <==> id in old(sessions) && old(sessions)[id].state.AwaitingApproval?
      ensures r.Ok? ==> sessions == old(sessions)[id := old(sessions)[id].(state := SessionState.Denied)]
      ensures r.Err? ==> sessions == old(sessions)
      ensures r == Err(UnknownSession) <==> id !in old(sessions)
      ensures r.Err? && id in old(sessions) ==> r.error == WrongState(AwaitingApproval, old(sessions)[id].state)
    {
      r := Decide(id, SessionState.Denied);
    }

    method NoteBytes(id: string, file: string, token: string, n: nat) returns (r: Answer)
      modifies this
      ensures (sessions, r) == NoteOn(old(sessions), id, file, token, n)
      ensures r.Ok? <==> AcceptsUpload(old(sessions), id, file, token)
      ensures r.Err? ==> sessions == old(sessions)
    {
      r := TokenCheck(sessions, id, file, token);
      if r.Err? {
        return;
      }
      var s := sessions[id];
      if s.state != Transferring {
        return Err(WrongState(Transferring, s.state));
      }
      sessions := sessions[id := s.(files := s.files[file := Noted(s.files[file], n)])];
      return Ok(());
    }

    method Complete(id: string, file: string, got: string) returns (r: Answer)
      modifies this
      ensures (sessions, r) == CompleteOn(old(sessions), id, file, got)
      ensures r.Ok? <==> AcceptsFinish(old(sessions), id, file, got)
      ensures r.Err? && !r.error.ChecksumMismatch? ==> sessions == old(sessions)
    {
      if id !in sessions {
        return Err(UnknownSession);
      }
      var s := sessions[id];
      if file !in s.files {
        return Err(UnknownFile(file));
      }
      if s.state != Transferring {
        return Err(WrongState(Transferring, s.state));
      }
      var want := s.files[file].spec.checksum;
      if want.Some? && got != want.value {
        sessions := sessions[id := s.(state := SessionState.Failed)];
        return Err(ChecksumMismatch(file, want.value, got));
      }
      var files := s.files[file := Whole(s.files[file])];
      var state := if NoneMissing(files) then Completed else Transferring;
      sessions := sessions[id := s.(files := files, state := state)];
      return Ok(());
    }

    /** Returns how many sessions were reaped. */
    method SweepExpired(now: int) returns (reaped: nat)
      modifies this
      ensures sessions == SweepAll(old(sessions), now)
      ensures exists stale :: ListsStale(stale, old(sessions), now) && reaped == |stale|
    {
      var stale := StaleIds(now);
      ghost var reapedIds: set<string> := {};
      var i := 0;
      while i < |stale|
        invariant 0 <= i <= |stale| && sessions.Keys == old(sessions).Keys
        invariant reapedIds <= sessions.Keys && forall k :: 0 <= k < i ==> stale[k] in reapedIds
        invariant forall id :: id in reapedIds ==> id in stale
        invariant forall id :: id in sessions ==>
          sessions[id] == if id in reapedIds then old(sessions)[id].(state := Expired) else old(sessions)[id]
      {
        assert stale[i] in stale;
        sessions := sessions[stale[i] := sessions[stale[i]].(state := Expired)];
        reapedIds := reapedIds + {stale[i]};
        i := i + 1;
      }
      reaped := |stale|;
    }

    method StaleIds(now: int) returns (stale: seq<string>)
      ensures ListsStale(stale, sessions, now)
    {
      var ids := Keys(sessions);
      var s := sessions;
      var isStale := (id: string) => id in s && Stale(s[id], now);
      FilterSelects(ids, isStale);
      FilterDistinct(ids, isStale);
      stale := Filter(ids, isStale);
    }
  }

  ghost predicate ListsStale(stale: seq<string>, s: Sessions, now: int) {
    Distinct(stale) && forall id :: id in stale <==> id in s && Stale(s[id], now)
  }

  // ------------------------------------------------------------ session runs

  datatype Call =
    | Offer(id: string, fromDevice: string, specs: seq<FileSpec>, tokens: seq<string>, now: int)
    | ApproveCall(id: string)
    | DenyCall(id: string)
    | Upload(id: string, file: string, token: string, n: nat)
    | Finish(id: string, file: string, got: string)
    | Sweep(now: int)

  function Step(s: Sessions, c: Call): Sessions {
    match c
    case Offer(id, fromDevice, specs, tokens, now) =>
      if specs == [] || |tokens| != |specs| then s
      else s[id := TransferSession(id, fromDevice, FilesOf(specs, tokens), AwaitingApproval, now)]
    case ApproveCall(id) => Settle(s, id, Transferring).0
    case DenyCall(id) => Settle(s, id, SessionState.Denied).0
    case Upload(id, file, token, n) => NoteOn(s, id, file, token, n).0
    case Finish(id, file, got) => CompleteOn(s, id, file, got).0
    case Sweep(now) => SweepAll(s, now)
  }

  function After(s: Sessions, calls: seq<Call>): Sessions
    decreases |calls|
  {
    if calls == [] then s else After(Step(s, calls[0]), calls[1..])
  }

  /** Session identifiers are fresh. */
  predicate FreshIds(s: Sessions, calls: seq<Call>)
    decreases |calls|
  {
    calls == [] || ((calls[0].Offer? ==> calls[0].id !in s) && FreshIds(Step(s, calls[0]), calls[1..]))
  }

  predicate Terminal(state: SessionState) {
    state.Completed? || state.Denied? || state.Expired? || state.Failed?
  }

  /** A session that has ended never changes again, not even its files. */
  lemma {:induction false} TerminalFreezes(s: Sessions, calls: seq<Call>, id: string)
    requires FreshIds(s, calls) && id in s && Terminal(s[id].state)
    ensures id in After(s, calls) && After(s, calls)[id] == s[id]
    decreases |calls|
  {
    if calls == [] {
    } else {
      TerminalFreezes(Step(s, calls[0]), calls[1..], id);
    }
  }

  ghost predicate CompletedIsWhole(s: Sessions) {
    forall id :: id in s && s[id].state.Completed? ==> NoneMissing(s[id].files)
  }

  /** A completed session misses no chunk of any file. */
  lemma {:induction false} CompletedMissesNothing(s: Sessions, calls: seq<Call>)
    requires CompletedIsWhole(s)
    ensures CompletedIsWhole(After(s, calls))
    decreases |calls|
  {
    if calls == [] {
    } else {
      CompletedMissesNothing(Step(s, calls[0]), calls[1..]);
    }
  }

  /** A nonempty file confirms exactly what its counter covers, an empty one nothing more. */
  predicate InStep(p: Progress) {
    Sound(p) && (p.spec.size > 0 ==> Exact(p))
  }

  ghost predicate AllInStep(s: Sessions) {
    forall id, f :: id in s && f in s[id].files ==> InStep(s[id].files[f])
  }

  lemma {:induction false} OfferedFilesAreNew(specs: seq<FileSpec>, tokens: seq<string>)
    requires |tokens| == |specs|
    ensures forall f :: f in FilesOf(specs, tokens) ==>
              var p := FilesOf(specs, tokens)[f];
              p == NewProgress(p.spec, p.token)
    decreases |specs|
  {
    if specs == [] {
    } else {
      OfferedFilesAreNew(specs[..|specs| - 1], tokens[..|specs| - 1]);
    }
  }

  lemma OfferedFilesAreInStep(specs: seq<FileSpec>, tokens: seq<string>)
    requires |tokens| == |specs|
    ensures forall f :: f in FilesOf(specs, tokens) ==> InStep(FilesOf(specs, tokens)[f])
  {
    var files := FilesOf(specs, tokens);
    OfferedFilesAreNew(specs, tokens);
    forall f | f in files ensures InStep(files[f]) {
      NewIsSound(files[f].spec, files[f].token);
    }
  }

  lemma StepStaysInStep(s: Sessions, c: Call)
    requires AllInStep(s)
    ensures AllInStep(Step(s, c))
  {
    match c {
      case Offer(_, _, specs, tokens, _) =>
        if |tokens| == |specs| {
          OfferedFilesAreInStep(specs, tokens);
        }
      case Upload(id, file, _, n) =>
        if id in s && file in s[id].files {
          NotedIsExact(s[id].files[file], n);
        }
      case _ =>
    }
  }

  /** In every run the bits of each file agree with the session's own byte counter. */
  lemma {:induction false} RunsStayInStep(s: Sessions, calls: seq<Call>)
    requires AllInStep(s)
    ensures AllInStep(After(s, calls))
    decreases |calls|
  {
    if calls == [] {
    } else {
      StepStaysInStep(s, calls[0]);
      RunsStayInStep(Step(s, calls[0]), calls[1..]);
    }
  }

  /** In every session the resume list is a suffix of the chunks. */
  lemma SessionResumeIsSuffix(calls: seq<Call>, id: string, f: string)
    requires id in After(map[], calls) && f in After(map[], calls)[id].files
    ensures var p := After(map[], calls)[id].files[f];
            exists k :: 0 <= k <= ChunkCount(p.spec.size) && Missing(p) == Upto(k, ChunkCount(p.spec.size))
  {
    RunsStayInStep(map[], calls);
    var p := After(map[], calls)[id].files[f];
    if Exact(p) {
      ResumeIsSuffix(p);
    } else {
      assert p.spec.size == 0 && |p.confirmed| == 1;
      MissingIsSuffix(p.confirmed, if p.confirmed[0] then 1 else 0, 0);
    }
  }

  lemma {:induction false} NoneMissingIffAllConfirmed(confirmed: seq<bool>, i: nat)
    requires i <= |confirmed|
    ensures MissingFrom(confirmed, i) == [] <==> forall k :: i <= k < |confirmed| ==> confirmed[k]
    decreases |confirmed| - i
  {
    if i == |confirmed| {
    } else {
      NoneMissingIffAllConfirmed(confirmed, i + 1);
    }
  }

  /**
   What completing a file takes: its own checksum, if one was offered, and of the other files only
   that no chunk is missing; their checksums play no part.
   */
  lemma CompletesIff(s: Sessions, id: string, file: string, got: string)
    requires id in s && file in s[id].files && s[id].state.Transferring?
    ensures var t, p := CompleteOn(s, id, file, got).0[id], s[id].files[file];
            t.state.Completed? <==>
            (p.spec.checksum.Some? ==> p.spec.checksum.value == got) &&
            forall f :: f in s[id].files && f != file ==> Missing(s[id].files[f]) == []
  {
    var w := Whole(s[id].files[file]);
    NoneMissingIffAllConfirmed(w.confirmed, 0);
    var files := s[id].files[file := w];
    assert forall f :: f in files ==> f == file || files[f] == s[id].files[f];
  }
}
