/**
 What was really uploaded in a run of transfer calls, against what the sessions say.
 */
module TransferRuns {
  import opened Collections
  import opened Transfer

  // ------------------------------------------------------ runs by last call

  /** The sessions after `calls`, from the empty manager. */
  function Reached(calls: seq<Call>): Sessions {
    if calls == [] then map[] else Step(Reached(calls[..|calls| - 1]), calls[|calls| - 1])
  }

  predicate FreshRun(calls: seq<Call>) {
    calls == [] || (FreshRun(calls[..|calls| - 1]) && FreshCall(Reached(calls[..|calls| - 1]), calls[|calls| - 1]))
  }

  predicate FreshCall(s: Sessions, c: Call) {
    c.Offer? ==> c.id !in s
  }

  lemma {:induction false} AfterSnoc(s: Sessions, calls: seq<Call>, c: Call)
    ensures After(s, calls + [c]) == Step(After(s, calls), c)
    ensures FreshIds(s, calls + [c]) <==> FreshIds(s, calls) && FreshCall(After(s, calls), c)
    decreases |calls|
  {
    var all := calls + [c];
    if calls == [] {
      assert all[0] == c && all[1..] == [];
    } else {
      assert all[0] == calls[0] && all[1..] == calls[1..] + [c];
      AfterSnoc(Step(s, calls[0]), calls[1..], c);
    }
  }

  lemma {:induction false} RunIsReached(calls: seq<Call>)
    ensures After(map[], calls) == Reached(calls) && (FreshIds(map[], calls) <==> FreshRun(calls))
    decreases |calls|
  {
    if calls == [] {
    } else {
      var before, last := calls[..|calls| - 1], calls[|calls| - 1];
      RunIsReached(before);
      AfterSnoc(map[], before, last);
      assert calls == before + [last];
    }
  }

  // ----------------------------------------------------- one file's history

  /**
   What was really done for one file of one session: the bytes and the number of the uploads
   accepted, the bytes of those accepted after it had been finished, whether an accepted `complete`
   named it, whether that happened while chunks were missing, and whether bytes of the offered
   checksum were presented for it while the session was transferring.
   */
  datatype Account = Account(uploaded: nat, uploads: nat, late: nat, finished: bool, early: bool, verified: bool)

  const NOTHING: Account := Account(0, 0, 0, false, false, false)

  function Entry(a: Account, s: Sessions, c: Call, id: string, f: string): Account {
    match c
    case Upload(i, g, token, n) =>
      if i == id && g == f && NoteOn(s, id, f, token, n).1.Ok?
      then a.(uploaded := a.uploaded + n, uploads := a.uploads + 1, late := a.late + if a.finished then n else 0)
      else a
    case Finish(i, g, got) =>
      if i == id && g == f && id in s && f in s[id].files && s[id].state.Transferring?
      then a.(finished := a.finished || CompleteOn(s, id, f, got).1.Ok?,
              early := a.early || (CompleteOn(s, id, f, got).1.Ok? && Missing(s[id].files[f]) != []),
              verified := a.verified || s[id].files[f].spec.checksum == Some(got))
      else a
    case _ => a
  }

  function AccountOf(calls: seq<Call>, id: string, f: string): Account {
    if calls == [] then NOTHING
    else
      var before := calls[..|calls| - 1];
      Entry(AccountOf(before, id, f), Reached(before), calls[|calls| - 1], id, f)
  }

  predicate AllConfirmed(p: Progress) {
    forall i | 0 <= i < |p.confirmed| :: p.confirmed[i]
  }

  /** How the bits of a file follow from its account. */
  predicate BitsFit(a: Account, p: Progress) {
    && InStep(p)
    && (if a.finished then AllConfirmed(p) else a.uploaded == p.receivedBytes && UploadsFit(a, p))
  }

  predicate UploadsFit(a: Account, p: Progress) {
    forall i | 0 <= i < |p.confirmed| ::
      p.confirmed[i] <==> Arrived(a.uploaded, p.spec.size, i) && (p.spec.size > 0 || a.uploads > 0)
  }

  predicate EarlyFits(a: Account, size: nat) {
    && (a.early ==> a.finished) && a.late <= a.uploaded
    && (!a.finished ==> a.late == 0)
    && (a.finished ==> (a.uploaded - a.late >= size <==> !a.early || size == 0))
  }

  predicate ChecksFit(a: Account, spec: FileSpec) {
    spec.checksum.Some? ==> (a.finished <==> a.verified)
  }

  predicate Fits(a: Account, p: Progress) {
    BitsFit(a, p) && EarlyFits(a, p.spec.size) && ChecksFit(a, p.spec)
  }

  predicate Known(s: Sessions, id: string, f: string) {
    id in s && f in s[id].files
  }

  predicate Booked(a: Account, s: Sessions, id: string, f: string) {
    if Known(s, id, f) then Fits(a, s[id].files[f]) else a == NOTHING
  }

  lemma UploadFits(a: Account, p: Progress, n: nat)
    requires Fits(a, p)
    ensures Fits(a.(uploaded := a.uploaded + n, uploads := a.uploads + 1, late := a.late + if a.finished then n else 0),
                 Noted(p, n))
  {
    NotedIsExact(p, n);
  }

  lemma FinishFits(a: Account, p: Progress)
    requires Fits(a, p)
    ensures Fits(a.(finished := true, early := a.early || Missing(p) != [],
                    verified := a.verified || p.spec.checksum.Some?), Whole(p))
  {
    NoneMissingIffAllConfirmed(p.confirmed, 0);
    if !a.finished && p.spec.size > 0 {
      ResumeIsSuffix(p);
    }
  }

  lemma OfferBooks(s: Sessions, c: Call, id: string, f: string)
    requires c.Offer? && FreshCall(s, c) && Booked(NOTHING, s, id, f)
    ensures Booked(NOTHING, Step(s, c), id, f)
  {
    if |c.tokens| == |c.specs| {
      OfferedFilesAreNew(c.specs, c.tokens);
      OfferedFilesAreInStep(c.specs, c.tokens);
    }
  }

  lemma UploadBooks(a: Account, s: Sessions, c: Call, id: string, f: string)
    requires c.Upload? && Booked(a, s, id, f)
    ensures Booked(Entry(a, s, c, id, f), Step(s, c), id, f)
  {
    if c.id == id && c.file == f && Known(s, id, f) {
      UploadFits(a, s[id].files[f], c.n);
    }
  }

  lemma FinishBooks(a: Account, s: Sessions, c: Call, id: string, f: string)
    requires c.Finish? && Booked(a, s, id, f)
    ensures Booked(Entry(a, s, c, id, f), Step(s, c), id, f)
  {
    if c.id == id && c.file == f && Known(s, id, f) {
      FinishFits(a, s[id].files[f]);
    }
  }

  lemma CallBooks(a: Account, s: Sessions, c: Call, id: string, f: string)
    requires FreshCall(s, c) && Booked(a, s, id, f)
    ensures Booked(Entry(a, s, c, id, f), Step(s, c), id, f)
  {
    match c {
      case Offer(i, _, _, _, _) =>
        if i == id {
          OfferBooks(s, c, id, f);
        }
      case Upload(_, _, _, _) => UploadBooks(a, s, c, id, f);
      case Finish(_, _, _) => FinishBooks(a, s, c, id, f);
      case _ =>
    }
  }

  lemma {:induction false} RunBooks(calls: seq<Call>, id: string, f: string)
    requires FreshRun(calls)
    ensures Booked(AccountOf(calls, id, f), Reached(calls), id, f)
    decreases |calls|
  {
    if calls == [] {
    } else {
      var before, last := calls[..|calls| - 1], calls[|calls| - 1];
      RunBooks(before, id, f);
      CallBooks(AccountOf(before, id, f), Reached(before), last, id, f);
    }
  }

  // ---------------------------------------------------------------- tokens

  /** `specs[j]` is the last one offered under the name `f`. */
  ghost predicate LastNamed(specs: seq<FileSpec>, f: string, j: int) {
    0 <= j < |specs| && specs[j].name == f && forall k :: j < k < |specs| ==> specs[k].name != f
  }

  lemma LastNamedOneMore(specs: seq<FileSpec>, f: string, j: int)
    requires specs != []
    ensures var n := |specs| - 1;
            LastNamed(specs, f, j) <==> if specs[n].name == f then j == n else LastNamed(specs[..n], f, j)
  {
    var n := |specs| - 1;
    if specs[n].name != f && LastNamed(specs[..n], f, j) {
      forall k | j < k < |specs| ensures specs[k].name != f {
        assert k < n ==> specs[..n][k] == specs[k];
      }
    }
    if specs[n].name != f && LastNamed(specs, f, j) {
      forall k | j < k < n ensures specs[..n][k].name != f {
        assert specs[..n][k] == specs[k];
      }
    }
  }

  ghost predicate IsNew(p: Progress, specs: seq<FileSpec>, tokens: seq<string>, f: string)
    requires |tokens| == |specs|
  {
    exists j :: LastNamed(specs, f, j) && p == NewProgress(specs[j], tokens[j])
  }

  /** The files of an offer are the last ones offered under each name, with their tokens. */
  lemma {:induction false} FilesAreLastNamed(specs: seq<FileSpec>, tokens: seq<string>, f: string)
    requires |tokens| == |specs|
    ensures f in FilesOf(specs, tokens) <==> exists j :: LastNamed(specs, f, j)
    ensures f in FilesOf(specs, tokens) ==> IsNew(FilesOf(specs, tokens)[f], specs, tokens, f)
    decreases |specs|
  {
    if specs == [] {
    } else {
      var n := |specs| - 1;
      var files := FilesOf(specs[..n], tokens[..n]);
      FilesAreLastNamed(specs[..n], tokens[..n], f);
      forall j ensures LastNamed(specs, f, j) <==> if specs[n].name == f then j == n else LastNamed(specs[..n], f, j) {
        LastNamedOneMore(specs, f, j);
      }
      if specs[n].name == f {
        assert LastNamed(specs, f, n);
      } else if f in files {
        var j :| LastNamed(specs[..n], f, j) && files[f] == NewProgress(specs[..n][j], tokens[..n][j]);
        assert LastNamed(specs, f, j);
      }
    }
  }

  /** The token handed out for `f` when the session was offered. */
  ghost predicate OfferedToken(calls: seq<Call>, id: string, f: string, token: string) {
    exists i :: 0 <= i < |calls| && OffersToken(calls[i], id, f, token)
  }

  ghost predicate OffersToken(c: Call, id: string, f: string, token: string) {
    && c.Offer? && c.id == id && |c.tokens| == |c.specs|
    && exists j :: LastNamed(c.specs, f, j) && c.tokens[j] == token
  }

  predicate SameTokens(s: Sessions, s': Sessions, id: string, f: string) {
    Known(s, id, f) ==> Known(s', id, f) && s'[id].files[f].token == s[id].files[f].token
  }

  lemma StepKeepsTokens(s: Sessions, c: Call, id: string, f: string)
    requires FreshCall(s, c)
    ensures SameTokens(s, Step(s, c), id, f)
    ensures Known(Step(s, c), id, f) && !Known(s, id, f) ==> OffersToken(c, id, f, Step(s, c)[id].files[f].token)
  {
    if c.Offer? && |c.tokens| == |c.specs| {
      FilesAreLastNamed(c.specs, c.tokens, f);
    }
  }

  /** The token of a file is the one offered for it. */
  lemma {:induction false} TokenIsOffered(calls: seq<Call>, id: string, f: string)
    requires FreshRun(calls) && Known(Reached(calls), id, f)
    ensures OfferedToken(calls, id, f, Reached(calls)[id].files[f].token)
    decreases |calls|
  {
    var before, last := calls[..|calls| - 1], calls[|calls| - 1];
    StepKeepsTokens(Reached(before), last, id, f);
    if Known(Reached(before), id, f) {
      TokenIsOffered(before, id, f);
      var token := Reached(before)[id].files[f].token;
      var i :| 0 <= i < |before| && OffersToken(before[i], id, f, token);
      assert calls[i] == before[i];
    } else {
      assert OffersToken(calls[|calls| - 1], id, f, Reached(calls)[id].files[f].token);
    }
  }

  lemma {:induction false} OfferedOnce(calls: seq<Call>, id: string, f: string, token: string)
    requires FreshRun(calls) && Known(Reached(calls), id, f) && OfferedToken(calls, id, f, token)
    ensures token == Reached(calls)[id].files[f].token
    decreases |calls|
  {
    var before, last := calls[..|calls| - 1], calls[|calls| - 1];
    var i :| 0 <= i < |calls| && OffersToken(calls[i], id, f, token);
    StepKeepsTokens(Reached(before), last, id, f);
    if i < |calls| - 1 {
      assert before[i] == calls[i];
      OfferedIsKnown(before, id, f, token);
      OfferedOnce(before, id, f, token);
    } else {
      FilesAreLastNamed(last.specs, last.tokens, f);
    }
  }

  lemma {:induction false} OfferedIsKnown(calls: seq<Call>, id: string, f: string, token: string)
    requires FreshRun(calls) && OfferedToken(calls, id, f, token)
    ensures Known(Reached(calls), id, f)
    decreases |calls|
  {
    var before, last := calls[..|calls| - 1], calls[|calls| - 1];
    var i :| 0 <= i < |calls| && OffersToken(calls[i], id, f, token);
    StepKeepsTokens(Reached(before), last, id, f);
    if i < |calls| - 1 {
      assert before[i] == calls[i];
      OfferedIsKnown(before, id, f, token);
    } else {
      FilesAreLastNamed(last.specs, last.tokens, f);
    }
  }

  predicate TransferringIn(s: Sessions, id: string) {
    id in s && s[id].state == Transferring
  }

  /**
   After any run: an upload is accepted exactly when the session is transferring and the token is the
   one offered for the file; otherwise it changes nothing at all.
   */
  lemma UploadNeedsOfferedToken(calls: seq<Call>, id: string, f: string, token: string, n: nat)
    requires FreshIds(map[], calls)
    ensures var s := After(map[], calls);
            var (s', r) := NoteOn(s, id, f, token, n);
            && (r.Ok? <==> TransferringIn(s, id) && OfferedToken(calls, id, f, token))
            && (r.Err? ==> s' == s)
  {
    RunIsReached(calls);
    UploadAnswers(Reached(calls), id, f, token, n);
    if Known(Reached(calls), id, f) {
      TokenIsOffered(calls, id, f);
    }
    if OfferedToken(calls, id, f, token) {
      OfferedIsKnown(calls, id, f, token);
      OfferedOnce(calls, id, f, token);
    }
  }

  /** The bytes counted for a file change only through its completion or an upload that carries its token. */
  lemma BytesNeedToken(calls: seq<Call>, c: Call, id: string, f: string)
    requires FreshIds(map[], calls + [c]) && Known(After(map[], calls), id, f)
    ensures var p := After(map[], calls)[id].files[f];
            && Known(After(map[], calls + [c]), id, f)
            && (After(map[], calls + [c])[id].files[f].receivedBytes != p.receivedBytes ==>
                || (c.Finish? && c.id == id && c.file == f)
                || (c.Upload? && c.id == id && c.file == f && OfferedToken(calls, id, f, c.token)))
  {
    AfterSnoc(map[], calls, c);
    RunIsReached(calls);
    if c.Upload? {
      UploadNeedsOfferedToken(calls, c.id, c.file, c.token, c.n);
    }
  }

  // ------------------------------------------------- what was really uploaded

  /**
   In every run a chunk is confirmed exactly when an accepted `complete` named its file, or uploads
   have brought all of its bytes (at least one upload, even of nothing, for an empty file).
   */
  lemma ConfirmedIff(calls: seq<Call>, id: string, f: string, i: nat)
    requires FreshIds(map[], calls) && Known(After(map[], calls), id, f)
    requires i < ChunkCount(After(map[], calls)[id].files[f].spec.size)
    ensures var p, a := After(map[], calls)[id].files[f], AccountOf(calls, id, f);
            && |p.confirmed| == ChunkCount(p.spec.size)
            && (p.confirmed[i] <==>
                || a.finished
                || (a.uploaded >= Min((i + 1) * CHUNK_SIZE, p.spec.size) && (p.spec.size > 0 || a.uploads > 0)))
  {
    RunIsReached(calls);
    RunBooks(calls, id, f);
  }

  ghost predicate HasAllBytes(calls: seq<Call>, id: string, files: map<string, Progress>) {
    forall f :: f in files ==> AccountOf(calls, id, f).uploaded >= files[f].spec.size
  }

  lemma CompletedFile(calls: seq<Call>, id: string, f: string)
    requires FreshRun(calls) && Known(Reached(calls), id, f) && Reached(calls)[id].state.Completed?
    ensures var a, size := AccountOf(calls, id, f), Reached(calls)[id].files[f].spec.size;
            && (a.finished || a.uploaded >= size)
            && (a.finished ==> (a.uploaded - a.late >= size <==> !a.early || size == 0)) && (a.early ==> a.finished)
  {
    RunIsReached(calls);
    RunBooks(calls, id, f);
    CompletedMissesNothing(map[], calls);
    var p := Reached(calls)[id].files[f];
    NoneMissingIffAllConfirmed(p.confirmed, 0);
    if !AccountOf(calls, id, f).finished && p.spec.size > 0 {
      ResumeIsSuffix(p);
    }
  }

  /**
   A completed session has all its bytes exactly when the files that were completed while chunks were
   missing have been uploaded in full afterwards; where nothing is uploaded to a file already completed,
   exactly when no nonempty file was completed while chunks were missing.
   */
  lemma CompletedHasBytesIff(calls: seq<Call>, id: string)
    requires FreshIds(map[], calls) && id in After(map[], calls) && After(map[], calls)[id].state.Completed?
    ensures var files := After(map[], calls)[id].files;
            && (HasAllBytes(calls, id, files) <==>
                forall f :: f in files && AccountOf(calls, id, f).early ==>
                  AccountOf(calls, id, f).uploaded >= files[f].spec.size)
            && ((forall f :: f in files ==> AccountOf(calls, id, f).late == 0) ==>
                (HasAllBytes(calls, id, files) <==>
                 forall f :: f in files && AccountOf(calls, id, f).early ==> files[f].spec.size == 0))
  {
    RunIsReached(calls);
    var files := After(map[], calls)[id].files;
    forall f | f in files
      ensures var a, size := AccountOf(calls, id, f), files[f].spec.size;
              && (a.finished || a.uploaded >= size)
              && (a.finished ==> (a.uploaded - a.late >= size <==> !a.early || size == 0)) && (a.early ==> a.finished)
    {
      CompletedFile(calls, id, f);
    }
  }

  /** For the caller: the first `complete` of a file finds all its bytes uploaded iff no chunk of it is missing. */
  lemma FinishHasBytesIff(calls: seq<Call>, id: string, f: string)
    requires FreshIds(map[], calls) && Known(After(map[], calls), id, f) && !AccountOf(calls, id, f).finished
    ensures var p := After(map[], calls)[id].files[f];
            AccountOf(calls, id, f).uploaded >= p.spec.size <==> Missing(p) == [] || p.spec.size == 0
  {
    RunIsReached(calls);
    RunBooks(calls, id, f);
    if After(map[], calls)[id].files[f].spec.size > 0 {
      ResumeIsSuffix(After(map[], calls)[id].files[f]);
    }
  }

  // ------------------------------------------------------------- checksums

  ghost predicate AllVerified(calls: seq<Call>, id: string, files: map<string, Progress>) {
    forall f :: f in files && files[f].spec.checksum.Some? ==> AccountOf(calls, id, f).verified
  }

  lemma SpecsStay(s: Sessions, id: string, f: string, got: string)
    requires Known(s, id, f) && s[id].state.Transferring?
    ensures var t := CompleteOn(s, id, f, got).0[id];
            t.files.Keys == s[id].files.Keys && forall g :: g in t.files ==> t.files[g].spec == s[id].files[g].spec
  {
  }

  /**
   When completing `f` ends the session, every checksum offered has been verified exactly when every
   other file offered with one had been completed before.
   */
  lemma CompletionVerifiesIff(calls: seq<Call>, id: string, f: string, got: string)
    requires FreshIds(map[], calls) && Known(After(map[], calls), id, f) && After(map[], calls)[id].state.Transferring?
    requires CompleteOn(After(map[], calls), id, f, got).0[id].state.Completed?
    ensures var all := calls + [Finish(id, f, got)];
            && id in After(map[], all) && After(map[], all)[id].state.Completed?
            && var files := After(map[], all)[id].files;
               AllVerified(all, id, files) <==>
               forall g :: g in files && g != f && files[g].spec.checksum.Some? ==> AccountOf(calls, id, g).finished
  {
    var last := Finish(id, f, got);
    var all := calls + [last];
    AfterSnoc(map[], calls, last);
    RunIsReached(calls);
    RunIsReached(all);
    SpecsStay(Reached(calls), id, f, got);
    assert all[..|all| - 1] == calls;
    var files := Reached(all)[id].files;
    forall g | g in files && files[g].spec.checksum.Some?
      ensures AccountOf(all, id, g).verified <==> g == f || AccountOf(calls, id, g).finished
    {
      RunBooks(calls, id, g);
    }
  }

  // -------------------------------------------------- runs that show the gap

  function Offered(id: string, from: string, specs: seq<FileSpec>, tokens: seq<string>, now: int): Sessions
    requires |tokens| == |specs|
  {
    map[id := TransferSession(id, from, FilesOf(specs, tokens), Transferring, now)]
  }

  lemma SnocReached(calls: seq<Call>, c: Call, id: string, f: string)
    ensures Reached(calls + [c]) == Step(Reached(calls), c)
    ensures FreshRun(calls + [c]) <==> FreshRun(calls) && FreshCall(Reached(calls), c)
    ensures AccountOf(calls + [c], id, f) == Entry(AccountOf(calls, id, f), Reached(calls), c, id, f)
  {
    assert (calls + [c])[..|calls|] == calls;
  }

  lemma OfferedAndApproved(id: string, from: string, specs: seq<FileSpec>, tokens: seq<string>, now: int, f: string)
    requires |tokens| == |specs| > 0
    ensures var calls := [Offer(id, from, specs, tokens, now), ApproveCall(id)];
            && Reached(calls) == Offered(id, from, specs, tokens, now) && FreshRun(calls)
            && AccountOf(calls, id, f) == NOTHING
  {
    var c1, c2 := Offer(id, from, specs, tokens, now), ApproveCall(id);
    SnocReached([], c1, id, f);
    assert [] + [c1] == [c1];
    SnocReached([c1], c2, id, f);
    assert Reached([c1]) == map[id := TransferSession(id, from, FilesOf(specs, tokens), AwaitingApproval, now)];
  }

  lemma OneFile(spec: FileSpec, token: string)
    ensures FilesOf([spec], [token]) == map[spec.name := NewProgress(spec, token)]
  {
    assert FilesOf([], []) == map[];
  }

  /** One nonempty file without a checksum, completed at once: the session is Completed with nothing uploaded. */
  lemma CompletedWithoutBytes(id: string, from: string, name: string, size: nat, token: string, now: int, got: string)
    requires size > 0
    ensures var calls := [Offer(id, from, [FileSpec(name, size, None)], [token], now), ApproveCall(id),
                          Finish(id, name, got)];
            var s := After(map[], calls);
            && FreshIds(map[], calls) && id in s && s[id].state.Completed? && name in s[id].files
            && AllConfirmed(s[id].files[name]) && s[id].files[name].spec.size == size
            && AccountOf(calls, id, name).uploaded == 0
  {
    var spec := FileSpec(name, size, None);
    var before := [Offer(id, from, [spec], [token], now), ApproveCall(id)];
    var last := Finish(id, name, got);
    OfferedAndApproved(id, from, [spec], [token], now, name);
    SnocReached(before, last, id, name);
    assert before + [last] == [before[0], before[1], last];
    RunIsReached([before[0], before[1], last]);
    OneFile(spec, token);
    var p := Whole(NewProgress(spec, token));
    NoneMissingIffAllConfirmed(p.confirmed, 0);
    assert map[name := NewProgress(spec, token)][name := p] == map[name := p];
  }

  lemma TwoFiles(a: FileSpec, b: FileSpec, tokenA: string, tokenB: string)
    requires a.name != b.name
    ensures FilesOf([a, b], [tokenA, tokenB]) == map[a.name := NewProgress(a, tokenA), b.name := NewProgress(b, tokenB)]
  {
    OneFile(a, tokenA);
    assert [a, b][..1] == [a] && [tokenA, tokenB][..1] == [tokenA];
  }

  /** `b` is uploaded in full and `a` completed: the session is Completed, the checksum of `b` never looked at. */
  lemma CompletedUnverified(id: string, from: string, a: FileSpec, b: FileSpec, tokenA: string, tokenB: string,
          now: int, got: string)
    requires a.name != b.name && a.checksum.None? && b.checksum.Some?
    ensures var calls := [Offer(id, from, [a, b], [tokenA, tokenB], now), ApproveCall(id),
                          Upload(id, b.name, tokenB, b.size), Finish(id, a.name, got)];
            var s := After(map[], calls);
            && FreshIds(map[], calls) && id in s && s[id].state.Completed?
            && b.name in s[id].files && s[id].files[b.name].spec == b && !AccountOf(calls, id, b.name).verified
  {
    var before := [Offer(id, from, [a, b], [tokenA, tokenB], now), ApproveCall(id)];
    var upload, last := Upload(id, b.name, tokenB, b.size), Finish(id, a.name, got);
    OfferedAndApproved(id, from, [a, b], [tokenA, tokenB], now, b.name);
    SnocReached(before, upload, id, b.name);
    var loaded := before + [upload];
    SnocReached(loaded, last, id, b.name);
    assert loaded + [last] == [before[0], before[1], upload, last];
    RunIsReached([before[0], before[1], upload, last]);
    TwoFiles(a, b, tokenA, tokenB);
    UploadedInFull(Reached(before), id, a, b, tokenA, tokenB);
    CompletesIff(Reached(loaded), id, a.name, got);
  }

  lemma UploadedInFull(s: Sessions, id: string, a: FileSpec, b: FileSpec, tokenA: string, tokenB: string)
    requires a.name != b.name && id in s && s[id].state.Transferring?
    requires s[id].files == map[a.name := NewProgress(a, tokenA), b.name := NewProgress(b, tokenB)]
    ensures var s' := Step(s, Upload(id, b.name, tokenB, b.size));
            && id in s' && s'[id].state.Transferring? && s'[id].files.Keys == {a.name, b.name}
            && s'[id].files[a.name] == NewProgress(a, tokenA)
            && s'[id].files[b.name].spec == b && Missing(s'[id].files[b.name]) == []
  {
    var p := Noted(NewProgress(b, tokenB), b.size);
    NoneMissingIffAllConfirmed(p.confirmed, 0);
  }
}
