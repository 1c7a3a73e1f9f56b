# IGRIS core verification

A Dafny model of the state machines and algorithms at the core of IGRIS v5, with proofs of what
they promise. Effects (clock, fresh identifiers, randomness, hashing, acoustics, databases, Unicode
tables) are parameters; everything else follows the Rust code branch by branch.

| file | component |
|---|---|
| Missions.dfy, MissionRuns.dfy | missions as a class over a node map; disciplined runs, their safety, crash recovery |
| MissionHistory.dfy | the answers and effects of the operations field by field, and a node's fields from the events of a run |
| MissionCompletion.dfy | when a mission whose nodes are all done is also completed, and the runs in which it is not |
| TaskGraph.dfy, MissionTermination.dfy, MissionDrive.dfy | which nodes can ever run; termination and deadlock freedom of retrying runs; the drive loop as a topological executor |
| StringOrder.dfy, Sync.dfy | the order of device ids; last-writer-wins replication: exactly when replicas converge, delta exchange, tombstones, counters |
| EditDistance.dfy, Wake.dfy | the two-row edit distance against all edit scripts; wake-word matching |
| Neighbors.dfy | depth-bounded breadth-first search over the memory graph |
| Redaction.dfy | the secret scrubber, with the exact condition under which it keeps its promise |
| Vad.dfy, Pipeline.dfy, Outcomes.dfy | speech segmentation as a stream function; the voice pipeline's product invariant; what it reports and says for each transcript, and so over any run |
| Reflex.dfy, ReflexCache.dfy, Decisions.dfy, Phrases.dfy | routing and escalation; the decision table read off the phrases; the bounded decision cache as a first-in-first-out window; what the phrase lists mean for the text as typed |
| Approvals.dfy, Audit.dfy | lazily against eagerly expired approvals and the policy gate; the hash-chained log |
| Transfer.dfy, TransferRuns.dfy | chunk bitsets against a byte count; transfer sessions against what was really uploaded and verified |
| Context.dfy | the greedy context compiler |
| Memory.dfy, Collections.dfy, Text.dfy | the memory record; hash-map iteration, stable sort, filtering; substrings, words, UTF-8 lengths |

Objects whose methods update their fields are classes. Each of their methods is proved against a
function on the value of the object (`Now()`, `items`, `sessions`, `local`), and the theorems are
about that function, over every sequence of operations. A disciplined run of a mission begins only
tasks handed out by `ready_tasks` and records outcomes only for running nodes, as both callers in
the repository do; pausing, resuming, cancelling, verifying, checkpointing and reclaiming may happen
at any point.

Where the code does less than its documentation says, the model follows the code:

- The vault documents that every known value is scrubbed (crates/igris-sandbox/src/lib.rs:163).
  A value that can overlap the replacement text `[redacted]` can reappear in the output, and values
  shorter than four bytes are not scrubbed. `AlwaysRemovedIffClear` gives the exact condition for
  every value, `OverlapLeaks` the text that leaks.
- A mission whose nodes are all done need not be completed: only a success or a verification looks,
  and only while the mission is running, and a later pause overwrites the state. Without pause and
  cancel the two agree at every moment (`CompletedIffAllDone`); `CompletedIffFinishedRunning` is the
  exact condition for every run. `PauseCanMissCompletion`, `PauseUndoesCompletion` and
  `PausedVerifyMissesCompletion` are runs that end all done, running, with nothing to hand out.
- `begin` does not check that the node is pending, so it can undo a completed one, exactly when it is
  called on a done node (`BeginKeepsDoneIffNotDone`); in every run it can be, as long as the mission is
  running (`DoneCanBeBegunIff`). `BeginUndoesDone` is a run and a node.
- Destructive requests are documented never to be fast-pathed (crates/igris-reflex/src/lib.rs:218).
  Phrases are looked for in the normalized text, which has lost the space at its end: a text that ends
  in the listed phrase "pay " can be answered at once, without approval (`TrailingPhraseIsLost`).
  `ApprovalIffSpelled` is the exact condition on the typed text; a phrase of one word is never lost
  (`WordSurvivesNormalizing`), one that ends in a space exactly where no word follows it
  (`SpacedSurvivesIff`).
- `compile` is documented to remove duplicate ids; it drops adjacent repeats only. It does so under
  every budget exactly when the sort brings equal ids together (`NeverRepeatsIffGrouped`);
  `RepeatedIdSelected` shows a selection that holds one id twice.
- The check is documented to let a live approval for the summary bypass the autonomy gate
  (crates/igris-policy/src/lib.rs:134). It asks only whether the request has been approved: neither the
  level nor the deadline of an approved request is looked at again. `ReadApprovalOpensDestruction` is a
  run, `GateOpensIff` the exact condition.
- Completing a file sets its byte count and confirms its chunks whatever was uploaded, so a session
  can be completed with nothing uploaded (`CompletedWithoutBytes`). `ConfirmedIff` says exactly when
  a chunk is confirmed, `CompletedHasBytesIff` when a completed session has all its bytes.
- Completing a transfer checks the checksum of one file only: `CompletedUnverified` is a run that
  ends completed with a checksum never looked at, `CompletionVerifiesIff` the exact condition.
- A local write overwrites unconditionally. It is what a merge would have done exactly under the
  condition of `PutLocalIsMergeIff`, and keeps a newest record in place exactly under that of
  `PutLocalHoldsIff`: when it is timely, that is, not older than what it replaces. Engines hold the
  newest of what they were given at all times exactly in timely histories (`AlwaysNewestIffTimely`);
  `OlderWriteDiverges` is an untimely one whose engine ends differently from one that merged the same
  records. Engines given the same records in timely histories always agree exactly when no id has two
  different newest records (`ConvergesIffOneWinner`, with `EqualStampsDiverge` for the other case).

## Model

| member | source | states |
|---|---|---|
| EditDistance.Levenshtein | crates/igris-voice/src/wake.rs:36-54 | the two-row loop, early exits included, returns the least number of insertions, deletions and substitutions over all edit scripts: one attains it, none beats it |
| EditDistance.DistIsMinimum | crates/igris-voice/src/wake.rs:45-53 | the recurrence the loop tabulates is the minimum over all scripts of single-character edits at any positions |
| EditDistance.NoScriptBeatsDist | crates/igris-voice/src/wake.rs:45-53 | every script turning one word into the other is at least as long as the distance |
| EditDistance.AttainUpTo | crates/igris-voice/src/wake.rs:45-53 | for every pair of prefixes a script of exactly the tabulated length exists |
| EditDistance.ZeroIffEqual | crates/igris-voice/src/wake.rs:36-54 | the distance is zero exactly for equal words |
| EditDistance.Symmetric | crates/igris-voice/src/wake.rs:36-54 | the distance is symmetric |
| EditDistance.Triangle | crates/igris-voice/src/wake.rs:36-54 | the distance obeys the triangle inequality |
| Wake.Matches | crates/igris-voice/src/wake.rs:26-33 | true exactly when the lower-cased transcript contains the phrase or one of its longest whitespace-free stretches is within the tolerance of it, counted in edits |
| Wake.HeardIff | crates/igris-voice/src/wake.rs:26-33 | heard exactly when the phrase stands somewhere in the lower-cased transcript, or at most the tolerated number of edits turns a stretch without whitespace into it |
| Wake.AriceIsHeard | crates/igris-voice/src/wake.rs:1-3 | the default matcher hears the word arice |
| Wake.FarLengthsAreNotHeard | crates/igris-voice/src/wake.rs:26-33 | a transcript that does not contain the phrase and whose words are all longer or shorter than it by more than the tolerance is not heard |
| Text.SplitListsRuns | crates/igris-voice/src/wake.rs:31 | splitting lists all the maximal stretches without whitespace, each once, from left to right |
| Missions.Mission.Add | crates/igris-orchestrator/src/lib.rs:130-135 | the node is stored under its id and its id appended to the order |
| MissionRuns.BuiltIsFresh | crates/igris-orchestrator/src/lib.rs:130-135 | a mission built by adding untouched nodes one by one is a fresh one, from which the runs below start |
| Missions.Mission.Begin | crates/igris-orchestrator/src/lib.rs:196-213 | the new mission or the error, in the order running, known, unblocked; an error changes nothing |
| Missions.Mission.RecordSuccess | crates/igris-orchestrator/src/lib.rs:215-226 | the whole new mission, refreshed; an unknown id only refreshes |
| Missions.Mission.RecordFailure | crates/igris-orchestrator/src/lib.rs:230-245 | the whole new mission; the flag says whether the node was requeued |
| Missions.Mission.VerifyNode | crates/igris-orchestrator/src/lib.rs:247-256 | only a completed node is verified, and the mission refreshed |
| Missions.Mission.RefreshState | crates/igris-orchestrator/src/lib.rs:258-267 | a running mission fails on a failed node, else completes when it is nonempty and all done |
| Missions.Mission.Cancel | crates/igris-orchestrator/src/lib.rs:164-171 | exactly the pending and running nodes are cancelled |
| Missions.Mission.ReclaimRunning | crates/igris-orchestrator/src/lib.rs:291-297 | exactly the running nodes go back to pending |
| Missions.Mission.Pause | crates/igris-orchestrator/src/lib.rs:154-156 | the mission is paused from any state |
| Missions.Mission.Resume | crates/igris-orchestrator/src/lib.rs:158-162 | only a paused mission is resumed |
| Missions.Mission.Checkpoint | crates/igris-orchestrator/src/lib.rs:144-148 | only the named node's checkpoint changes |
| MissionHistory.BeginAnswers | crates/igris-orchestrator/src/lib.rs:196-213 | which error begin answers, in which order, and that success changes only the one node, with one attempt more |
| MissionHistory.HandedOutIff | crates/igris-orchestrator/src/lib.rs:173-194 | a task is handed out exactly when the mission runs, it is pending, and each dependency is present, completed and verified where required |
| MissionHistory.NodeStateNext | crates/igris-orchestrator/src/lib.rs:164-297 | the state of a node after every kind of step, retries counted against the attempts made |
| MissionHistory.MissionStateNext | crates/igris-orchestrator/src/lib.rs:154-267 | the state of the mission after every kind of step |
| MissionHistory.FieldsFollowRun | crates/igris-orchestrator/src/lib.rs:144-256 | through retries, reclaims and pauses a node carries the checkpoint set last and the error of its last failure, is verified only by a step that verifies it, and stays the same task |
| MissionHistory.RunsKeepDepsDone | crates/igris-orchestrator/src/lib.rs:173-213 | in every run each dependency of a running or completed node is present, completed and verified where required |
| MissionHistory.ResumePointIsFirst | crates/igris-orchestrator/src/lib.rs:275-289 | the resume point is the first entry of the order that is running, or pending with all dependencies done |
| MissionHistory.ProgressIsPercentage | crates/igris-orchestrator/src/lib.rs:299-309 | progress is the percentage of the entries that are done, rounded down |
| MissionRuns.ReadyTasksAreReady | crates/igris-orchestrator/src/lib.rs:179-194 | the tasks handed out are exactly the pending nodes of a running mission whose dependencies are all done |
| MissionRuns.StepKeepsDepsFirst | crates/igris-orchestrator/src/lib.rs:164-267 | every disciplined step keeps: no node runs or has completed before all its dependencies are done |
| MissionRuns.FreshRunsAreSafe | crates/igris-orchestrator/src/lib.rs:164-267 | in every run from the start, running and completed nodes have their dependencies done, and a completed mission has every node done and verified where required |
| MissionRuns.DoneStaysDone | crates/igris-orchestrator/src/lib.rs:97-99 | done nodes stay done through every disciplined run, pauses, cancels and crashes included |
| MissionRuns.DoneWorkIsKept | crates/igris-orchestrator/src/lib.rs:1-5 | finished work is never restarted: a done node keeps its state and attempts in every run, and its checkpoint in every run that does not set it again |
| MissionRuns.CancelClosesAll | crates/igris-orchestrator/src/lib.rs:164-171 | cancelling leaves nothing pending or running and no done node undone |
| MissionRuns.CancelIsFinal | crates/igris-orchestrator/src/lib.rs:164-171 | once nothing is pending or running, no begin or outcome ever happens again, even after pause and resume |
| MissionRuns.EndedStaysEnded | crates/igris-orchestrator/src/lib.rs:158-162 | an ended mission keeps its state in every run without pause or cancel |
| MissionRuns.OnlyVerifyOpensGates | crates/igris-orchestrator/src/lib.rs:247-256 | a node that requires verification is never done in a run that does not verify it |
| MissionRuns.ProgressGrows | crates/igris-orchestrator/src/lib.rs:299-309 | progress never decreases and never exceeds 100 |
| MissionRuns.ProgressFullIffAllDone | crates/igris-orchestrator/src/lib.rs:299-309 | progress is 100 exactly when every node is done |
| MissionRuns.ReclaimKeepsWork | crates/igris-orchestrator/src/lib.rs:291-297 | reclaiming changes neither what is done nor checkpoints nor attempts nor what is satisfied |
| MissionRuns.ResumesWhereItStood | crates/igris-orchestrator/src/lib.rs:275-297 | in every reachable state the resume point is the same before and after reclaiming, and while the mission runs it is the first task handed out afterwards |
| MissionRuns.AttemptsBounded | crates/igris-orchestrator/src/lib.rs:228-245 | a node's attempts never exceed its retries plus one plus the times its lease was reclaimed |
| MissionRuns.NoneFailsEarly | crates/igris-orchestrator/src/lib.rs:228-245 | no node fails before it has used every retry granted |
| MissionCompletion.CompletedNext | crates/igris-orchestrator/src/lib.rs:154-267 | one step: a mission is completed after it exactly when it was and is not interrupted, or was running and a success or verification leaves all done |
| MissionCompletion.LastSuccessCompletes | crates/igris-orchestrator/src/lib.rs:215-267 | after a success the mission is completed exactly when it was before, or was running and every node is now done |
| MissionCompletion.CompletedIffAllDone | crates/igris-orchestrator/src/lib.rs:215-267 | in every run without pause and cancel a nonempty mission is completed exactly when every node is done |
| MissionCompletion.CompletedIffFinishedRunning | crates/igris-orchestrator/src/lib.rs:154-267 | in any run the mission ends completed exactly when some success or verification found all done while it was running and no pause or cancel follows |
| MissionCompletion.PauseCanMissCompletion | crates/igris-orchestrator/src/lib.rs:154-162 | the last success comes while the mission is paused: it ends all done, running, with nothing to hand out |
| MissionCompletion.PauseUndoesCompletion | crates/igris-orchestrator/src/lib.rs:154-162 | a completed mission that is paused and resumed runs again with nothing to hand out |
| MissionCompletion.PausedVerifyMissesCompletion | crates/igris-orchestrator/src/lib.rs:247-267 | the last verification comes while the mission is paused, with the same end |
| MissionRuns.BeginKeepsDoneIffNotDone | crates/igris-orchestrator/src/lib.rs:196-213 | outside the discipline, a successful begin undoes done work exactly when it is called on a done node |
| MissionRuns.DoneCanBeBegunIff | crates/igris-orchestrator/src/lib.rs:196-213 | after any run, begin succeeds on a done node, and undoes it, exactly while the mission is running |
| MissionRuns.BeginUndoesDone | crates/igris-orchestrator/src/lib.rs:196-213 | a disciplined run after which begin on a done node succeeds and undoes it |
| TaskGraph.AllRunnableIff | crates/igris-orchestrator/src/lib.rs:173-177 | without verification gates, every node is runnable exactly when the graph is closed and acyclic |
| TaskGraph.StuckIsNotRunnable | crates/igris-orchestrator/src/lib.rs:173-177 | nodes that wait for one another, or for something missing or gated, have a dependency path that is broken or cyclic |
| TaskGraph.StartedIsRunnable | crates/igris-orchestrator/src/lib.rs:173-177 | whatever can be listed after its dependencies has only complete, ungated, acyclic dependency paths |
| MissionTermination.WorkSpends | crates/igris-orchestrator/src/lib.rs:196-245 | every begin, success and failure strictly lowers the measure, and each begin spends an attempt |
| MissionTermination.WorkTerminates | crates/igris-orchestrator/src/lib.rs:196-245 | any interleaving has at most the sum of retries plus one begins, and twice as many steps |
| MissionTermination.WorkIsBounded | crates/igris-orchestrator/src/lib.rs:196-297 | in any run, crashes, pauses and verifications included, there are at most two work steps for each attempt granted and each lease reclaimed |
| MissionTermination.NoDeadlock | crates/igris-orchestrator/src/lib.rs:180-297 | over a nonempty closed acyclic graph, gates allowed, a run without pause and cancel that can do no more work and leaves nothing to verify has ended completed or failed |
| MissionTermination.UngatedNoDeadlock | crates/igris-orchestrator/src/lib.rs:180-297 | without gates, whenever no more work can be done |
| MissionTermination.DoneIsRunnable | crates/igris-orchestrator/src/lib.rs:173-256 | on any graph and in any run, crashes and cancels included, only nodes without missing or cyclic dependencies get done |
| MissionTermination.DoneIffRunnable | crates/igris-orchestrator/src/lib.rs:173-297 | on any graph, a run without pause and cancel that can do no more work, leaves nothing to verify and has not failed has done exactly those nodes |
| MissionTermination.OutcomeIsScheduleFree | crates/igris-orchestrator/src/lib.rs:173-297 | any two such runs have done the same nodes and end in the same state |
| MissionDrive.Drive | apps/cli/src/main.rs:136-141 | the loop ends and begin never fails; it always starts the first waiting node of the order; exactly the nodes with complete, ungated, acyclic dependencies have run, once and after their dependencies, with one attempt more and the checkpoint set, and all other nodes are unchanged; the log lists them with the progress; without gates the mission completes exactly when it is nonempty, closed and acyclic |
| MissionDrive.QuietMeansRunnableStarted | apps/cli/src/main.rs:136-141 | when nothing is ready, the nodes started are exactly the runnable ones |
| Sync.StampOrder | crates/igris-device/src/sync.rs:19-24 | superseding is a strict total order on stamps of time and device id |
| StringOrder.StringLessIff | crates/igris-device/src/sync.rs:21-23 | device ids are compared by proper prefix or by the first character that differs |
| Sync.NoNewerIff | crates/igris-device/src/sync.rs:19-24 | a record is not superseded by one that is older, or as old and from a device id that does not come after |
| Sync.SyncEngine.PutLocal | crates/igris-device/src/sync.rs:43-45 | a local write replaces whatever was there |
| Sync.SyncEngine.MergeBatch | crates/igris-device/src/sync.rs:55-87 | the store and report are those of taking the records one by one; for each id what is held afterwards is latest by time and then device of what was held and brought; the report counts the live records taken, the tombstones taken and the rest |
| Sync.SyncEngine.DeltaSince | crates/igris-device/src/sync.rs:89-96 | exactly the records newer than the given time, each once |
| Sync.SyncEngine.Live | crates/igris-device/src/sync.rs:51-53 | exactly the records that are not tombstones, each once |
| Sync.MergeAllKeyed | crates/igris-device/src/sync.rs:56-87 | merging keeps every record under its own id, as local writes do |
| Sync.MergeAllHolds | crates/igris-device/src/sync.rs:56-87 | merging a batch keeps: for each id the store holds a newest record it was ever given |
| Sync.MergeKeepsLatest | crates/igris-device/src/sync.rs:56-87 | after any batch no record held before or brought has a later time, or an equal time and a later device id, than the one held |
| Sync.ReportCounts | crates/igris-device/src/sync.rs:31-87 | the applied and tombstone counters are the numbers of live and deleted records that were new or later than the resident one when their turn came |
| Sync.MergeIsOrderFree | crates/igris-device/src/sync.rs:56-87 | batches bringing the same records, in any order, split or repeated, give the same store |
| Sync.PutLocalHoldsIff | crates/igris-device/src/sync.rs:43-45 | a local write keeps the newest-record invariant exactly when it is not older than what it replaces |
| Sync.PutLocalIsMergeIff | crates/igris-device/src/sync.rs:43-87 | a local write does what a merge would do exactly when the record is new, newer or already there |
| Sync.EnginesHoldWinners | crates/igris-device/src/sync.rs:43-87 | in every history with timely local writes each engine holds for each id a record it was given that none given supersedes |
| Sync.EnginesHoldLatest | crates/igris-device/src/sync.rs:43-87 | in every history whose local writes are not older than what they replace, each engine holds for each id the record given last, by time and then by device |
| Sync.TimelyIffOnTime | crates/igris-device/src/sync.rs:43-45 | a history is timely exactly when no local write has an earlier time, or an equal time and an earlier device id, than the resident record |
| Sync.AlwaysNewestIffTimely | crates/igris-device/src/sync.rs:43-87 | every engine holds at every moment the newest of what it has been given exactly when every local write is timely |
| Sync.ReplicasConverge | crates/igris-device/src/sync.rs:1-5 | engines given the same records in whatever timely histories hold equal stores, if no id has two different newest records |
| Sync.ConsistentHasOneWinner | crates/igris-device/src/sync.rs:19-24 | so it is when one id and stamp mean one record |
| Sync.ConvergesIffOneWinner | crates/igris-device/src/sync.rs:1-87 | engines given the same records always agree, whatever their timely histories, exactly when no id has two different newest records |
| Sync.EqualStampsDiverge | crates/igris-device/src/sync.rs:43-71 | two records of one id and stamp: an engine that merges one and writes the other locally ends differently from one that merges both |
| Sync.OlderWriteDiverges | crates/igris-device/src/sync.rs:43-45 | a local write older than the resident record: the same records with one winner, and a store that differs from merging them |
| Sync.DeltaIsEnoughIff | crates/igris-device/src/sync.rs:89-96 | merging the delta equals merging everything exactly when the receiver is up to date with the sender's older records |
| Sync.DeltaHoldsBoth | crates/igris-device/src/sync.rs:56-96 | merging the delta into an up-to-date store leaves, for each id, the newest record of the two stores |
| Sync.ExchangeConverges | crates/igris-device/src/sync.rs:56-96 | one delta each way between mutually up-to-date engines leaves both with equal stores |
| Sync.TombstoneHolds | crates/igris-device/src/sync.rs:150-163 | live copies no newer than a tombstone never revive it |
| Sync.CountsAddUp | crates/igris-device/src/sync.rs:31-36 | every record of a batch is counted exactly once |
| Sync.RedeliveryIsStale | crates/igris-device/src/sync.rs:68-71 | records the store already covers change nothing and count as stale |
| Neighbors.EdgeRows | crates/igris-memory/src/lib.rs:562-565 | the rows are exactly the nodes joined to the current one by an edge in either direction, each once |
| Neighbors.DistanceSymmetric | crates/igris-memory/src/lib.rs:562-565 | edges are followed both ways: distances are symmetric |
| Neighbors.SeenUpToFrontier | crates/igris-memory/src/lib.rs:558-572 | at every point of the search everything as near as the queue's head has been seen |
| Neighbors.SeeNew | crates/igris-memory/src/lib.rs:566-569 | a row not seen before lies exactly one hop further out than the node being expanded |
| Neighbors.NeighborIds | crates/igris-memory/src/lib.rs:553-572 | for any depth: exactly the ids at distance one up to the depth, each once, never the start, nearest first |
| Neighbors.FindNeighbors | crates/igris-memory/src/lib.rs:469-585 | exactly the records not deleted, without expiry or expiring later than now, within the depth and three hops, each once, nearest first, with hops through dead records counted |
| Redaction.SecretsVault.Set | crates/igris-sandbox/src/lib.rs:140-150 | a value is stored exactly when the key is not blank, the value not empty and the key new |
| Redaction.SecretsVault.Redact | crates/igris-sandbox/src/lib.rs:163-174 | the text scrubbed by all values longest first: no clear value of four bytes or more remains, a text without such values is unchanged, and a secret alone becomes the marker |
| Redaction.ReplaceLeavesNone | crates/igris-sandbox/src/lib.rs:168-172 | one replacement removes the value replaced and never creates another clear value |
| Text.ReplaceKeepsPieces | crates/igris-sandbox/src/lib.rs:171 | replacing leaves everything around the occurrences, found from left to right, as it was |
| Text.ByteLenCounts | crates/igris-sandbox/src/lib.rs:167-170 | lengths are in bytes: one for each character and one more from U+0080, from U+0800 and from U+10000 on |
| Redaction.SecretGoesWhole | crates/igris-sandbox/src/lib.rs:166-172 | because the longest go first, a secret standing alone is replaced as a whole whatever shorter secrets it contains |
| Redaction.ScrubAllRemoves | crates/igris-sandbox/src/lib.rs:163-174 | a clear value is gone from the output whatever the other values are and in whatever order they are scrubbed |
| Redaction.ScrubAllIdempotent | crates/igris-sandbox/src/lib.rs:163-174 | scrubbing twice, even in another order, is scrubbing once |
| Redaction.ClearWithoutBrackets | crates/igris-sandbox/src/lib.rs:171 | a value without square brackets is clear exactly when it is no part of the word redacted |
| Redaction.OverlapLeaks | crates/igris-sandbox/src/lib.rs:163-174 | for every value that can overlap the marker there are a second secret and a text whose scrubbed form contains the value |
| Redaction.AlwaysRemovedIffClear | crates/igris-sandbox/src/lib.rs:163-174 | a value is removed from every text by every vault holding it exactly when it has four bytes or more and cannot overlap the marker |
| Vad.Detector.Ingest | crates/igris-voice/src/vad.rs:117-137 | the new detector state and the segment, if one closes |
| Vad.StateOfStream | crates/igris-voice/src/vad.rs:87-93 | the detector is speaking exactly while the silence since the last speech frame is shorter than the hangover, and idle means an empty buffer |
| Vad.ClosesExactly | crates/igris-voice/src/vad.rs:125-133 | a segment closes exactly on the max(1, hangover)-th silent frame in a row after speech |
| Vad.NothingLost | crates/igris-voice/src/vad.rs:117-137 | the segments in order and then the open buffer are exactly the samples of the speech frames |
| Vad.ClosedMeansAllOut | crates/igris-voice/src/vad.rs:127-130 | at a close all speech so far has been handed out |
| Pipeline.ScriptStt.Transcribe | crates/igris-voice/src/pipeline.rs:55-65 | every call is counted; an empty segment or an exhausted script gives no transcript |
| Pipeline.RecordingTts.Speak | crates/igris-voice/src/pipeline.rs:76-79 | the utterance is kept and synthesis goes live |
| Pipeline.RecordingTts.Cancel | crates/igris-voice/src/pipeline.rs:81-86 | only live synthesis is cancelled and counted |
| Pipeline.FastPathAlwaysSpeaks | crates/igris-voice/src/pipeline.rs:126-133 | every intent decided without reasoning has an acknowledgement |
| Pipeline.VoicePipeline.Ingest | crates/igris-voice/src/pipeline.rs:180-237 | the new pipeline value and the events of one frame |
| Pipeline.VoicePipeline.Respond | crates/igris-voice/src/pipeline.rs:204-231 | the wake check, the decision and the acknowledgement for a transcript |
| Pipeline.VoicePipeline.InterruptNow | crates/igris-voice/src/pipeline.rs:167-176 | live synthesis is cancelled and reported, otherwise nothing happens |
| Pipeline.IngestPromise | crates/igris-voice/src/pipeline.rs:180-237 | each frame keeps the product invariant, and a closed segment costs one transcription and has exactly one outcome |
| Outcomes.NotHeardIsIgnored | crates/igris-voice/src/pipeline.rs:204-208 | a transcript without the wake word is ignored: nothing is spoken and the pipeline is idle |
| Outcomes.HeardIsEscalated | crates/igris-voice/src/pipeline.rs:209-218 | a heard transcript that needs reasoning is reported and escalated under its intent, and nothing is spoken |
| Outcomes.HeardIsAnswered | crates/igris-voice/src/pipeline.rs:209-231 | a heard transcript that needs none is reported, and the acknowledgement of its intent is spoken |
| Outcomes.NotUnderstoodFails | crates/igris-voice/src/pipeline.rs:198-203 | a segment without transcript is reported as failed |
| Outcomes.OpenFrames | crates/igris-voice/src/pipeline.rs:180-196 | a frame that closes no segment barges in, begins speech, or reports nothing |
| Outcomes.OutcomeIff | crates/igris-voice/src/pipeline.rs:204-231 | ignored exactly when not heard, woken exactly when heard, escalated exactly when heard and in need of reasoning, fast exactly when heard and not |
| Outcomes.RunsFollowTranscripts | crates/igris-voice/src/pipeline.rs:167-237 | over all interleavings the transcripts are used in order, each with its own outcome, and what is spoken are the acknowledgements of exactly those heard and decided at once |
| Pipeline.RunsAreCoherent | crates/igris-voice/src/pipeline.rs:167-237 | for all interleavings of frames and interrupts: speaking, live synthesis and the barge-in flag coincide over an idle detector, utterances are cancellations plus the live one, transcriptions equal outcomes and utterances equal fast paths |
| Pipeline.SamplesConserved | crates/igris-voice/src/pipeline.rs:180-237 | over all interleavings, what is sent to transcription and then the open buffer are exactly the samples of the speech frames that did not barge in |
| Pipeline.AllSpeechKeptIff | crates/igris-voice/src/pipeline.rs:180-188 | all speech is sent or still buffered exactly when no frame with samples has barged in |
| Pipeline.VoicePipeline.constructor | crates/igris-voice/src/pipeline.rs:147-156 | the default detector, wake phrase and phrase lists; the invariant holds at the start exactly when the speech sink is quiet and has spoken nothing it has not cancelled |
| Reflex.FastPathIff | crates/igris-reflex/src/lib.rs:194-413 | exactly which normalized texts are answered without reasoning, and with which intent |
| Decisions.IntentIff | crates/igris-reflex/src/lib.rs:217-412 | which phrases decide which intent, for all seven |
| Decisions.TransferDecision | crates/igris-reflex/src/lib.rs:257-288 | a transfer goes to the first listed device the text names, with the tool and scope of a transfer, and needs reasoning exactly when none is named |
| Decisions.TransferTarget | crates/igris-reflex/src/lib.rs:258-262 | the laptop before the phone before the server |
| Decisions.RiskyDecision | crates/igris-reflex/src/lib.rs:217-255 | the whole decision for a risky text, with its confidence from the number of phrases hit |
| Decisions.StatusDecision | crates/igris-reflex/src/lib.rs:290-317 | the whole decision for a status question |
| Decisions.RecallDecision | crates/igris-reflex/src/lib.rs:319-346 | the whole decision for a memory question |
| Decisions.CommunicationDecision | crates/igris-reflex/src/lib.rs:348-363 | the whole decision for a draft or reminder |
| Decisions.ToolDecision | crates/igris-reflex/src/lib.rs:365-398 | the whole decision for a local task, with its tool: browser, app launcher or terminal |
| Decisions.GeneralDecision | crates/igris-reflex/src/lib.rs:400-412 | everything else takes reasoning |
| Decisions.DestructiveMeans | crates/igris-reflex/src/lib.rs:219-230 | the seven phrases that count as destructive |
| Decisions.ExternalSendMeans | crates/igris-reflex/src/lib.rs:231-240 | the five phrases that count as sent outside |
| Decisions.VerbsMean | crates/igris-reflex/src/lib.rs:263 | the five verbs of a transfer |
| Decisions.PayloadsMean | crates/igris-reflex/src/lib.rs:264-269 | the eight things that can be transferred |
| Decisions.StatusMeans | crates/igris-reflex/src/lib.rs:291-303 | the eight phrases that ask about the device |
| Decisions.RecallMeans | crates/igris-reflex/src/lib.rs:320-332 | the eight phrases that ask about the past |
| Decisions.CommunicationMeans | crates/igris-reflex/src/lib.rs:349 | the five phrases that ask for a message |
| Decisions.ToolsMean | crates/igris-reflex/src/lib.rs:366-377 | the seven phrases that ask for a local task |
| Decisions.PolicyEscalates | crates/igris-reflex/src/lib.rs:92-105 | for any policy, exactly when reasoning and approval are added, and that nothing else changes |
| Reflex.RiskyNeverFast | crates/igris-reflex/src/lib.rs:217-255 | when the normalized text hits a destructive or external phrase, reasoning and approval are required |
| Reflex.NamedRiskNeedsApproval | crates/igris-reflex/src/lib.rs:194-255 | a text whose normalized form contains any of the phrases listed in the source as destructive or external asks for reasoning and approval |
| Phrases.NormalizedHasPhraseIff | crates/igris-reflex/src/lib.rs:202-211 | a phrase that begins with a letter is found in the normalized text exactly when the typed one spells it out, with any whitespace and then a word for each of its spaces |
| Phrases.WordSurvivesNormalizing | crates/igris-reflex/src/lib.rs:202-211 | a phrase without whitespace is found exactly when the typed text contains it |
| Phrases.SpacedSurvivesIff | crates/igris-reflex/src/lib.rs:202-211 | a word listed with a space behind it is found exactly when some occurrence is followed by whitespace and another word |
| Phrases.ApprovalIffSpelled | crates/igris-reflex/src/lib.rs:194-255 | approval, and with it reasoning, is asked for exactly when the typed text spells out a phrase listed as destructive or external |
| Phrases.TrailingPhraseIsLost | crates/igris-reflex/src/lib.rs:202-232 | a text that ends in the destructive phrase "pay " is answered at once and without approval |
| ReflexCache.DecisionCache.Get | crates/igris-reflex/src/lib.rs:124-134 | a hit is counted and marked, a miss is counted |
| ReflexCache.DecisionCache.Put | crates/igris-reflex/src/lib.rs:136-147 | a new key is queued and the oldest evicted past 256 entries |
| ReflexCache.CacheIsTransparent | crates/igris-reflex/src/lib.rs:124-192 | for every call sequence the queue is exactly the last 256 missed keys, duplicate-free and the cached keys; hits and misses add up to the calls; each answer is the stateless one except for its mark |
| ReflexCache.Engine.Ask | crates/igris-reflex/src/lib.rs:182-192 | the answer is the stateless decision, marked exactly when its key is among the last 256 missed |
| Approvals.ApprovalStore.Settle | crates/igris-policy/src/lib.rs:210-218 | a request is settled exactly when it is pending and its deadline has not passed |
| Approvals.ApprovalStore.Sweep | crates/igris-policy/src/lib.rs:220-226 | only the request looked at expires, and only past its deadline |
| Approvals.ApprovalStore.Find | crates/igris-policy/src/lib.rs:228-231 | the request as it stands after expiry |
| Approvals.ApprovalStore.CheckApproved | crates/igris-policy/src/lib.rs:233-239 | true exactly for an approved request |
| Approvals.LazyIsEager | crates/igris-policy/src/lib.rs:185-239 | for every call sequence with nondecreasing time the answers equal those of a store that expires each request at its deadline |
| Approvals.SettledOnce | crates/igris-policy/src/lib.rs:202-218 | at most one settle of a request succeeds in any run |
| Approvals.ApprovalsAreTimely | crates/igris-policy/src/lib.rs:202-218 | whatever is approved was approved by some call no later than its deadline |
| Approvals.CheckWithApproval | crates/igris-policy/src/lib.rs:134-150 | the answer of the gate on the present store; admitted exactly when the kill switch is off and the request is approved or the autonomy gate admits the level alone |
| Approvals.ApprovedIff | crates/igris-policy/src/lib.rs:202-239 | after any run exactly the requests approved in time are approved |
| Approvals.CallMeans | crates/igris-policy/src/lib.rs:202-239 | what each call answers and does, from the state, the deadline and the time |
| Approvals.ApprovedIffCalled | crates/igris-policy/src/lib.rs:185-239 | a request is approved exactly when some call approved it no later than its time to live after it was asked for, and nobody had answered it before |
| Approvals.AdmitsExactly | crates/igris-policy/src/lib.rs:102-131 | which levels each cap admits without approval, one by one, and what is answered otherwise |
| Approvals.DestructiveNeedsTopCap | crates/igris-policy/src/lib.rs:102-131 | nothing destructive is admitted alone under a cap below the top |
| Approvals.AdmissionIsMonotone | crates/igris-policy/src/lib.rs:102-131 | admission extends to lower levels, larger caps, more autonomy and less risk |
| Approvals.GateOpensIff | crates/igris-policy/src/lib.rs:102-150 | after any run the check answers yes exactly when the kill switch is off and the request was approved in time or the policy admits the level alone |
| Approvals.ApprovalOpensAnyLevel | crates/igris-policy/src/lib.rs:134-150 | an approved request opens the gate for every level and at any time, whatever it was asked for |
| Approvals.ReadApprovalOpensDestruction | crates/igris-policy/src/lib.rs:134-150 | an approval asked for reading admits a destructive level after its deadline |
| Audit.AuditLog.Record | crates/igris-policy/src/lib.rs:302-319 | one chained entry is appended; a log built so verifies and numbers its entries by position |
| Audit.AuditLog.VerifyChain | crates/igris-policy/src/lib.rs:321-342 | true exactly when every entry names its predecessor's hash and carries its own |
| Audit.EndHashCommits | crates/igris-policy/src/lib.rs:257-342 | two verified logs of one length and end hash agree on every hashed field, or a concrete collision is exhibited |
| Audit.EndHashCommitsToLength | crates/igris-policy/src/lib.rs:257-342 | verified logs of any two lengths with one end hash agree, or a collision or an entry that hashes to 0 is exhibited |
| Audit.TruncationIsEvident | crates/igris-policy/src/lib.rs:257-342 | cutting a log short moves the end hash, or needs a collision or an entry that hashes to 0 |
| Audit.RewriteIsEvident | crates/igris-policy/src/lib.rs:253-342 | rewriting an entry breaks the chain, moves the end hash or needs a collision |
| Transfer.FileProgress.NoteBytes | crates/igris-device/src/transfer.rs:53-65 | the bitset after more bytes, changed in place |
| Transfer.FileProgress.MissingChunks | crates/igris-device/src/transfer.rs:67-74 | the indices of the unconfirmed chunks in order |
| Transfer.NotedIsExact | crates/igris-device/src/transfer.rs:43-65 | after bytes are noted a chunk is confirmed exactly when the bytes up to its end, or the whole file, have arrived |
| Transfer.NewIsSound | crates/igris-device/src/transfer.rs:43-51 | a new file confirms nothing, which is exact unless the file is empty |
| Transfer.ChunksHoldFile | crates/igris-device/src/transfer.rs:43-51 | the chunks are the fewest mebibytes that hold the file, one for an empty file |
| Transfer.SplittingIsFree | crates/igris-device/src/transfer.rs:53-65 | any sequence of uploads leaves the same progress as one upload of their sum |
| Transfer.ResumeIsSuffix | crates/igris-device/src/transfer.rs:67-74 | the resume list is every chunk from the first incomplete one, and empty exactly when all bytes are in |
| Transfer.SessionManager.Prepare | crates/igris-device/src/transfer.rs:124-148 | an empty offer is refused; otherwise the session awaits approval with its files by name, and its id and the token of each file are returned |
| Transfer.SessionManager.Approve | crates/igris-device/src/transfer.rs:150-160 | only a session awaiting approval starts transferring |
| Transfer.SessionManager.Deny | crates/igris-device/src/transfer.rs:162-172 | only a session awaiting approval is denied |
| Transfer.SessionManager.NoteBytes | crates/igris-device/src/transfer.rs:188-208 | bytes count only for a known file, the right token and a transferring session, with the errors in that order |
| Transfer.SessionManager.Complete | crates/igris-device/src/transfer.rs:221-260 | the whole new state: failed on a checksum mismatch, completed when no file misses a chunk |
| Transfer.SessionManager.SweepExpired | crates/igris-device/src/transfer.rs:267-288 | exactly the sessions past their time limit expire, and their number is returned |
| Transfer.UploadAnswers | crates/igris-device/src/transfer.rs:174-208 | an upload is accepted exactly for a known file, its own token and a transferring session, changes only that file, and otherwise nothing |
| Transfer.FinishAnswers | crates/igris-device/src/transfer.rs:221-260 | a completion is accepted exactly for a known file of a transferring session whose checksum, if offered, is the one presented; a wrong one fails the session |
| Transfer.SweepExpires | crates/igris-device/src/transfer.rs:11-13 | two minutes to be approved, ten to be transferred, and no other session expires |
| TransferRuns.FilesAreLastNamed | crates/igris-device/src/transfer.rs:137-145 | the files of an offer are the last offered under each name, with their tokens |
| TransferRuns.UploadNeedsOfferedToken | crates/igris-device/src/transfer.rs:174-208 | after any run an upload is accepted exactly when the session is transferring and the token is the one offered for the file |
| TransferRuns.BytesNeedToken | crates/igris-device/src/transfer.rs:188-260 | the bytes counted for a file change only through its completion or an upload that carries its token |
| Transfer.TerminalFreezes | crates/igris-device/src/transfer.rs:150-288 | a completed, denied, expired or failed session never changes again |
| Transfer.CompletedMissesNothing | crates/igris-device/src/transfer.rs:249-259 | in every run a completed session misses no chunk of any file |
| Transfer.RunsStayInStep | crates/igris-device/src/transfer.rs:124-288 | in every run the bits of each file agree with the byte count the session keeps: exactly for a nonempty file, nothing too much for an empty one |
| Transfer.SessionResumeIsSuffix | crates/igris-device/src/transfer.rs:210-219 | in every run the resume list of every file is all chunks from some chunk on |
| TransferRuns.ConfirmedIff | crates/igris-device/src/transfer.rs:124-288 | in every run a chunk is confirmed exactly when the uploads accepted cover it (for an empty file: when there was one) or an accepted completion named the file |
| TransferRuns.CompletedHasBytesIff | crates/igris-device/src/transfer.rs:221-260 | a completed session has all its bytes exactly when the files completed with chunks missing were uploaded in full nevertheless; without uploads to completed files, exactly when no nonempty file was completed with chunks missing |
| TransferRuns.FinishHasBytesIff | crates/igris-device/src/transfer.rs:210-260 | before its first completion all bytes of a nonempty file have been uploaded exactly when the resume list is empty |
| TransferRuns.CompletedWithoutBytes | crates/igris-device/src/transfer.rs:249-257 | one file without a checksum, completed at once: the session is completed, every chunk confirmed, nothing uploaded |
| TransferRuns.CompletionVerifiesIff | crates/igris-device/src/transfer.rs:221-260 | when completing a file ends the session, every checksum offered has been verified exactly when every other file with one had been completed before |
| TransferRuns.CompletedUnverified | crates/igris-device/src/transfer.rs:221-260 | a run that ends completed with the checksum of an uploaded file never looked at |
| Transfer.CompletesIff | crates/igris-device/src/transfer.rs:221-260 | completing a file ends the session exactly when its own checksum fits and no other file misses a chunk |
| Context.Compile | crates/igris-context/src/lib.rs:14-37 | the exact size in bytes of the texts selected, within the budget; the items ranked by importance; for distinct ids they are a subsequence of the importance order, with what is left out they are the input, and nothing left out fits |
| Context.GreedyIsMaximal | crates/igris-context/src/lib.rs:22-31 | the selection stays within the budget and nothing left out fits in what remains |
| Context.GreedySplits | crates/igris-context/src/lib.rs:22-31 | every record is taken or left out, none twice |
| Context.DedupKeepsFirsts | crates/igris-context/src/lib.rs:21 | of each stretch of equal ids the first record is kept, in order |
| Context.DedupCompleteIffGrouped | crates/igris-context/src/lib.rs:21 | adjacent deduplication removes every repeated id exactly when equal ids stand together |
| Context.NeverRepeatsIffGrouped | crates/igris-context/src/lib.rs:14-31 | under no budget is an id selected twice exactly when the sort brings equal ids together |
| Context.RepeatedIdSelected | crates/igris-context/src/lib.rs:14-31 | two copies ranked around another record are both selected exactly when the budget holds all three |
| Collections.SortSorts | crates/igris-context/src/lib.rs:16-20 | the library sort descends, permutes and keeps the order of equal keys |

## Left out

- Undisciplined use of missions: `mark` and `start` set states directly, `add` during a run changes the graph; only `begin` outside the discipline is looked at.
- Missions.Mission.Begin: does not model the 32-bit limit of the attempt counter, which is unbounded here.
- Transfer.FileProgress.NoteBytes: does not model 64-bit overflow of the byte count, which is unbounded here.
- Transfer.SessionManager.NoteBytes: updates the file's progress as a value inside the session map; the bitset in place is `FileProgress`.
- Transfer.SessionManager.Complete: takes the checksum of the presented bytes as a parameter instead of computing it.
- Vad.Detector.Ingest: the energy and zero-crossing gate is a given predicate on frames; its floating-point arithmetic is not modelled.
- Reflex.FastPathIff: confidences are real numbers, not 32-bit floats.
- Context.Compile: importances are real numbers, so the incomparable NaN does not occur.
- Pipeline.RunsAreCoherent: the transcript source and speech sink are the repository's scripted and recording ones, and single-threaded; the barge-in flag is a field rather than a shared atomic.
- Audit.AuditLog.Record: the entry time is its RFC 3339 text, and 64-bit hashes are natural numbers.
- Neighbors.FindNeighbors: the edge table is a finite set and the memory table a map; identifiers that do not parse and database errors are not modelled.
- Redaction.SecretsVault.Set: the two refusals for a blank key and an empty value are one error without its message.
- ApprovalStore.pending, which does not look at the clock, and the kill switch as a shared flag.
- Retry delays, per-attempt timeouts and `run_with_timeout`: clocks outside the scheduler.
- JSON persistence of missions and records: taken as the identity.
- Pairing, TLS, discovery, trust, routing scores, ranking, tools, skills, agents, vision and the user interfaces: I/O, floating point or members without further properties.
