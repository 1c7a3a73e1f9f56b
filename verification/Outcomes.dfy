/** What the voice pipeline says and does for each transcript, and so over any run. */
module Outcomes {
  import opened Collections
  import opened Text
  import opened Pipeline
  import V = Vad
  import W = Wake
  import R = Reflex

  // ------------------------------------------------------------ one segment

  /** The segment that this frame closes. */
  function SegmentOf(c: Setup, p: PipeValue, frame: V.AudioFrame): seq<real>
    requires Closes(c, p, frame)
  {
    V.Fed(c.vad, p.vad, frame).1.value
  }

  /** The closed segment gets a transcript, the next of the script. */
  predicate Understood(c: Setup, p: PipeValue, frame: V.AudioFrame) {
    Closes(c, p, frame) && SegmentOf(c, p, frame) != [] && p.stt.queue != []
  }

  ghost predicate Woken(c: Setup, transcript: string) {
    W.Hears(c.wake, c.u, transcript)
  }

  predicate Quick(c: Setup, transcript: string) {
    !R.Decide(c.u, c.lex, transcript).requiresReasoning
  }

  /** The name under which an intent is reported. */
  predicate Names(intent: R.Intent, name: string) {
    && (intent == R.DeviceTransfer ==> name == "device_transfer")
    && (intent == R.DeviceStatus ==> name == "device_status")
    && (intent == R.MemoryQuery ==> name == "memory_query")
    && (intent == R.ToolExec ==> name == "tool_exec")
    && (intent == R.Communication ==> name == "communication")
    && (intent == R.RiskyOp ==> name == "risky_op")
    && (intent == R.General ==> name == "general")
  }

  /** The acknowledgement of an intent that is answered at once. */
  predicate Acknowledges(intent: R.Intent, ack: string) {
    && (intent == R.DeviceTransfer ==> ack == "On it \U{2014} sending.")
    && (intent == R.DeviceStatus ==> ack == "Checking now.")
    && (intent == R.MemoryQuery ==> ack == "Recalling.")
    && (intent == R.DeviceTransfer || intent == R.DeviceStatus || intent == R.MemoryQuery)
  }

  function IntentOf(c: Setup, transcript: string): R.Intent {
    R.Decide(c.u, c.lex, transcript).intent
  }

  function AckOf(c: Setup, transcript: string): string {
    var ack := FastAck(IntentToKey(IntentOf(c, transcript)));
    if ack.Some? then ack.value else ""
  }

  lemma NamesAndAcks(c: Setup, transcript: string)
    ensures Names(IntentOf(c, transcript), IntentToKey(IntentOf(c, transcript)))
    ensures Quick(c, transcript) ==> Acknowledges(IntentOf(c, transcript), AckOf(c, transcript))
    ensures Quick(c, transcript) ==> FastAck(IntentToKey(IntentOf(c, transcript))) == Some(AckOf(c, transcript))
  {
    if Quick(c, transcript) {
      QuickIntents(c, transcript);
    }
  }

  lemma QuickIntents(c: Setup, transcript: string)
    requires Quick(c, transcript)
    ensures var intent := IntentOf(c, transcript);
            intent == R.DeviceTransfer || intent == R.DeviceStatus || intent == R.MemoryQuery
  {
    R.FastPathIff(c.u, c.lex, transcript);
  }

  lemma ClosedIsHeard(c: Setup, p: PipeValue, frame: V.AudioFrame)
    requires Understood(c, p, frame)
    ensures var stt := SttValue(p.stt.queue[1..], p.stt.calls + 1);
            var q := p.(vad := V.Fed(c.vad, p.vad, frame).0, stt := stt, state := Processing);
            Ingested(c, p, frame) == Heard(c, q, p.stt.queue[0])
  {
  }

  /** Not heard: ignored, and nothing else changes. */
  lemma NotHeardIsIgnored(c: Setup, p: PipeValue, frame: V.AudioFrame)
    requires Understood(c, p, frame) && !Woken(c, p.stt.queue[0])
    ensures var (p', events) := Ingested(c, p, frame);
            && events == [IgnoredNoWake] && p'.state == Idle && p'.tts == p.tts && p'.bargeIn == p.bargeIn
            && p'.stt.queue == p.stt.queue[1..]
  {
    ClosedIsHeard(c, p, frame);
  }

  function KeyOf(c: Setup, transcript: string): string {
    IntentToKey(IntentOf(c, transcript))
  }

  /** Heard, and the decision takes reasoning: escalated under the name of its intent, nothing spoken. */
  lemma HeardIsEscalated(c: Setup, p: PipeValue, frame: V.AudioFrame)
    requires Understood(c, p, frame) && Woken(c, p.stt.queue[0]) && !Quick(c, p.stt.queue[0])
    ensures var (p', events) := Ingested(c, p, frame);
            var t := p.stt.queue[0];
            && events == [WakeDetected(t), Escalated(KeyOf(c, t))] && Names(IntentOf(c, t), KeyOf(c, t))
            && p'.state == Idle && p'.tts == p.tts && p'.bargeIn == p.bargeIn && p'.stt.queue == p.stt.queue[1..]
  {
    ClosedIsHeard(c, p, frame);
    NamesAndAcks(c, p.stt.queue[0]);
  }

  /** Heard, and decided at once: the acknowledgement of the intent is spoken and can be barged in on. */
  lemma HeardIsAnswered(c: Setup, p: PipeValue, frame: V.AudioFrame)
    requires Understood(c, p, frame) && Woken(c, p.stt.queue[0]) && Quick(c, p.stt.queue[0])
    ensures var (p', events) := Ingested(c, p, frame);
            var t := p.stt.queue[0];
            && events == [WakeDetected(t), FastPath(KeyOf(c, t)), SpeakingStarted(AckOf(c, t))]
            && Names(IntentOf(c, t), KeyOf(c, t)) && Acknowledges(IntentOf(c, t), AckOf(c, t))
            && p'.tts == TtsValue(p.tts.utterances + [AckOf(c, t)], p.tts.cancelled, true)
            && p'.state == Speaking && p'.bargeIn && p'.stt.queue == p.stt.queue[1..]
  {
    var t := p.stt.queue[0];
    ClosedIsHeard(c, p, frame);
    NamesAndAcks(c, t);
    assert [WakeDetected(t)] + [FastPath(KeyOf(c, t)), SpeakingStarted(AckOf(c, t))] ==
           [WakeDetected(t), FastPath(KeyOf(c, t)), SpeakingStarted(AckOf(c, t))];
  }

  /** A segment without a transcript. */
  lemma NotUnderstoodFails(c: Setup, p: PipeValue, frame: V.AudioFrame)
    requires Closes(c, p, frame) && !Understood(c, p, frame)
    ensures var (p', events) := Ingested(c, p, frame);
            events == [SttFailed] && p'.state == Error && p'.tts == p.tts && p'.stt.queue == p.stt.queue
  {
  }

  /** Frames that close no segment: barge-in, the beginning of speech, or nothing to report. */
  lemma OpenFrames(c: Setup, p: PipeValue, frame: V.AudioFrame)
    requires !Closes(c, p, frame)
    ensures var (p', events) := Ingested(c, p, frame);
            && p'.stt == p.stt
            && (if p.tts.live && c.vad.isSpeech(frame) then
                  && events == [SpeakingCancelled] && p'.state == Listening && p'.vad == p.vad && !p'.bargeIn
                  && p'.tts == TtsValue(p.tts.utterances, p.tts.cancelled + 1, false)
                else if p.vad.state.Idle? && c.vad.isSpeech(frame) then
                  events == [SpeechStarted] && p'.state == Listening && p'.tts == p.tts
                else events == [] && p'.state == p.state && p'.tts == p.tts)
  {
  }

  /** Which events report a transcript that is heard or not, and decided at once or not. */
  ghost predicate Reports(events: seq<VoiceEvent>, t: string, heard: bool, quick: bool) {
    && (IgnoredNoWake in events <==> !heard)
    && (WakeDetected(t) in events <==> heard)
    && ((exists e :: e in events && e.Escalated?) <==> heard && !quick)
    && ((exists e :: e in events && e.FastPath?) <==> heard && quick)
  }

  lemma IgnoredReports(t: string, quick: bool)
    ensures Reports([IgnoredNoWake], t, false, quick)
  {
  }

  lemma EscalatedReports(t: string, k: string)
    ensures Reports([WakeDetected(t), Escalated(k)], t, true, false)
  {
    assert Escalated(k) in [WakeDetected(t), Escalated(k)];
  }

  lemma AnsweredReports(t: string, k: string, ack: string)
    ensures Reports([WakeDetected(t), FastPath(k), SpeakingStarted(ack)], t, true, true)
  {
    assert FastPath(k) in [WakeDetected(t), FastPath(k), SpeakingStarted(ack)];
  }

  /** The outcome of a closed segment, told from the transcript alone. */
  lemma OutcomeIff(c: Setup, p: PipeValue, frame: V.AudioFrame)
    requires Understood(c, p, frame)
    ensures Reports(Ingested(c, p, frame).1, p.stt.queue[0], Woken(c, p.stt.queue[0]), Quick(c, p.stt.queue[0]))
  {
    var t := p.stt.queue[0];
    if !Woken(c, t) {
      NotHeardIsIgnored(c, p, frame);
      IgnoredReports(t, Quick(c, t));
    } else if Quick(c, t) {
      HeardIsAnswered(c, p, frame);
      AnsweredReports(t, KeyOf(c, t), AckOf(c, t));
    } else {
      HeardIsEscalated(c, p, frame);
      EscalatedReports(t, KeyOf(c, t));
    }
  }

  // ---------------------------------------------------------------- all runs

  /** What is reported for a transcript. */
  ghost function Verdict(c: Setup, transcript: string): VoiceEvent {
    if !Woken(c, transcript) then IgnoredNoWake
    else if Quick(c, transcript) then FastPath(KeyOf(c, transcript))
    else Escalated(KeyOf(c, transcript))
  }

  ghost function Verdicts(c: Setup, transcripts: seq<string>): seq<VoiceEvent> {
    if transcripts == [] then []
    else Verdicts(c, transcripts[..|transcripts| - 1]) + [Verdict(c, transcripts[|transcripts| - 1])]
  }

  /** What is spoken for the transcripts: only for those that are heard and decided at once. */
  ghost function Replies(c: Setup, transcripts: seq<string>): seq<string> {
    if transcripts == [] then []
    else
      var t := transcripts[|transcripts| - 1];
      Replies(c, transcripts[..|transcripts| - 1]) + if Woken(c, t) && Quick(c, t) then [AckOf(c, t)] else []
  }

  predicate IsVerdict(e: VoiceEvent) {
    e.IgnoredNoWake? || e.Escalated? || e.FastPath?
  }

  lemma VerdictOfClose(c: Setup, p: PipeValue, frame: V.AudioFrame)
    requires Understood(c, p, frame)
    ensures var (p', events) := Ingested(c, p, frame);
            var t := p.stt.queue[0];
            && Filter(events, IsVerdict) == [Verdict(c, t)] && p'.stt.queue == p.stt.queue[1..]
            && p'.tts.utterances == p.tts.utterances + if Woken(c, t) && Quick(c, t) then [AckOf(c, t)] else []
  {
    var t := p.stt.queue[0];
    if !Woken(c, t) {
      NotHeardIsIgnored(c, p, frame);
      FilterOne(IgnoredNoWake);
    } else if Quick(c, t) {
      HeardIsAnswered(c, p, frame);
      FilterThree(WakeDetected(t), FastPath(KeyOf(c, t)), SpeakingStarted(AckOf(c, t)));
    } else {
      HeardIsEscalated(c, p, frame);
      FilterTwo(WakeDetected(t), Escalated(KeyOf(c, t)));
    }
  }

  function One(e: VoiceEvent): seq<VoiceEvent> {
    if IsVerdict(e) then [e] else []
  }

  lemma FilterOne(e: VoiceEvent)
    ensures Filter([e], IsVerdict) == One(e)
  {
    assert [e][1..] == [] && Filter([], IsVerdict) == [];
  }

  lemma FilterTwo(e: VoiceEvent, f: VoiceEvent)
    ensures Filter([e, f], IsVerdict) == One(e) + One(f)
  {
    assert [e, f] == [e] + [f];
    FilterSplit([e], [f], IsVerdict);
    FilterOne(e);
    FilterOne(f);
  }

  lemma FilterThree(e: VoiceEvent, f: VoiceEvent, g: VoiceEvent)
    ensures Filter([e, f, g], IsVerdict) == One(e) + One(f) + One(g)
  {
    assert [e, f, g] == [e, f] + [g];
    FilterSplit([e, f], [g], IsVerdict);
    FilterTwo(e, f);
    FilterOne(g);
  }

  lemma NoVerdictElsewhere(c: Setup, p: PipeValue, frame: V.AudioFrame)
    requires !Understood(c, p, frame)
    ensures var (p', events) := Ingested(c, p, frame);
            && Filter(events, IsVerdict) == [] && p'.stt.queue == p.stt.queue
            && p'.tts.utterances == p.tts.utterances
  {
    var events := Ingested(c, p, frame).1;
    if Closes(c, p, frame) {
      NotUnderstoodFails(c, p, frame);
      FilterOne(SttFailed);
    } else {
      OpenFrames(c, p, frame);
      if events != [] {
        FilterOne(events[0]);
        assert events == [events[0]];
      }
    }
  }

  /** The transcripts used up since `p`. */
  function Used(p: PipeValue, end: PipeValue): seq<string>
    requires |end.stt.queue| <= |p.stt.queue|
  {
    p.stt.queue[..|p.stt.queue| - |end.stt.queue|]
  }

  /** The transcripts used up are a prefix, each reported with its verdict, and the replies are what was spoken. */
  ghost predicate Follows(c: Setup, p: PipeValue, end: PipeValue, events: seq<VoiceEvent>) {
    && |end.stt.queue| <= |p.stt.queue|
    && p.stt.queue == Used(p, end) + end.stt.queue
    && Filter(events, IsVerdict) == Verdicts(c, Used(p, end))
    && end.tts.utterances == p.tts.utterances + Replies(c, Used(p, end))
  }

  lemma FrameFollows(c: Setup, p: PipeValue, mid: PipeValue, events: seq<VoiceEvent>, frame: V.AudioFrame)
    requires Follows(c, p, mid, events)
    ensures var (end, more) := Ingested(c, mid, frame);
            Follows(c, p, end, events + more)
  {
    var (end, more) := Ingested(c, mid, frame);
    FilterSplit(events, more, IsVerdict);
    if Understood(c, mid, frame) {
      VerdictOfClose(c, mid, frame);
      OneMoreUsed(c, p, mid, end);
    } else {
      NoVerdictElsewhere(c, mid, frame);
    }
  }

  lemma OneMoreUsed(c: Setup, p: PipeValue, mid: PipeValue, end: PipeValue)
    requires |mid.stt.queue| <= |p.stt.queue| && p.stt.queue == Used(p, mid) + mid.stt.queue
    requires mid.stt.queue != [] && end.stt.queue == mid.stt.queue[1..]
    ensures var t, used := mid.stt.queue[0], Used(p, end);
            && p.stt.queue == used + end.stt.queue
            && Verdicts(c, used) == Verdicts(c, Used(p, mid)) + [Verdict(c, t)]
            && Replies(c, used) == Replies(c, Used(p, mid)) + if Woken(c, t) && Quick(c, t) then [AckOf(c, t)] else []
  {
    var used := Used(p, end);
    assert used == Used(p, mid) + [mid.stt.queue[0]];
    assert used[..|used| - 1] == Used(p, mid);
  }

  /**
   Over any interleaving of frames and interrupts: the transcripts are used in order, each is reported
   once with its own verdict, and what is spoken are the acknowledgements of exactly those that are
   heard and decided at once.
   */
  lemma {:induction false} RunsFollowTranscripts(c: Setup, p: PipeValue, inputs: seq<Input>)
    ensures var (end, events) := AfterInputs(c, p, inputs);
            && |end.stt.queue| <= |p.stt.queue|
            && p.stt.queue == Used(p, end) + end.stt.queue
            && Filter(events, IsVerdict) == Verdicts(c, Used(p, end))
            && end.tts.utterances == p.tts.utterances + Replies(c, Used(p, end))
    decreases |inputs|
  {
    if inputs == [] {
      assert Used(p, p) == [];
    } else {
      var before := inputs[..|inputs| - 1];
      RunsFollowTranscripts(c, p, before);
      var (mid, events) := AfterInputs(c, p, before);
      match inputs[|inputs| - 1] {
        case Frame(f) => FrameFollows(c, p, mid, events, f);
        case Interrupt =>
      }
    }
  }
}
