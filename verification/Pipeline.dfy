/** The voice pipeline: segments, transcripts, wake word, fast path, barge-in (crates/igris-voice/src/pipeline.rs). */
module Pipeline {
  import opened Collections
  import opened Text
  import V = Vad
  import W = Wake
  import R = Reflex

  datatype VoiceState = Idle | Listening | Processing | Speaking | Error

  datatype VoiceEvent =
    | SpeechStarted
    | WakeDetected(transcript: string)
    | IgnoredNoWake
    | FastPath(intent: string)
    | Escalated(intent: string)
    | SpeakingStarted(text: string)
    | SpeakingCancelled
    | SttFailed

  // ------------------------------------------- scripted ear, recording mouth

  datatype SttValue = SttValue(queue: seq<string>, calls: nat)

  function Transcribed(s: SttValue, samples: seq<real>): (SttValue, Option<string>) {
    if samples == [] then (s.(calls := s.calls + 1), None)
    else if s.queue == [] then (s.(calls := s.calls + 1), None)
    else (SttValue(s.queue[1..], s.calls + 1), Some(s.queue[0]))
  }

  class ScriptStt {
    var queue: seq<string>
    var calls: nat

    constructor (transcripts: seq<string>)
      ensures Now() == SttValue(transcripts, 0)
    {
      queue, calls := transcripts, 0;
    }

    function Now(): SttValue
      reads this
    {
      SttValue(queue, calls)
    }

    method Transcribe(samples: seq<real>) returns (r: Option<string>)
      modifies this
      ensures (Now(), r) == Transcribed(old(Now()), samples)
    {
      calls := calls + 1;
      if samples == [] || queue == [] {
        return None;
      }
      r := Some(queue[0]);
      queue := queue[1..];
    }
  }

  datatype TtsValue = TtsValue(utterances: seq<string>, cancelled: nat, live: bool)

  class RecordingTts {
    var utterances: seq<string>
    var cancelled: nat
    var live: bool

    constructor ()
      ensures Now() == TtsValue([], 0, false)
    {
      utterances, cancelled, live := [], 0, false;
    }

    function Now(): TtsValue
      reads this
    {
      TtsValue(utterances, cancelled, live)
    }

    method Speak(text: string)
      modifies this
      ensures Now() == TtsValue(old(utterances) + [text], old(cancelled), true)
    {
      utterances := utterances + [text];
      live := true;
    }

    method Cancel()
      modifies this
      ensures Now() == old(Now()).(cancelled := old(cancelled) + (if old(live) then 1 else 0), live := false)
    {
      if live {
        cancelled := cancelled + 1;
        live := false;
      }
    }
  }

  // ---------------------------------------------------------- what it does

  function FastAck(intent: string): Option<string> {
    if intent == "device_transfer" then Some("On it \U{2014} sending.")
    else if intent == "device_status" then Some("Checking now.")
    else if intent == "memory_query" then Some("Recalling.")
    else None
  }

  function IntentToKey(intent: R.Intent): string {
    match intent
    case DeviceTransfer => "device_transfer"
    case DeviceStatus => "device_status"
    case MemoryQuery => "memory_query"
    case ToolExec => "tool_exec"
    case Communication => "communication"
    case RiskyOp => "risky_op"
    case General => "general"
  }

  datatype Setup = Setup(vad: V.VadConfig, wake: W.WakeMatcher, u: Unicode, lex: R.Lexicon)

  const DEFAULT_HANGOVER: nat := 15

  /** The setup every pipeline is built with, over a given acoustic gate and Unicode tables. */
  function DefaultSetup(isSpeech: V.AudioFrame -> bool, u: Unicode): Setup {
    Setup(V.VadConfig(isSpeech, DEFAULT_HANGOVER), W.ARISE, u, R.LEXICON)
  }

  datatype PipeValue = PipeValue(vad: V.VadValue, stt: SttValue, tts: TtsValue, state: VoiceState, bargeIn: bool)

  function Spoken(t: TtsValue, text: string): TtsValue {
    TtsValue(t.utterances + [text], t.cancelled, true)
  }

  function Hushed(p: PipeValue): PipeValue {
    p.(tts := p.tts.(cancelled := p.tts.cancelled + (if p.tts.live then 1 else 0), live := false),
       bargeIn := false, state := Listening)
  }

  function Acked(p: PipeValue, intent: string): (PipeValue, seq<VoiceEvent>) {
    var ack := FastAck(intent);
    if ack.Some? then
      (p.(tts := Spoken(p.tts, ack.value), bargeIn := true, state := Speaking),
       [FastPath(intent), SpeakingStarted(ack.value)])
    else (p.(state := Idle), [FastPath(intent)])
  }

  /** The wake check and the reflex on a transcript. */
  ghost function Heard(c: Setup, p: PipeValue, transcript: string): (PipeValue, seq<VoiceEvent>) {
    if !W.Hears(c.wake, c.u, transcript) then (p.(state := Idle), [IgnoredNoWake])
    else
      var d := R.Decide(c.u, c.lex, transcript);
      var intent := IntentToKey(d.intent);
      if d.requiresReasoning then (p.(state := Idle), [WakeDetected(transcript), Escalated(intent)])
      else
        var (p', events) := Acked(p, intent);
        (p', [WakeDetected(transcript)] + events)
  }

  ghost function Closed(c: Setup, p: PipeValue, segment: seq<real>): (PipeValue, seq<VoiceEvent>) {
    var (stt, transcript) := Transcribed(p.stt, segment);
    if transcript.None? then (p.(stt := stt, state := Error), [SttFailed])
    else Heard(c, p.(stt := stt, state := Processing), transcript.value)
  }

  predicate BargesIn(c: Setup, p: PipeValue, frame: V.AudioFrame) {
    p.tts.live && c.vad.isSpeech(frame)
  }

  ghost function Ingested(c: Setup, p: PipeValue, frame: V.AudioFrame): (PipeValue, seq<VoiceEvent>) {
    if BargesIn(c, p, frame) then (Hushed(p), [SpeakingCancelled])
    else
      var (vad, segment) := V.Fed(c.vad, p.vad, frame);
      if segment.Some? then Closed(c, p.(vad := vad), segment.value)
      else if p.vad.state.Idle? && vad.state.Speaking? then (p.(vad := vad, state := Listening), [SpeechStarted])
      else (p.(vad := vad), [])
  }

  function Interrupted(p: PipeValue): PipeValue {
    if p.tts.live then Hushed(p) else p
  }

  // ------------------------------------------------------ one step's promise

  /** Speaking, live synthesis and the barge-in flag go together, over an idle detector. */
  predicate Coherent(p: PipeValue) {
    && (p.state.Speaking? <==> p.tts.live) && (p.bargeIn <==> p.tts.live)
    && (p.tts.live ==> p.vad.state.Idle?)
    && |p.tts.utterances| == p.tts.cancelled + (if p.tts.live then 1 else 0)
  }

  predicate IsOutcome(e: VoiceEvent) {
    e.SttFailed? || e.IgnoredNoWake? || e.Escalated? || e.FastPath?
  }

  predicate IsFastPath(e: VoiceEvent) {
    e.FastPath?
  }

  function CountOf(events: seq<VoiceEvent>, which: VoiceEvent -> bool): nat {
    |Filter(events, which)|
  }

  function B(b: bool): nat {
    if b then 1 else 0
  }

  /** Every intent that needs no reasoning has something to say. */
  lemma FastPathAlwaysSpeaks(c: Setup, transcript: string)
    requires !R.Decide(c.u, c.lex, transcript).requiresReasoning
    ensures FastAck(IntentToKey(R.Decide(c.u, c.lex, transcript).intent)).Some?
  {
  }

  lemma CountOne(e: VoiceEvent, which: VoiceEvent -> bool)
    ensures CountOf([e], which) == B(which(e))
  {
    assert Filter([e], which) == (if which(e) then [e] else []) + Filter([], which) by {
      assert [e][1..] == [];
    }
  }

  lemma CountTwo(e: VoiceEvent, f: VoiceEvent, which: VoiceEvent -> bool)
    ensures CountOf([e, f], which) == B(which(e)) + B(which(f))
  {
    assert [e, f][1..] == [f];
    CountOne(f, which);
  }

  lemma CountThree(e: VoiceEvent, f: VoiceEvent, g: VoiceEvent, which: VoiceEvent -> bool)
    ensures CountOf([e, f, g], which) == B(which(e)) + B(which(f)) + B(which(g))
  {
    assert [e, f, g][1..] == [f, g];
    CountTwo(f, g, which);
  }

  lemma CountShort(events: seq<VoiceEvent>, which: VoiceEvent -> bool)
    ensures events == [] ==> CountOf(events, which) == 0
    ensures |events| == 1 ==> CountOf(events, which) == B(which(events[0]))
    ensures |events| == 2 ==> CountOf(events, which) == B(which(events[0])) + B(which(events[1]))
    ensures |events| == 3 ==> CountOf(events, which) == B(which(events[0])) + B(which(events[1])) + B(which(events[2]))
  {
    if |events| == 1 {
      assert events == [events[0]];
      CountOne(events[0], which);
    } else if |events| == 2 {
      assert events == [events[0], events[1]];
      CountTwo(events[0], events[1], which);
    } else if |events| == 3 {
      assert events == [events[0], events[1], events[2]];
      CountThree(events[0], events[1], events[2], which);
    }
  }

  lemma HeardPromise(c: Setup, p: PipeValue, transcript: string)
    requires !p.tts.live && !p.bargeIn && !p.state.Speaking?
    ensures var (p', events) := Heard(c, p, transcript);
            && p'.vad == p.vad && p'.stt == p.stt
            && CountOf(events, IsOutcome) == 1
            && p'.tts == (if CountOf(events, IsFastPath) == 0 then p.tts
                          else TtsValue(p'.tts.utterances, p.tts.cancelled, true))
            && |p'.tts.utterances| == |p.tts.utterances| + CountOf(events, IsFastPath)
            && CountOf(events, IsFastPath) <= 1
            && (p'.state.Speaking? <==> p'.tts.live) && (p'.bargeIn <==> p'.tts.live)
  {
    var events := Heard(c, p, transcript).1;
    CountShort(events, IsOutcome);
    CountShort(events, IsFastPath);
    if !R.Decide(c.u, c.lex, transcript).requiresReasoning {
      FastPathAlwaysSpeaks(c, transcript);
    }
  }

  /** Whether this frame ends a segment. */
  predicate Closes(c: Setup, p: PipeValue, frame: V.AudioFrame) {
    !BargesIn(c, p, frame) && V.Fed(c.vad, p.vad, frame).1.Some?
  }

  /** Each frame keeps coherence; a closed segment costs one transcription and has one outcome. */
  lemma IngestPromise(c: Setup, p: PipeValue, frame: V.AudioFrame)
    requires Coherent(p)
    ensures var (p', events) := Ingested(c, p, frame);
            && Coherent(p')
            && p'.stt.calls == p.stt.calls + B(Closes(c, p, frame))
            && CountOf(events, IsOutcome) == B(Closes(c, p, frame))
            && |p'.tts.utterances| == |p.tts.utterances| + CountOf(events, IsFastPath)
  {
    var (p', events) := Ingested(c, p, frame);
    if Closes(c, p, frame) {
      var (vad, segment) := V.Fed(c.vad, p.vad, frame);
      var (stt, transcript) := Transcribed(p.stt, segment.value);
      if transcript.Some? {
        HeardPromise(c, p.(vad := vad, stt := stt, state := Processing), transcript.value);
      } else {
        CountShort(events, IsOutcome);
        CountShort(events, IsFastPath);
      }
    } else {
      CountShort(events, IsOutcome);
      CountShort(events, IsFastPath);
    }
  }

  lemma InterruptPromise(p: PipeValue)
    requires Coherent(p)
    ensures Coherent(Interrupted(p)) && !Interrupted(p).tts.live
    ensures Interrupted(p).stt == p.stt && Interrupted(p).vad == p.vad
    ensures Interrupted(p).tts.utterances == p.tts.utterances
  {
  }

  // ---------------------------------------------------------------- all runs

  datatype Input = Frame(frame: V.AudioFrame) | Interrupt

  ghost function AfterInputs(c: Setup, p: PipeValue, inputs: seq<Input>): (PipeValue, seq<VoiceEvent>)
    decreases |inputs|
  {
    if inputs == [] then (p, [])
    else
      var (mid, before) := AfterInputs(c, p, inputs[..|inputs| - 1]);
      match inputs[|inputs| - 1]
      case Frame(f) => var (end, events) := Ingested(c, mid, f); (end, before + events)
      case Interrupt => (Interrupted(mid), before)
  }

  lemma {:induction false} CountSplit(a: seq<VoiceEvent>, b: seq<VoiceEvent>, which: VoiceEvent -> bool)
    ensures CountOf(a + b, which) == CountOf(a, which) + CountOf(b, which)
    decreases |a|
  {
    if a == [] {
      assert a + b == b;
    } else {
      assert (a + b)[1..] == a[1..] + b;
      CountSplit(a[1..], b, which);
    }
  }

  /**
   Any interleaving of frames and interrupts: the product invariant holds, every transcription has
   had exactly one outcome, and every fast path has been spoken.
   */
  lemma {:induction false} RunsAreCoherent(c: Setup, p: PipeValue, inputs: seq<Input>)
    requires Coherent(p)
    ensures var (end, events) := AfterInputs(c, p, inputs);
            && Coherent(end)
            && end.stt.calls == p.stt.calls + CountOf(events, IsOutcome)
            && |end.tts.utterances| == |p.tts.utterances| + CountOf(events, IsFastPath)
    decreases |inputs|
  {
    if inputs == [] {
    } else {
      var before := inputs[..|inputs| - 1];
      RunsAreCoherent(c, p, before);
      var (mid, events) := AfterInputs(c, p, before);
      match inputs[|inputs| - 1] {
        case Frame(f) =>
          IngestPromise(c, mid, f);
          CountSplit(events, Ingested(c, mid, f).1, IsOutcome);
          CountSplit(events, Ingested(c, mid, f).1, IsFastPath);
        case Interrupt =>
          InterruptPromise(mid);
      }
    }
  }

  // ------------------------------------------------------ where the samples go

  function SpeechOf(c: Setup, input: Input): seq<real> {
    if input.Frame? && c.vad.isSpeech(input.frame) then input.frame.samples else []
  }

  /** What this input makes the pipeline send to transcription. */
  function SentBy(c: Setup, p: PipeValue, input: Input): seq<real> {
    if input.Frame? && Closes(c, p, input.frame) then V.Fed(c.vad, p.vad, input.frame).1.value else []
  }

  /** What the detector hears of this input: a frame that barges in never reaches it. */
  function HeardBy(c: Setup, p: PipeValue, input: Input): seq<real> {
    if input.Frame? && BargesIn(c, p, input.frame) then [] else SpeechOf(c, input)
  }

  /** The segments sent to transcription, one after the other. */
  ghost function Sent(c: Setup, p: PipeValue, inputs: seq<Input>): seq<real>
    decreases |inputs|
  {
    if inputs == [] then []
    else
      var before := inputs[..|inputs| - 1];
      Sent(c, p, before) + SentBy(c, AfterInputs(c, p, before).0, inputs[|inputs| - 1])
  }

  /** The samples of the speech frames that did not barge in. */
  ghost function Taken(c: Setup, p: PipeValue, inputs: seq<Input>): seq<real>
    decreases |inputs|
  {
    if inputs == [] then []
    else
      var before := inputs[..|inputs| - 1];
      Taken(c, p, before) + HeardBy(c, AfterInputs(c, p, before).0, inputs[|inputs| - 1])
  }

  /** The samples of all speech frames. */
  function Uttered(c: Setup, inputs: seq<Input>): seq<real>
    decreases |inputs|
  {
    if inputs == [] then [] else Uttered(c, inputs[..|inputs| - 1]) + SpeechOf(c, inputs[|inputs| - 1])
  }

  ghost function StepInput(c: Setup, p: PipeValue, input: Input): PipeValue {
    match input
    case Frame(f) => Ingested(c, p, f).0
    case Interrupt => Interrupted(p)
  }

  lemma HeardKeepsDetector(c: Setup, p: PipeValue, transcript: string)
    ensures Heard(c, p, transcript).0.vad == p.vad
  {
  }

  lemma DetectorAfter(c: Setup, p: PipeValue, frame: V.AudioFrame)
    ensures Ingested(c, p, frame).0.vad == if BargesIn(c, p, frame) then p.vad else V.Fed(c.vad, p.vad, frame).0
  {
    var (vad, segment) := V.Fed(c.vad, p.vad, frame);
    if !BargesIn(c, p, frame) && segment.Some? {
      var (stt, transcript) := Transcribed(p.stt, segment.value);
      if transcript.Some? {
        HeardKeepsDetector(c, p.(vad := vad, stt := stt, state := Processing), transcript.value);
      }
    }
  }

  lemma StepConserves(c: Setup, p: PipeValue, input: Input)
    ensures p.vad.segment + HeardBy(c, p, input) == SentBy(c, p, input) + StepInput(c, p, input).vad.segment
  {
    if input.Frame? {
      DetectorAfter(c, p, input.frame);
    }
  }

  /**
   Over any interleaving of frames and interrupts: what was sent to transcription and then the open
   buffer are the samples of the speech frames that did not barge in, none lost and none repeated.
   */
  lemma {:induction false} SamplesConserved(c: Setup, p: PipeValue, inputs: seq<Input>)
    ensures p.vad.segment + Taken(c, p, inputs) == Sent(c, p, inputs) + AfterInputs(c, p, inputs).0.vad.segment
    decreases |inputs|
  {
    if inputs == [] {
    } else {
      var before, last := inputs[..|inputs| - 1], inputs[|inputs| - 1];
      var mid := AfterInputs(c, p, before).0;
      SamplesConserved(c, p, before);
      StepConserves(c, mid, last);
      Regroup(p.vad.segment, Taken(c, p, before), HeardBy(c, mid, last),
              Sent(c, p, before), mid.vad.segment, SentBy(c, mid, last), StepInput(c, mid, last).vad.segment);
    }
  }

  lemma Regroup(open: seq<real>, taken: seq<real>, heard: seq<real>, sent: seq<real>, mid: seq<real>,
          out: seq<real>, end: seq<real>)
    requires open + taken == sent + mid && mid + heard == out + end
    ensures open + (taken + heard) == (sent + out) + end
  {
    assert open + (taken + heard) == (open + taken) + heard;
    assert (sent + mid) + heard == sent + (mid + heard);
    assert sent + (out + end) == (sent + out) + end;
  }

  /** Samples that arrive in frames that barge in. */
  ghost function Lost(c: Setup, p: PipeValue, inputs: seq<Input>): nat
    decreases |inputs|
  {
    if inputs == [] then 0
    else
      var before, last := inputs[..|inputs| - 1], inputs[|inputs| - 1];
      Lost(c, p, before) +
      if last.Frame? && BargesIn(c, AfterInputs(c, p, before).0, last.frame) then |last.frame.samples| else 0
  }

  lemma {:induction false} LostCounts(c: Setup, p: PipeValue, inputs: seq<Input>)
    ensures |Uttered(c, inputs)| == |Taken(c, p, inputs)| + Lost(c, p, inputs)
    ensures Lost(c, p, inputs) == 0 ==> Uttered(c, inputs) == Taken(c, p, inputs)
    decreases |inputs|
  {
    if inputs == [] {
    } else {
      LostCounts(c, p, inputs[..|inputs| - 1]);
    }
  }

  /** All speech is sent or still buffered exactly when no frame with samples has barged in. */
  lemma {:induction false} AllSpeechKeptIff(c: Setup, p: PipeValue, inputs: seq<Input>)
    ensures p.vad.segment + Uttered(c, inputs) == Sent(c, p, inputs) + AfterInputs(c, p, inputs).0.vad.segment
            <==> Lost(c, p, inputs) == 0
  {
    SamplesConserved(c, p, inputs);
    LostCounts(c, p, inputs);
    if Lost(c, p, inputs) > 0 {
      assert |p.vad.segment + Uttered(c, inputs)| > |p.vad.segment + Taken(c, p, inputs)|;
    }
  }

  // --------------------------------------------------------------- the class

  class VoicePipeline {
    const setup: Setup
    const vad: V.Detector
    const stt: ScriptStt
    const tts: RecordingTts
    var state: VoiceState
    var bargeIn: bool

    constructor (isSpeech: V.AudioFrame -> bool, u: Unicode, stt: ScriptStt, tts: RecordingTts)
      ensures setup == Setup(V.VadConfig(isSpeech, 15), W.WakeMatcher("arise", 2), u, R.LEXICON)
      ensures setup == DefaultSetup(isSpeech, u) && this.stt == stt && this.tts == tts && fresh(vad) && Valid()
      ensures Now() == PipeValue(V.QUIET, stt.Now(), tts.Now(), Idle, false)
      ensures Coherent(Now()) <==> !tts.live && |tts.utterances| == tts.cancelled
    {
      setup := DefaultSetup(isSpeech, u);
      vad := new V.Detector(DefaultSetup(isSpeech, u).vad);
      this.stt := stt;
      this.tts := tts;
      state := Idle;
      bargeIn := false;
    }

    ghost predicate Valid()
      reads this, vad
    {
      vad.config == setup.vad
    }

    function Now(): PipeValue
      reads this, vad, stt, tts
    {
      PipeValue(vad.Now(), stt.Now(), tts.Now(), state, bargeIn)
    }

    /** External barge-in. */
    method InterruptNow() returns (stopped: bool)
      requires Valid()
      modifies this, tts
      ensures Valid() && Now() == Interrupted(old(Now())) && stopped == old(tts.live)
    {
      if tts.live {
        tts.Cancel();
        bargeIn := false;
        state := Listening;
        return true;
      }
      return false;
    }

    /** Feed one audio frame. */
    method Ingest(frame: V.AudioFrame) returns (events: seq<VoiceEvent>)
      requires Valid()
      modifies this, vad, stt, tts
      ensures Valid() && (Now(), events) == Ingested(setup, old(Now()), frame)
    {
      if tts.live && setup.vad.isSpeech(frame) {
        tts.Cancel();
        bargeIn := false;
        state := Listening;
        return [SpeakingCancelled];
      }
      events := [];
      var wasSpeaking := vad.state.Speaking?;
      var segment := vad.Ingest(frame);
      if segment.None? {
        if !wasSpeaking && vad.state.Speaking? {
          state := Listening;
          events := [SpeechStarted];
        }
        return;
      }
      state := Processing;
      var transcript := stt.Transcribe(segment.value);
      if transcript.None? {
        state := Error;
        return [SttFailed];
      }
      events := Respond(transcript.value);
    }

    /** The wake check and the reflex on a transcript. */
    method Respond(transcript: string) returns (events: seq<VoiceEvent>)
      requires Valid()
      modifies this, tts
      ensures Valid() && (Now(), events) == Heard(setup, old(Now()), transcript)
    {
      var woken := W.Matches(setup.wake, setup.u, transcript);
      if !woken {
        state := Idle;
        return [IgnoredNoWake];
      }
      events := [WakeDetected(transcript)];
      var d := R.Decide(setup.u, setup.lex, transcript);
      var intent := IntentToKey(d.intent);
      if d.requiresReasoning {
        state := Idle;
        events := events + [Escalated(intent)];
        assert events == [WakeDetected(transcript), Escalated(intent)];
      } else {
        var rest := TakeFastPath(intent);
        events := events + rest;
      }
    }

    /** The short acknowledgement, for an intent that has one. */
    method TakeFastPath(intent: string) returns (events: seq<VoiceEvent>)
      requires Valid()
      modifies this, tts
      ensures Valid() && (Now(), events) == Acked(old(Now()), intent)
    {
      events := [FastPath(intent)];
      var ack := FastAck(intent);
      if ack.Some? {
        tts.Speak(ack.value);
        bargeIn := true;
        state := Speaking;
        events := events + [SpeakingStarted(ack.value)];
        assert events == [FastPath(intent), SpeakingStarted(ack.value)];
      } else {
        state := Idle;
      }
    }
  }
}
