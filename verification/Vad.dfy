/** Voice activity segmentation (crates/igris-voice/src/vad.rs). */
module Vad {
  import opened Collections

  datatype AudioFrame = AudioFrame(samples: seq<real>, sampleRate: nat)

  datatype VadState = Idle | Speaking

  /** `isSpeech` is the acoustic gate; segmentation does not look into it. */
  datatype VadConfig = VadConfig(isSpeech: AudioFrame -> bool, hangoverFrames: nat)

  datatype VadValue = VadValue(state: VadState, silentRun: nat, segment: seq<real>)

  const QUIET := VadValue(Idle, 0, [])

  function Fed(c: VadConfig, v: VadValue, f: AudioFrame): (VadValue, Option<seq<real>>) {
    if c.isSpeech(f) then (VadValue(Speaking, 0, v.segment + f.samples), None)
    else if v.state.Idle? then (v, None)
    else if v.silentRun + 1 >= c.hangoverFrames then (VadValue(Idle, 0, []), Some(v.segment))
    else (v.(silentRun := v.silentRun + 1), None)
  }

  class Detector {
    const config: VadConfig
    var state: VadState
    var silentRun: nat
    var segment: seq<real>

    constructor (config: VadConfig)
      ensures this.config == config && Now() == QUIET
    {
      this.config := config;
      state, silentRun, segment := Idle, 0, [];
    }

    function Now(): VadValue
      reads this
    {
      VadValue(state, silentRun, segment)
    }

    /** The completed segment when speech ends. */
    method Ingest(frame: AudioFrame) returns (done: Option<seq<real>>)
      modifies this
      ensures (Now(), done) == Fed(config, old(Now()), frame)
    {
      if config.isSpeech(frame) {
        state := Speaking;
        silentRun := 0;
        segment := segment + frame.samples;
        return None;
      } else if state == Speaking {
        silentRun := silentRun + 1;
        if silentRun >= config.hangoverFrames {
          state := Idle;
          silentRun := 0;
          done := Some(segment);
          segment := [];
          return;
        }
      }
      return None;
    }
  }

  // ------------------------------------------------------------ whole streams

  function AfterFrames(c: VadConfig, frames: seq<AudioFrame>): VadValue
    decreases |frames|
  {
    if frames == [] then QUIET else Fed(c, AfterFrames(c, frames[..|frames| - 1]), frames[|frames| - 1]).0
  }

  /** What frame `i` makes the detector emit. */
  function Emitted(c: VadConfig, frames: seq<AudioFrame>, i: nat): Option<seq<real>>
    requires i < |frames|
  {
    Fed(c, AfterFrames(c, frames[..i]), frames[i]).1
  }

  function AllEmitted(c: VadConfig, frames: seq<AudioFrame>): seq<real>
    decreases |frames|
  {
    if frames == [] then []
    else
      var last := Emitted(c, frames, |frames| - 1);
      AllEmitted(c, frames[..|frames| - 1]) + (if last.Some? then last.value else [])
  }

  /** The samples of the speech frames, in order. */
  function Speech(c: VadConfig, frames: seq<AudioFrame>): seq<real>
    decreases |frames|
  {
    if frames == [] then []
    else
      var f := frames[|frames| - 1];
      Speech(c, frames[..|frames| - 1]) + (if c.isSpeech(f) then f.samples else [])
  }

  function Patience(c: VadConfig): nat {
    if c.hangoverFrames == 0 then 1 else c.hangoverFrames
  }

  /** The last speech frame lies `t` frames before the end. */
  ghost predicate SilentFor(c: VadConfig, frames: seq<AudioFrame>, t: nat) {
    && t < |frames| && c.isSpeech(frames[|frames| - 1 - t])
    && forall j :: |frames| - t <= j < |frames| ==> !c.isSpeech(frames[j])
  }

  lemma SilentForUnique(c: VadConfig, frames: seq<AudioFrame>, t: nat, s: nat)
    requires SilentFor(c, frames, t) && SilentFor(c, frames, s)
    ensures t == s
  {
  }

  lemma SilentForOneMore(c: VadConfig, before: seq<AudioFrame>, f: AudioFrame, t: nat)
    ensures SilentFor(c, before + [f], t) <==>
            (if t == 0 then c.isSpeech(f) else SilentFor(c, before, t - 1) && !c.isSpeech(f))
  {
    var frames := before + [f];
    assert frames[|before|] == f;
    if t > 0 && SilentFor(c, frames, t) {
      forall j | |before| - (t - 1) <= j < |before| ensures !c.isSpeech(before[j]) {
        assert frames[j] == before[j];
      }
    }
  }

  /** The state is read off the stream: speaking while the silence since the last speech is short. */
  lemma {:induction false} StateOfStream(c: VadConfig, frames: seq<AudioFrame>)
    ensures var v := AfterFrames(c, frames);
            if v.state.Speaking? then v.silentRun < Patience(c) && SilentFor(c, frames, v.silentRun)
            else v.segment == [] && forall t: nat :: t < Patience(c) ==> !SilentFor(c, frames, t)
    decreases |frames|
  {
    if frames == [] {
    } else {
      var before, f := frames[..|frames| - 1], frames[|frames| - 1];
      assert frames == before + [f];
      StateOfStream(c, before);
      var v, v' := AfterFrames(c, before), AfterFrames(c, frames);
      SilentForOneMore(c, before, f, 0);
      SilentForOneMore(c, before, f, v.silentRun + 1);
      if v'.state.Idle? {
        forall t: nat | t < Patience(c) ensures !SilentFor(c, frames, t) {
          SilentForOneMore(c, before, f, t);
          if v.state.Speaking? && SilentFor(c, frames, t) {
            SilentForUnique(c, frames, t, v.silentRun + 1);
          }
        }
      }
    }
  }

  /** A segment closes exactly on the max(1, hangover)-th silent frame in a row after speech. */
  lemma ClosesExactly(c: VadConfig, frames: seq<AudioFrame>, i: nat)
    requires i < |frames|
    ensures Emitted(c, frames, i).Some? <==>
            i >= Patience(c) && c.isSpeech(frames[i - Patience(c)]) &&
            forall j :: i - Patience(c) < j <= i ==> !c.isSpeech(frames[j])
  {
    var before := frames[..i];
    StateOfStream(c, before);
    var v := AfterFrames(c, before);
    var p := Patience(c);
    if i >= p && c.isSpeech(frames[i - p]) && forall j :: i - p < j <= i ==> !c.isSpeech(frames[j]) {
      assert SilentFor(c, before, p - 1);
    }
  }

  /** Segments in order, then the open buffer, are the speech samples: none lost, none repeated. */
  lemma {:induction false} NothingLost(c: VadConfig, frames: seq<AudioFrame>)
    ensures AllEmitted(c, frames) + AfterFrames(c, frames).segment == Speech(c, frames)
    decreases |frames|
  {
    if frames == [] {
    } else {
      var before := frames[..|frames| - 1];
      NothingLost(c, before);
      StateOfStream(c, before);
    }
  }

  /** At a close everything heard so far has been handed out. */
  lemma ClosedMeansAllOut(c: VadConfig, frames: seq<AudioFrame>)
    requires frames != [] && Emitted(c, frames, |frames| - 1).Some?
    ensures AllEmitted(c, frames) == Speech(c, frames)
  {
    NothingLost(c, frames);
  }
}
