/** Speech tracking over arriving audio (server/app/streaming/vad.py). Durations are counted in samples. */
module Vad {
  import opened Audio
  import opened SpeechTimeline

  type Pos = n: nat | n > 0 witness 1

  /** A detector judges one frame in the light of every frame since its last reset. */
  datatype Detector = Detector(frameSamples: Pos, judge: seq<seq<Byte>> -> bool)

  /** What does not depend on the configured detector: the level test and the energy fallback. */
  datatype Signal = Signal(loud: seq<Byte> -> bool, energy: Detector)

  const DISAGREEMENT_LIMIT: nat := 4 * SAMPLE_RATE
  const HISTORY: nat := 180 * SAMPLE_RATE

  datatype Tracker = Tracker(
    detector: Detector,
    heard: seq<seq<Byte>>,
    leftover: seq<Byte>,
    trailingSilenceFrames: nat,
    speechFrames: nat,
    timeline: seq<Frame>,
    timelineSamples: nat,
    crossCheck: bool,
    loudButSilentFrames: nat,
    fellBack: bool)
  {
    function FrameBytes(): nat {
      detector.frameSamples * BYTES_PER_SAMPLE
    }

    /** `trailing_silence_seconds`, in samples. */
    function TrailingSilence(): nat {
      trailingSilenceFrames * detector.frameSamples
    }

    predicate Valid() {
      && |leftover| < FrameBytes()
      && timelineSamples == Total(timeline)
      && Positive(timeline)
    }
  }

  function NewTracker(detector: Detector, crossCheck: bool): Tracker {
    Tracker(detector, [], [], 0, 0, [], 0, crossCheck, 0, false)
  }

  /** Drop whole frames from the front until the history is within its bound. */
  function Bounded(timeline: seq<Frame>, samples: nat): (r: (seq<Frame>, nat))
    ensures |r.0| <= |timeline|
    decreases |timeline|
  {
    if samples > HISTORY && timeline != [] && timeline[0].samples <= samples
    then Bounded(timeline[1..], samples - timeline[0].samples)
    else (timeline, samples)
  }

  function AfterRemember(t: Tracker, speech: bool): Tracker {
    var (timeline, samples) :=
      Bounded(t.timeline + [Frame(t.detector.frameSamples, speech)], t.timelineSamples + t.detector.frameSamples);
    t.(timeline := timeline, timelineSamples := samples)
  }

  function AfterReplace(signal: Signal, t: Tracker): Tracker {
    t.(detector := signal.energy, heard := [], leftover := [], crossCheck := false, fellBack := true)
  }

  function AfterAudit(signal: Signal, t: Tracker, frame: seq<Byte>, speech: bool): Tracker {
    if speech || !signal.loud(frame) then t.(loudButSilentFrames := 0)
    else
      var t' := t.(loudButSilentFrames := t.loudButSilentFrames + 1);
      if t'.loudButSilentFrames * t'.detector.frameSamples < DISAGREEMENT_LIMIT then t'
      else AfterReplace(signal, t')
  }

  /** One whole frame: classified, remembered, audited, counted. */
  function AfterFrame(signal: Signal, t: Tracker, frame: seq<Byte>): Tracker {
    var heard := t.heard + [frame];
    var speech := t.detector.judge(heard);
    var t1 := AfterRemember(t.(heard := heard), speech);
    var t2 := if t1.crossCheck then AfterAudit(signal, t1, frame, speech) else t1;
    if speech then t2.(speechFrames := t2.speechFrames + 1, trailingSilenceFrames := 0)
    else t2.(trailingSilenceFrames := t2.trailingSilenceFrames + 1)
  }

  /** All the whole frames in `data`; the rest is carried over. */
  function Consumed(signal: Signal, t: Tracker, data: seq<Byte>): Tracker
    decreases |data|
  {
    var n := t.FrameBytes();
    if n <= |data| then
      Consumed(signal, AfterFrame(signal, t, data[..n]), data[n..])
    else t.(leftover := data)
  }

  function AfterPush(signal: Signal, t: Tracker, pcm: seq<Byte>): Tracker
  {
    Consumed(signal, t, t.leftover + pcm)
  }

  function AfterResetTracker(t: Tracker): Tracker {
    t.(leftover := [], trailingSilenceFrames := 0, speechFrames := 0, loudButSilentFrames := 0,
       timeline := [], timelineSamples := 0, heard := [])
  }

  // ---- Chunking ----

  /** Nothing a frame does depends on what was carried over before it. */
  lemma {:induction false} FrameIgnoresLeftover(signal: Signal, t: Tracker, carried: seq<Byte>, frame: seq<Byte>)
    ensures var t', u' := AfterFrame(signal, t, frame), AfterFrame(signal, t.(leftover := carried), frame);
            u' == t'.(leftover := u'.leftover)
  {
  }

  /** Nor does anything later. */
  lemma {:induction false} ConsumedIgnoresLeftover(signal: Signal, t: Tracker, carried: seq<Byte>, data: seq<Byte>)
    ensures Consumed(signal, t.(leftover := carried), data) == Consumed(signal, t, data)
    decreases |data|
  {
    var n := t.FrameBytes();
    if n <= |data| {
      FrameIgnoresLeftover(signal, t, carried, data[..n]);
      ConsumedIgnoresLeftover(signal, AfterFrame(signal, t, data[..n]),
                              AfterFrame(signal, t.(leftover := carried), data[..n]).leftover, data[n..]);
    }
  }

  lemma {:induction false} ConsumedInTwo(signal: Signal, t: Tracker, x: seq<Byte>, b: seq<Byte>)
    ensures Consumed(signal, t, x + b) == AfterPush(signal, Consumed(signal, t, x), b)
    decreases |x|
  {
    var n := t.FrameBytes();
    if n <= |x| {
      assert (x + b)[..n] == x[..n] && (x + b)[n..] == x[n..] + b;
      ConsumedInTwo(signal, AfterFrame(signal, t, x[..n]), x[n..], b);
    } else {
      ConsumedIgnoresLeftover(signal, t, x, x + b);
    }
  }

  /** How the client cuts its audio into chunks changes nothing, a mid-chunk change of detector included. */
  lemma {:induction false} ChunkingInvariant(signal: Signal, t: Tracker, a: seq<Byte>, b: seq<Byte>)
    ensures AfterPush(signal, AfterPush(signal, t, a), b) == AfterPush(signal, t, a + b)
  {
    assert t.leftover + (a + b) == (t.leftover + a) + b;
    ConsumedInTwo(signal, t, t.leftover + a, b);
  }

  function Flatten(chunks: seq<seq<Byte>>): seq<Byte> {
    if chunks == [] then [] else Flatten(chunks[..|chunks| - 1]) + chunks[|chunks| - 1]
  }

  function AfterPushes(signal: Signal, t: Tracker, chunks: seq<seq<Byte>>): Tracker
    decreases |chunks|
  {
    if chunks == [] then t
    else
      var before := AfterPushes(signal, t, chunks[..|chunks| - 1]);
      AfterPush(signal, before, chunks[|chunks| - 1])
  }

  /** Any number of pushes is one push of everything. */
  lemma {:induction false} AnyChunking(signal: Signal, t: Tracker, chunks: seq<seq<Byte>>)
    requires t.Valid()
    ensures AfterPushes(signal, t, chunks) == AfterPush(signal, t, Flatten(chunks))
    decreases |chunks|
  {
    if chunks == [] {
      assert t.leftover + [] == t.leftover;
      assert t.(leftover := t.leftover) == t;
    } else {
      var init, last := chunks[..|chunks| - 1], chunks[|chunks| - 1];
      AnyChunking(signal, t, init);
      ChunkingInvariant(signal, t, Flatten(init), last);
    }
  }

  // ---- The bounded history ----

  /** The history is the longest run of the latest frames that fits the bound. */
  lemma {:induction false} BoundedIsLongest(timeline: seq<Frame>)
    ensures var (kept, samples) := Bounded(timeline, Total(timeline));
            && IsSuffix(kept, timeline)
            && samples == Total(kept) <= HISTORY
            && (forall k :: 0 <= k < |timeline| - |kept| ==> Total(timeline[k..]) > HISTORY)
    decreases |timeline|
  {
    assert timeline[0..] == timeline;
    if Total(timeline) > HISTORY {
      var rest := timeline[1..];
      BoundedIsLongest(rest);
      var kept := Bounded(rest, Total(rest)).0;
      assert rest[|rest| - |kept|..] == timeline[|timeline| - |kept|..];
      forall k | 0 <= k < |timeline| - |kept|
        ensures Total(timeline[k..]) > HISTORY
      {
        assert k > 0 ==> timeline[k..] == rest[k - 1..];
      }
    }
  }

  lemma {:induction false} RememberKeepsValid(t: Tracker, speech: bool)
    requires t.Valid()
    ensures AfterRemember(t, speech).Valid()
  {
    var all := t.timeline + [Frame(t.detector.frameSamples, speech)];
    TotalSnoc(t.timeline, Frame(t.detector.frameSamples, speech));
    BoundedKeepsValid(all, Total(all));
  }

  lemma {:induction false} BoundedKeepsValid(all: seq<Frame>, samples: nat)
    requires Positive(all) && samples == Total(all)
    ensures var (kept, samples) := Bounded(all, samples);
            Positive(kept) && samples == Total(kept)
  {
    BoundedIsLongest(all);
    SuffixStaysPositive(Bounded(all, Total(all)).0, all);
  }

  lemma {:induction false} SuffixStaysPositive(kept: seq<Frame>, all: seq<Frame>)
    requires IsSuffix(kept, all) && Positive(all)
    ensures Positive(kept)
  {
    assert forall i :: 0 <= i < |kept| ==> kept[i] == all[|all| - |kept| + i];
  }

  lemma {:induction false} ConsumedIsValid(signal: Signal, t: Tracker, data: seq<Byte>)
    requires t.Valid()
    ensures Consumed(signal, t, data).Valid()
    ensures IsSuffix(Consumed(signal, t, data).leftover, data)
    decreases |data|
  {
    var n := t.FrameBytes();
    if n <= |data| {
      var heard := t.heard + [data[..n]];
      RememberKeepsValid(t.(heard := heard), t.detector.judge(heard));
      ConsumedIsValid(signal, AfterFrame(signal, t, data[..n]), data[n..]);
    }
  }

  /** Between pushes less than a frame is unclassified, whatever detector is in charge. */
  lemma {:induction false} PushKeepsValid(signal: Signal, t: Tracker, pcm: seq<Byte>)
    requires t.Valid()
    ensures AfterPush(signal, t, pcm).Valid()
    ensures IsSuffix(AfterPush(signal, t, pcm).leftover, t.leftover + pcm)
  {
    ConsumedIsValid(signal, t, t.leftover + pcm);
  }

  /** One turn of the frame loop, and its end. */
  lemma {:induction false} ConsumedStep(signal: Signal, t: Tracker, data: seq<Byte>, offset: nat)
    requires offset + t.FrameBytes() <= |data|
    ensures Consumed(signal, t, data[offset..])
         == Consumed(signal, AfterFrame(signal, t, data[offset..offset + t.FrameBytes()]), data[offset + t.FrameBytes()..])
  {
    var n := t.FrameBytes();
    assert data[offset..][..n] == data[offset..offset + n] && data[offset..][n..] == data[offset + n..];
  }

  lemma {:induction false} ConsumedEnd(signal: Signal, t: Tracker, data: seq<Byte>)
    requires |data| < t.FrameBytes()
    ensures Consumed(signal, t, data) == t.(leftover := data)
  {
  }

  // ---- What the timeline says about the audio ----

  /** The frames that consuming `data` adds, oldest first. */
  function FramesOf(signal: Signal, t: Tracker, data: seq<Byte>): seq<Frame>
    decreases |data|
  {
    var n := t.FrameBytes();
    if n <= |data| then
      var t' := AfterFrame(signal, t, data[..n]);
      [Frame(t.detector.frameSamples, t.detector.judge(t.heard + [data[..n]]))] + FramesOf(signal, t', data[n..])
    else []
  }

  /**
   * The timeline is the end of all frames ever classified, and the frames account for every sample of the
   * audio but those carried over: the latest label lags the latest sample by exactly the leftover.
   */
  lemma {:induction false} TimelineLagsByLeftover(signal: Signal, t: Tracker, data: seq<Byte>)
    requires t.Valid()
    ensures IsSuffix(Consumed(signal, t, data).timeline, t.timeline + FramesOf(signal, t, data))
    ensures BYTES_PER_SAMPLE * Total(FramesOf(signal, t, data)) + |Consumed(signal, t, data).leftover| == |data|
    decreases |data|
  {
    var n := t.FrameBytes();
    if n <= |data| {
      var t' := AfterFrame(signal, t, data[..n]);
      FrameKeepsValid(signal, t, data[..n]);
      TimelineLagsByLeftover(signal, t', data[n..]);
      RememberedFrame(signal, t, data[..n]);
      OneFrameMore(signal, t, data, t', Consumed(signal, t', data[n..]), FramesOf(signal, t', data[n..]));
    } else {
      assert t.timeline + [] == t.timeline;
    }
  }

  lemma {:induction false} OneFrameMore(signal: Signal, t: Tracker, data: seq<Byte>, t': Tracker, last: Tracker, rest: seq<Frame>)
    requires t.FrameBytes() <= |data|
    requires t' == AfterFrame(signal, t, data[..t.FrameBytes()])
    requires last == Consumed(signal, t', data[t.FrameBytes()..]) && rest == FramesOf(signal, t', data[t.FrameBytes()..])
    requires IsSuffix(last.timeline, t'.timeline + rest)
    requires IsSuffix(t'.timeline, t.timeline + [Frame(t.detector.frameSamples, t.detector.judge(t.heard + [data[..t.FrameBytes()]]))])
    requires BYTES_PER_SAMPLE * Total(rest) + |last.leftover| == |data| - t.FrameBytes()
    ensures IsSuffix(Consumed(signal, t, data).timeline, t.timeline + FramesOf(signal, t, data))
    ensures BYTES_PER_SAMPLE * Total(FramesOf(signal, t, data)) + |Consumed(signal, t, data).leftover| == |data|
  {
    hide AfterFrame;
    var frame := Frame(t.detector.frameSamples, t.detector.judge(t.heard + [data[..t.FrameBytes()]]));
    assert FramesOf(signal, t, data) == [frame] + rest && Consumed(signal, t, data) == last;
    SuffixChain(last.timeline, t'.timeline, t.timeline + [frame], rest);
    assert t.timeline + [frame] + rest == t.timeline + ([frame] + rest);
    assert ([frame] + rest)[1..] == rest;
  }

  lemma {:induction false} FrameKeepsValid(signal: Signal, t: Tracker, frame: seq<Byte>)
    requires t.Valid()
    ensures AfterFrame(signal, t, frame).Valid()
  {
    RememberKeepsValid(t.(heard := t.heard + [frame]), t.detector.judge(t.heard + [frame]));
  }

  lemma {:induction false} RememberedFrame(signal: Signal, t: Tracker, frame: seq<Byte>)
    ensures IsSuffix(AfterFrame(signal, t, frame).timeline,
                     t.timeline + [Frame(t.detector.frameSamples, t.detector.judge(t.heard + [frame]))])
  {
    var speech := t.detector.judge(t.heard + [frame]);
    RememberAddsOne(t.(heard := t.heard + [frame]), speech);
    assert AfterFrame(signal, t, frame).timeline == AfterRemember(t.(heard := t.heard + [frame]), speech).timeline;
  }

  lemma {:induction false} RememberAddsOne(t: Tracker, speech: bool)
    ensures IsSuffix(AfterRemember(t, speech).timeline, t.timeline + [Frame(t.detector.frameSamples, speech)])
  {
    BoundedIsSuffix(t.timeline + [Frame(t.detector.frameSamples, speech)], t.timelineSamples + t.detector.frameSamples);
  }

  lemma {:induction false} BoundedIsSuffix(timeline: seq<Frame>, samples: nat)
    ensures IsSuffix(Bounded(timeline, samples).0, timeline)
    decreases |timeline|
  {
    if samples > HISTORY && timeline != [] && timeline[0].samples <= samples {
      BoundedIsSuffix(timeline[1..], samples - timeline[0].samples);
      SuffixOfRest(Bounded(timeline[1..], samples - timeline[0].samples).0, timeline);
    } else {
      assert timeline[0..] == timeline;
    }
  }

  lemma {:induction false} SuffixOfRest<T>(kept: seq<T>, all: seq<T>)
    requires all != [] && IsSuffix(kept, all[1..])
    ensures IsSuffix(kept, all)
  {
    assert all[1..][|all| - 1 - |kept|..] == all[|all| - |kept|..];
  }

  lemma {:induction false} SuffixChain<T>(last: seq<T>, mid: seq<T>, all: seq<T>, more: seq<T>)
    requires IsSuffix(last, mid + more) && IsSuffix(mid, all)
    ensures IsSuffix(last, all + more)
  {
    assert (all + more)[|all| - |mid|..] == mid + more;
  }

  // ---- The tracker as the object the session owns ----

  class SilenceTracker {
    const signal: Signal
    var detector: Detector
    var heard: seq<seq<Byte>>
    var leftover: seq<Byte>
    var trailingSilenceFrames: nat
    var speechFrames: nat
    var timeline: seq<Frame>
    var timelineSamples: nat
    var crossCheck: bool
    var loudButSilentFrames: nat
    var fellBack: bool

    ghost function Model(): Tracker
      reads this
    {
      Tracker(detector, heard, leftover, trailingSilenceFrames, speechFrames, timeline, timelineSamples,
              crossCheck, loudButSilentFrames, fellBack)
    }

    constructor (signal: Signal, detector: Detector, crossCheck: bool)
      ensures Model() == NewTracker(detector, crossCheck) && this.signal == signal
    {
      this.signal := signal;
      this.detector := detector;
      this.crossCheck := crossCheck;
      heard, leftover, trailingSilenceFrames, speechFrames := [], [], 0, 0;
      timeline, timelineSamples, loudButSilentFrames, fellBack := [], 0, 0, false;
    }

    method Push(pcm: seq<Byte>)
      requires Model().Valid()
      modifies this
      ensures Model() == AfterPush(signal, old(Model()), pcm)
    {
      hide AfterFrame;
      var data := leftover + pcm;
      var offset := 0;
      ghost var end := Consumed(signal, Model(), data);
      assert data[0..] == data;
      while offset + detector.frameSamples * BYTES_PER_SAMPLE <= |data|
        invariant 0 <= offset <= |data|
        invariant timelineSamples == Total(timeline)
        invariant Consumed(signal, Model(), data[offset..]) == end
        decreases |data| - offset
      {
        ghost var was := Model();
        var size := detector.frameSamples * BYTES_PER_SAMPLE;
        ConsumedStep(signal, was, data, offset);
        Classify(data[offset..offset + size]);
        offset := offset + size;
      }
      ConsumedEnd(signal, Model(), data[offset..]);
      leftover := data[offset..];
    }

    /** The body of the frame loop: judge, remember, audit, count. */
    method Classify(frame: seq<Byte>)
      requires timelineSamples == Total(timeline)
      modifies this
      ensures Model() == AfterFrame(signal, old(Model()), frame)
      ensures timelineSamples == Total(timeline)
    {
      hide AfterRemember;
      heard := heard + [frame];
      var speech := detector.judge(heard);
      Remember(speech);
      if crossCheck {
        Audit(frame, speech);
      }
      if speech {
        speechFrames := speechFrames + 1;
        trailingSilenceFrames := 0;
      } else {
        trailingSilenceFrames := trailingSilenceFrames + 1;
      }
    }

    method Remember(speech: bool)
      requires timelineSamples == Total(timeline)
      modifies this
      ensures Model() == AfterRemember(old(Model()), speech)
      ensures timelineSamples == Total(timeline)
    {
      var frame := Frame(detector.frameSamples, speech);
      TotalSnoc(timeline, frame);
      timeline := timeline + [frame];
      timelineSamples := timelineSamples + detector.frameSamples;
      ghost var all := timeline;
      while timelineSamples > HISTORY
        invariant timelineSamples == Total(timeline)
        invariant Bounded(timeline, timelineSamples) == Bounded(all, Total(all))
        invariant Model() == old(Model()).(timeline := timeline, timelineSamples := timelineSamples)
        decreases |timeline|
      {
        timelineSamples := timelineSamples - timeline[0].samples;
        timeline := timeline[1..];
      }
    }

    method Audit(frame: seq<Byte>, speech: bool)
      modifies this
      ensures Model() == AfterAudit(signal, old(Model()), frame, speech)
    {
      if speech || !signal.loud(frame) {
        loudButSilentFrames := 0;
        return;
      }
      loudButSilentFrames := loudButSilentFrames + 1;
      if loudButSilentFrames * detector.frameSamples < DISAGREEMENT_LIMIT {
        return;
      }
      ReplaceWithEnergy();
    }

    method ReplaceWithEnergy()
      modifies this
      ensures Model() == AfterReplace(signal, old(Model()))
    {
      detector := signal.energy;
      heard := [];
      leftover := [];
      crossCheck := false;
      fellBack := true;
    }

    method Reset()
      modifies this
      ensures Model() == AfterResetTracker(old(Model()))
    {
      leftover := [];
      trailingSilenceFrames := 0;
      speechFrames := 0;
      loudButSilentFrames := 0;
      timeline := [];
      timelineSamples := 0;
      heard := [];
    }
  }
}
