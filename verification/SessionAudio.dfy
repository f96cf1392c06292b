/** What a session keeps about its audio, and what of it a decoder gets (server/app/streaming/session.py). */
module SessionAudio {
  import opened Basics
  import opened Audio
  import opened SessionModel
  import opened SpeechTimeline
  import Text
  import opened Vad

  /** A detector whose frames are no longer than the padding kept around speech. */
  predicate Fits(detector: Detector) {
    detector.frameSamples <= SPEECH_PAD
  }

  /** From a tracker just reset, hearing `h` leads to `t`; `data` is the end of `h`. */
  ghost predicate HeardFrom(signal: Signal, t: Tracker, data: seq<Byte>, t0: Tracker, h: seq<Byte>) {
    && t0 == AfterResetTracker(t0)
    && |h| % BYTES_PER_SAMPLE == 0
    && t == Consumed(signal, t0, h)
    && IsSuffix(data, h)
  }

  ghost predicate Heard(signal: Signal, t: Tracker, data: seq<Byte>) {
    exists t0, h :: HeardFrom(signal, t, data, t0, h)
  }

  /** Whole samples, a consistent tracker, and a window that is the end of what the tracker has heard since its reset. */
  ghost predicate AudioInv(signal: Signal, s: Session) {
    && s.buffer.Valid()
    && s.silence.Valid()
    && Fits(s.silence.detector)
    && Heard(signal, s.silence, s.buffer.data)
  }

  lemma {:induction false} ResetIsHeard(signal: Signal, t: Tracker)
    ensures Heard(signal, AfterResetTracker(t), []) && AfterResetTracker(t).Valid()
  {
    var t0 := AfterResetTracker(t);
    assert Consumed(signal, t0, []) == t0;
    assert HeardFrom(signal, t0, [], t0, []);
  }

  lemma {:induction false} EndIsHeard(signal: Signal, t: Tracker, data: seq<Byte>, data': seq<Byte>)
    requires Heard(signal, t, data) && IsSuffix(data', data)
    ensures Heard(signal, t, data')
  {
    var t0, h :| HeardFrom(signal, t, data, t0, h);
    SuffixIsTransitive(data', data, h);
    assert HeardFrom(signal, t, data', t0, h);
  }

  lemma {:induction false} MoreIsHeard(signal: Signal, t: Tracker, data: seq<Byte>, pcm: seq<Byte>)
    requires Heard(signal, t, data) && |pcm| % BYTES_PER_SAMPLE == 0
    ensures Heard(signal, AfterPush(signal, t, pcm), data + pcm)
  {
    var t0, h :| HeardFrom(signal, t, data, t0, h);
    MoreIsHeardFrom(signal, t, data, t0, h, pcm);
  }

  lemma {:induction false} MoreIsHeardFrom(signal: Signal, t: Tracker, data: seq<Byte>, t0: Tracker, h: seq<Byte>, pcm: seq<Byte>)
    requires HeardFrom(signal, t, data, t0, h) && |pcm| % BYTES_PER_SAMPLE == 0
    ensures HeardFrom(signal, AfterPush(signal, t, pcm), data + pcm, t0, h + pcm)
  {
    ConsumedInTwo(signal, t0, h, pcm);
    SuffixAppend(data, h, pcm);
  }

  /** The tracker swaps its detector for the energy one at most. */
  lemma {:induction false} ConsumingKeepsFit(signal: Signal, t: Tracker, data: seq<Byte>)
    requires Fits(signal.energy) && Fits(t.detector)
    ensures Fits(Consumed(signal, t, data).detector)
    decreases |data|
  {
    var n := t.FrameBytes();
    if n <= |data| {
      ConsumingKeepsFit(signal, AfterFrame(signal, t, data[..n]), data[n..]);
    }
  }

  lemma {:induction false} PushKeepsAudio(env: Environment, s: Session, pcm: seq<Byte>)
    requires AudioInv(env.signal, s) && Fits(env.signal.energy)
    ensures AudioInv(env.signal, AfterPushAudio(env, s, pcm))
  {
    if AfterPushAudio(env, s, pcm) != s {
      HearingKeepsAudio(env.signal, s.silence, s.buffer, pcm);
    }
  }

  lemma {:induction false} HearingKeepsAudio(signal: Signal, silence: Tracker, buffer: Buffer, pcm: seq<Byte>)
    requires silence.Valid() && buffer.Valid() && |pcm| % BYTES_PER_SAMPLE == 0
    requires Fits(silence.detector) && Fits(signal.energy) && Heard(signal, silence, buffer.data)
    ensures var silence', buffer' := AfterPush(signal, silence, pcm), AfterAppend(buffer, pcm);
            && silence'.Valid() && buffer'.Valid()
            && Fits(silence'.detector) && Heard(signal, silence', buffer'.data)
  {
    PushKeepsValid(signal, silence, pcm);
    ConsumingKeepsFit(signal, silence, silence.leftover + pcm);
    OperationsKeepValid(buffer, pcm, 0, 0);
    MoreIsHeard(signal, silence, buffer.data, pcm);
  }

  lemma {:induction false} SuffixIsTransitive(a: seq<Byte>, b: seq<Byte>, c: seq<Byte>)
    requires IsSuffix(a, b) && IsSuffix(b, c)
    ensures IsSuffix(a, c)
  {
    assert c[|c| - |b|..][|b| - |a|..] == c[|c| - |a|..];
  }

  lemma {:induction false} SuffixAppend(a: seq<Byte>, b: seq<Byte>, more: seq<Byte>)
    requires IsSuffix(a, b)
    ensures IsSuffix(a + more, b + more)
  {
    assert (b + more)[|b| - |a|..] == b[|b| - |a|..] + more;
  }

  lemma {:induction false} InputKeepsAudio(env: Environment, s: Session, input: Input)
    requires AudioInv(env.signal, s) && Fits(env.signal.energy)
    ensures AudioInv(env.signal, AfterInput(env, s, input))
  {
    match input
    case Push(pcm) => PushKeepsAudio(env, s, pcm);
    case Flush =>
    case Close => ResetIsHeard(env.signal, s.silence);
  }

  lemma {:induction false} InputsKeepAudio(env: Environment, s: Session, inputs: seq<Input>)
    requires AudioInv(env.signal, s) && Fits(env.signal.energy)
    ensures AudioInv(env.signal, AfterInputs(env, s, inputs))
  {
    if inputs != [] {
      InputsKeepAudio(env, s, inputs[..|inputs| - 1]);
      InputKeepsAudio(env, AfterInputs(env, s, inputs[..|inputs| - 1]), inputs[|inputs| - 1]);
    }
  }

  /** Only the front of the buffer goes, and the tracker is left alone. */
  ghost predicate Cut(s: Session, s': Session) {
    s'.silence == s.silence && s'.buffer.Valid() && IsSuffix(s'.buffer.data, s.buffer.data)
  }

  lemma {:induction false} CutKeepsAudio(signal: Signal, s: Session, s': Session)
    requires AudioInv(signal, s) && Cut(s, s')
    ensures AudioInv(signal, s')
  {
    EndIsHeard(signal, s.silence, s.buffer.data, s'.buffer.data);
  }

  lemma {:induction false} DecodingKeepsAudio(cfg: Settings, env: Environment, s: Session, pcm: seq<Byte>, byDraft: bool)
    requires AudioInv(env.signal, s) && Fits(env.signal.energy)
    ensures AudioInv(env.signal, Decoded(cfg, env, s, pcm, byDraft).0)
  {
    var (clip, offset) := OnlyTheSpeech(cfg, s.silence, pcm);
    ExchangeKeepsAudio(env, s, clip, offset, byDraft);
  }

  lemma {:induction false} ExchangeKeepsAudio(env: Environment, s: Session, clip: seq<Byte>, offset: int, byDraft: bool)
    requires AudioInv(env.signal, s) && Fits(env.signal.energy)
    ensures AudioInv(env.signal, Exchanged(env, s, clip, offset, byDraft).0)
  {
    InputsKeepAudio(env, s.(decodes := s.decodes + 1), env.arrivals(s.decodes));
  }

  lemma {:induction false} TrimmingCuts(cfg: Settings, s: Session, words: seq<Word>)
    requires s.buffer.Valid()
    ensures Cut(s, Trimmed(cfg, s, words))
  {
    assert s.buffer.data[0..] == s.buffer.data;
  }

  lemma {:induction false} ReanchoringCuts(s: Session, rotated: Page, reopened: Page, cut: Option<int>)
    requires s.buffer.Valid()
    ensures Cut(s, Reanchored(s, rotated, reopened, cut))
  {
    assert s.buffer.data[0..] == s.buffer.data;
  }

  lemma {:induction false} DigestingCuts(cfg: Settings, fold: Text.Casefold, s: Session, h: string, words: seq<Word>)
    requires s.buffer.Valid()
    ensures Cut(s, Digested(cfg, fold, s, h, words))
  {
    if Conflicts(fold, s.page, h) {
      var typed := s.page.agreement.Committed();
      var page := Rotated(fold, s.page, h);
      ReanchoringCuts(s, page, Reopened(fold, page, typed, h), WordBoundary(words, typed));
    } else {
      TrimmingCuts(cfg, s.(page := ReadingShown(fold, s.page, h)), words);
    }
  }

  lemma {:induction false} CompactingKeepsAudio(cfg: Settings, env: Environment, s: Session)
    requires AudioInv(env.signal, s) && Fits(env.signal.energy)
    ensures AudioInv(env.signal, DraftWindowCompacted(cfg, env, s).s)
  {
    var (s1, reply) := Decoded(cfg, env, s, s.buffer.data, false);
    DecodingKeepsAudio(cfg, env, s, s.buffer.data, false);
    CompactingOnCuts(cfg, s1, reply, s.buffer.Samples());
    CutKeepsAudio(env.signal, s1, CompactedOn(cfg, s1, reply, s.buffer.Samples()).s);
  }

  lemma {:induction false} CompactingOnCuts(cfg: Settings, s: Session, reply: Reply, window: nat)
    requires s.buffer.Valid()
    ensures Cut(s, CompactedOn(cfg, s, reply, window).s)
  {
    assert s.buffer.data[0..] == s.buffer.data;
  }

  lemma {:induction false} PassKeepsAudio(cfg: Settings, env: Environment, s: Session)
    requires AudioInv(env.signal, s) && Fits(env.signal.energy)
    ensures AudioInv(env.signal, IncrementallyDecoded(cfg, env, s).s)
  {
    var (s1, reply) := PassDecoded(cfg, env, s);
    DecodingKeepsAudio(cfg, env, s.(buffer := AfterMarkDecoded(s.buffer)), s.buffer.data, cfg.draftMode);
    PassingOnKeepsAudio(cfg, env, s1, reply);
  }

  lemma {:induction false} PassingOnKeepsAudio(cfg: Settings, env: Environment, s: Session, reply: Reply)
    requires AudioInv(env.signal, s) && Fits(env.signal.energy)
    ensures AudioInv(env.signal, PassedOn(cfg, env, s, reply).s)
  {
    if reply.Result? && Said(reply) != "" {
      if cfg.draftMode {
        CompactingKeepsAudio(cfg, env, s.(page := DraftShown(env.fold, s.page, Said(reply))));
      } else {
        DigestingCuts(cfg, env.fold, s, Said(reply), reply.words);
        CutKeepsAudio(env.signal, s, Digested(cfg, env.fold, s, Said(reply), reply.words));
      }
    }
  }

  lemma {:induction false} FinalizingKeepsAudio(cfg: Settings, env: Environment, s: Session)
    requires AudioInv(env.signal, s) && Fits(env.signal.energy)
    ensures AudioInv(env.signal, Finalized(cfg, env, s).s)
  {
    var (s1, reply) := FinalDecoded(cfg, env, s);
    DecodingKeepsAudio(cfg, env, s.(buffer := AfterMarkDecoded(s.buffer)), s.buffer.data, false);
    assert Finalized(cfg, env, s) == FinalizedOn(cfg, env.fold, s1, reply);
    ResetIsHeard(env.signal, s1.silence);
  }

  lemma {:induction false} PreRollCuts(cfg: Settings, s: Session)
    requires s.buffer.Valid()
    ensures Cut(s, PreRolled(cfg, s))
  {
    OperationsKeepValid(s.buffer, [], 0, cfg.silence);
    assert s.buffer.data[0..] == s.buffer.data;
  }

  lemma {:induction false} StepKeepsAudio(cfg: Settings, env: Environment, s: Session)
    requires AudioInv(env.signal, s) && Fits(env.signal.energy)
    ensures AudioInv(env.signal, Stepped(cfg, env, s).0)
  {
    match Chosen(cfg, s)
    case Idle =>
    case PreRoll =>
      PreRollCuts(cfg, s);
      CutKeepsAudio(env.signal, s, PreRolled(cfg, s));
      FinalizingKeepsAudio(cfg, env, PreRolled(cfg, s));
    case TooLong => FinalizingKeepsAudio(cfg, env, s.(page := Reported(s.page, UtteranceTooLong)));
    case Flushing => FinalizingKeepsAudio(cfg, env, s);
    case Silence => FinalizingKeepsAudio(cfg, env, s);
    case Pass => PassKeepsAudio(cfg, env, s);
  }

  lemma {:induction false} DrainKeepsAudio(cfg: Settings, env: Environment, s: Session)
    requires AudioInv(env.signal, s) && Fits(env.signal.energy)
    ensures AudioInv(env.signal, Drained(cfg, env, s))
    decreases |s.buffer.data|
  {
    var (s1, more) := Stepped(cfg, env, s);
    StepKeepsAudio(cfg, env, s);
    if more && !s1.hands.closing {
      MoreMeansEmptied(cfg, env, s);
      DrainKeepsAudio(cfg, env, s1);
    }
  }

  /** Over every run, with any decoder. */
  lemma {:induction false} EveryRunKeepsAudio(cfg: Settings, env: Environment, detector: Detector,
                                              crossCheck: bool, schedule: seq<Action>)
    requires Fits(detector) && Fits(env.signal.energy)
    ensures AudioInv(env.signal, Ran(cfg, env, NewSession(cfg, detector, crossCheck), schedule))
  {
    if schedule == [] {
      ResetIsHeard(env.signal, NewTracker(detector, crossCheck));
    } else {
      var init := schedule[..|schedule| - 1];
      EveryRunKeepsAudio(cfg, env, detector, crossCheck, init);
      var before := Ran(cfg, env, NewSession(cfg, detector, crossCheck), init);
      match schedule[|schedule| - 1]
      case Arrive(input) => InputKeepsAudio(env, before, input);
      case Round => DrainKeepsAudio(cfg, env, before.(hands := before.hands.(wake := false)));
    }
  }

  // ---- What the decoder gets ----

  /** The tracker's latest label lags the window's latest sample by this many samples. */
  function Lag(t: Tracker): nat {
    |t.leftover| / BYTES_PER_SAMPLE
  }

  /** Sample `i` of an `n`-sample window has been classified, and its label is still within the history. */
  predicate Classified(t: Tracker, n: nat, i: nat) {
    i + Lag(t) < n <= |Labels(t.timeline)| + Lag(t) + i
  }

  /** Its label, by where the timeline has it. */
  predicate LabelledSpeech(t: Tracker, n: nat, i: nat) {
    Classified(t, n, i) && Labels(t.timeline)[|Labels(t.timeline)| + Lag(t) + i - n]
  }

  // ---- What a label is about ----

  /** The detector's verdict on the frame that holds sample `p` of what a tracker hears. */
  predicate VerdictOn(signal: Signal, t: Tracker, data: seq<Byte>, p: nat)
    decreases |data|
  {
    var n := t.FrameBytes();
    n <= |data| &&
    if p < t.detector.frameSamples then t.detector.judge(t.heard + [data[..n]])
    else VerdictOn(signal, AfterFrame(signal, t, data[..n]), data[n..], p - t.detector.frameSamples)
  }

  lemma {:induction false} LabelsAreVerdicts(signal: Signal, t: Tracker, data: seq<Byte>, p: nat)
    requires p < |Labels(FramesOf(signal, t, data))|
    ensures Labels(FramesOf(signal, t, data))[p] == VerdictOn(signal, t, data, p)
    decreases |data|
  {
    var n := t.FrameBytes();
    if n <= |data| {
      var frame := Frame(t.detector.frameSamples, t.detector.judge(t.heard + [data[..n]]));
      var rest := FramesOf(signal, AfterFrame(signal, t, data[..n]), data[n..]);
      LabelsAppend([frame], rest);
      LabelsOne(frame);
      if p >= frame.samples {
        LabelsAreVerdicts(signal, AfterFrame(signal, t, data[..n]), data[n..], p - frame.samples);
      }
    }
  }

  lemma {:induction false} LabelsOfEnd(last: seq<Frame>, all: seq<Frame>)
    requires IsSuffix(last, all)
    ensures IsSuffix(Labels(last), Labels(all))
  {
    var k := |all| - |last|;
    LabelsAppend(all[..k], all[k..]);
    assert all[..k] + all[k..] == all;
  }

  /** Sample `i` of the window `data`, the end of `h`, was judged to be speech, and the history still knows. */
  predicate JudgedSpeech(signal: Signal, t: Tracker, data: seq<Byte>, t0: Tracker, h: seq<Byte>, i: nat)
    requires |data| <= |h|
  {
    && Classified(t, |data| / BYTES_PER_SAMPLE, i)
    && VerdictOn(signal, t0, h, (|h| - |data|) / BYTES_PER_SAMPLE + i)
  }

  /** The label of a window's sample is the verdict on the bytes of that very sample. */
  lemma {:induction false} LabelIsVerdict(signal: Signal, t: Tracker, data: seq<Byte>, t0: Tracker, h: seq<Byte>, i: nat)
    requires HeardFrom(signal, t, data, t0, h) && |data| % BYTES_PER_SAMPLE == 0
    requires Classified(t, |data| / BYTES_PER_SAMPLE, i)
    ensures LabelledSpeech(t, |data| / BYTES_PER_SAMPLE, i) <==> JudgedSpeech(signal, t, data, t0, h, i)
  {
    var frames := FramesOf(signal, t0, h);
    var labels, all := Labels(t.timeline), Labels(frames);
    var p := (|h| - |data|) / BYTES_PER_SAMPLE + i;
    var k := |labels| + Lag(t) + i - |data| / BYTES_PER_SAMPLE;
    HistoryIsEndOfFrames(signal, t0, h);
    assert p == |all| - |labels| + k;
    FromTheEnd(labels, all, k);
    LabelsAreVerdicts(signal, t0, h, p);
  }

  lemma {:induction false} FromTheEnd<T>(last: seq<T>, all: seq<T>, k: nat)
    requires IsSuffix(last, all) && k < |last|
    ensures last[k] == all[|all| - |last| + k]
  {
    assert all[|all| - |last|..][k] == last[k];
  }

  /** The history is the end of every label ever given, and those cover what was heard but for the leftover. */
  lemma {:induction false} HistoryIsEndOfFrames(signal: Signal, t0: Tracker, h: seq<Byte>)
    requires t0 == AfterResetTracker(t0)
    ensures var t, all := Consumed(signal, t0, h), Labels(FramesOf(signal, t0, h));
            IsSuffix(Labels(t.timeline), all) && BYTES_PER_SAMPLE * |all| + |t.leftover| == |h|
  {
    var frames := FramesOf(signal, t0, h);
    TimelineLagsByLeftover(signal, t0, h);
    assert [] + frames == frames;
    LabelsOfEnd(Consumed(signal, t0, h).timeline, frames);
    LabelsLength(frames);
  }

  /** Word timings within a clip, once shifted, are within the window. */
  ghost predicate ShiftsInside(samples: nat, clip: seq<Byte>, offset: nat) {
    forall word: Word :: 0 <= word.start <= word.end <= |clip| / BYTES_PER_SAMPLE ==>
      var moved := Shifted([word], offset)[0];
      offset <= moved.start <= moved.end <= samples
  }

  /**
   * The clip is a whole-sample slice of the window that starts where the offset says, and it holds every sample
   * of the window that the detector judged to be speech, for as long as the history goes back.
   */
  lemma {:induction false} ClipHoldsTheSpeech(cfg: Settings, signal: Signal, s: Session, t0: Tracker, h: seq<Byte>)
    requires AudioInv(signal, s) && HeardFrom(signal, s.silence, s.buffer.data, t0, h)
    ensures var pcm := s.buffer.data;
            var (clip, offset) := OnlyTheSpeech(cfg, s.silence, pcm);
            && |clip| % BYTES_PER_SAMPLE == 0
            && offset * BYTES_PER_SAMPLE + |clip| <= |pcm|
            && clip == pcm[offset * BYTES_PER_SAMPLE..offset * BYTES_PER_SAMPLE + |clip|]
            && (forall i: nat :: JudgedSpeech(signal, s.silence, pcm, t0, h, i) ==>
                  offset <= i < offset + |clip| / BYTES_PER_SAMPLE)
            && ShiftsInside(s.buffer.Samples(), clip, offset)
  {
    var pcm := s.buffer.data;
    var (clip, offset) := OnlyTheSpeech(cfg, s.silence, pcm);
    ClipIsASlice(cfg, s);
    forall i: nat | JudgedSpeech(signal, s.silence, pcm, t0, h, i)
      ensures offset <= i < offset + |clip| / BYTES_PER_SAMPLE
    {
      LabelIsVerdict(signal, s.silence, pcm, t0, h, i);
      SpeechIsInClip(cfg, signal, s, i);
    }
  }

  /**
   * And no more than that: from 200 milliseconds before the first of the window's samples labelled speech to 200 after
   * the last, as far as the window goes. All of it when nothing is labelled speech, or trimming is off.
   */
  lemma {:induction false} ClipIsExact(cfg: Settings, s: Session)
    requires s.buffer.Valid()
    ensures var n := |s.buffer.data| / BYTES_PER_SAMPLE;
            var labels := LastOf(Labels(s.silence.timeline), n);
            var first, last := n - |labels| + FirstTrue(labels), n - |labels| + LastTrue(labels);
            var (clip, offset) := OnlyTheSpeech(cfg, s.silence, s.buffer.data);
            if !cfg.trimToSpeech || true !in labels then clip == s.buffer.data && offset == 0
            else
              && offset == Max(0, first - 3200) <= Min(n, last + 3200)
              && clip == s.buffer.data[offset * BYTES_PER_SAMPLE..Min(n, last + 3200) * BYTES_PER_SAMPLE]
  {
    hide Clipped, Labels, FirstTrue, LastTrue;
    var n := |s.buffer.data| / BYTES_PER_SAMPLE;
    SpanIsInside(s.silence.timeline, n, SPEECH_PAD);
    SliceOfSpan(s.buffer.data, SpanInLast(s.silence.timeline, n, SPEECH_PAD));
  }

  lemma {:induction false} SliceOfSpan(pcm: seq<Byte>, span: Span)
    requires |pcm| % BYTES_PER_SAMPLE == 0 && (span.Speech? ==> span.head <= span.tail <= |pcm| / BYTES_PER_SAMPLE)
    ensures Clipped(pcm, span) ==
              if span.NoSpeech? then (pcm, 0) else (pcm[span.head * BYTES_PER_SAMPLE..span.tail * BYTES_PER_SAMPLE], span.head)
  {
    assert pcm[0..|pcm|] == pcm;
    if span.Speech? {
      assert pcm[..span.tail * BYTES_PER_SAMPLE][span.head * BYTES_PER_SAMPLE..]
          == pcm[span.head * BYTES_PER_SAMPLE..span.tail * BYTES_PER_SAMPLE];
    }
  }

  /** Over every run: whatever window is decoded next, its clip holds the speech the detector found in its bytes. */
  lemma {:induction false} EveryClipHoldsTheSpeech(cfg: Settings, env: Environment, detector: Detector,
                                                   crossCheck: bool, schedule: seq<Action>)
    returns (t0: Tracker, h: seq<Byte>)
    requires Fits(detector) && Fits(env.signal.energy)
    ensures var s := Ran(cfg, env, NewSession(cfg, detector, crossCheck), schedule);
            var (clip, offset) := OnlyTheSpeech(cfg, s.silence, s.buffer.data);
            && HeardFrom(env.signal, s.silence, s.buffer.data, t0, h)
            && forall i: nat :: JudgedSpeech(env.signal, s.silence, s.buffer.data, t0, h, i) ==>
                 offset <= i < offset + |clip| / BYTES_PER_SAMPLE
  {
    var s := Ran(cfg, env, NewSession(cfg, detector, crossCheck), schedule);
    EveryRunKeepsAudio(cfg, env, detector, crossCheck, schedule);
    t0, h :| HeardFrom(env.signal, s.silence, s.buffer.data, t0, h);
    ClipHoldsTheSpeech(cfg, env.signal, s, t0, h);
  }

  /** Either the whole window, or the span's samples of it. */
  lemma {:induction false} ClipIsASlice(cfg: Settings, s: Session)
    requires s.buffer.Valid()
    ensures var pcm := s.buffer.data;
            var (clip, offset) := OnlyTheSpeech(cfg, s.silence, pcm);
            var span := SpanInLast(s.silence.timeline, s.buffer.Samples(), SPEECH_PAD);
            && |clip| % BYTES_PER_SAMPLE == 0
            && offset * BYTES_PER_SAMPLE + |clip| <= |pcm|
            && clip == pcm[offset * BYTES_PER_SAMPLE..offset * BYTES_PER_SAMPLE + |clip|]
            && ((clip == pcm && offset == 0)
               || (span.Speech? && offset == span.head && |clip| == (span.tail - span.head) * BYTES_PER_SAMPLE))
  {
    SpanIsInside(s.silence.timeline, s.buffer.Samples(), SPEECH_PAD);
    ClippedIsASlice(s.buffer.data, SpanInLast(s.silence.timeline, s.buffer.Samples(), SPEECH_PAD));
    assert s.buffer.data[0..|s.buffer.data|] == s.buffer.data;
  }

  lemma {:induction false} ClippedIsASlice(pcm: seq<Byte>, span: Span)
    requires |pcm| % BYTES_PER_SAMPLE == 0
    requires span.Speech? ==> span.head <= span.tail <= |pcm| / BYTES_PER_SAMPLE
    ensures var (clip, offset) := Clipped(pcm, span);
            || (clip == pcm && offset == 0)
            || (span.Speech? && offset == span.head
                && clip == pcm[offset * BYTES_PER_SAMPLE..span.tail * BYTES_PER_SAMPLE])
  {
  }

  lemma {:induction false} SpeechIsInClip(cfg: Settings, signal: Signal, s: Session, i: nat)
    requires AudioInv(signal, s) && LabelledSpeech(s.silence, s.buffer.Samples(), i)
    ensures var (clip, offset) := OnlyTheSpeech(cfg, s.silence, s.buffer.data);
            offset <= i < offset + |clip| / BYTES_PER_SAMPLE
  {
    ClipIsASlice(cfg, s);
    SpanCoversSpeech(s.silence.timeline, s.buffer.Samples(), SPEECH_PAD, Lag(s.silence), i);
  }

  lemma {:induction false} SpanIsInside(timeline: seq<Frame>, n: nat, pad: nat)
    ensures var span := SpanInLast(timeline, n, pad);
            span.Speech? ==> span.head <= span.tail <= n
  {
    var labels := LastOf(Labels(timeline), n);
    FoundIff(labels);
    FirstTrueIs(labels);
    LastTrueIs(labels);
    if true in labels {
      assert FirstTrue(labels) <= LastTrue(labels) - 1;
    }
  }
}
