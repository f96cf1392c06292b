/** Every question that a run puts to a decoder (server/app/streaming/session.py, `_decode` and its callers). */
module ClipsSent {
  import opened Audio
  import opened Basics
  import opened SessionAudio
  import opened Prompts
  import opened SessionModel
  import Text
  import opened Vad

  // ---- The states a run decodes from, in order ----

  /** The window of `s` is not empty, nor is the clip of it. */
  predicate GoesOut(cfg: Settings, s: Session) {
    s.buffer.data != [] && OnlyTheSpeech(cfg, s.silence, s.buffer.data).0 != []
  }

  /** The state a decode starts from, and which model it asks. */
  datatype Question = Question(from: Session, byDraft: bool)

  /** A decode of the whole window, if it asks at all. */
  function Sent(cfg: Settings, s: Session, byDraft: bool): seq<Question> {
    if GoesOut(cfg, s) then [Question(s, byDraft)] else []
  }

  function Marked(s: Session): Session {
    s.(buffer := AfterMarkDecoded(s.buffer))
  }

  function FinalSent(cfg: Settings, s: Session): seq<Question> {
    if NeedsAccuratePass(cfg, s) then Sent(cfg, Marked(s), false) else []
  }

  function CompactionSent(cfg: Settings, s: Session): seq<Question> {
    if s.buffer.Samples() < cfg.maxWindow || s.buffer.Samples() < s.nextDraftCompaction then [] else Sent(cfg, s, false)
  }

  /** After the draft has been shown, in the middle of a step: the window now holds what arrived meanwhile. */
  function PassOnSent(cfg: Settings, env: Environment, s: Session, reply: Reply): seq<Question> {
    if reply.Aborted? || Said(reply) == "" || !cfg.draftMode then []
    else CompactionSent(cfg, s.(page := DraftShown(env.fold, s.page, Said(reply))))
  }

  function PassSent(cfg: Settings, env: Environment, s: Session): seq<Question> {
    var (s1, reply) := PassDecoded(cfg, env, s);
    Sent(cfg, Marked(s), cfg.draftMode) + PassOnSent(cfg, env, s1, reply)
  }

  function StepSent(cfg: Settings, env: Environment, s: Session): seq<Question> {
    match Chosen(cfg, s)
    case Idle => []
    case PreRoll =>
      var s1 := PreRolled(cfg, s);
      if s1.hands.flushRequested then FinalSent(cfg, s1) else []
    case TooLong => FinalSent(cfg, s.(page := Reported(s.page, UtteranceTooLong)))
    case Flushing => FinalSent(cfg, s)
    case Silence => FinalSent(cfg, s)
    case Pass => PassSent(cfg, env, s)
  }

  function DrainSent(cfg: Settings, env: Environment, s: Session): seq<Question>
    decreases |s.buffer.data|
  {
    var (s1, more) := Stepped(cfg, env, s);
    if !more || s1.hands.closing then StepSent(cfg, env, s)
    else
      MoreMeansEmptied(cfg, env, s);
      StepSent(cfg, env, s) + DrainSent(cfg, env, s1)
  }

  function ActionSent(cfg: Settings, env: Environment, s: Session, action: Action): seq<Question> {
    if action.Arrive? || !s.hands.alive || s.hands.closing || !s.hands.wake then []
    else DrainSent(cfg, env, s.(hands := s.hands.(wake := false)))
  }

  function RunSent(cfg: Settings, env: Environment, s: Session, schedule: seq<Action>): seq<Question> {
    if schedule == [] then []
    else
      var init := schedule[..|schedule| - 1];
      RunSent(cfg, env, s, init) + ActionSent(cfg, env, Ran(cfg, env, s, init), schedule[|schedule| - 1])
  }

  // ---- They are all of them, and each has consistent audio ----

  /** Exactly the decodes numbered from `first` up to `next`, each from a state whose audio is consistent. */
  ghost predicate Asked(cfg: Settings, signal: Signal, sent: seq<Question>, first: nat, next: nat) {
    && first + |sent| == next
    && forall k :: 0 <= k < |sent| ==> AskedFrom(cfg, signal, sent[k].from, first + k)
  }

  ghost predicate AskedFrom(cfg: Settings, signal: Signal, s: Session, n: nat) {
    GoesOut(cfg, s) && s.decodes == n && AudioInv(signal, s) && Prompted(s.page)
  }

  lemma {:induction false} AskedInTwo(cfg: Settings, signal: Signal, a: seq<Question>, b: seq<Question>,
                                      first: nat, middle: nat, next: nat)
    requires Asked(cfg, signal, a, first, middle) && Asked(cfg, signal, b, middle, next)
    ensures Asked(cfg, signal, a + b, first, next)
  {
    forall k | 0 <= k < |a + b|
      ensures AskedFrom(cfg, signal, (a + b)[k].from, first + k)
    {
      assert (a + b)[k] == if k < |a| then a[k] else b[k - |a|];
    }
  }

  lemma {:induction false} InputsAskNothing(env: Environment, s: Session, inputs: seq<Input>)
    ensures AfterInputs(env, s, inputs).decodes == s.decodes
  {
    if inputs != [] {
      InputsAskNothing(env, s, inputs[..|inputs| - 1]);
    }
  }

  lemma {:induction false} DecodingAsks(cfg: Settings, env: Environment, s: Session, byDraft: bool)
    requires AudioInv(env.signal, s) && Prompted(s.page)
    ensures Asked(cfg, env.signal, Sent(cfg, s, byDraft), s.decodes, Decoded(cfg, env, s, s.buffer.data, byDraft).0.decodes)
  {
    InputsAskNothing(env, s.(decodes := s.decodes + 1), env.arrivals(s.decodes));
  }

  lemma {:induction false} CompactingAsks(cfg: Settings, env: Environment, s: Session)
    requires AudioInv(env.signal, s) && Prompted(s.page)
    ensures Asked(cfg, env.signal, CompactionSent(cfg, s), s.decodes, DraftWindowCompacted(cfg, env, s).s.decodes)
  {
    DecodingAsks(cfg, env, s, false);
  }

  lemma {:induction false} PassingOnAsks(cfg: Settings, env: Environment, s: Session, reply: Reply)
    requires AudioInv(env.signal, s) && Prompted(s.page)
    ensures Asked(cfg, env.signal, PassOnSent(cfg, env, s, reply), s.decodes, PassedOn(cfg, env, s, reply).s.decodes)
  {
    if reply.Result? && Said(reply) != "" {
      if cfg.draftMode {
        CompactingAsks(cfg, env, s.(page := DraftShown(env.fold, s.page, Said(reply))));
      } else {
        DigestingAsksNothing(cfg, env.fold, s, Said(reply), reply.words);
      }
    }
  }

  lemma {:induction false} DigestingAsksNothing(cfg: Settings, fold: Text.Casefold, s: Session, h: string, words: seq<Word>)
    ensures Digested(cfg, fold, s, h, words).decodes == s.decodes
  {
  }

  lemma {:induction false} PassAsks(cfg: Settings, env: Environment, s: Session)
    requires AudioInv(env.signal, s) && Prompted(s.page) && Fits(env.signal.energy)
    ensures Asked(cfg, env.signal, PassSent(cfg, env, s), s.decodes, IncrementallyDecoded(cfg, env, s).s.decodes)
  {
    var (s1, reply) := PassDecoded(cfg, env, s);
    DecodingAsks(cfg, env, Marked(s), cfg.draftMode);
    DecodingKeepsAudio(cfg, env, Marked(s), s.buffer.data, cfg.draftMode);
    DecodingKeepsPrompt(cfg, env, Marked(s), s.buffer.data, cfg.draftMode);
    PassingOnAsks(cfg, env, s1, reply);
    AskedInTwo(cfg, env.signal, Sent(cfg, Marked(s), cfg.draftMode), PassOnSent(cfg, env, s1, reply), s.decodes, s1.decodes,
               IncrementallyDecoded(cfg, env, s).s.decodes);
  }

  lemma {:induction false} FinalizingAsks(cfg: Settings, env: Environment, s: Session)
    requires AudioInv(env.signal, s) && Prompted(s.page)
    ensures Asked(cfg, env.signal, FinalSent(cfg, s), s.decodes, Finalized(cfg, env, s).s.decodes)
  {
    DecodingAsks(cfg, env, Marked(s), false);
  }

  lemma {:induction false} StepAsks(cfg: Settings, env: Environment, s: Session)
    requires AudioInv(env.signal, s) && Prompted(s.page) && Fits(env.signal.energy)
    ensures Asked(cfg, env.signal, StepSent(cfg, env, s), s.decodes, Stepped(cfg, env, s).0.decodes)
  {
    match Chosen(cfg, s)
    case Idle =>
    case PreRoll =>
      PreRollCuts(cfg, s);
      CutKeepsAudio(env.signal, s, PreRolled(cfg, s));
      FinalizingAsks(cfg, env, PreRolled(cfg, s));
    case TooLong => FinalizingAsks(cfg, env, s.(page := Reported(s.page, UtteranceTooLong)));
    case Flushing => FinalizingAsks(cfg, env, s);
    case Silence => FinalizingAsks(cfg, env, s);
    case Pass => PassAsks(cfg, env, s);
  }

  lemma {:induction false} DrainAsks(cfg: Settings, env: Environment, s: Session)
    requires AudioInv(env.signal, s) && Prompted(s.page) && Fits(env.signal.energy)
    ensures Asked(cfg, env.signal, DrainSent(cfg, env, s), s.decodes, Drained(cfg, env, s).decodes)
    decreases |s.buffer.data|
  {
    var (s1, more) := Stepped(cfg, env, s);
    StepAsks(cfg, env, s);
    if more && !s1.hands.closing {
      MoreMeansEmptied(cfg, env, s);
      StepKeepsAudio(cfg, env, s);
      StepKeepsPrompt(cfg, env, s);
      DrainAsks(cfg, env, s1);
      AskedInTwo(cfg, env.signal, StepSent(cfg, env, s), DrainSent(cfg, env, s1), s.decodes, s1.decodes,
                 Drained(cfg, env, s1).decodes);
    }
  }

  lemma {:induction false} ActionAsks(cfg: Settings, env: Environment, s: Session, action: Action)
    requires AudioInv(env.signal, s) && Prompted(s.page) && Fits(env.signal.energy)
    ensures Asked(cfg, env.signal, ActionSent(cfg, env, s, action), s.decodes, Acted(cfg, env, s, action).decodes)
  {
    if action.Round? {
      DrainAsks(cfg, env, s.(hands := s.hands.(wake := false)));
    }
  }

  lemma {:induction false} RunAsks(cfg: Settings, env: Environment, detector: Detector, crossCheck: bool, schedule: seq<Action>)
    requires Fits(detector) && Fits(env.signal.energy)
    ensures var s := NewSession(cfg, detector, crossCheck);
            Asked(cfg, env.signal, RunSent(cfg, env, s, schedule), 0, Ran(cfg, env, s, schedule).decodes)
  {
    if schedule != [] {
      var s, init, action := NewSession(cfg, detector, crossCheck), schedule[..|schedule| - 1], schedule[|schedule| - 1];
      var before := Ran(cfg, env, s, init);
      RunAsks(cfg, env, detector, crossCheck, init);
      EveryRunKeepsAudio(cfg, env, detector, crossCheck, init);
      RunKeepsPrompt(cfg, env, s, init);
      ActionAsks(cfg, env, before, action);
      AskedInTwo(cfg, env.signal, RunSent(cfg, env, s, init), ActionSent(cfg, env, before, action), 0, before.decodes,
                 Acted(cfg, env, before, action).decodes);
    }
  }

  /**
   * Over every run: each decode that was asked for, the accurate one inside a draft compaction included, got a
   * slice of the window that holds every sample the detector had judged to be speech in the bytes it heard, for
   * as long as the history goes back.
   */
  lemma {:induction false} EveryDecodeGetsTheSpeech(cfg: Settings, env: Environment, detector: Detector, crossCheck: bool,
                                                    schedule: seq<Action>, k: nat)
    returns (t0: Tracker, h: seq<Byte>)
    requires Fits(detector) && Fits(env.signal.energy)
    requires k < Ran(cfg, env, NewSession(cfg, detector, crossCheck), schedule).decodes
    ensures var sent := RunSent(cfg, env, NewSession(cfg, detector, crossCheck), schedule);
            && |sent| == Ran(cfg, env, NewSession(cfg, detector, crossCheck), schedule).decodes && sent[k].from.decodes == k
            && HeardFrom(env.signal, sent[k].from.silence, sent[k].from.buffer.data, t0, h)
            && SpeechIsSent(cfg, env.signal, sent[k].from, t0, h)
  {
    var sent := RunSent(cfg, env, NewSession(cfg, detector, crossCheck), schedule);
    RunAsks(cfg, env, detector, crossCheck, schedule);
    assert AskedFrom(cfg, env.signal, sent[k].from, 0 + k);
    t0, h := AskedWithSpeech(cfg, env.signal, sent[k].from, k);
  }

  lemma {:induction false} AskedWithSpeech(cfg: Settings, signal: Signal, s: Session, n: nat) returns (t0: Tracker, h: seq<Byte>)
    requires AskedFrom(cfg, signal, s, n)
    ensures HeardFrom(signal, s.silence, s.buffer.data, t0, h) && SpeechIsSent(cfg, signal, s, t0, h)
  {
    t0, h :| HeardFrom(signal, s.silence, s.buffer.data, t0, h);
    ClipHoldsTheSpeech(cfg, signal, s, t0, h);
  }

  /** And the prompt it is asked with is the last 200 characters of the committed text whose audio is gone by then. */
  lemma {:induction false} EveryDecodeGetsThePrompt(cfg: Settings, env: Environment, detector: Detector, crossCheck: bool,
                                                    schedule: seq<Action>, k: nat)
    requires Fits(detector) && Fits(env.signal.energy)
    requires k < Ran(cfg, env, NewSession(cfg, detector, crossCheck), schedule).decodes
    ensures var sent := RunSent(cfg, env, NewSession(cfg, detector, crossCheck), schedule);
            && |sent| == Ran(cfg, env, NewSession(cfg, detector, crossCheck), schedule).decodes && sent[k].from.decodes == k
            && LastCharacters(sent[k].from.page.prompt, sent[k].from.page.committedPrefix, 200)
  {
    RunAsks(cfg, env, detector, crossCheck, schedule);
    assert AskedFrom(cfg, env.signal, RunSent(cfg, env, NewSession(cfg, detector, crossCheck), schedule)[k].from, 0 + k);
  }

  /** The clip of `s` is not empty, is where the offset says, and holds what was judged to be speech. */
  ghost predicate SpeechIsSent(cfg: Settings, signal: Signal, s: Session, t0: Tracker, h: seq<Byte>)
    requires |s.buffer.data| <= |h|
  {
    var pcm := s.buffer.data;
    var (clip, offset) := OnlyTheSpeech(cfg, s.silence, pcm);
    && clip != []
    && offset * BYTES_PER_SAMPLE + |clip| <= |pcm|
    && clip == pcm[offset * BYTES_PER_SAMPLE..offset * BYTES_PER_SAMPLE + |clip|]
    && forall i: nat :: JudgedSpeech(signal, s.silence, pcm, t0, h, i) ==>
         offset <= i < offset + |clip| / BYTES_PER_SAMPLE
  }
}
