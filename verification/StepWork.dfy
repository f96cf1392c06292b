/** Which work a step of a session does, by the labels and lengths of its audio (server/app/streaming/session.py, `_step`). */
module StepWork {
  import opened Arrivals
  import opened Audio
  import opened Basics
  import opened ConflictDelivery
  import opened Finals
  import opened LocalAgreementPolicy
  import opened Rotation
  import opened SessionAudio
  import opened SessionModel
  import opened SessionSafety
  import SpeechTimeline
  import opened Text
  import opened Tokens
  import opened Vad
  import opened Verdicts

  /** An open session at a window of at least `samples`. */
  predicate AtLeast(s: Session, samples: nat) {
    |s.buffer.data| / BYTES_PER_SAMPLE >= samples
  }

  // ---- Too little speech ----

  /** Of a window more than twice the pause long the newest samples stay, a pause's worth. */
  function PreRoll(cfg: Settings, b: Buffer): Buffer {
    if |b.data| / BYTES_PER_SAMPLE <= 2 * cfg.silence then b
    else
      var kept := b.data[|b.data| - cfg.silence * BYTES_PER_SAMPLE..];
      Buffer(kept, |kept|, b.total)
  }

  lemma {:induction false} PreRollIs(cfg: Settings, s: Session)
    ensures PreRolled(cfg, s) == s.(buffer := PreRoll(cfg, s.buffer))
  {
  }

  /** Fewer samples hold no more speech. */
  lemma {:induction false} LessIsNotEnough(cfg: Settings, s: Session)
    requires !EnoughSpeech(cfg, s)
    ensures !EnoughSpeech(cfg, s.(buffer := PreRoll(cfg, s.buffer)))
  {
    var labels := SpeechTimeline.Labels(s.silence.timeline);
    var n, m := |s.buffer.data| / BYTES_PER_SAMPLE, |PreRoll(cfg, s.buffer).data| / BYTES_PER_SAMPLE;
    CountOfLast(labels, m, n);
  }

  lemma {:induction false} CountOfLast(labels: seq<bool>, m: nat, n: nat)
    requires m <= n
    ensures SpeechTimeline.CountTrue(SpeechTimeline.LastOf(labels, m)) <= SpeechTimeline.CountTrue(SpeechTimeline.LastOf(labels, n))
  {
    var all, last := SpeechTimeline.LastOf(labels, n), SpeechTimeline.LastOf(labels, m);
    var k := |all| - |last|;
    assert all == all[..k] + last;
    SpeechTimeline.CountTrueAppend(all[..k], last);
  }

  /**
   * Nothing worth decoding: a short pre-roll is kept and nothing else changes; when a flush is waiting, the utterance
   * ends without a decode.
   */
  lemma {:induction false} StepOnTooLittle(cfg: Settings, env: Environment, s: Session)
    requires Inv(cfg, env, s) && !s.hands.closing && !EnoughSpeech(cfg, s)
    ensures var kept := s.(buffer := PreRoll(cfg, s.buffer));
            var (s', more) := Stepped(cfg, env, s);
            && !more
            && (if s.hands.flushRequested then UtteranceEnds(cfg, env, kept, s', true) && LastDecode(cfg, env, kept) == (kept, Nothing)
                else s' == kept)
  {
    hide Finalized, LastDecode, Sealed, PageInv;
    var kept := s.(buffer := PreRoll(cfg, s.buffer));
    PreRollIs(cfg, s);
    WorthIs(cfg, s);
    if s.hands.flushRequested {
      LessIsNotEnough(cfg, s);
      NothingToAsk(cfg, env, kept);
      ServedIs(cfg, env, kept);
    }
  }

  lemma {:induction false} WorthIs(cfg: Settings, s: Session)
    ensures WorthDecoding(cfg, s) <==> EnoughSpeech(cfg, s)
  {
  }

  lemma {:induction false} NothingToAsk(cfg: Settings, env: Environment, s: Session)
    requires !EnoughSpeech(cfg, s)
    ensures LastDecode(cfg, env, s) == (s, Nothing)
  {
  }

  /** A finalizing that serves a flush. */
  lemma {:induction false} ServedIs(cfg: Settings, env: Environment, s: Session)
    requires Inv(cfg, env, s)
    ensures UtteranceEnds(cfg, env, s, Served(Finalized(cfg, env, s)), true)
  {
    hide LastDecode, Finalized, PageInv;
    FinalizingSeals(cfg, env, s);
  }

  // ---- Enough speech ----

  /** At the cap: the error goes out and the utterance ends; there may be more to do unless that served a flush too. */
  lemma {:induction false} StepAtTheCap(cfg: Settings, env: Environment, s: Session)
    requires Inv(cfg, env, s) && !s.hands.closing && EnoughSpeech(cfg, s) && AtLeast(s, cfg.maxUtterance)
    ensures var told := s.(page := s.page.(events := s.page.events + [Error(UtteranceTooLong)]));
            var (s1, reply) := LastDecode(cfg, env, told);
            var (s', more) := Stepped(cfg, env, s);
            && UtteranceEnds(cfg, env, told, s', s1.hands.flushRequested)
            && (more <==> !reply.Aborted? && !s1.hands.flushRequested)
  {
    hide LastDecode, Finalized, PageInv, Log;
    var told := s.(page := Reported(s.page, UtteranceTooLong));
    WorthIs(cfg, s);
    ReportedIsQuiet(s.page, UtteranceTooLong);
    QuietKeepsPage(cfg.draftMode, env.fold, s.page, told.page);
    FinalizingSeals(cfg, env, told);
  }

  /** Below it, a waiting flush ends the utterance and is answered. */
  lemma {:induction false} StepOnFlush(cfg: Settings, env: Environment, s: Session)
    requires Inv(cfg, env, s) && !s.hands.closing && EnoughSpeech(cfg, s) && !AtLeast(s, cfg.maxUtterance)
    requires s.hands.flushRequested
    ensures var (s', more) := Stepped(cfg, env, s);
            !more && UtteranceEnds(cfg, env, s, s', true)
  {
    hide LastDecode, Finalized, PageInv, Sealed;
    WorthIs(cfg, s);
    ServedIs(cfg, env, s);
  }

  /**
   * A dictation that is stopped, in draft mode: the round that serves the flush sends exactly one transcript, the final
   * of the utterance on the committed prefix and what the accurate model reads in the window, and answers the flush.
   */
  lemma {:induction false} FlushDeliversTheText(cfg: Settings, env: Environment, s: Session)
    requires cfg.draftMode && Inv(cfg, env, s) && EnoughSpeech(cfg, s) && !AtLeast(s, cfg.maxUtterance)
    requires s.hands.alive && s.hands.wake && s.hands.flushRequested && !s.hands.closing
    requires !LastDecode(cfg, env, s.(hands := s.hands.(wake := false))).1.Aborted?
    ensures var (s1, reply) := LastDecode(cfg, env, s.(hands := s.hands.(wake := false)));
            var text := s.page.committedPrefix + Said(reply);
            var s' := Woken(cfg, env, s);
            && s'.page.events == s1.page.events +
                 (if text == "" then [] else [Transcript(s.page.utterance, s.page.revision + 1, text, "", true)])
            && s'.page.utterance == s.page.utterance + 1 && s'.hands.flushDone && StartsAfresh(s')
  {
    hide LastDecode, Stepped, PageInv, EnoughSpeech, ClosingOn, Finalized;
    var begun := s.(hands := s.hands.(wake := false));
    assert EnoughSpeech(cfg, begun) by { SameSpeech(cfg, s, begun); }
    StepOnFlush(cfg, env, begun);
    DraftFinal(cfg, env, begun);
    FinalizingSeals(cfg, env, begun);
    SameSealing(cfg, env.fold, LastDecode(cfg, env, begun).0, Said(LastDecode(cfg, env, begun).1),
                Finalized(cfg, env, begun).s, Stepped(cfg, env, begun).0);
  }

  lemma {:induction false} SameSpeech(cfg: Settings, s: Session, s': Session)
    requires s'.buffer == s.buffer && s'.silence == s.silence
    ensures EnoughSpeech(cfg, s') <==> EnoughSpeech(cfg, s)
  {
  }

  lemma {:induction false} SameSealing(cfg: Settings, fold: Casefold, s1: Session, said: string, a: Session, b: Session)
    requires Sealed(cfg, fold, s1, said, a) && Sealed(cfg, fold, s1, said, b)
    ensures a.page.events == b.page.events && a.page.utterance == b.page.utterance
  {
  }

  /** An open session with enough speech, below the cap and with no flush waiting, that has heard `h` since its reset. */
  ghost predicate Dictating(cfg: Settings, env: Environment, s: Session, t0: Tracker, h: seq<Byte>) {
    && Inv(cfg, env, s) && !s.hands.closing && !s.hands.flushRequested
    && EnoughSpeech(cfg, s) && !AtLeast(s, cfg.maxUtterance)
    && HeardFrom(env.signal, s.silence, s.buffer.data, t0, h)
  }

  /** The latest verdicts are all silent, for a pause's worth of frames. */
  predicate Paused(cfg: Settings, signal: Signal, s: Session, t0: Tracker, h: seq<Byte>) {
    TrailingRun(Silent(FramesOf(signal, t0, h))) * s.silence.detector.frameSamples >= cfg.silence
  }

  lemma {:induction false} PauseIs(cfg: Settings, env: Environment, s: Session, t0: Tracker, h: seq<Byte>)
    requires HeardFrom(env.signal, s.silence, s.buffer.data, t0, h)
    ensures s.silence.TrailingSilence() >= cfg.silence <==> Paused(cfg, env.signal, s, t0, h)
  {
    hide Consumed, FramesOf;
    CountsAreVerdicts(env.signal, t0, h);
  }

  /** The speaker has paused: the utterance ends. */
  lemma {:induction false} StepOnPause(cfg: Settings, env: Environment, s: Session, t0: Tracker, h: seq<Byte>)
    requires Dictating(cfg, env, s, t0, h) && Paused(cfg, env.signal, s, t0, h)
    ensures var (s', more) := Stepped(cfg, env, s);
            !more && UtteranceEnds(cfg, env, s, s', false)
  {
    hide LastDecode, Finalized, PageInv, Sealed, FramesOf, HeardFrom;
    WorthIs(cfg, s);
    PauseIs(cfg, env, s, t0, h);
    FinalizingSeals(cfg, env, s);
  }

  /** Not yet a chunk of new audio: nothing happens. */
  lemma {:induction false} StepOnTooFew(cfg: Settings, env: Environment, s: Session, t0: Tracker, h: seq<Byte>)
    requires Dictating(cfg, env, s, t0, h) && !Paused(cfg, env.signal, s, t0, h)
    requires |s.buffer.data| - s.buffer.decoded < cfg.chunk * BYTES_PER_SAMPLE
    ensures Stepped(cfg, env, s) == (s, false)
  {
    hide PageInv, FramesOf, HeardFrom;
    WorthIs(cfg, s);
    PauseIs(cfg, env, s, t0, h);
  }

  // ---- Compacting a draft window ----

  function Longer(a: nat, b: nat): nat {
    if a >= b then a else b
  }

  /** What the accurate model reads up to `limit` is committed, shown and dropped, or the next attempt put off. */
  ghost predicate CommitsUpTo(s1: Session, words: seq<Word>, limit: int, window: nat, s': Session) {
    var read := EndingBy(words, limit);
    var text := Strip(Spoken(read));
    if text == "" then s' == s1.(nextDraftCompaction := window + 2 * 16000)
    else
      var prefix := s1.page.committedPrefix + text + " ";
      && read != []
      && s'.page.committedPrefix == prefix
      && s'.page.events == s1.page.events + [Transcript(s1.page.utterance, s1.page.revision + 1, prefix, "", false)]
      && s'.buffer == AfterTrimBefore(s1.buffer, read[|read| - 1].end)
      && s'.nextDraftCompaction == 0 && s'.page.windowHypothesis == "" && s'.page.utterance == s1.page.utterance
      && s' == s1.(buffer := s'.buffer, page := s'.page, nextDraftCompaction := 0)
  }

  /**
   * After a draft is shown: only once the window is full, and two seconds longer than at the last attempt that found
   * nothing, the accurate model reads it all. The tail that is not committed is two chunks or a pause long, whichever
   * is longer.
   */
  ghost predicate CompactsTo(cfg: Settings, env: Environment, s: Session, s': Session) {
    var window := |s.buffer.data| / BYTES_PER_SAMPLE;
    if window < cfg.maxWindow || window < s.nextDraftCompaction then s' == s
    else
      var (s1, reply) := Decoded(cfg, env, s, s.buffer.data, false);
      if reply.Aborted? then s' == s1
      else CommitsUpTo(s1, if reply.Result? then reply.words else [], window - Longer(cfg.silence, 2 * cfg.chunk), window, s')
  }

  lemma {:induction false} CompactionIs(cfg: Settings, env: Environment, s: Session)
    requires PageInv(true, env.fold, s.page)
    ensures CompactsTo(cfg, env, s, DraftWindowCompacted(cfg, env, s).s)
    ensures DraftWindowCompacted(cfg, env, s).s.page.utterance == s.page.utterance
  {
    hide Decoded, CommitsUpTo, Orderly;
    var (s1, reply) := Decoded(cfg, env, s, s.buffer.data, false);
    DecodingIsQuiet(cfg, env, s, s.buffer.data, false);
    var window := |s.buffer.data| / BYTES_PER_SAMPLE;
    var words := if reply.Result? then reply.words else [];
    assert Longer(cfg.silence, 2 * cfg.chunk) == CompactionTail(cfg);
    if !reply.Aborted? && !(window < cfg.maxWindow || window < s.nextDraftCompaction) {
      assert DraftWindowCompacted(cfg, env, s).s == Compacted(s1, words, window - CompactionTail(cfg), window);
      CompactedIs(s1, words, window - CompactionTail(cfg), window);
    }
  }

  lemma {:induction false} CompactedIs(s: Session, words: seq<Word>, limit: int, window: nat)
    requires Shown(s.page) == s.page.committedPrefix
    ensures CommitsUpTo(s, words, limit, window, Compacted(s, words, limit, window))
    ensures Compacted(s, words, limit, window).page.utterance == s.page.utterance
  {
    hide EndingBy, AfterTrimBefore, Tail;
    var read := EndingBy(words, limit);
    var text := Strip(Spoken(read));
    StripBlank("");
    if read == [] {
      assert Spoken(read) == "";
    }
    assert s.page.committedPrefix + (text + " ") == s.page.committedPrefix + text + " ";
    assert |s.page.committedPrefix + text + " "| > |s.page.committedPrefix|;
  }

  // ---- A pass ----

  /** What is shown as not committed yet, unless that is what was shown last. */
  function ShownOnce(p: Page, stable: string, partial: string): seq<Event> {
    if p.lastEmitted == Some((stable, partial)) then [] else [Transcript(p.utterance, p.revision + 1, stable, partial, false)]
  }

  /** From `p`, the page `p'` shows `stable` and `partial`. */
  predicate Shows(p: Page, p': Page, stable: string, partial: string) {
    && p'.events == p.events + ShownOnce(p, stable, partial)
    && p'.lastEmitted == Some((stable, partial)) && p'.revision == p.revision + |ShownOnce(p, stable, partial)|
    && p'.utterance == p.utterance && p'.committedPrefix == p.committedPrefix && p'.prompt == p.prompt
  }

  lemma {:induction false} EmittingShows(p: Page, q: Page, stable: string, partial: string)
    requires q == p.(windowHypothesis := q.windowHypothesis, agreement := q.agreement)
    ensures Shows(p, Emitted(q, stable, partial, false), stable, partial)
    ensures var p' := Emitted(q, stable, partial, false); p'.windowHypothesis == q.windowHypothesis && p'.agreement == q.agreement
  {
    assert p.events + [] == p.events;
  }

  lemma {:induction false} StepIsPass(cfg: Settings, env: Environment, s: Session, t0: Tracker, h: seq<Byte>)
    requires Dictating(cfg, env, s, t0, h) && !Paused(cfg, env.signal, s, t0, h)
    requires |s.buffer.data| - s.buffer.decoded >= cfg.chunk * BYTES_PER_SAMPLE
    ensures var (s1, reply) := Decoded(cfg, env, AllDecoded(s), s.buffer.data, cfg.draftMode);
            Stepped(cfg, env, s) == (PassedOn(cfg, env, s1, reply).s, false)
  {
    hide PageInv, FramesOf, HeardFrom, Decoded, PassedOn;
    WorthIs(cfg, s);
    PauseIs(cfg, env, s, t0, h);
  }

  /**
   * A draft reading is shown whole, after the committed prefix, and nothing of it is committed. The drafts' own agreement
   * takes it in, or starts over from it, so that it never stays at odds with what is shown.
   */
  ghost predicate DraftPass(cfg: Settings, env: Environment, s1: Session, said: string, shown: Session, s': Session) {
    && shown == s1.(page := shown.page)
    && Shows(s1.page, shown.page, s1.page.committedPrefix, said) && shown.page.windowHypothesis == said
    && StandingOf(env.fold, shown.page.agreement.committed, Tokenize(said)) != Contradicts
    && CompactsTo(cfg, env, shown, s')
    && s'.page.utterance == s1.page.utterance
  }

  lemma {:induction false} PassOnDraft(cfg: Settings, env: Environment, s1: Session, reply: Reply) returns (shown: Session)
    requires cfg.draftMode && Inv(cfg, env, s1) && reply.Result? && Said(reply) != ""
    ensures DraftPass(cfg, env, s1, Said(reply), shown, PassedOn(cfg, env, s1, reply).s)
  {
    hide DraftFolded, DraftWindowCompacted, PageInv, CompactsTo, StandingOf;
    var h := Said(reply);
    shown := s1.(page := DraftShown(env.fold, s1.page, h));
    EmittingShows(s1.page, s1.page.(windowHypothesis := h, agreement := DraftFolded(env.fold, s1.page.agreement, h)),
                  s1.page.committedPrefix, h);
    ShowingADraft(env.fold, s1.page, h);
    DraftsFollow(env.fold, s1.page.agreement, h);
    CompactionIs(cfg, env, shown);
  }

  lemma {:induction false} DraftsFollow(fold: Casefold, a: Agreement, h: string)
    ensures StandingOf(fold, DraftFolded(fold, a, h).committed, Tokenize(h)) != Contradicts
  {
    hide FoldIn, StandingOf;
    var again := AfterReset(AfterUpdate(fold, a, h).0, "");
    if AfterUpdate(fold, a, h).1.conflict {
      ResetIsFresh(AfterUpdate(fold, a, h).0);
      FirstReadingCommitsNothing(fold, again.window, h);
      FoldedInIsCovered(fold, again, h);
    } else {
      FoldedInIsCovered(fold, a, h);
    }
  }

  /**
   * A reading that does not contradict what is committed is shown whole, with the casing already on screen: what is
   * committed of it after the prefix as stable, the rest as partial. Then the window may be trimmed.
   */
  ghost predicate ReadingPass(cfg: Settings, fold: Casefold, s1: Session, reply: Reply, shown: Session, partial: string, s': Session)
    requires reply.Result?
  {
    var stable := shown.page.agreement.Committed();
    && shown == s1.(page := shown.page)
    && Shows(s1.page, shown.page, s1.page.committedPrefix + stable, partial) && shown.page.windowHypothesis == Said(reply)
    && stable + partial == Concat(Recased(fold, s1.page.agreement.committed, Tokenize(Said(reply))))
    && shown.page.agreement == FoldIn(fold, s1.page.agreement, Tokenize(Said(reply)))
    && s' == Trimmed(cfg, shown, reply.words) && s'.page.utterance == s1.page.utterance
  }

  lemma {:induction false} PassOnReading(cfg: Settings, env: Environment, s1: Session, reply: Reply)
    returns (shown: Session, partial: string)
    requires !cfg.draftMode && reply.Result? && Said(reply) != ""
    requires StandingOf(env.fold, s1.page.agreement.committed, Tokenize(Said(reply))) != Contradicts
    ensures ReadingPass(cfg, env.fold, s1, reply, shown, partial, PassedOn(cfg, env, s1, reply).s)
  {
    hide StandingOf, Recased, FoldIn, WordBoundary, AfterTrimBefore, SameWordsIgnoringCase;
    var p, h := s1.page, Said(reply);
    var (agreement, r) := AfterUpdate(env.fold, p.agreement, h);
    shown := s1.(page := ReadingShown(env.fold, p, h));
    partial := r.partial;
    StablePlusPartial(env.fold, p.agreement, h);
    EmittingShows(p, p.(windowHypothesis := h, agreement := agreement), p.committedPrefix + r.stable, r.partial);
  }

  /** A reading that contradicts it closes the utterance at what the user has. */
  predicate ContradictingPass(fold: Casefold, s1: Session, reply: Reply, s': Session)
    requires reply.Result?
  {
    var typed := s1.page.agreement.Committed();
    var rest := RemainderAfter(typed, Said(reply));
    var cut := WordBoundary(reply.words, typed);
    && s'.page.events == s1.page.events + RotationEvents(s1.page, Rotated(fold, s1.page, Said(reply)), rest, cut)
    && s'.buffer == (if Cuts(cut) then AfterTrimBefore(s1.buffer, cut.value) else s1.buffer)
  }

  lemma {:induction false} PassOnContradiction(cfg: Settings, env: Environment, s1: Session, reply: Reply)
    requires !cfg.draftMode && Inv(cfg, env, s1) && reply.Result? && Said(reply) != ""
    requires StandingOf(env.fold, s1.page.agreement.committed, Tokenize(Said(reply))) == Contradicts
    ensures ContradictingPass(env.fold, s1, reply, PassedOn(cfg, env, s1, reply).s)
  {
    hide Digested, Rotated, StandingOf, WordBoundary, RemainderAfter, RotationEvents, PageInv;
    ContradictionIsDelivered(cfg, env.fold, s1, Said(reply), reply.words);
  }

  /**
   * A chunk of new audio, and no pause: the model of the mode is asked about all that is held, which then counts as
   * decoded. Cut short, failed or blank, nothing comes of it; otherwise the reading is shown, and the utterance stays
   * unless the reading contradicts what is committed.
   */
  lemma {:induction false} StepOnChunk(cfg: Settings, env: Environment, s: Session, t0: Tracker, h: seq<Byte>)
    returns (shown: Session, partial: string)
    requires Dictating(cfg, env, s, t0, h) && !Paused(cfg, env.signal, s, t0, h)
    requires |s.buffer.data| - s.buffer.decoded >= cfg.chunk * BYTES_PER_SAMPLE
    ensures var (s1, reply) := Decoded(cfg, env, AllDecoded(s), s.buffer.data, cfg.draftMode);
            var (s', more) := Stepped(cfg, env, s);
            && !more
            && if Said(reply) == "" then s' == s1
               else if cfg.draftMode then DraftPass(cfg, env, s1, Said(reply), shown, s')
               else if StandingOf(env.fold, s1.page.agreement.committed, Tokenize(Said(reply))) != Contradicts then
                 ReadingPass(cfg, env.fold, s1, reply, shown, partial, s')
               else ContradictingPass(env.fold, s1, reply, s')
  {
    hide DraftPass, ReadingPass, ContradictingPass, PageInv, FramesOf, HeardFrom, Decoded, StandingOf, Stepped, Paused;
    var (s1, reply) := Decoded(cfg, env, AllDecoded(s), s.buffer.data, cfg.draftMode);
    StepIsPass(cfg, env, s, t0, h);
    DecodingIsQuiet(cfg, env, AllDecoded(s), s.buffer.data, cfg.draftMode);
    QuietKeepsPage(cfg.draftMode, env.fold, s.page, s1.page);
    shown, partial := s, "";
    if Said(reply) != "" {
      if cfg.draftMode {
        shown := PassOnDraft(cfg, env, s1, reply);
      } else if StandingOf(env.fold, s1.page.agreement.committed, Tokenize(Said(reply))) != Contradicts {
        shown, partial := PassOnReading(cfg, env, s1, reply);
      } else {
        PassOnContradiction(cfg, env, s1, reply);
      }
    }
  }

  /** Unless the session is closed meanwhile, what arrives during the decode is held, and is all that is not decoded. */
  lemma {:induction false} DecodeCountsAll(cfg: Settings, env: Environment, s: Session, byDraft: bool)
    requires !s.hands.closing && !s.hands.flushRequested && Close !in env.arrivals(s.decodes)
    ensures var b := Decoded(cfg, env, AllDecoded(s), s.buffer.data, byDraft).0.buffer;
            && s.buffer.data <= b.data && b.decoded == |s.buffer.data|
            && (b.data == s.buffer.data || b.data == s.buffer.data + Flatten(Accepted(env.arrivals(s.decodes))))
  {
    hide OnlyTheSpeech, AnswerOf, AfterPushes, WithoutRepeatOf, Shifted;
    var all := AllDecoded(s);
    ArrivalsAreHeard(env, all.(decodes := s.decodes + 1), env.arrivals(s.decodes));
  }
}
