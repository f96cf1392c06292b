/** What text an utterance ends on (server/app/streaming/session.py, `_finalize` and `_close_utterance`). */
module Finals {
  import opened Audio
  import opened ConflictDelivery
  import opened LocalAgreementPolicy
  import opened SessionModel
  import opened SessionSafety
  import SpeechTimeline
  import opened Text
  import opened Tokens
  import Vad

  // ---- The last decode ----

  /** The window holds speech, and enough of it, by the labels of its samples. */
  predicate EnoughSpeech(cfg: Settings, s: Session) {
    var speech := SpeechTimeline.CountTrue(
                    SpeechTimeline.LastOf(SpeechTimeline.Labels(s.silence.timeline), |s.buffer.data| / BYTES_PER_SAMPLE));
    0 < speech && cfg.minSpeech <= speech
  }

  /** With a draft model always; with one model only if there is a sample it has not decoded. */
  predicate AsksOnceMore(cfg: Settings, s: Session) {
    EnoughSpeech(cfg, s) && (cfg.draftMode || |s.buffer.data| - s.buffer.decoded >= BYTES_PER_SAMPLE)
  }

  /** All that is held counts as decoded. */
  function AllDecoded(s: Session): Session {
    s.(buffer := s.buffer.(decoded := |s.buffer.data|))
  }

  /** The accurate model on the whole window, if it is asked. */
  function LastDecode(cfg: Settings, env: Environment, s: Session): (Session, Reply) {
    if AsksOnceMore(cfg, s) then Decoded(cfg, env, AllDecoded(s), s.buffer.data, false) else (s, Nothing)
  }

  // ---- What is sealed ----

  /** The transcripts that close an utterance with `committed` tokens on the text `w`. */
  function ClosingOn(fold: Casefold, p: Page, committed: seq<string>, w: string): seq<Event> {
    if Strip(p.committedPrefix + w) == "" then []
    else if StandingOf(fold, committed, Tokenize(w)) == Contradicts then
      ClosingEvents(p, Concat(committed), RemainderAfter(Concat(committed), w))
    else [FinalAt(p, Concat(Recased(fold, committed, Tokenize(w))))]
  }

  /** A contradiction takes an utterance of its own for the rest. */
  function UtterancesEnded(fold: Casefold, p: Page, committed: seq<string>, w: string): nat {
    if Strip(p.committedPrefix + w) != "" && StandingOf(fold, committed, Tokenize(w)) == Contradicts then 2 else 1
  }

  /** The accurate text; without any, nothing in draft mode and the window's latest hypothesis with one model. */
  function EndsOn(cfg: Settings, p: Page, said: string): string {
    if cfg.draftMode || said != "" then said else p.windowHypothesis
  }

  /** Draft readings commit nothing. */
  function CommittedTokens(cfg: Settings, p: Page): seq<string> {
    if cfg.draftMode then [] else p.agreement.committed
  }

  lemma {:induction false} ClosingSeals(fold: Casefold, p: Page, q: Page, committed: seq<string>, w: string)
    requires q.events == p.events && q.utterance == p.utterance && q.revision == p.revision
    requires q.committedPrefix == p.committedPrefix && q.agreement.committed == committed
    ensures UtteranceClosed(fold, q, w).events == p.events + ClosingOn(fold, p, committed, w)
    ensures UtteranceClosed(fold, q, w).utterance + 1 == p.utterance + UtterancesEnded(fold, p, committed, w)
  {
    hide UtteranceClosed, StandingOf, Recased, ClosingEvents;
    if Strip(p.committedPrefix + w) == "" {
      SealingNothing(fold, p, q, w);
    } else if StandingOf(fold, committed, Tokenize(w)) == Contradicts {
      SealingInTwo(fold, p, q, w);
    } else {
      SealingInOne(fold, p, q, w);
    }
  }

  lemma {:induction false} SealingNothing(fold: Casefold, p: Page, q: Page, w: string)
    requires q.events == p.events && q.utterance == p.utterance
    requires q.committedPrefix == p.committedPrefix && Strip(p.committedPrefix + w) == ""
    ensures UtteranceClosed(fold, q, w).events == p.events + [] && UtteranceClosed(fold, q, w).utterance == p.utterance
  {
  }

  lemma {:induction false} SealingInTwo(fold: Casefold, p: Page, q: Page, w: string)
    requires q.events == p.events && q.utterance == p.utterance && q.revision == p.revision
    requires q.committedPrefix == p.committedPrefix && Strip(p.committedPrefix + w) != ""
    requires StandingOf(fold, q.agreement.committed, Tokenize(w)) == Contradicts
    ensures var typed := Concat(q.agreement.committed);
            && UtteranceClosed(fold, q, w).events == p.events + ClosingEvents(p, typed, RemainderAfter(typed, w))
            && UtteranceClosed(fold, q, w).utterance == p.utterance + 1
  {
    hide UtteranceClosed, AfterCommitAll, StandingOf, ClosingEvents, RemainderAfter, Tokenize, Strip;
    ContradictionConflicts(fold, q.agreement, w);
    ConflictIsDelivered(fold, q, w);
    ConflictMovesOn(fold, q, w);
    SameClosing(p, q, Concat(q.agreement.committed), RemainderAfter(Concat(q.agreement.committed), w));
  }

  lemma {:induction false} ContradictionConflicts(fold: Casefold, a: Agreement, w: string)
    ensures AfterCommitAll(fold, a, w).1.conflict <==> StandingOf(fold, a.committed, Tokenize(w)) == Contradicts
  {
  }

  lemma {:induction false} SameClosing(p: Page, q: Page, typed: string, rest: string)
    requires q.utterance == p.utterance && q.revision == p.revision && q.committedPrefix == p.committedPrefix
    ensures ClosingEvents(q, typed, rest) == ClosingEvents(p, typed, rest)
  {
  }

  lemma {:induction false} SealingInOne(fold: Casefold, p: Page, q: Page, w: string)
    requires q.events == p.events && q.utterance == p.utterance && q.revision == p.revision
    requires q.committedPrefix == p.committedPrefix && Strip(p.committedPrefix + w) != ""
    requires StandingOf(fold, q.agreement.committed, Tokenize(w)) != Contradicts
    ensures var text := Concat(Recased(fold, q.agreement.committed, Tokenize(w)));
            && UtteranceClosed(fold, q, w).events == p.events + [FinalAt(p, text)]
            && UtteranceClosed(fold, q, w).utterance == p.utterance
  {
    hide StandingOf, Recased;
    ClosingInOne(fold, q, w);
    var (agreement, r) := AfterCommitAll(fold, q.agreement, w);
    EmittingAdds(q.(agreement := agreement), q.committedPrefix + r.stable, "", true);
  }

  lemma {:induction false} ConflictMovesOn(fold: Casefold, p: Page, w: string)
    requires Strip(p.committedPrefix + w) != "" && AfterCommitAll(fold, p.agreement, w).1.conflict
    ensures UtteranceClosed(fold, p, w).utterance == p.utterance + 1
  {
    ClosingInTwo(fold, p, w);
  }

  /** The text is what a finalizing closes on. */
  lemma {:induction false} FinishingSeals(cfg: Settings, fold: Casefold, p: Page, said: string)
    requires PageInv(cfg.draftMode, fold, p)
    ensures var w, committed := EndsOn(cfg, p, said), CommittedTokens(cfg, p);
            && Finished(cfg, fold, p, said).events == p.events + ClosingOn(fold, p, committed, w)
            && Finished(cfg, fold, p, said).utterance + 1 == p.utterance + UtterancesEnded(fold, p, committed, w)
  {
    var w, committed := EndsOn(cfg, p, said), CommittedTokens(cfg, p);
    var heard := if said != "" then p.(windowHypothesis := said) else p;
    if cfg.draftMode {
      ResetIsFresh(heard.agreement);
      ClosingSeals(fold, p, heard.(agreement := Fresh(heard.agreement.window)), committed, w);
    } else {
      ClosingSeals(fold, p, heard, committed, w);
      assert said == "" && p.windowHypothesis == "" ==> p.agreement.committed == [] && p.agreement.Committed() == "";
    }
  }

  // ---- The session, once an utterance is over ----

  /** Nothing is kept of the utterance: its audio, its verdicts, its text. */
  predicate StartsAfresh(s: Session) {
    && s.buffer.data == [] && s.buffer.decoded == 0
    && s.silence.leftover == [] && s.silence.heard == [] && s.silence.timeline == [] && s.silence.timelineSamples == 0
    && s.silence.trailingSilenceFrames == 0 && s.silence.speechFrames == 0 && s.silence.loudButSilentFrames == 0
    && s.page.agreement.history == [] && s.page.agreement.committed == []
    && s.page.windowHypothesis == "" && s.page.committedPrefix == "" && s.page.prompt == ""
    && s.page.lastEmitted.None? && s.nextDraftCompaction == 0
  }

  /** A new session is as every utterance begins, its first included; it is open, and nothing has been said. */
  lemma {:induction false} NewSessionStartsAfresh(cfg: Settings, detector: Vad.Detector, crossCheck: bool)
    ensures var s := NewSession(cfg, detector, crossCheck);
            && StartsAfresh(s) && s.hands == Handshake(false, false, false, false, true) && !s.silence.fellBack
            && s.page.events == [] && s.page.revision == 0 && s.page.utterance == 0 && s.decodes == 0 && s.buffer.total == 0
  {
  }

  /** What of a session an utterance's end leaves alone. */
  ghost predicate SameOtherwise(s: Session, s': Session) {
    && s'.silence.detector == s.silence.detector && s'.silence.crossCheck == s.silence.crossCheck
    && s'.silence.fellBack == s.silence.fellBack && s'.buffer.total == s.buffer.total
    && s'.decodes == s.decodes && s'.page.agreement.window == s.page.agreement.window
  }

  /** From `s1`, where the last decode has come back with `said`, the utterance is sealed and the next one begins. */
  ghost predicate Sealed(cfg: Settings, fold: Casefold, s1: Session, said: string, s': Session) {
    var w, committed := EndsOn(cfg, s1.page, said), CommittedTokens(cfg, s1.page);
    && s'.page.events == s1.page.events + ClosingOn(fold, s1.page, committed, w)
    && s'.page.utterance == s1.page.utterance + UtterancesEnded(fold, s1.page, committed, w)
    && StartsAfresh(s') && SameOtherwise(s1, s')
  }

  /** The utterance of `s` ends in `s'`, unless its last decode is cut short; a flush it serves is answered then. */
  ghost predicate UtteranceEnds(cfg: Settings, env: Environment, s: Session, s': Session, serves: bool) {
    var (s1, reply) := LastDecode(cfg, env, s);
    if reply.Aborted? then s' == s1
    else
      && Sealed(cfg, env.fold, s1, Said(reply), s')
      && s'.hands == if serves then s1.hands.(flushDone := true) else s1.hands
  }

  /**
   * A finalizing, from every state between steps: the accurate model is asked once more if there is something for it
   * to say. Unless that is cut short the utterance is sealed with the text it came to, and the next one starts afresh.
   */
  lemma {:induction false} FinalizingSeals(cfg: Settings, env: Environment, s: Session)
    requires Inv(cfg, env, s)
    ensures Finalized(cfg, env, s).Stops? <==> LastDecode(cfg, env, s).1.Aborted?
    ensures UtteranceEnds(cfg, env, s, Finalized(cfg, env, s).s, false)
  {
    var (s1, reply) := LastDecode(cfg, env, s);
    LastDecodeIs(cfg, env, s);
    DecodingIsQuiet(cfg, env, AllDecoded(s), s.buffer.data, false);
    QuietKeepsPage(cfg.draftMode, env.fold, s.page, s1.page);
    if !reply.Aborted? {
      SealingOn(cfg, env.fold, s1, reply);
    }
  }

  lemma {:induction false} LastDecodeIs(cfg: Settings, env: Environment, s: Session)
    ensures LastDecode(cfg, env, s) == FinalDecoded(cfg, env, s)
    ensures s == (LastDecode(cfg, env, s).0) || AsksOnceMore(cfg, s)
  {
    assert (|s.buffer.data| - s.buffer.decoded) / BYTES_PER_SAMPLE > 0
      <==> |s.buffer.data| - s.buffer.decoded >= BYTES_PER_SAMPLE;
  }

  lemma {:induction false} SealingOn(cfg: Settings, fold: Casefold, s1: Session, reply: Reply)
    requires PageInv(cfg.draftMode, fold, s1.page) && !reply.Aborted?
    ensures var flow := FinalizedOn(cfg, fold, s1, reply);
            flow.Goes? && Sealed(cfg, fold, s1, Said(reply), flow.s) && flow.s.hands == s1.hands
  {
    FinishingSeals(cfg, fold, s1.page, Said(reply));
    FinishingKeepsWindow(cfg, fold, s1.page, Said(reply));
    assert Tokenize("") == [];
  }

  lemma {:induction false} FinishingKeepsWindow(cfg: Settings, fold: Casefold, p: Page, said: string)
    ensures Finished(cfg, fold, p, said).agreement.window == p.agreement.window
  {
  }

  // ---- In each mode ----

  /**
   * In draft mode: exactly one transcript, the final of this utterance at the next revision, on the committed prefix
   * and the accurate text. A failed or blank answer leaves the prefix alone, and no final if that is empty.
   */
  lemma {:induction false} DraftFinal(cfg: Settings, env: Environment, s: Session)
    requires cfg.draftMode && Inv(cfg, env, s) && !LastDecode(cfg, env, s).1.Aborted?
    ensures var (s1, reply) := LastDecode(cfg, env, s);
            var text := s.page.committedPrefix + Said(reply);
            var s' := Finalized(cfg, env, s).s;
            && s'.page.events == s1.page.events +
                 (if text == "" then [] else [Transcript(s.page.utterance, s.page.revision + 1, text, "", true)])
            && s'.page.utterance == s.page.utterance + 1
  {
    var (s1, reply) := LastDecode(cfg, env, s);
    FinalizingSeals(cfg, env, s);
    LastDecodeIs(cfg, env, s);
    DecodingIsQuiet(cfg, env, AllDecoded(s), s.buffer.data, false);
    DraftClosing(env.fold, s.page, Said(reply));
    if reply.Result? {
      StrippedOpens(reply.text);
    }
    WordIsNotBlank(s.page.committedPrefix, Said(reply));
    assert s.page.committedPrefix + "" == s.page.committedPrefix;
  }

  lemma {:induction false} DraftClosing(fold: Casefold, p: Page, w: string)
    ensures ClosingOn(fold, p, [], w) == if Strip(p.committedPrefix + w) == "" then [] else [FinalAt(p, w)]
    ensures UtterancesEnded(fold, p, [], w) == 1
  {
    assert SliceTo(Tokenize(w), 0) == [] && Words([]) == [];
    TokenizeRoundTrip(w);
  }

  /**
   * With one model: on the answer, or the window's latest hypothesis when there is none. Unless that contradicts what
   * is committed, exactly one final, on the prefix and that text with the casing already on screen; and none exactly
   * when there is nothing to show for the utterance.
   */
  lemma {:induction false} SingleModelFinal(cfg: Settings, env: Environment, s: Session)
    requires !cfg.draftMode && Inv(cfg, env, s) && !LastDecode(cfg, env, s).1.Aborted?
    ensures var (s1, reply) := LastDecode(cfg, env, s);
            var p := s.page;
            var w := if Said(reply) != "" then Said(reply) else p.windowHypothesis;
            var shown := Recased(env.fold, p.agreement.committed, Tokenize(w));
            var s' := Finalized(cfg, env, s).s;
            && (StandingOf(env.fold, p.agreement.committed, Tokenize(w)) != Contradicts ==>
                  && s'.page.events == s1.page.events +
                       (if p.committedPrefix + w == "" then []
                        else [Transcript(p.utterance, p.revision + 1, p.committedPrefix + Concat(shown), "", true)])
                  && s'.page.utterance == p.utterance + 1
                  && SameWordsIgnoringCase(env.fold, shown, Tokenize(w)))
            && (w == p.windowHypothesis != "" ==> StandingOf(env.fold, p.agreement.committed, Tokenize(w)) != Contradicts)
  {
    var (s1, reply) := LastDecode(cfg, env, s);
    var p := s.page;
    var w := if Said(reply) != "" then Said(reply) else p.windowHypothesis;
    FinalizingSeals(cfg, env, s);
    LastDecodeIs(cfg, env, s);
    DecodingIsQuiet(cfg, env, AllDecoded(s), s.buffer.data, false);
    if reply.Result? {
      StrippedOpens(reply.text);
    }
    if StandingOf(env.fold, p.agreement.committed, Tokenize(w)) != Contradicts {
      SingleClosing(env.fold, p, s1.page, w);
    }
  }

  lemma {:induction false} SingleClosing(fold: Casefold, p: Page, p1: Page, w: string)
    requires Quiet(p, p1) && (p.committedPrefix == "" || OpensWithWord(p.committedPrefix)) && (w == "" || OpensWithWord(w))
    requires StandingOf(fold, p.agreement.committed, Tokenize(w)) != Contradicts
    ensures var shown := Recased(fold, p.agreement.committed, Tokenize(w));
            && ClosingOn(fold, p1, p.agreement.committed, w) ==
                 (if p.committedPrefix + w == "" then []
                  else [Transcript(p.utterance, p.revision + 1, p.committedPrefix + Concat(shown), "", true)])
            && UtterancesEnded(fold, p1, p.agreement.committed, w) == 1
            && SameWordsIgnoringCase(fold, shown, Tokenize(w))
  {
    hide StandingOf, Recased, SameWordsIgnoringCase;
    WordIsNotBlank(p.committedPrefix, w);
    assert p.committedPrefix + "" == p.committedPrefix;
    RecasedShape(fold, p.agreement.committed, Tokenize(w));
  }
}
