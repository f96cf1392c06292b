/** The prompt is the text whose audio is gone (server/app/streaming/session.py). */
module Prompts {
  import Audio
  import opened Basics
  import opened LocalAgreementPolicy
  import opened SessionModel
  import opened SessionSafety
  import opened Text
  import Vad

  // ---- What the prompt is ----

  /** `end` is the last `n` characters of `text`, or all of it. */
  predicate LastCharacters(end: string, text: string, n: nat) {
    |end| == Min(n, |text|) && end == text[|text| - |end|..]
  }

  /** The prompt is the last characters of the committed text whose audio is gone, and empty when there is none. */
  predicate Prompted(p: Page) {
    LastCharacters(p.prompt, p.committedPrefix, 200)
  }

  /** The text committed in this utterance, its audio gone or not. */
  function Committed(draftMode: bool, p: Page): string {
    if draftMode then p.committedPrefix else p.committedPrefix + p.agreement.Committed()
  }

  // ---- Every operation keeps it ----

  lemma {:induction false} TailIsLast(text: string, n: nat)
    ensures LastCharacters(Tail(text, n), text, n)
  {
  }

  lemma {:induction false} EmittingKeepsPrompt(p: Page, stable: string, partial: string, final: bool)
    requires Prompted(p)
    ensures Prompted(Emitted(p, stable, partial, final))
  {
  }

  lemma {:induction false} NextIsPrompted(p: Page)
    ensures Prompted(NextUtterance(p))
  {
  }

  lemma {:induction false} CarryingPrompts(p: Page, text: string)
    ensures Prompted(Carried(p, text)) && Carried(p, text).committedPrefix == p.committedPrefix + text
  {
    TailIsLast(p.committedPrefix + text, PROMPT_CHARACTERS);
  }

  lemma {:induction false} CompactingKeepsPrompt(cfg: Settings, s: Session, reply: Reply, window: nat)
    requires Prompted(s.page)
    ensures Prompted(CompactedOn(cfg, s, reply, window).s.page)
  {
    hide Tail, EndingBy, Spoken, Strip;
    var words := if reply.Result? then reply.words else [];
    var text := Strip(Spoken(EndingBy(words, window - CompactionTail(cfg))));
    CarryingPrompts(s.page, text + " ");
  }

  lemma {:induction false} RotatingPrompts(fold: Casefold, p: Page, h: string)
    ensures Prompted(Rotated(fold, p, h))
  {
  }

  lemma {:induction false} DigestingKeepsPrompt(cfg: Settings, fold: Casefold, s: Session, h: string, words: seq<Word>)
    requires Prompted(s.page)
    ensures Prompted(Digested(cfg, fold, s, h, words).page)
  {
    hide Rotated, AfterUpdate, Tail, WordBoundary;
    RotatingPrompts(fold, s.page, h);
    CarryingPrompts(s.page, ReadingShown(fold, s.page, h).agreement.Committed());
  }

  lemma {:induction false} DecodingKeepsPrompt(cfg: Settings, env: Environment, s: Session, pcm: seq<Audio.Byte>, byDraft: bool)
    requires Prompted(s.page)
    ensures Prompted(Decoded(cfg, env, s, pcm, byDraft).0.page)
  {
    hide Decoded;
    DecodingIsQuiet(cfg, env, s, pcm, byDraft);
  }

  lemma {:induction false} PassingOnKeepsPrompt(cfg: Settings, env: Environment, s: Session, reply: Reply)
    requires Prompted(s.page)
    ensures Prompted(PassedOn(cfg, env, s, reply).s.page)
  {
    hide Digested, Decoded, CompactedOn, DraftFolded;
    if reply.Result? && Said(reply) != "" {
      if cfg.draftMode {
        var shown := s.(page := DraftShown(env.fold, s.page, Said(reply)));
        var (s1, accurate) := Decoded(cfg, env, shown, shown.buffer.data, false);
        DecodingKeepsPrompt(cfg, env, shown, shown.buffer.data, false);
        CompactingKeepsPrompt(cfg, s1, accurate, shown.buffer.Samples());
      } else {
        DigestingKeepsPrompt(cfg, env.fold, s, Said(reply), reply.words);
      }
    }
  }

  lemma {:induction false} FinalizingKeepsPrompt(cfg: Settings, env: Environment, s: Session)
    requires Prompted(s.page)
    ensures Prompted(Finalized(cfg, env, s).s.page)
  {
    hide Decoded, Finished, NextUtterance;
    var (s1, reply) := FinalDecoded(cfg, env, s);
    DecodingKeepsPrompt(cfg, env, s.(buffer := Audio.AfterMarkDecoded(s.buffer)), s.buffer.data, false);
    NextIsPrompted(Finished(cfg, env.fold, s1.page, Said(reply)));
  }

  lemma {:induction false} StepKeepsPrompt(cfg: Settings, env: Environment, s: Session)
    requires Prompted(s.page)
    ensures Prompted(Stepped(cfg, env, s).0.page)
  {
    hide Finalized, PassedOn, Decoded;
    match Chosen(cfg, s)
    case Idle =>
    case PreRoll => FinalizingKeepsPrompt(cfg, env, PreRolled(cfg, s));
    case TooLong => FinalizingKeepsPrompt(cfg, env, s.(page := Reported(s.page, UtteranceTooLong)));
    case Flushing => FinalizingKeepsPrompt(cfg, env, s);
    case Silence => FinalizingKeepsPrompt(cfg, env, s);
    case Pass =>
      var (s1, reply) := PassDecoded(cfg, env, s);
      DecodingKeepsPrompt(cfg, env, s.(buffer := Audio.AfterMarkDecoded(s.buffer)), s.buffer.data, cfg.draftMode);
      PassingOnKeepsPrompt(cfg, env, s1, reply);
  }

  lemma {:induction false} DrainKeepsPrompt(cfg: Settings, env: Environment, s: Session)
    requires Prompted(s.page)
    ensures Prompted(Drained(cfg, env, s).page)
    decreases |s.buffer.data|
  {
    hide Stepped;
    var (s1, more) := Stepped(cfg, env, s);
    StepKeepsPrompt(cfg, env, s);
    if more && !s1.hands.closing {
      MoreMeansEmptied(cfg, env, s);
      DrainKeepsPrompt(cfg, env, s1);
    }
  }

  lemma {:induction false} RunKeepsPrompt(cfg: Settings, env: Environment, s: Session, schedule: seq<Action>)
    requires Prompted(s.page)
    ensures Prompted(Ran(cfg, env, s, schedule).page)
  {
    if schedule != [] {
      var init := schedule[..|schedule| - 1];
      var before := Ran(cfg, env, s, init);
      RunKeepsPrompt(cfg, env, s, init);
      match schedule[|schedule| - 1]
      case Arrive(input) => assert AfterInput(env, before, input).page == before.page;
      case Round => DrainKeepsPrompt(cfg, env, before.(hands := before.hands.(wake := false)));
    }
  }

  /**
   * Over every run: the prompt is the last 200 characters of the committed text whose audio is gone, and what the
   * client has been shown as committed is that text followed, with one model, by what is committed of the window.
   */
  lemma {:induction false} EveryRunCarriesThePrompt(cfg: Settings, env: Environment, detector: Vad.Detector,
                                                    crossCheck: bool, schedule: seq<Action>)
    ensures var p := Ran(cfg, env, NewSession(cfg, detector, crossCheck), schedule).page;
            Prompted(p) && Shown(p) == Committed(cfg.draftMode, p)
  {
    FreshPage(cfg.draftMode, env.fold, cfg.agreementWindow);
    RunKeepsInv(cfg, env, NewSession(cfg, detector, crossCheck), schedule);
    RunKeepsPrompt(cfg, env, NewSession(cfg, detector, crossCheck), schedule);
  }

  // ---- No committed text is lost with its audio ----

  /** Trimming moves text from what is committed of the window to what is carried, and shows nothing. */
  lemma {:induction false} TrimmingMovesText(cfg: Settings, s: Session, words: seq<Word>)
    ensures var s' := Trimmed(cfg, s, words);
            && Committed(false, s'.page) == Committed(false, s.page) && s'.page.events == s.page.events
            && (s'.page.committedPrefix == s.page.committedPrefix ==> s' == s)
            && (s' != s ==> s'.page.committedPrefix == Committed(false, s.page) && s'.page.agreement == Fresh(s.page.agreement.window)
                              && s'.page.windowHypothesis == "")
  {
    ResetIsFresh(s.page.agreement);
    var p := s.page;
    assert p.committedPrefix + p.agreement.Committed() + "" == p.committedPrefix + p.agreement.Committed();
    StripBlank(p.agreement.Committed());
    if p.committedPrefix + p.agreement.Committed() == p.committedPrefix {
      assert p.agreement.Committed() == "";
    }
  }
}
