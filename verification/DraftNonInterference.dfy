/** Draft text is shown and never committed: it cannot influence what is (server/app/streaming/session.py). */
module DraftNonInterference {
  import Audio
  import EventLog
  import opened LocalAgreementPolicy
  import opened SessionModel
  import opened SessionSafety
  import opened Text
  import Vad

  // ---- What may differ between two runs, and what is compared ----

  /** Whether a draft pass fails, breaks the loop, comes out empty or says something. */
  datatype Verdict = Failed | Broke | Silent | Spoke

  function VerdictOf(stitch: Stitcher, answer: Answer, prompt: string): Verdict {
    match answer
    case Fault => Failed
    case Heard(text, words) =>
      var reply := WithoutRepeatOf(stitch, prompt, text, words);
      if reply.Aborted? then Broke else if Said(reply) == "" then Silent else Spoke
  }

  /** The same surroundings and the same accurate model; draft answers that agree in their verdicts. */
  ghost predicate Alike(e: Environment, e': Environment) {
    && e.fold == e'.fold && e.stitch == e'.stitch && e.signal == e'.signal && e.accurate == e'.accurate && e.arrivals == e'.arrivals
    && forall n, clip, prompt ::
         VerdictOf(e.stitch, e.draft(n, clip, prompt), prompt) == VerdictOf(e.stitch, e'.draft(n, clip, prompt), prompt)
  }

  /** A committed prefix as it is first shown, or a final text. */
  datatype Committal = Committal(utterance: nat, stable: string, final: bool)

  /** The committed prefixes and final texts of a log, in order: repeats with another partial are one. */
  function Committals(ts: seq<EventLog.TranscriptEvent>): seq<Committal> {
    if ts == [] then []
    else
      var n := |ts| - 1;
      Committals(ts[..n]) + if n > 0 && Repeats(ts[n - 1], ts[n]) then [] else [Committal(ts[n].utterance, ts[n].stable, ts[n].final)]
  }

  /** Nothing but the partial, and the revision, is new. */
  predicate Repeats(a: EventLog.TranscriptEvent, b: EventLog.TranscriptEvent) {
    a.utterance == b.utterance && a.stable == b.stable && !a.final && !b.final
  }

  function Errors(events: seq<Event>): seq<ErrorCode> {
    if events == [] then []
    else
      var n := |events| - 1;
      Errors(events[..n]) + if events[n].Error? then [events[n].code] else []
  }

  /** Everything but draft text, and what of the log is compared, is the same. */
  predicate Alongside(p: Page, q: Page) {
    && p.utterance == q.utterance
    && p.committedPrefix == q.committedPrefix
    && p.prompt == q.prompt
    && p.agreement.window == q.agreement.window
    && p.lastEmitted.Some? == q.lastEmitted.Some?
    && Committals(Log(p)) == Committals(Log(q))
    && Errors(p.events) == Errors(q.events)
  }

  /** Two pages that differ in draft text at most. */
  predicate SamePage(fold: Casefold, p: Page, q: Page) {
    PageInv(true, fold, p) && PageInv(true, fold, q) && Alongside(p, q)
  }

  /** Two sessions that differ in draft text at most. */
  ghost predicate Same(fold: Casefold, s: Session, t: Session) {
    s.(page := t.page) == t && SamePage(fold, s.page, t.page)
  }

  // ---- Pages ----

  lemma {:induction false} CommittalsSnoc(ts: seq<EventLog.TranscriptEvent>, e: EventLog.TranscriptEvent)
    ensures Committals(ts + [e]) == Committals(ts) +
              if |ts| > 0 && Repeats(ts[|ts| - 1], e) then [] else [Committal(e.utterance, e.stable, e.final)]
  {
    assert (ts + [e])[..|ts|] == ts;
  }

  lemma {:induction false} ErrorsSnoc(events: seq<Event>, e: Event)
    ensures Errors(events + [e]) == Errors(events) + if e.Error? then [e.code] else []
  {
    assert (events + [e])[..|events|] == events;
  }

  lemma {:induction false} EmittingIsSeen(p: Page, stable: string, partial: string, final: bool)
    requires Orderly(p)
    ensures var p' := Emitted(p, stable, partial, final);
            && Committals(Log(p')) == Committals(Log(p)) +
                 (if !final && p.lastEmitted.Some? && Shown(p) == stable then []
                  else [Committal(p.utterance, stable, final)])
            && Errors(p'.events) == Errors(p.events)
  {
    var e := Transcript(p.utterance, p.revision + 1, stable, partial, final);
    if Emitted(p, stable, partial, final) != p {
      EventLog.NothingElseIsATranscript(p.events, e);
      CommittalsSnoc(Log(p), e);
      ErrorsSnoc(p.events, e);
    } else {
      assert Committals(Log(p)) == Committals(Log(p)) + [];
    }
  }

  lemma {:induction false} SameEmission(p: Page, q: Page, stable: string, h: string, h': string, final: bool)
    requires Orderly(p) && Orderly(q) && Alongside(p, q) && Shown(p) == Shown(q)
    ensures Alongside(Emitted(p, stable, h, final), Emitted(q, stable, h', final))
  {
    EmittingIsSeen(p, stable, h, final);
    EmittingIsSeen(q, stable, h', final);
  }

  lemma {:induction false} SameDraftShown(fold: Casefold, p: Page, q: Page, h: string, h': string)
    requires SamePage(fold, p, q)
    ensures Alongside(DraftShown(fold, p, h), DraftShown(fold, q, h'))
  {
    FoldingKeepsWindow(fold, p.agreement, h);
    FoldingKeepsWindow(fold, q.agreement, h');
    SameShowing(fold, p, q, h, h', DraftFolded(fold, p.agreement, h), DraftFolded(fold, q.agreement, h'));
  }

  lemma {:induction false} FoldingKeepsWindow(fold: Casefold, a: Agreement, h: string)
    ensures DraftFolded(fold, a, h).window == a.window
  {
  }

  /** Whatever the two drafts have agreed on. */
  lemma {:induction false} SameShowing(fold: Casefold, p: Page, q: Page, h: string, h': string, a: Agreement, b: Agreement)
    requires SamePage(fold, p, q) && a.window == b.window
    ensures Alongside(Emitted(p.(windowHypothesis := h, agreement := a), p.committedPrefix, h, false),
                      Emitted(q.(windowHypothesis := h', agreement := b), q.committedPrefix, h', false))
  {
    SameEmission(p.(windowHypothesis := h, agreement := a), q.(windowHypothesis := h', agreement := b),
                 p.committedPrefix, h, h', false);
  }

  lemma {:induction false} SameCommitted(fold: Casefold, p: Page, q: Page, text: string)
    requires SamePage(fold, p, q)
    ensures Alongside(AccuratelyCommitted(p, text), AccuratelyCommitted(q, text))
  {
    SameEmission(Carried(p, text + " "), Carried(q, text + " "), p.committedPrefix + (text + " "), "", "", false);
  }

  lemma {:induction false} SameEnding(cfg: Settings, fold: Casefold, p: Page, q: Page, accurate: string)
    requires cfg.draftMode && SamePage(fold, p, q)
    ensures Alongside(NextUtterance(Finished(cfg, fold, p, accurate)).(windowHypothesis := ""),
                      NextUtterance(Finished(cfg, fold, q, accurate)).(windowHypothesis := ""))
  {
    SameFinished(cfg, fold, p, q, accurate);
    NextAlongside(Finished(cfg, fold, p, accurate), Finished(cfg, fold, q, accurate));
  }

  lemma {:induction false} NextAlongside(p: Page, q: Page)
    requires Alongside(p, q)
    ensures Alongside(NextUtterance(p).(windowHypothesis := ""), NextUtterance(q).(windowHypothesis := ""))
  {
  }

  lemma {:induction false} SameFinished(cfg: Settings, fold: Casefold, p: Page, q: Page, accurate: string)
    requires cfg.draftMode && SamePage(fold, p, q)
    ensures Alongside(Finished(cfg, fold, p, accurate), Finished(cfg, fold, q, accurate))
  {
    EndingAlongside(fold, p, q, accurate);
    FinishedIsEnding(cfg, fold, p, accurate);
    FinishedIsEnding(cfg, fold, q, accurate);
  }

  /** The page a draft-mode utterance is left on, once sealed with the accurate text. */
  function Ending(fold: Casefold, p: Page, accurate: string): Page {
    var heard := if accurate != "" then p.(windowHypothesis := accurate) else p;
    if Strip(p.committedPrefix + accurate) == "" then heard.(agreement := Fresh(p.agreement.window))
    else
      Emitted(heard.(agreement := AfterCommitAll(fold, Fresh(p.agreement.window), accurate).0),
              p.committedPrefix + accurate, "", true)
  }

  lemma {:induction false} EndingAlongside(fold: Casefold, p: Page, q: Page, accurate: string)
    requires SamePage(fold, p, q)
    ensures Alongside(Ending(fold, p, accurate), Ending(fold, q, accurate))
  {
    if Strip(p.committedPrefix + accurate) != "" {
      var a := AfterCommitAll(fold, Fresh(p.agreement.window), accurate).0;
      var heard := if accurate != "" then p.(windowHypothesis := accurate) else p;
      var heard' := if accurate != "" then q.(windowHypothesis := accurate) else q;
      assert p.agreement.window == q.agreement.window && p.committedPrefix == q.committedPrefix;
      SealingAlongside(fold, p, q, heard.(agreement := a), heard'.(agreement := a), p.committedPrefix + accurate);
    }
  }

  lemma {:induction false} SealingAlongside(fold: Casefold, p: Page, q: Page, p': Page, q': Page, stable: string)
    requires SamePage(fold, p, q)
    requires p' == p.(windowHypothesis := p'.windowHypothesis, agreement := p'.agreement)
    requires q' == q.(windowHypothesis := q'.windowHypothesis, agreement := p'.agreement)
    ensures Alongside(Emitted(p', stable, "", true), Emitted(q', stable, "", true))
  {
    assert Orderly(p') && Orderly(q') && Shown(p') == Shown(q');
    assert Alongside(p', q');
    SameEmission(p', q', stable, "", "", true);
  }

  lemma {:induction false} FinishedIsEnding(cfg: Settings, fold: Casefold, p: Page, accurate: string)
    requires cfg.draftMode
    ensures Finished(cfg, fold, p, accurate) == Ending(fold, p, accurate)
  {
    ResetIsFresh(p.agreement);
    FreshSealsAnything(fold, p.agreement.window, accurate);
  }

  // ---- Sessions ----

  /** What arrives finds the two sessions in the same audio and flags, and leaves them so. */
  lemma {:induction false} SameInputs(env: Environment, env': Environment, s: Session, t: Session, inputs: seq<Input>)
    requires env.signal == env'.signal
    requires s.(page := t.page) == t
    ensures AfterInputs(env, s, inputs).(page := t.page) == AfterInputs(env', t, inputs)
  {
    if inputs != [] {
      SameInputs(env, env', s, t, inputs[..|inputs| - 1]);
    }
  }

  lemma {:induction false} SameReport(fold: Casefold, p: Page, q: Page, code: ErrorCode)
    requires SamePage(fold, p, q)
    ensures SamePage(fold, Reported(p, code), Reported(q, code))
  {
    ReportedIsQuiet(p, code);
    ReportedIsQuiet(q, code);
    QuietKeepsPage(true, fold, p, Reported(p, code));
    QuietKeepsPage(true, fold, q, Reported(q, code));
    ErrorsSnoc(p.events, Error(code));
    ErrorsSnoc(q.events, Error(code));
  }

  /** Two replies that come to the same: cut short, nothing said, or something said. */
  predicate SameKind(reply: Reply, reply': Reply) {
    && reply.Aborted? == reply'.Aborted?
    && (Said(reply) == "") == (Said(reply') == "")
  }

  /** The words' timings have no part in whether a reply is cut short, or in what it says. */
  lemma {:induction false} WordsDoNotMatter(stitch: Stitcher, prompt: string, text: string, words: seq<Word>, words': seq<Word>)
    ensures var r, r' := WithoutRepeatOf(stitch, prompt, text, words), WithoutRepeatOf(stitch, prompt, text, words');
            r.Aborted? == r'.Aborted? && Said(r) == Said(r')
  {
  }

  lemma {:induction false} SameVerdict(stitch: Stitcher, prompt: string, a: Answer, b: Answer, offset: int)
    requires VerdictOf(stitch, a, prompt) == VerdictOf(stitch, b, prompt)
    ensures a.Fault? == b.Fault?
    ensures a.Heard? ==> SameKind(WithoutRepeatOf(stitch, prompt, a.text, Shifted(a.words, offset)),
                                  WithoutRepeatOf(stitch, prompt, b.text, Shifted(b.words, offset)))
  {
    if a.Heard? && b.Heard? {
      WordsDoNotMatter(stitch, prompt, a.text, a.words, Shifted(a.words, offset));
      WordsDoNotMatter(stitch, prompt, b.text, b.words, Shifted(b.words, offset));
    }
  }

  lemma {:induction false} SameAnswered(fold: Casefold, stitch: Stitcher, s: Session, t: Session, prompt: string,
                                        a: Answer, b: Answer, offset: int)
    requires Same(fold, s, t) && VerdictOf(stitch, a, prompt) == VerdictOf(stitch, b, prompt)
    ensures var (s1, r) := Answered(stitch, s, prompt, a, offset);
            var (t1, r') := Answered(stitch, t, prompt, b, offset);
            Same(fold, s1, t1) && SameKind(r, r') && (a == b ==> r == r')
  {
    SameVerdict(stitch, prompt, a, b, offset);
    SameReport(fold, s.page, t.page, InferenceFailed);
    SameReport(fold, s.page, t.page, InternalError);
  }

  lemma {:induction false} SameArrivals(e: Environment, e': Environment, s: Session, t: Session, inputs: seq<Input>)
    requires Alike(e, e') && Same(e.fold, s, t)
    ensures Same(e.fold, AfterInputs(e, s, inputs), AfterInputs(e', t, inputs))
  {
    SameInputs(e, e', s, t, inputs);
    InputsLeaveThePage(e, s, inputs);
    InputsLeaveThePage(e', t, inputs);
  }

  lemma {:induction false} SameConcluded(fold: Casefold, stitch: Stitcher, s: Session, t: Session, prompt: string,
                                         a: Answer, b: Answer, offset: int)
    requires Same(fold, s, t)
    requires a == b || VerdictOf(stitch, a, prompt) == VerdictOf(stitch, b, prompt)
    ensures var (s1, r) := Concluded(stitch, s, prompt, a, offset);
            var (t1, r') := Concluded(stitch, t, prompt, b, offset);
            Same(fold, s1, t1) && SameKind(r, r') && (a == b ==> r == r')
  {
    hide Answered, SamePage, VerdictOf, Said;
    SameAnswered(fold, stitch, s, t, prompt, a, b, offset);
  }

  lemma {:induction false} SameExchange(e: Environment, e': Environment, s: Session, t: Session,
                                        clip: seq<Audio.Byte>, offset: int, byDraft: bool)
    requires Alike(e, e') && Same(e.fold, s, t)
    ensures var (s1, r) := Exchanged(e, s, clip, offset, byDraft);
            var (t1, r') := Exchanged(e', t, clip, offset, byDraft);
            Same(e.fold, s1, t1) && SameKind(r, r') && (!byDraft ==> r == r')
  {
    var n, prompt := s.decodes, s.page.prompt;
    var m, m' := s.(decodes := n + 1), t.(decodes := n + 1);
    var a, b := AnswerOf(e, n, clip, prompt, byDraft), AnswerOf(e', n, clip, prompt, byDraft);
    SameArrivals(e, e', m, m', e.arrivals(n));
    SameAnswer(e, e', n, clip, prompt, byDraft);
    var x, x' := AfterInputs(e, m, e.arrivals(n)), AfterInputs(e', m', e.arrivals(n));
    assert Exchanged(e, s, clip, offset, byDraft) == Concluded(e.stitch, x, prompt, a, offset);
    assert Exchanged(e', t, clip, offset, byDraft) == Concluded(e.stitch, x', prompt, b, offset);
    SameConcluded(e.fold, e.stitch, x, x', prompt, a, b, offset);
  }

  lemma {:induction false} SameAnswer(e: Environment, e': Environment, n: nat, clip: seq<Audio.Byte>, prompt: string, byDraft: bool)
    requires Alike(e, e')
    ensures var a, b := AnswerOf(e, n, clip, prompt, byDraft), AnswerOf(e', n, clip, prompt, byDraft);
            (if byDraft then VerdictOf(e.stitch, a, prompt) == VerdictOf(e.stitch, b, prompt) else a == b)
  {
    assert VerdictOf(e.stitch, e.draft(n, clip, prompt), prompt) == VerdictOf(e.stitch, e'.draft(n, clip, prompt), prompt);
  }

  lemma {:induction false} SameDecode(cfg: Settings, e: Environment, e': Environment, s: Session, t: Session,
                                      pcm: seq<Audio.Byte>, byDraft: bool)
    requires Alike(e, e') && Same(e.fold, s, t)
    ensures var (s1, r) := Decoded(cfg, e, s, pcm, byDraft);
            var (t1, r') := Decoded(cfg, e', t, pcm, byDraft);
            Same(e.fold, s1, t1) && SameKind(r, r') && (!byDraft ==> r == r')
  {
    var (clip, offset) := OnlyTheSpeech(cfg, s.silence, pcm);
    SameExchange(e, e', s, t, clip, offset, byDraft);
  }

  lemma {:induction false} SameCompacted(fold: Casefold, s: Session, t: Session, words: seq<Word>, limit: int, window: nat)
    requires Same(fold, s, t)
    ensures Same(fold, Compacted(s, words, limit, window), Compacted(t, words, limit, window))
  {
    CommittingAccurateWords(fold, s, words, limit, window);
    CommittingAccurateWords(fold, t, words, limit, window);
    SameCommitted(fold, s.page, t.page, Strip(Spoken(EndingBy(words, limit))));
  }

  lemma {:induction false} SameCompactedOn(cfg: Settings, fold: Casefold, s: Session, t: Session, reply: Reply, window: nat)
    requires Same(fold, s, t)
    ensures Same(fold, CompactedOn(cfg, s, reply, window).s, CompactedOn(cfg, t, reply, window).s)
  {
    var limit := window - CompactionTail(cfg);
    match reply
    case Aborted =>
    case Nothing =>
      SameCompacted(fold, s, t, [], limit, window);
      assert CompactedOn(cfg, s, reply, window).s == Compacted(s, [], limit, window);
      assert CompactedOn(cfg, t, reply, window).s == Compacted(t, [], limit, window);
    case Result(_, words) =>
      SameCompacted(fold, s, t, words, limit, window);
      assert CompactedOn(cfg, s, reply, window).s == Compacted(s, words, limit, window);
      assert CompactedOn(cfg, t, reply, window).s == Compacted(t, words, limit, window);
  }

  lemma {:induction false} SameWindowCompacted(cfg: Settings, e: Environment, e': Environment, s: Session, t: Session)
    requires Alike(e, e') && Same(e.fold, s, t)
    ensures Same(e.fold, DraftWindowCompacted(cfg, e, s).s, DraftWindowCompacted(cfg, e', t).s)
  {
    var (s1, r) := Decoded(cfg, e, s, s.buffer.data, false);
    var (t1, r') := Decoded(cfg, e', t, s.buffer.data, false);
    SameDecode(cfg, e, e', s, t, s.buffer.data, false);
    SameCompactedOn(cfg, e.fold, s1, t1, r, s.buffer.Samples());
  }

  lemma {:induction false} SamePassedOn(cfg: Settings, e: Environment, e': Environment, s: Session, t: Session,
                                        reply: Reply, reply': Reply)
    requires cfg.draftMode && Alike(e, e') && Same(e.fold, s, t) && SameKind(reply, reply')
    ensures Same(e.fold, PassedOn(cfg, e, s, reply).s, PassedOn(cfg, e', t, reply').s)
  {
    if !reply.Aborted? && Said(reply) != "" {
      SameDraftShown(e.fold, s.page, t.page, Said(reply), Said(reply'));
      ShowingADraft(e.fold, s.page, Said(reply));
      ShowingADraft(e.fold, t.page, Said(reply'));
      SameWindowCompacted(cfg, e, e', s.(page := DraftShown(e.fold, s.page, Said(reply))),
                                      t.(page := DraftShown(e.fold, t.page, Said(reply'))));
    }
  }

  lemma {:induction false} SamePass(cfg: Settings, e: Environment, e': Environment, s: Session, t: Session)
    requires cfg.draftMode && Alike(e, e') && Same(e.fold, s, t)
    ensures Same(e.fold, IncrementallyDecoded(cfg, e, s).s, IncrementallyDecoded(cfg, e', t).s)
  {
    var (s1, r) := PassDecoded(cfg, e, s);
    var (t1, r') := PassDecoded(cfg, e', t);
    SameDecode(cfg, e, e', s.(buffer := Audio.AfterMarkDecoded(s.buffer)), t.(buffer := Audio.AfterMarkDecoded(t.buffer)),
               s.buffer.data, true);
    SamePassedOn(cfg, e, e', s1, t1, r, r');
  }

  lemma {:induction false} SameFinalizedOn(cfg: Settings, fold: Casefold, s: Session, t: Session, reply: Reply)
    requires cfg.draftMode && Same(fold, s, t)
    ensures var f, f' := FinalizedOn(cfg, fold, s, reply), FinalizedOn(cfg, fold, t, reply);
            f.Goes? == f'.Goes? && Same(fold, f.s, f'.s)
  {
    if reply.Result? {
      StrippedOpens(reply.text);
    }
    SameEnding(cfg, fold, s.page, t.page, Said(reply));
    FinalizingOnKeepsInv(cfg, fold, s, reply);
    FinalizingOnKeepsInv(cfg, fold, t, reply);
  }

  lemma {:induction false} SameFinalized(cfg: Settings, e: Environment, e': Environment, s: Session, t: Session)
    requires cfg.draftMode && Alike(e, e') && Same(e.fold, s, t)
    ensures var f, f' := Finalized(cfg, e, s), Finalized(cfg, e', t);
            f.Goes? == f'.Goes? && Same(e.fold, f.s, f'.s)
  {
    var (s1, r) := FinalDecoded(cfg, e, s);
    var (t1, r') := FinalDecoded(cfg, e', t);
    SameDecode(cfg, e, e', s.(buffer := Audio.AfterMarkDecoded(s.buffer)), t.(buffer := Audio.AfterMarkDecoded(t.buffer)),
               s.buffer.data, false);
    SameFinalizedOn(cfg, e.fold, s1, t1, r);
  }

  lemma {:induction false} SameServed(fold: Casefold, f: Flow, f': Flow)
    requires f.Goes? == f'.Goes? && Same(fold, f.s, f'.s)
    ensures Same(fold, Served(f), Served(f'))
  {
  }

  lemma {:induction false} SameCapped(cfg: Settings, e: Environment, e': Environment, s: Session, t: Session)
    requires cfg.draftMode && Alike(e, e') && Same(e.fold, s, t)
    ensures var c := CappedOn(Finalized(cfg, e, s.(page := Reported(s.page, UtteranceTooLong))));
            var c' := CappedOn(Finalized(cfg, e', t.(page := Reported(t.page, UtteranceTooLong))));
            c.1 == c'.1 && Same(e.fold, c.0, c'.0)
  {
    var s', t' := s.(page := Reported(s.page, UtteranceTooLong)), t.(page := Reported(t.page, UtteranceTooLong));
    SameReport(e.fold, s.page, t.page, UtteranceTooLong);
    SameFinalized(cfg, e, e', s', t');
    SameCappedOn(e.fold, Finalized(cfg, e, s'), Finalized(cfg, e', t'));
  }

  lemma {:induction false} SameCappedOn(fold: Casefold, f: Flow, f': Flow)
    requires f.Goes? == f'.Goes? && Same(fold, f.s, f'.s)
    ensures CappedOn(f).1 == CappedOn(f').1 && Same(fold, CappedOn(f).0, CappedOn(f').0)
  {
    SameServed(fold, f, f');
  }

  lemma {:induction false} SameRolledPages(cfg: Settings, fold: Casefold, s: Session, t: Session)
    requires Same(fold, s, t)
    ensures Same(fold, PreRolled(cfg, s), PreRolled(cfg, t))
  {
    assert PreRolled(cfg, s).page == s.page && PreRolled(cfg, t).page == t.page;
  }

  lemma {:induction false} SamePreRoll(cfg: Settings, e: Environment, e': Environment, s: Session, t: Session)
    requires cfg.draftMode && Alike(e, e') && Same(e.fold, s, t) && Chosen(cfg, s) == PreRoll
    ensures Stepped(cfg, e, s).1 == Stepped(cfg, e', t).1
    ensures Same(e.fold, Stepped(cfg, e, s).0, Stepped(cfg, e', t).0)
  {
    hide Finalized, Served, SamePage;
    var s', t' := PreRolled(cfg, s), PreRolled(cfg, t);
    SameRolledPages(cfg, e.fold, s, t);
    SameFinalized(cfg, e, e', s', t');
    var f, f' := Finalized(cfg, e, s'), Finalized(cfg, e', t');
    SameServed(e.fold, f, f');
    assert Stepped(cfg, e, s) == if s'.hands.flushRequested then (Served(f), false) else (s', false);
    assert Stepped(cfg, e', t) == if t'.hands.flushRequested then (Served(f'), false) else (t', false);
  }

  lemma {:induction false} SameStep(cfg: Settings, e: Environment, e': Environment, s: Session, t: Session)
    requires cfg.draftMode && Alike(e, e') && Same(e.fold, s, t)
    ensures Stepped(cfg, e, s).1 == Stepped(cfg, e', t).1
    ensures Same(e.fold, Stepped(cfg, e, s).0, Stepped(cfg, e', t).0)
  {
    assert Chosen(cfg, s) == Chosen(cfg, t);
    match Chosen(cfg, s)
    case Idle =>
    case PreRoll => SamePreRoll(cfg, e, e', s, t);
    case TooLong =>
      SameCapped(cfg, e, e', s, t);
      assert Stepped(cfg, e, s) == CappedOn(Finalized(cfg, e, s.(page := Reported(s.page, UtteranceTooLong))));
      assert Stepped(cfg, e', t) == CappedOn(Finalized(cfg, e', t.(page := Reported(t.page, UtteranceTooLong))));
    case Flushing =>
      SameFinalized(cfg, e, e', s, t);
      SameServed(e.fold, Finalized(cfg, e, s), Finalized(cfg, e', t));
      assert Stepped(cfg, e, s).0 == Served(Finalized(cfg, e, s));
      assert Stepped(cfg, e', t).0 == Served(Finalized(cfg, e', t));
    case Silence =>
      SameFinalized(cfg, e, e', s, t);
      assert Stepped(cfg, e, s).0 == Finalized(cfg, e, s).s;
      assert Stepped(cfg, e', t).0 == Finalized(cfg, e', t).s;
    case Pass =>
      SamePass(cfg, e, e', s, t);
      assert Stepped(cfg, e, s).0 == IncrementallyDecoded(cfg, e, s).s;
      assert Stepped(cfg, e', t).0 == IncrementallyDecoded(cfg, e', t).s;
  }

  lemma {:induction false} SameDrain(cfg: Settings, e: Environment, e': Environment, s: Session, t: Session)
    requires cfg.draftMode && Alike(e, e') && Same(e.fold, s, t)
    ensures Same(e.fold, Drained(cfg, e, s), Drained(cfg, e', t))
    decreases |s.buffer.data|
  {
    SameStep(cfg, e, e', s, t);
    var (s1, more) := Stepped(cfg, e, s);
    if more && !s1.hands.closing {
      MoreMeansEmptied(cfg, e, s);
      SameDrain(cfg, e, e', s1, Stepped(cfg, e', t).0);
    }
  }

  lemma {:induction false} SameRun(cfg: Settings, e: Environment, e': Environment, s: Session, t: Session, schedule: seq<Action>)
    requires cfg.draftMode && Alike(e, e') && Same(e.fold, s, t)
    ensures Same(e.fold, Ran(cfg, e, s, schedule), Ran(cfg, e', t, schedule))
  {
    if schedule != [] {
      var init := schedule[..|schedule| - 1];
      SameRun(cfg, e, e', s, t, init);
      var (s1, t1) := (Ran(cfg, e, s, init), Ran(cfg, e', t, init));
      match schedule[|schedule| - 1]
      case Arrive(input) =>
        assert AfterInput(e, s1, input).page == s1.page && AfterInput(e', t1, input).page == t1.page;
      case Round =>
        SameDrain(cfg, e, e', s1.(hands := s1.hands.(wake := false)), t1.(hands := t1.hands.(wake := false)));
    }
  }

  /**
   * Two whole runs with the same arrivals and the same accurate model: as long as the draft passes fail,
   * come out empty or say something alike, whatever they say, the same prefixes are committed, the same
   * finals are sent and the same errors reported, in the same order.
   */
  lemma {:induction false} DraftTextNeverMatters(cfg: Settings, e: Environment, e': Environment,
                                                 detector: Vad.Detector, crossCheck: bool, schedule: seq<Action>)
    requires cfg.draftMode && Alike(e, e')
    ensures var s := Ran(cfg, e, NewSession(cfg, detector, crossCheck), schedule);
            var t := Ran(cfg, e', NewSession(cfg, detector, crossCheck), schedule);
            && Committals(Log(s.page)) == Committals(Log(t.page))
            && Errors(s.page.events) == Errors(t.page.events)
            && s.page.committedPrefix == t.page.committedPrefix
            && s.buffer == t.buffer
  {
    FreshPage(true, e.fold, cfg.agreementWindow);
    SameRun(cfg, e, e', NewSession(cfg, detector, crossCheck), NewSession(cfg, detector, crossCheck), schedule);
  }
}
