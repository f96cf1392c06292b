/** What every run of a streaming session keeps, with any decoder and any interleaving. */
module SessionSafety {
  import opened Basics
  import Audio
  import opened EventLog
  import opened LocalAgreementPolicy
  import opened SessionModel
  import opened Text
  import opened Tokens
  import Vad

  // ---- The page and its event log ----

  function Log(p: Page): seq<TranscriptEvent> {
    Transcripts(p.events)
  }

  predicate Logged(p: Page) {
    |Log(p)| == p.revision && Numbered(Log(p)) && Chained(Log(p))
  }

  /** The last event is what the current utterance shows, or belongs to one that is done with. */
  predicate Facing(p: Page) {
    var ts := Log(p);
    match p.lastEmitted
    case None => ts == [] || (ts[|ts| - 1].utterance < p.utterance && Left(ts[|ts| - 1]))
    case Some(shown) =>
      && ts != []
      && ts[|ts| - 1].utterance == p.utterance
      && !ts[|ts| - 1].final
      && shown == (ts[|ts| - 1].stable, ts[|ts| - 1].partial)
  }

  /** An event after which its utterance may be left. */
  predicate Left(e: TranscriptEvent) {
    e.final || e.stable == ""
  }

  predicate Orderly(p: Page) {
    Logged(p) && Facing(p)
  }

  /** The current utterance may be left. */
  predicate Closed(p: Page) {
    && Logged(p)
    && (Log(p) != [] ==> Log(p)[p.revision - 1].utterance <= p.utterance && Left(Log(p)[p.revision - 1]))
  }

  /** The committed text the client has been shown for this utterance. */
  function Shown(p: Page): string {
    if p.lastEmitted.Some? then p.lastEmitted.value.0 else ""
  }

  /** The log of `p'` stays append-only exactly when that of `p` is and `cond` holds. */
  predicate Grew(p: Page, p': Page, cond: bool) {
    Growing(Log(p')) <==> Growing(Log(p)) && cond
  }

  lemma {:induction false} EmittedIsLogged(p: Page, stable: string, partial: string, final: bool)
    requires Orderly(p) && (Shown(p) != "" ==> stable != "")
    ensures var p' := Emitted(p, stable, partial, final);
            && (final ==> Closed(p'))
            && (!final ==> Orderly(p'))
            && p'.lastEmitted == Some((stable, partial))
            && Grew(p, p', p.lastEmitted.Some? ==> Shown(p) <= stable)
  {
    if final || p.lastEmitted != Some((stable, partial)) {
      var e := Transcript(p.utterance, p.revision + 1, stable, partial, final);
      var p' := Emitted(p, stable, partial, final);
      EmittedLog(p, stable, partial, final);
      OneMoreIsLogged(p, p', Log(p), e);
    }
  }

  lemma {:induction false} EmittedLog(p: Page, stable: string, partial: string, final: bool)
    requires final || p.lastEmitted != Some((stable, partial))
    ensures var p' := Emitted(p, stable, partial, final);
            && p'.utterance == p.utterance && p'.revision == p.revision + 1
            && p'.lastEmitted == Some((stable, partial))
            && Log(p') == Log(p) + [Transcript(p.utterance, p.revision + 1, stable, partial, final)]
  {
    NothingElseIsATranscript(p.events, Transcript(p.utterance, p.revision + 1, stable, partial, final));
  }

  lemma {:induction false} OneMoreIsLogged(p: Page, p': Page, ts: seq<TranscriptEvent>, e: TranscriptEvent)
    requires Orderly(p) && ts == Log(p) && (Shown(p) != "" ==> e.stable != "")
    requires Log(p') == ts + [e] && p'.utterance == p.utterance == e.utterance
    requires p'.revision == e.revision == p.revision + 1 && p'.lastEmitted == Some((e.stable, e.partial))
    requires e.final || p.lastEmitted != Some((e.stable, e.partial))
    ensures if e.final then Closed(p') else Orderly(p')
    ensures Grew(p, p', p.lastEmitted.Some? ==> Shown(p) <= e.stable)
  {
    LoggingOneMore(ts, e);
    if ts != [] {
      assert Follows(ts[|ts| - 1], e);
    }
    assert Log(p')[|ts|] == e;
  }

  /** A log with one more event. */
  lemma {:induction false} LoggingOneMore(ts: seq<TranscriptEvent>, e: TranscriptEvent)
    ensures Numbered(ts + [e]) <==> Numbered(ts) && e.revision == |ts| + 1
    ensures Chained(ts + [e]) <==> Chained(ts) && (ts == [] || Follows(ts[|ts| - 1], e))
    ensures Growing(ts + [e]) <==> Growing(ts) && (ts == [] || Grows(ts[|ts| - 1], e))
  {
    assert (ts + [e])[..|ts|] == ts;
  }

  lemma {:induction false} NextIsOrderly(p: Page)
    requires Closed(p)
    ensures Orderly(NextUtterance(p))
    ensures Log(NextUtterance(p)) == Log(p)
  {
  }

  lemma {:induction false} ReportedIsQuiet(p: Page, code: ErrorCode)
    ensures Log(Reported(p, code)) == Log(p)
  {
    NothingElseIsATranscript(p.events, Error(code));
  }

  lemma {:induction false} PrefixCancels(a: string, b: string, c: string)
    ensures a + b <= a + c <==> b <= c
  {
    if a + b <= a + c {
      assert forall i :: 0 <= i < |b| ==> b[i] == (a + b)[|a| + i] == (a + c)[|a| + i];
    }
  }

  /** What is shown is what is committed. */
  predicate ShowsCommitted(p: Page) {
    if p.lastEmitted.Some? then Shown(p) == p.committedPrefix + p.agreement.Committed()
    else p.committedPrefix == "" && p.agreement.committed == []
  }

  /** A reading that does not contradict what is committed has to extend it for `stable` to be append-only. */
  predicate Faithful(fold: Casefold, p: Page, hypothesis: string) {
    || StandingOf(fold, p.agreement.committed, Tokenize(hypothesis)) == Contradicts
    || Extends(fold, p.agreement.committed, hypothesis)
  }

  /** Closing an utterance emits its final, or leaves one that showed nothing. */
  lemma {:induction false} ClosingCloses(fold: Casefold, p: Page, w: string)
    requires Orderly(p) && ShowsCommitted(p)
    requires Strip(p.committedPrefix + w) == "" ==> Shown(p) == ""
    ensures Closed(UtteranceClosed(fold, p, w))
    ensures Grew(p, UtteranceClosed(fold, p, w), Strip(p.committedPrefix + w) == "" || Faithful(fold, p, w))
  {
    if Strip(p.committedPrefix + w) != "" {
      var (agreement, r) := AfterCommitAll(fold, p.agreement, w);
      if r.conflict {
        ClosingConflict(fold, p, w);
      } else {
        SealGrowsIffExtends(fold, p.agreement, w);
        SealKeepsText(fold, p.agreement, w);
        Sealing(p, agreement, r.stable);
        assert p.lastEmitted.None? ==> Extends(fold, p.agreement.committed, w);
      }
    }
  }

  lemma {:induction false} Sealing(p: Page, agreement: Agreement, stable: string)
    requires Orderly(p) && ShowsCommitted(p) && (p.agreement.Committed() != "" ==> stable != "")
    ensures var p' := Emitted(p.(agreement := agreement), p.committedPrefix + stable, "", true);
            && Closed(p')
            && Grew(p, p', p.lastEmitted.Some? ==> p.agreement.Committed() <= stable)
  {
    PrefixCancels(p.committedPrefix, p.agreement.Committed(), stable);
    var sealed := p.(agreement := agreement);
    assert Orderly(sealed) && Log(sealed) == Log(p) && Shown(sealed) == Shown(p);
    EmittedIsLogged(sealed, p.committedPrefix + stable, "", true);
  }

  /** Sealing does not make committed text vanish. */
  lemma {:induction false} SealKeepsText(fold: Casefold, a: Agreement, w: string)
    requires !AfterCommitAll(fold, a, w).1.conflict
    ensures a.Committed() != "" ==> AfterCommitAll(fold, a, w).1.stable != ""
  {
    var tokens := Tokenize(w);
    if StandingOf(fold, a.committed, tokens) == Recases {
      ConcatAppend(a.committed, SliceFrom(tokens, |a.committed|));
    } else {
      assert |SliceTo(tokens, |a.committed|)| == |a.committed|;
      TokenizeRoundTrip(w);
      assert Tokenize("") == [];
    }
  }

  /** Nor does another reading. */
  lemma {:induction false} UpdateKeepsText(fold: Casefold, a: Agreement, h: string)
    requires !AfterUpdate(fold, a, h).1.conflict && Plain(AfterUpdate(fold, a, h).0.committed)
    ensures a.Committed() != "" ==> AfterUpdate(fold, a, h).0.Committed() != ""
  {
    WordsExtend(fold, a, Tokenize(h));
    PlainOpens(AfterUpdate(fold, a, h).0.committed);
  }

  lemma {:induction false} ClosingConflict(fold: Casefold, p: Page, w: string)
    requires Orderly(p) && ShowsCommitted(p)
    requires Strip(p.committedPrefix + w) != "" && AfterCommitAll(fold, p.agreement, w).1.conflict
    ensures Closed(UtteranceClosed(fold, p, w))
    ensures Grew(p, UtteranceClosed(fold, p, w), true)
  {
    hide Orderly, StandingOf, Recased, Growing, Transcripts;
    var typed := p.agreement.Committed();
    var final := Emitted(p, p.committedPrefix + typed, "", true);
    EmittedIsLogged(p, p.committedPrefix + typed, "", true);
    NextIsOrderly(final);
    var sealed := NextUtterance(final);
    var remainder := RemainderAfter(typed, w);
    if Strip(remainder) != "" {
      var (agreement', r') := AfterCommitAll(fold, sealed.agreement, remainder);
      SameLog(sealed, sealed.(agreement := agreement'));
      EmittedIsLogged(sealed.(agreement := agreement'), r'.stable, "", true);
    }
  }

  // ---- The page invariant, between steps ----

  /** Text that opens with a word. */
  predicate OpensWithWord(s: string) {
    s != "" && !IsSpace(s[0])
  }

  /** With one model, the commitment stands in the window's latest hypothesis. */
  predicate Anchored(fold: Casefold, a: Agreement, hypothesis: string) {
    && Plain(a.committed)
    && (hypothesis == "" ==> a.committed == [])
    && (hypothesis != "" ==> OpensWithWord(hypothesis) && Covers(fold, a.committed, hypothesis))
  }

  lemma {:induction false} NothingIsAnchored(fold: Casefold, a: Agreement)
    requires a.committed == []
    ensures Anchored(fold, a, "")
  {
  }

  predicate PageInv(draftMode: bool, fold: Casefold, p: Page) {
    && Orderly(p)
    && (p.committedPrefix == "" || OpensWithWord(p.committedPrefix))
    && if draftMode then Shown(p) == p.committedPrefix
       else ShowsCommitted(p) && Anchored(fold, p.agreement, p.windowHypothesis)
  }

  lemma {:induction false} FreshPage(draftMode: bool, fold: Casefold, window: Window)
    ensures PageInv(draftMode, fold, NewPage(window))
    ensures Growing(Log(NewPage(window)))
  {
  }

  lemma {:induction false} NextKeepsPage(draftMode: bool, fold: Casefold, p: Page)
    requires Closed(p)
    ensures PageInv(draftMode, fold, NextUtterance(p).(windowHypothesis := ""))
    ensures Log(NextUtterance(p).(windowHypothesis := "")) == Log(p)
  {
    assert Tokenize("") == [];
  }

  /** Stripped text that is not empty opens with a word. */
  lemma {:induction false} StrippedOpens(s: string)
    ensures Strip(s) != "" ==> OpensWithWord(Strip(s))
  {
    StripEnds(s);
  }

  lemma {:induction false} WordIsNotBlank(a: string, b: string)
    ensures OpensWithWord(a) ==> Strip(a + b) != ""
    ensures OpensWithWord(b) && a == "" ==> Strip(a + b) != ""
    ensures Strip("" + "") == ""
  {
    StripBlank(a + b);
    StripBlank("" + "");
    if OpensWithWord(a) {
      assert (a + b)[0] == a[0];
    } else if OpensWithWord(b) && a == "" {
      assert a + b == b;
    }
  }

  lemma {:induction false} ShowingAReading(fold: Casefold, p: Page, h: string)
    requires PageInv(false, fold, p) && OpensWithWord(h) && !Conflicts(fold, p, h)
    ensures PageInv(false, fold, ReadingShown(fold, p, h))
    ensures Grew(p, ReadingShown(fold, p, h), Faithful(fold, p, h))
  {
    var (agreement, r) := AfterUpdate(fold, p.agreement, h);
    ReadingStaysAnchored(fold, p.agreement, p.windowHypothesis, h);
    ShowingCommitted(fold, p, h, agreement, r.partial);
  }

  lemma {:induction false} ReadingStaysAnchored(fold: Casefold, a: Agreement, before: string, h: string)
    requires Anchored(fold, a, before) && OpensWithWord(h) && !AfterUpdate(fold, a, h).1.conflict
    ensures var (a', r) := AfterUpdate(fold, a, h);
            && Anchored(fold, a', h)
            && r.stable == a'.Committed()
            && StandingOf(fold, a.committed, Tokenize(h)) != Contradicts
            && (a.Committed() <= a'.Committed() <==> Extends(fold, a.committed, h))
            && (a.Committed() != "" ==> a'.Committed() != "")
  {
    TokenizeStripped(h);
    StepStaysPlain(fold, a, Tokenize(h));
    UpdateKeepsText(fold, a, h);
    FoldedInIsCovered(fold, a, h);
    GrowsIffExtends(fold, a, h);
  }

  /** Showing what is committed, whatever the agreement has moved on to. */
  lemma {:induction false} ShowingCommitted(fold: Casefold, p: Page, h: string, a: Agreement, partial: string)
    requires PageInv(false, fold, p) && Anchored(fold, a, h)
    requires p.agreement.Committed() != "" ==> a.Committed() != ""
    ensures var p' := Emitted(p.(windowHypothesis := h, agreement := a), p.committedPrefix + a.Committed(), partial, false);
            && PageInv(false, fold, p')
            && Grew(p, p', p.agreement.Committed() <= a.Committed())
  {
    var p1 := p.(windowHypothesis := h, agreement := a);
    SameLog(p, p1);
    ShownGrowsIff(p, a.Committed());
    EmittingCommitted(fold, p1, partial);
  }

  lemma {:induction false} SameLog(p: Page, p': Page)
    requires p'.events == p.events && p'.lastEmitted == p.lastEmitted
    requires p'.utterance == p.utterance && p'.revision == p.revision
    ensures Log(p') == Log(p) && Shown(p') == Shown(p) && (Orderly(p') <==> Orderly(p))
  {
  }

  lemma {:induction false} ShownGrowsIff(p: Page, committed: string)
    requires ShowsCommitted(p)
    ensures (p.lastEmitted.Some? ==> Shown(p) <= p.committedPrefix + committed) <==> p.agreement.Committed() <= committed
    ensures (p.agreement.Committed() != "" ==> committed != "") ==> Shown(p) != "" ==> p.committedPrefix + committed != ""
  {
    if p.lastEmitted.Some? {
      PrefixCancels(p.committedPrefix, p.agreement.Committed(), committed);
    } else {
      assert p.agreement.Committed() == "";
    }
  }

  lemma {:induction false} EmittingCommitted(fold: Casefold, p: Page, partial: string)
    requires Orderly(p) && (p.committedPrefix == "" || OpensWithWord(p.committedPrefix))
    requires Anchored(fold, p.agreement, p.windowHypothesis)
    requires Shown(p) != "" ==> p.committedPrefix + p.agreement.Committed() != ""
    ensures var shown := p.committedPrefix + p.agreement.Committed();
            var p' := Emitted(p, shown, partial, false);
            PageInv(false, fold, p') && Grew(p, p', p.lastEmitted.Some? ==> Shown(p) <= shown)
  {
    EmittedIsLogged(p, p.committedPrefix + p.agreement.Committed(), partial, false);
    EmittedKeepsTheRest(p, p.committedPrefix + p.agreement.Committed(), partial, false);
  }

  lemma {:induction false} EmittedKeepsTheRest(p: Page, stable: string, partial: string, final: bool)
    ensures var p' := Emitted(p, stable, partial, final);
            p' == p.(revision := p'.revision, lastEmitted := p'.lastEmitted, events := p'.events)
  {
  }

  /** Rotation always closes at exactly what was shown. */
  lemma {:induction false} Rotating(fold: Casefold, p: Page, h: string)
    requires PageInv(false, fold, p) && Conflicts(fold, p, h)
    ensures PageInv(false, fold, Rotated(fold, p, h))
    ensures var p' := Rotated(fold, p, h);
            p'.lastEmitted.None? && p'.windowHypothesis == "" && p'.agreement == Fresh(p.agreement.window)
    ensures Grew(p, Rotated(fold, p, h), true)
  {
    var typed := p.agreement.Committed();
    var contradicted := p.(windowHypothesis := h, agreement := AfterUpdate(fold, p.agreement, h).0);
    var closed := UtteranceClosed(fold, contradicted, typed);
    ConflictKeepsCommitment(fold, p.agreement, h);
    ClosingAtShown(fold, p, contradicted);
    NextKeepsPage(false, fold, closed);
    ResetIsFresh(closed.agreement);
    ClosingKeepsWindow(fold, contradicted, typed);
  }

  lemma {:induction false} ClosingAtShown(fold: Casefold, p: Page, q: Page)
    requires PageInv(false, fold, p)
    requires q == p.(windowHypothesis := q.windowHypothesis, agreement := q.agreement)
    requires q.agreement.committed == p.agreement.committed
    ensures var closed := UtteranceClosed(fold, q, p.agreement.Committed());
            Closed(closed) && Grew(p, closed, true)
  {
    hide UtteranceClosed, Closed, Growing, Numbered, Chained, Transcripts;
    var typed := p.agreement.Committed();
    BlankMeansNothingShown(fold, p);
    SameLog(p, q);
    assert Faithful(fold, q, typed);
    ClosingCloses(fold, q, typed);
  }

  lemma {:induction false} BlankMeansNothingShown(fold: Casefold, p: Page)
    requires PageInv(false, fold, p)
    ensures Strip(p.committedPrefix + p.agreement.Committed()) == "" ==> Shown(p) == ""
  {
    PlainOpens(p.agreement.committed);
    WordIsNotBlank(p.committedPrefix, p.agreement.Committed());
  }

  lemma {:induction false} ResetIsFresh(a: Agreement)
    ensures AfterReset(a, "") == Fresh(a.window)
  {
    assert Tokenize("") == [];
  }

  lemma {:induction false} ClosingKeepsWindow(fold: Casefold, p: Page, w: string)
    ensures UtteranceClosed(fold, p, w).agreement.window == p.agreement.window
  {
  }

  /** Nothing is committed from a single reading. */
  lemma {:induction false} FirstReadingCommitsNothing(fold: Casefold, window: Window, h: string)
    ensures var (a, r) := AfterUpdate(fold, Fresh(window), h);
            !r.conflict && a.committed == [] && r.stable == ""
  {
    assert SliceTo(Tokenize(h), 0) == [];
    assert Words([]) == [];
  }

  /** So sealing with anything is not a conflict. */
  lemma {:induction false} FreshSealsAnything(fold: Casefold, window: Window, w: string)
    ensures AfterCommitAll(fold, Fresh(window), w).1 == AgreementResult(w, "", false)
  {
    assert SliceTo(Tokenize(w), 0) == [];
    assert Words([]) == [];
    TokenizeRoundTrip(w);
  }

  lemma {:induction false} Reopening(fold: Casefold, p: Page, typed: string, h: string)
    requires PageInv(false, fold, p) && p.lastEmitted.None?
    requires p.windowHypothesis == "" && p.agreement == Fresh(p.agreement.window)
    ensures PageInv(false, fold, Reopened(fold, p, typed, h))
    ensures Grew(p, Reopened(fold, p, typed, h), true)
  {
    var rest := RemainderAfter(typed, h);
    var (agreement, r) := AfterUpdate(fold, p.agreement, rest);
    FirstReadingCommitsNothing(fold, p.agreement.window, rest);
    ShowingNothing(fold, p, agreement, r.partial);
  }

  lemma {:induction false} ShowingNothing(fold: Casefold, p: Page, agreement: Agreement, partial: string)
    requires PageInv(false, fold, p) && p.lastEmitted.None?
    requires p.windowHypothesis == "" && agreement.committed == []
    ensures var p' := Emitted(p.(agreement := agreement), "", partial, false);
            PageInv(false, fold, p') && Grew(p, p', true)
  {
    var q := p.(agreement := agreement);
    NothingIsAnchored(fold, agreement);
    assert Orderly(q) && Log(q) == Log(p) && q.committedPrefix + q.agreement.Committed() == "";
    EmittingCommitted(fold, q, partial);
  }

  /** Carrying the committed text over a cut changes nothing the client sees. */
  lemma {:induction false} Carrying(fold: Casefold, p: Page)
    requires PageInv(false, fold, p) && p.agreement.committed != []
    ensures PageInv(false, fold, Carried(p, p.agreement.Committed()))
    ensures Log(Carried(p, p.agreement.Committed())) == Log(p)
  {
    var committed := p.agreement.Committed();
    var q := Carried(p, committed);
    ResetIsFresh(p.agreement);
    NothingIsAnchored(fold, q.agreement);
    assert Orderly(q) && Log(q) == Log(p) && Shown(q) == Shown(p);
    assert q.committedPrefix + q.agreement.Committed() == p.committedPrefix + committed;
    PrefixOpens(p.committedPrefix, p.agreement.committed);
  }

  lemma {:induction false} PrefixOpens(prefix: string, committed: seq<string>)
    requires (prefix == "" || OpensWithWord(prefix)) && Plain(committed) && committed != []
    ensures OpensWithWord(prefix + Concat(committed))
  {
    PlainOpens(committed);
    assert prefix == "" ==> prefix + Concat(committed) == Concat(committed);
  }

  /** Ending a single-model utterance, with or without a last accurate reading. */
  lemma {:induction false} Finishing(cfg: Settings, fold: Casefold, p: Page, accurate: string)
    requires !cfg.draftMode && PageInv(false, fold, p)
    requires accurate == "" || OpensWithWord(accurate)
    ensures Closed(Finished(cfg, fold, p, accurate))
    ensures Grew(p, Finished(cfg, fold, p, accurate), accurate == "" || Faithful(fold, p, accurate))
  {
    if accurate != "" {
      WordIsNotBlank(p.committedPrefix, accurate);
      ClosingCloses(fold, p.(windowHypothesis := accurate), accurate);
    } else {
      FinishingOnLastReading(cfg, fold, p);
    }
  }

  lemma {:induction false} FinishingOnLastReading(cfg: Settings, fold: Casefold, p: Page)
    requires !cfg.draftMode && PageInv(false, fold, p)
    ensures Closed(Finished(cfg, fold, p, ""))
    ensures Grew(p, Finished(cfg, fold, p, ""), true)
  {
    var w := if p.windowHypothesis != "" then p.windowHypothesis else p.agreement.Committed();
    assert Faithful(fold, p, w);
    WordIsNotBlank(p.committedPrefix, w);
    ClosingCloses(fold, p, w);
  }

  // ---- The same with a draft model ----

  lemma {:induction false} ShowingADraft(fold: Casefold, p: Page, h: string)
    requires PageInv(true, fold, p)
    ensures PageInv(true, fold, DraftShown(fold, p, h))
    ensures Grew(p, DraftShown(fold, p, h), true)
  {
    EmittingADraft(fold, p, DraftFolded(fold, p.agreement, h), h);
  }

  /** Whatever the draft readings agreed on. */
  lemma {:induction false} EmittingADraft(fold: Casefold, p: Page, agreement: Agreement, h: string)
    requires PageInv(true, fold, p)
    ensures var p' := Emitted(p.(windowHypothesis := h, agreement := agreement), p.committedPrefix, h, false);
            PageInv(true, fold, p') && Grew(p, p', true)
  {
    EmittedIsLogged(p.(windowHypothesis := h, agreement := agreement), p.committedPrefix, h, false);
  }

  lemma {:induction false} CommittingAccurateText(fold: Casefold, p: Page, text: string)
    requires PageInv(true, fold, p) && OpensWithWord(text)
    ensures PageInv(true, fold, AccuratelyCommitted(p, text))
    ensures Grew(p, AccuratelyCommitted(p, text), true)
  {
    var carried := Carried(p, text + " ");
    assert (text + " ")[0] == text[0];
    assert p.committedPrefix == "" ==> carried.committedPrefix == text + " ";
    EmittedIsLogged(carried, carried.committedPrefix, "", false);
  }

  lemma {:induction false} FinishingADraft(cfg: Settings, fold: Casefold, p: Page, accurate: string)
    requires cfg.draftMode && PageInv(true, fold, p)
    requires accurate == "" || OpensWithWord(accurate)
    ensures Closed(Finished(cfg, fold, p, accurate))
    ensures Grew(p, Finished(cfg, fold, p, accurate), true)
  {
    var heard := if accurate != "" then p.(windowHypothesis := accurate) else p;
    ResetIsFresh(heard.agreement);
    ClosingADraft(fold, p, heard.(agreement := Fresh(heard.agreement.window)), accurate);
  }

  lemma {:induction false} ClosingADraft(fold: Casefold, p: Page, q: Page, accurate: string)
    requires PageInv(true, fold, p) && (accurate == "" || OpensWithWord(accurate))
    requires q == p.(windowHypothesis := q.windowHypothesis, agreement := q.agreement)
    requires q.agreement.committed == []
    ensures Closed(UtteranceClosed(fold, q, accurate))
    ensures Grew(p, UtteranceClosed(fold, q, accurate), true)
  {
    assert Orderly(q) && Log(q) == Log(p);
    assert q.committedPrefix + q.agreement.Committed() == q.committedPrefix;
    WordIsNotBlank(p.committedPrefix, accurate);
    assert Faithful(fold, q, accurate);
    ClosingCloses(fold, q, accurate);
  }

  // ---- Steps of the session ----

  predicate Inv(cfg: Settings, env: Environment, s: Session) {
    PageInv(cfg.draftMode, env.fold, s.page)
  }

  /** Nothing happened to the page but, at most, a reported error. */
  predicate Quiet(p: Page, p': Page) {
    p' == p.(events := p'.events) && Log(p') == Log(p)
  }

  lemma {:induction false} QuietKeepsPage(draftMode: bool, fold: Casefold, p: Page, p': Page)
    requires Quiet(p, p')
    ensures PageInv(draftMode, fold, p') <==> PageInv(draftMode, fold, p)
  {
  }

  /** What arrives never touches the page. */
  lemma {:induction false} InputsLeaveThePage(env: Environment, s: Session, inputs: seq<Input>)
    ensures AfterInputs(env, s, inputs).page == s.page
    ensures AfterInputs(env, s, inputs).decodes == s.decodes
    ensures AfterInputs(env, s, inputs).nextDraftCompaction == s.nextDraftCompaction
  {
    if inputs != [] {
      InputsLeaveThePage(env, s, inputs[..|inputs| - 1]);
    }
  }

  lemma {:induction false} AnsweringIsQuiet(stitch: Stitcher, s: Session, prompt: string, answer: Answer, offset: int)
    ensures Quiet(s.page, Answered(stitch, s, prompt, answer, offset).0.page)
  {
    ReportedIsQuiet(s.page, InferenceFailed);
    ReportedIsQuiet(s.page, InternalError);
  }

  lemma {:induction false} ExchangeIsQuiet(env: Environment, s: Session, clip: seq<Audio.Byte>, offset: int, byDraft: bool)
    ensures Quiet(s.page, Exchanged(env, s, clip, offset, byDraft).0.page)
  {
    var s1 := AfterInputs(env, s.(decodes := s.decodes + 1), env.arrivals(s.decodes));
    InputsLeaveThePage(env, s.(decodes := s.decodes + 1), env.arrivals(s.decodes));
    AnsweringIsQuiet(env.stitch, s1, s.page.prompt,
                     AnswerOf(env, s.decodes, clip, s.page.prompt, byDraft), offset);
  }

  lemma {:induction false} DecodingIsQuiet(cfg: Settings, env: Environment, s: Session, pcm: seq<Audio.Byte>, byDraft: bool)
    ensures Quiet(s.page, Decoded(cfg, env, s, pcm, byDraft).0.page)
  {
    var (clip, offset) := OnlyTheSpeech(cfg, s.silence, pcm);
    ExchangeIsQuiet(env, s, clip, offset, byDraft);
  }

  /** Whether what a decode said contradicts or extends what was committed when it answered. */
  predicate ReplyFaithful(fold: Casefold, p: Page, reply: Reply) {
    reply.Aborted? || Said(reply) == "" || Faithful(fold, p, Said(reply))
  }

  predicate PassFaithful(cfg: Settings, env: Environment, s: Session) {
    var (s1, reply) := PassDecoded(cfg, env, s);
    ReplyFaithful(env.fold, s1.page, reply)
  }

  predicate FinalFaithful(cfg: Settings, env: Environment, s: Session) {
    var (s1, reply) := FinalDecoded(cfg, env, s);
    ReplyFaithful(env.fold, s1.page, reply)
  }

  lemma {:induction false} TrimmingIsInvisible(cfg: Settings, fold: Casefold, s: Session, words: seq<Word>)
    requires PageInv(false, fold, s.page)
    ensures PageInv(false, fold, Trimmed(cfg, s, words).page)
    ensures Log(Trimmed(cfg, s, words).page) == Log(s.page)
  {
    if s.page.agreement.committed == [] {
      WordIsNotBlank("", "");
    } else {
      Carrying(fold, s.page);
    }
  }

  lemma {:induction false} DigestingKeepsInv(cfg: Settings, fold: Casefold, s: Session, h: string, words: seq<Word>)
    requires PageInv(false, fold, s.page) && OpensWithWord(h)
    ensures PageInv(false, fold, Digested(cfg, fold, s, h, words).page)
    ensures Grew(s.page, Digested(cfg, fold, s, h, words).page, Faithful(fold, s.page, h))
  {
    if Conflicts(fold, s.page, h) {
      var typed := s.page.agreement.Committed();
      Rotating(fold, s.page, h);
      Reopening(fold, Rotated(fold, s.page, h), typed, h);
    } else {
      ShowingAReading(fold, s.page, h);
      TrimmingIsInvisible(cfg, fold, s.(page := ReadingShown(fold, s.page, h)), words);
    }
  }

  lemma {:induction false} CommittingAccurateWords(fold: Casefold, s: Session, words: seq<Word>, limit: int, window: nat)
    requires PageInv(true, fold, s.page)
    ensures PageInv(true, fold, Compacted(s, words, limit, window).page)
    ensures Grew(s.page, Compacted(s, words, limit, window).page, true)
  {
    var text := Strip(Spoken(EndingBy(words, limit)));
    StrippedOpens(Spoken(EndingBy(words, limit)));
    if text != "" {
      CommittingAccurateText(fold, s.page, text);
    }
  }

  lemma {:induction false} CompactingOnKeepsInv(cfg: Settings, fold: Casefold, s: Session, reply: Reply, window: nat)
    requires PageInv(true, fold, s.page)
    ensures PageInv(true, fold, CompactedOn(cfg, s, reply, window).s.page)
    ensures Grew(s.page, CompactedOn(cfg, s, reply, window).s.page, true)
  {
    hide PageInv, Growing, Transcripts, Compacted;
    var limit := window - CompactionTail(cfg);
    match reply
    case Aborted =>
    case Nothing =>
      CommittingAccurateWords(fold, s, [], limit, window);
      assert CompactedOn(cfg, s, reply, window).s.page == Compacted(s, [], limit, window).page;
    case Result(_, words) =>
      CommittingAccurateWords(fold, s, words, limit, window);
      assert CompactedOn(cfg, s, reply, window).s.page == Compacted(s, words, limit, window).page;
  }

  lemma {:induction false} CompactingKeepsInv(cfg: Settings, env: Environment, s: Session)
    requires PageInv(true, env.fold, s.page)
    ensures PageInv(true, env.fold, DraftWindowCompacted(cfg, env, s).s.page)
    ensures Grew(s.page, DraftWindowCompacted(cfg, env, s).s.page, true)
  {
    var (s1, reply) := Decoded(cfg, env, s, s.buffer.data, false);
    DecodingIsQuiet(cfg, env, s, s.buffer.data, false);
    QuietKeepsPage(true, env.fold, s.page, s1.page);
    CompactingOnKeepsInv(cfg, env.fold, s1, reply, s.buffer.Samples());
  }

  lemma {:induction false} PassingOnKeepsInv(cfg: Settings, env: Environment, s: Session, reply: Reply)
    requires Inv(cfg, env, s)
    ensures Inv(cfg, env, PassedOn(cfg, env, s, reply).s)
    ensures Grew(s.page, PassedOn(cfg, env, s, reply).s.page, cfg.draftMode || ReplyFaithful(env.fold, s.page, reply))
  {
    if reply.Result? && Said(reply) != "" {
      StrippedOpens(reply.text);
      if cfg.draftMode {
        ShowingADraft(env.fold, s.page, Said(reply));
        CompactingKeepsInv(cfg, env, s.(page := DraftShown(env.fold, s.page, Said(reply))));
      } else {
        DigestingKeepsInv(cfg, env.fold, s, Said(reply), reply.words);
      }
    }
  }

  lemma {:induction false} PassKeepsInv(cfg: Settings, env: Environment, s: Session)
    requires Inv(cfg, env, s)
    ensures Inv(cfg, env, IncrementallyDecoded(cfg, env, s).s)
    ensures Grew(s.page, IncrementallyDecoded(cfg, env, s).s.page, cfg.draftMode || PassFaithful(cfg, env, s))
  {
    var (s1, reply) := PassDecoded(cfg, env, s);
    DecodingIsQuiet(cfg, env, s.(buffer := Audio.AfterMarkDecoded(s.buffer)), s.buffer.data, cfg.draftMode);
    QuietKeepsPage(cfg.draftMode, env.fold, s.page, s1.page);
    PassingOnKeepsInv(cfg, env, s1, reply);
  }

  lemma {:induction false} FinalizingOnKeepsInv(cfg: Settings, fold: Casefold, s: Session, reply: Reply)
    requires PageInv(cfg.draftMode, fold, s.page)
    ensures PageInv(cfg.draftMode, fold, FinalizedOn(cfg, fold, s, reply).s.page)
    ensures Grew(s.page, FinalizedOn(cfg, fold, s, reply).s.page, cfg.draftMode || ReplyFaithful(fold, s.page, reply))
  {
    if !reply.Aborted? {
      if reply.Result? {
        StrippedOpens(reply.text);
      }
      if cfg.draftMode {
        FinishingADraft(cfg, fold, s.page, Said(reply));
      } else {
        Finishing(cfg, fold, s.page, Said(reply));
      }
      NextKeepsPage(cfg.draftMode, fold, Finished(cfg, fold, s.page, Said(reply)));
    }
  }

  lemma {:induction false} FinalizingKeepsInv(cfg: Settings, env: Environment, s: Session)
    requires Inv(cfg, env, s)
    ensures Inv(cfg, env, Finalized(cfg, env, s).s)
    ensures Grew(s.page, Finalized(cfg, env, s).s.page, cfg.draftMode || FinalFaithful(cfg, env, s))
  {
    var (s1, reply) := FinalDecoded(cfg, env, s);
    DecodingIsQuiet(cfg, env, s.(buffer := Audio.AfterMarkDecoded(s.buffer)), s.buffer.data, false);
    QuietKeepsPage(cfg.draftMode, env.fold, s.page, s1.page);
    FinalizingOnKeepsInv(cfg, env.fold, s1, reply);
  }

  lemma {:induction false} CappingKeepsInv(cfg: Settings, env: Environment, s: Session)
    requires Inv(cfg, env, s)
    ensures var capped := s.(page := Reported(s.page, UtteranceTooLong));
            && Inv(cfg, env, Finalized(cfg, env, capped).s)
            && Grew(s.page, Finalized(cfg, env, capped).s.page, cfg.draftMode || FinalFaithful(cfg, env, capped))
  {
    var capped := s.(page := Reported(s.page, UtteranceTooLong));
    ReportedIsQuiet(s.page, UtteranceTooLong);
    QuietKeepsPage(cfg.draftMode, env.fold, s.page, capped.page);
    FinalizingKeepsInv(cfg, env, capped);
  }

  /** Whether the decode of this step, if there is one, contradicts or extends what is committed. */
  predicate StepFaithful(cfg: Settings, env: Environment, s: Session) {
    match Chosen(cfg, s)
    case Idle => true
    case PreRoll => PreRolled(cfg, s).hands.flushRequested ==> FinalFaithful(cfg, env, PreRolled(cfg, s))
    case TooLong => FinalFaithful(cfg, env, s.(page := Reported(s.page, UtteranceTooLong)))
    case Flushing => FinalFaithful(cfg, env, s)
    case Silence => FinalFaithful(cfg, env, s)
    case Pass => PassFaithful(cfg, env, s)
  }

  lemma {:induction false} StepKeepsInv(cfg: Settings, env: Environment, s: Session)
    requires Inv(cfg, env, s)
    ensures Inv(cfg, env, Stepped(cfg, env, s).0)
    ensures Grew(s.page, Stepped(cfg, env, s).0.page, cfg.draftMode || StepFaithful(cfg, env, s))
  {
    var p' := Stepped(cfg, env, s).0.page;
    match Chosen(cfg, s)
    case Idle =>
    case PreRoll =>
      FinalizingKeepsInv(cfg, env, PreRolled(cfg, s));
      assert p' == s.page || p' == Finalized(cfg, env, PreRolled(cfg, s)).s.page;
    case TooLong =>
      CappingKeepsInv(cfg, env, s);
      assert p' == Finalized(cfg, env, s.(page := Reported(s.page, UtteranceTooLong))).s.page;
    case Flushing =>
      FinalizingKeepsInv(cfg, env, s);
      assert p' == Finalized(cfg, env, s).s.page;
    case Silence =>
      FinalizingKeepsInv(cfg, env, s);
    case Pass =>
      PassKeepsInv(cfg, env, s);
  }

  // ---- Runs ----

  /** Every step of a round's inner loop. */
  predicate DrainFaithful(cfg: Settings, env: Environment, s: Session)
    decreases |s.buffer.data|
  {
    var (s1, more) := Stepped(cfg, env, s);
    && StepFaithful(cfg, env, s)
    && (more && !s1.hands.closing ==>
          (MoreMeansEmptied(cfg, env, s); DrainFaithful(cfg, env, s1)))
  }

  lemma {:induction false} DrainKeepsInv(cfg: Settings, env: Environment, s: Session)
    requires Inv(cfg, env, s)
    ensures Inv(cfg, env, Drained(cfg, env, s))
    ensures Grew(s.page, Drained(cfg, env, s).page, cfg.draftMode || DrainFaithful(cfg, env, s))
    decreases |s.buffer.data|
  {
    var (s1, more) := Stepped(cfg, env, s);
    StepKeepsInv(cfg, env, s);
    if more && !s1.hands.closing {
      MoreMeansEmptied(cfg, env, s);
      DrainKeepsInv(cfg, env, s1);
    }
  }

  /** Every decode pass of a run contradicts what is committed, or differs from it in case, or extends it. */
  predicate EveryPassFaithful(cfg: Settings, env: Environment, s: Session, schedule: seq<Action>) {
    schedule != [] ==>
      var before := Ran(cfg, env, s, schedule[..|schedule| - 1]);
      && EveryPassFaithful(cfg, env, s, schedule[..|schedule| - 1])
      && (schedule[|schedule| - 1] == Round && before.hands.alive && !before.hands.closing && before.hands.wake ==>
            DrainFaithful(cfg, env, before.(hands := before.hands.(wake := false))))
  }

  lemma {:induction false} ActionKeepsInv(cfg: Settings, env: Environment, s: Session, action: Action)
    requires Inv(cfg, env, s)
    ensures Inv(cfg, env, Acted(cfg, env, s, action))
    ensures Grew(s.page, Acted(cfg, env, s, action).page,
                 cfg.draftMode ||
                 (action == Round && s.hands.alive && !s.hands.closing && s.hands.wake ==>
                    DrainFaithful(cfg, env, s.(hands := s.hands.(wake := false)))))
  {
    match action
    case Arrive(input) =>
      assert AfterInput(env, s, input).page == s.page;
    case Round =>
      if s.hands.alive && !s.hands.closing && s.hands.wake {
        DrainKeepsInv(cfg, env, s.(hands := s.hands.(wake := false)));
      }
  }

  lemma {:induction false} RunKeepsInv(cfg: Settings, env: Environment, s: Session, schedule: seq<Action>)
    requires Inv(cfg, env, s)
    ensures Inv(cfg, env, Ran(cfg, env, s, schedule))
    ensures Grew(s.page, Ran(cfg, env, s, schedule).page,
                 cfg.draftMode || EveryPassFaithful(cfg, env, s, schedule))
  {
    if schedule != [] {
      var init := schedule[..|schedule| - 1];
      RunKeepsInv(cfg, env, s, init);
      ActionKeepsInv(cfg, env, Ran(cfg, env, s, init), schedule[|schedule| - 1]);
    }
  }

  /** The transcripts of a whole run from a fresh session. */
  function RunLog(cfg: Settings, env: Environment, detector: Vad.Detector, crossCheck: bool, schedule: seq<Action>)
    : seq<TranscriptEvent>
  {
    Log(Ran(cfg, env, NewSession(cfg, detector, crossCheck), schedule).page)
  }

  /**
   * Any decoder, any interleaving, either mode: revisions are 1, 2, 3, …, a final is terminal, and no
   * utterance that showed committed text is left without its final.
   */
  lemma {:induction false} EveryRunIsOrderly(cfg: Settings, env: Environment, detector: Vad.Detector,
                                             crossCheck: bool, schedule: seq<Action>)
    ensures var ts := RunLog(cfg, env, detector, crossCheck, schedule);
            Numbered(ts) && Chained(ts)
  {
    FreshPage(cfg.draftMode, env.fold, cfg.agreementWindow);
    RunKeepsInv(cfg, env, NewSession(cfg, detector, crossCheck), schedule);
  }

  /** With a draft model `stable` is append-only, whatever either model says. */
  lemma {:induction false} DraftRunsGrow(cfg: Settings, env: Environment, detector: Vad.Detector,
                                         crossCheck: bool, schedule: seq<Action>)
    requires cfg.draftMode
    ensures Growing(RunLog(cfg, env, detector, crossCheck, schedule))
  {
    FreshPage(cfg.draftMode, env.fold, cfg.agreementWindow);
    RunKeepsInv(cfg, env, NewSession(cfg, detector, crossCheck), schedule);
  }

  /**
   * With a single model it is append-only exactly when every pass that does not contradict what is
   * committed repeats it literally or differs from it in case.
   */
  lemma {:induction false} SingleModelGrowsIff(cfg: Settings, env: Environment, detector: Vad.Detector,
                                               crossCheck: bool, schedule: seq<Action>)
    requires !cfg.draftMode
    ensures Growing(RunLog(cfg, env, detector, crossCheck, schedule)) <==>
            EveryPassFaithful(cfg, env, NewSession(cfg, detector, crossCheck), schedule)
  {
    FreshPage(cfg.draftMode, env.fold, cfg.agreementWindow);
    RunKeepsInv(cfg, env, NewSession(cfg, detector, crossCheck), schedule);
  }
}
