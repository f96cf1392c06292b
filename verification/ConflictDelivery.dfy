/** What the events of a contradiction deliver (server/app/streaming/session.py, `_close_utterance` and rotation). */
module ConflictDelivery {
  import opened Basics
  import opened LocalAgreementPolicy
  import opened SessionModel
  import opened SessionSafety
  import opened Text
  import opened Tokens

  /** Emitting something new adds exactly its event. */
  lemma {:induction false} EmittingAdds(p: Page, stable: string, partial: string, final: bool)
    requires final || p.lastEmitted != Some((stable, partial))
    ensures Emitted(p, stable, partial, final).events
         == p.events + [Transcript(p.utterance, p.revision + 1, stable, partial, final)]
  {
  }

  /** The transcripts with which a contradicting reading closes an utterance: the final, and the final of the rest. */
  function ClosingEvents(p: Page, typed: string, rest: string): seq<Event> {
    OneOrTwo(FinalAt(p, typed), FinalOfRest(p, rest), Strip(rest) != "")
  }

  function FinalAt(p: Page, typed: string): Event {
    Transcript(p.utterance, p.revision + 1, p.committedPrefix + typed, "", true)
  }

  function FinalOfRest(p: Page, rest: string): Event {
    Transcript(p.utterance + 1, p.revision + 2, rest, "", true)
  }

  function OneOrTwo<T>(x: T, y: T, both: bool): seq<T> {
    if both then [x, y] else [x]
  }

  lemma {:induction false} OneThenAnother<T>(s: seq<T>, x: T, y: T, both: bool)
    ensures s + OneOrTwo(x, y, both) == if both then s + [x] + [y] else s + [x]
  {
  }

  /** The page on which a contradicting reading leaves an utterance, before the rest of the reading. */
  function SealedAt(p: Page, typed: string): Page {
    NextUtterance(Emitted(p, p.committedPrefix + typed, "", true))
  }

  lemma {:induction false} SealingAdds(p: Page, typed: string)
    ensures var sealed := SealedAt(p, typed);
            && sealed.events == p.events + [FinalAt(p, typed)]
            && sealed.utterance == p.utterance + 1 && sealed.revision == p.revision + 1
            && sealed.agreement == Fresh(p.agreement.window) && sealed.lastEmitted == None
  {
    EmittingAdds(p, p.committedPrefix + typed, "", true);
    ResetIsFresh(p.agreement);
  }

  lemma {:induction false} RestAdds(fold: Casefold, sealed: Page, rest: string)
    requires sealed.agreement == Fresh(sealed.agreement.window)
    ensures var (agreement, r) := AfterCommitAll(fold, sealed.agreement, rest);
            Emitted(sealed.(agreement := agreement), r.stable, "", true).events
            == sealed.events + [Transcript(sealed.utterance, sealed.revision + 1, rest, "", true)]
  {
    var (agreement, r) := AfterCommitAll(fold, sealed.agreement, rest);
    FreshSealsAnything(fold, sealed.agreement.window, rest);
    EmittingAdds(sealed.(agreement := agreement), r.stable, "", true);
  }

  lemma {:induction false} ClosingInTwo(fold: Casefold, p: Page, windowText: string)
    requires Strip(p.committedPrefix + windowText) != "" && AfterCommitAll(fold, p.agreement, windowText).1.conflict
    ensures var sealed := SealedAt(p, p.agreement.Committed());
            var rest := RemainderAfter(p.agreement.Committed(), windowText);
            var (agreement, r) := AfterCommitAll(fold, sealed.agreement, rest);
            UtteranceClosed(fold, p, windowText) ==
              if Strip(rest) == "" then sealed else Emitted(sealed.(agreement := agreement), r.stable, "", true)
  {
  }

  /**
   * Closing on a contradicting reading seals exactly what the user has, and then delivers, as an utterance of its
   * own, exactly the tokens of the reading past those: none of them twice, none dropped.
   */
  lemma {:induction false} ConflictIsDelivered(fold: Casefold, p: Page, windowText: string)
    requires Strip(p.committedPrefix + windowText) != "" && AfterCommitAll(fold, p.agreement, windowText).1.conflict
    ensures var typed := p.agreement.Committed();
            var rest := RemainderAfter(typed, windowText);
            && UtteranceClosed(fold, p, windowText).events == p.events + ClosingEvents(p, typed, rest)
            && Tokenize(rest) == SliceFrom(Tokenize(windowText), |Tokenize(typed)|)
  {
    var typed := p.agreement.Committed();
    var rest := RemainderAfter(typed, windowText);
    RemainderDelivers(typed, windowText);
    ClosingInTwo(fold, p, windowText);
    SealedThenRest(fold, p, UtteranceClosed(fold, p, windowText), typed, rest);
  }

  lemma {:induction false} SealedThenRest(fold: Casefold, p: Page, closed: Page, typed: string, rest: string)
    requires var sealed := SealedAt(p, typed);
             var (agreement, r) := AfterCommitAll(fold, sealed.agreement, rest);
             closed == if Strip(rest) == "" then sealed else Emitted(sealed.(agreement := agreement), r.stable, "", true)
    ensures closed.events == p.events + ClosingEvents(p, typed, rest)
  {
    hide AfterCommitAll, SealedAt, Emitted;
    var sealed := SealedAt(p, typed);
    SealingAdds(p, typed);
    OneThenAnother(p.events, FinalAt(p, typed), FinalOfRest(p, rest), Strip(rest) != "");
    if Strip(rest) != "" {
      RestAdds(fold, sealed, rest);
    }
  }

  /**
   * Reopening after a rotation shows, as the partial of the next utterance, exactly the tokens of the reading past
   * those the user has.
   */
  lemma {:induction false} ReopeningIsDelivered(fold: Casefold, p: Page, typed: string, reading: string)
    requires p.lastEmitted.None? && p.agreement == Fresh(p.agreement.window)
    ensures var rest := RemainderAfter(typed, reading);
            && Reopened(fold, p, typed, reading).events == p.events + [Transcript(p.utterance, p.revision + 1, "", rest, false)]
            && Tokenize(rest) == SliceFrom(Tokenize(reading), |Tokenize(typed)|)
  {
    RemainderDelivers(typed, reading);
    ReopenedIs(fold, p, typed, reading);
    EmittingAdds(p.(agreement := AfterUpdate(fold, p.agreement, RemainderAfter(typed, reading)).0), "",
                 RemainderAfter(typed, reading), false);
  }

  lemma {:induction false} ReopenedIs(fold: Casefold, p: Page, typed: string, reading: string)
    requires p.agreement == Fresh(p.agreement.window)
    ensures var rest := RemainderAfter(typed, reading);
            Reopened(fold, p, typed, reading)
            == Emitted(p.(agreement := AfterUpdate(fold, p.agreement, rest).0), "", rest, false)
  {
    FirstReadingIsShown(fold, p.agreement.window, RemainderAfter(typed, reading));
  }

  lemma {:induction false} FirstReadingIsShown(fold: Casefold, window: Window, h: string)
    ensures AfterUpdate(fold, Fresh(window), h).1 == AgreementResult("", h, false)
  {
    FirstReadingCommitsNothing(fold, window, h);
    assert SliceTo(Tokenize(h), 0) == [] && Words([]) == [];
    StablePlusPartial(fold, Fresh(window), h);
    assert "" + AfterUpdate(fold, Fresh(window), h).1.partial == AfterUpdate(fold, Fresh(window), h).1.partial;
  }

  /**
   * A whole rotation, without timings to cut on: the utterance is closed at exactly what was shown, and a later one
   * opens with the rest of the reading.
   */
  lemma {:induction false} RotationIsDelivered(fold: Casefold, p: Page, reading: string)
    requires PageInv(false, fold, p) && Conflicts(fold, p, reading)
    ensures var typed := p.agreement.Committed();
            var rest := RemainderAfter(typed, reading);
            var rotated := Rotated(fold, p, reading);
            && p.utterance < rotated.utterance
            && Reopened(fold, rotated, typed, reading).events
               == p.events + [FinalAt(p, typed), Transcript(rotated.utterance, p.revision + 2, "", rest, false)]
            && Tokenize(rest) == SliceFrom(Tokenize(reading), |Tokenize(typed)|)
  {
    var typed := p.agreement.Committed();
    var rotated := Rotated(fold, p, reading);
    RotationSeals(fold, p, reading);
    RotatedIsFresh(fold, p, reading);
    ReopeningIsDelivered(fold, rotated, typed, reading);
    OneThenAnother(p.events, FinalAt(p, typed),
                   Transcript(rotated.utterance, p.revision + 2, "", RemainderAfter(typed, reading), false), true);
  }

  lemma {:induction false} RotatedIsFresh(fold: Casefold, p: Page, reading: string)
    requires PageInv(false, fold, p) && Conflicts(fold, p, reading)
    ensures var p' := Rotated(fold, p, reading); p'.lastEmitted.None? && p'.agreement == Fresh(p'.agreement.window)
  {
    Rotating(fold, p, reading);
  }

  /** Closing at what is committed leaves nothing over, and there is something to close. */
  lemma {:induction false} RotationSeals(fold: Casefold, p: Page, reading: string)
    requires PageInv(false, fold, p) && Conflicts(fold, p, reading)
    ensures var p' := Rotated(fold, p, reading);
            && p'.events == p.events + [FinalAt(p, p.agreement.Committed())]
            && p.utterance < p'.utterance && p'.revision == p.revision + 1
  {
    var contradicted := p.(windowHypothesis := reading, agreement := AfterUpdate(fold, p.agreement, reading).0);
    ConflictKeepsCommitment(fold, p.agreement, reading);
    BlankIsNotCommitted(fold, p);
    ClosingAtCommitted(fold, contradicted);
    NextAdds(UtteranceClosed(fold, contradicted, p.agreement.Committed()));
    RotatedIs(fold, p, contradicted, reading);
  }

  lemma {:induction false} RotatedIs(fold: Casefold, p: Page, contradicted: Page, reading: string)
    requires contradicted == p.(windowHypothesis := reading, agreement := AfterUpdate(fold, p.agreement, reading).0)
    ensures Rotated(fold, p, reading)
         == NextUtterance(UtteranceClosed(fold, contradicted, p.agreement.Committed())).(windowHypothesis := "")
    ensures contradicted.events == p.events
  {
  }

  lemma {:induction false} NextAdds(p: Page)
    ensures var p' := NextUtterance(p).(windowHypothesis := "");
            p'.events == p.events && p'.utterance == p.utterance + 1 && p'.revision == p.revision
  {
  }

  lemma {:induction false} BlankIsNotCommitted(fold: Casefold, p: Page)
    requires PageInv(false, fold, p) && p.agreement.committed != []
    ensures Strip(p.committedPrefix + p.agreement.Committed()) != ""
  {
    PlainOpens(p.agreement.committed);
    WordIsNotBlank(p.committedPrefix, p.agreement.Committed());
  }

  /** Closing at the committed text itself, whether or not its tokens are those it is made of. */
  lemma {:induction false} ClosingAtCommitted(fold: Casefold, p: Page)
    requires Strip(p.committedPrefix + p.agreement.Committed()) != "" && Plain(p.agreement.committed)
    ensures var p' := UtteranceClosed(fold, p, p.agreement.Committed());
            && p'.events == p.events + [FinalAt(p, p.agreement.Committed())]
            && p.utterance <= p'.utterance && p'.revision == p.revision + 1
  {
    var typed := p.agreement.Committed();
    if AfterCommitAll(fold, p.agreement, typed).1.conflict {
      ClosingInTwo(fold, p, typed);
      NothingAfterItself(typed);
      SealingAdds(p, typed);
    } else {
      SealingTheCommitted(fold, p.agreement);
      ClosingInOne(fold, p, typed);
      ClosedAtOnce(p, AfterCommitAll(fold, p.agreement, typed).0, typed);
    }
  }

  lemma {:induction false} ClosingInOne(fold: Casefold, p: Page, windowText: string)
    requires Strip(p.committedPrefix + windowText) != "" && !AfterCommitAll(fold, p.agreement, windowText).1.conflict
    ensures var (agreement, r) := AfterCommitAll(fold, p.agreement, windowText);
            UtteranceClosed(fold, p, windowText) == Emitted(p.(agreement := agreement), p.committedPrefix + r.stable, "", true)
  {
  }

  lemma {:induction false} ClosedAtOnce(p: Page, agreement: Agreement, typed: string)
    ensures var p' := Emitted(p.(agreement := agreement), p.committedPrefix + typed, "", true);
            && p'.events == p.events + [FinalAt(p, typed)]
            && p'.utterance == p.utterance && p'.revision == p.revision + 1
  {
    EmittingAdds(p.(agreement := agreement), p.committedPrefix + typed, "", true);
  }

  lemma {:induction false} NothingAfterItself(typed: string)
    ensures RemainderAfter(typed, typed) == "" && Strip(RemainderAfter(typed, typed)) == ""
  {
    assert SliceFrom(Tokenize(typed), |Tokenize(typed)|) == [];
    StripBlank("");
  }

  lemma {:induction false} SealingTheCommitted(fold: Casefold, a: Agreement)
    requires Plain(a.committed) && !AfterCommitAll(fold, a, a.Committed()).1.conflict
    ensures AfterCommitAll(fold, a, a.Committed()).1.stable == a.Committed()
  {
    var tokens := Tokenize(a.Committed());
    TokenizeRoundTrip(a.Committed());
    if StandingOf(fold, a.committed, tokens) == Recases {
      NoMoreTokens(a.committed);
      assert |SliceTo(tokens, |a.committed|)| == |a.committed|;
      assert a.committed + SliceFrom(tokens, |a.committed|) == a.committed;
    }
  }

  /** Joining tokens can glue some together, never split one. */
  lemma {:induction false} NoMoreTokens(ts: seq<string>)
    requires Plain(ts)
    ensures |Tokenize(Concat(ts))| <= |ts|
    decreases |ts|
  {
    if WellFormed(ts) {
      RetokenizeWellFormed(ts);
    } else {
      var i :| 0 <= i < |ts| - 1 && !EndsInSpace(ts[i]);
      var glued := ts[..i] + [ts[i] + ts[i + 1]] + ts[i + 2..];
      GluedIsToken(ts[i], ts[i + 1]);
      ConcatGlued(ts, i);
      NoMoreTokens(glued);
    }
  }

  lemma {:induction false} GluedIsToken(s: string, t: string)
    requires IsToken(s) && !EndsInSpace(s) && IsToken(t)
    ensures IsToken(s + t)
  {
    TokenParts(s);
    TokenParts(t);
    assert Gap(s) == "";
    assert s == Tokens.Word(s) + "" == Tokens.Word(s);
    assert s + t == (s + Tokens.Word(t)) + Gap(t);
    SampleToken(s + Tokens.Word(t), Gap(t));
  }

  lemma {:induction false} ConcatGlued(ts: seq<string>, i: nat)
    requires i < |ts| - 1
    ensures Concat(ts[..i] + [ts[i] + ts[i + 1]] + ts[i + 2..]) == Concat(ts)
  {
    var a, b := ts[..i], ts[i + 2..];
    assert ts == a + ([ts[i], ts[i + 1]] + b);
    assert a + [ts[i] + ts[i + 1]] + b == a + ([ts[i] + ts[i + 1]] + b);
    ConcatAppend(a, [ts[i], ts[i + 1]] + b);
    ConcatAppend(a, [ts[i] + ts[i + 1]] + b);
    ConcatCons(ts[i], [ts[i + 1]] + b);
    ConcatCons(ts[i + 1], b);
    ConcatCons(ts[i] + ts[i + 1], b);
    assert [ts[i], ts[i + 1]] + b == [ts[i]] + ([ts[i + 1]] + b);
    assert ts[i] + (ts[i + 1] + Concat(b)) == ts[i] + ts[i + 1] + Concat(b);
  }
}
