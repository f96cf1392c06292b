/** What starting, dropping and finishing a session does to the text at the cursor (client/internal/input/composer.go). */
module SessionEnds {
  import opened ComposerModel
  import opened EndToEnd
  import EventLog
  import opened FakePlatformModel
  import K = Keystroke
  import S = OnScreen

  // ---- Dropping the partial ----

  /**
   * Whatever fails, every committed character stays. When there is a composition and cancelling it succeeds, the mark
   * is gone and the utterance given up; when cancelling fails, the utterance stays current.
   */
  lemma {:induction false} DroppingKeepsText(faults: Faults, d: Desk)
    ensures var (d', ok) := PartialDropped(faults, d);
            && d'.p.committed == d.p.committed && d'.c.lastRevision == d.c.lastRevision
            && (ok <==> !d.c.composing || !faults(d.p.calls))
            && !d'.c.composing
            && (!d.c.composing ==> d' == d)
            && (d.c.composing && ok ==> d'.p.marked == "" && !d'.p.composing && GivenUp(d, d'))
            && (!ok ==> d'.p == d.p.(calls := d.p.calls + 1) && d'.c == d.c.(composing := false))
  {
  }

  /** The utterance that was current is never taken up again. */
  predicate GivenUp(d: Desk, d': Desk) {
    d'.c.abandoned == d.c.utteranceId && d'.c.utteranceId == "" && d'.c.committed == ""
  }

  /** No event of an abandoned utterance, whatever it says and whatever fails, touches the document or the mark again. */
  lemma {:induction false} AbandonedStaysSilent(faults: Faults, d: Desk, es: seq<Transcript>)
    requires d.c.abandoned != "" && forall i :: 0 <= i < |es| ==> es[i].utteranceId == d.c.abandoned
    ensures var d' := AppliedAll(faults, d, es);
            && d'.p == d.p
            && d'.c == d.c.(lastRevision := d'.c.lastRevision, staleDiscarded := d.c.staleDiscarded + |es|)
            && forall o :: o in Outcomes(faults, d, es) ==> o == Stale
  {
    if es != [] {
      AbandonedStaysSilent(faults, d, es[..|es| - 1]);
    }
  }

  /** A retraction drops the mark, keeps the text, and gives the utterance up, even when cancelling fails. */
  lemma {:induction false} RetractionKeepsText(faults: Faults, d: Desk, e: Transcript)
    requires Applied(faults, d, e).1 == PrefixChanged
    ensures var d' := Applied(faults, d, e).0;
            && e.utteranceId == d.c.utteranceId && !(d.c.committed <= e.stable)
            && d'.p.committed == d.p.committed
            && d'.c.abandoned == e.utteranceId && d'.c.utteranceId == "" && d'.c.committed == "" && d'.c.lastRevision == e.revision
            && (d.c.composing && !faults(d.p.calls) ==> d'.p.marked == "" && !d'.p.composing)
  {
    assert Entered(faults, d, e).0.c.committed == "" || Entered(faults, d, e).0 == d;
  }

  // ---- Finishing ----

  /** There is text of this utterance in the document, and it does not end in a gap. */
  predicate WantsSeparator(c: Composer) {
    c.wrote && !EndsInGap(c.committed)
  }

  /**
   * With nothing failing: what was marked becomes text, nothing else is typed, and the utterance is given up. A separator
   * is called for only once the composition has ended, where the text field refuses it: that is the one way to fail.
   */
  lemma {:induction false} FinishKeepsTheMark(d: Desk)
    requires d.p.composing == d.c.composing
    ensures var (d', ok) := Finished(NO_FAULTS, d);
            && d'.p.committed == d.p.committed + (if d.c.composing then d.p.marked else "")
            && !d'.p.composing && !d'.c.composing && !d'.c.wrote && GivenUp(d, d')
            && (d.c.composing ==> d'.p.marked == "")
            && (ok <==> !WantsSeparator(d.c))
  {
    assert d.p.committed + "" == d.p.committed;
  }

  /** Whatever fails, finishing only adds to the document, and gives the utterance up. */
  lemma {:induction false} FinishOnlyAdds(faults: Faults, d: Desk)
    ensures var d' := Finished(faults, d).0;
            && d'.p.committed in [d.p.committed, d.p.committed + d.p.marked, d.p.committed + UTTERANCE_SEPARATOR,
                                  d.p.committed + d.p.marked + UTTERANCE_SEPARATOR]
            && GivenUp(d, d') && d'.c.lastRevision == d.c.lastRevision
            && (d.c.composing && faults(d.p.calls) ==> !Finished(faults, d).1 && d'.p.committed == d.p.committed)
  {
  }

  /** The calls that finishing makes when none fails, in order. */
  function FinishedCalls(c: Composer): seq<K.Call> {
    S.EndedCalls(c) + S.SeparatedCalls(c)
  }

  /** On screen the separator is typed: what was provisional stays, and the gap follows it. */
  lemma {:induction false} FinishOnScreen(b: K.Board, c: Composer)
    requires c.composing
    ensures S.Played(b, FinishedCalls(c)).screen.text == b.screen.text + (if WantsSeparator(c) then UTTERANCE_SEPARATOR else "")
    ensures S.Played(b, FinishedCalls(c)).marked == "" && !S.Played(b, FinishedCalls(c)).open
  {
    var p := Platform("", "", false, 0);
    var ended := K.Ended(b);
    S.OneCall(b, p, K.End);
    S.CallsInTwo(b, p, [K.End], S.SeparatedCalls(c));
    assert b.screen.text + "" == b.screen.text;
    if WantsSeparator(c) {
      S.OneCall(ended, p, K.Commit(UTTERANCE_SEPARATOR));
      assert K.Made(S.STEADY_KEYS, ended, K.Commit(UTTERANCE_SEPARATOR)).screen.text == b.screen.text + UTTERANCE_SEPARATOR;
    } else {
      S.OneCall(ended, p, K.End);
    }
  }

  // ---- A new session ----

  /** The text field is done with the last session. */
  predicate Settled(p: Platform) {
    !p.composing && p.marked == ""
  }

  /** A reset leaves the document alone, and the composer ready for a new session over it, whatever the last one left. */
  lemma {:induction false} ResetIsAtRest(d: Desk)
    ensures AtRest(Desk(AfterReset(d.c), d.p)) <==> Settled(d.p) && !d.c.livePreview
    ensures var c := AfterReset(d.c);
            c == d.c.(utteranceId := c.utteranceId, committed := c.committed, abandoned := c.abandoned,
                      lastRevision := c.lastRevision, composing := c.composing, wrote := c.wrote)
  {
  }

  /**
   * So whatever the last session left behind, its revisions and its abandoned utterance included, all of the next
   * session's growing log arrives: nothing is retracted, and its text follows what was there.
   */
  lemma {:induction false} NextSessionArrives(session: string, d: Desk, ts: seq<EventLog.TranscriptEvent>, ds: seq<EventLog.TranscriptEvent>)
    requires Settled(d.p) && !d.c.livePreview
    requires EventLog.Numbered(ts) && EventLog.Chained(ts) && EventLog.Growing(ts)
    requires forall e :: e in ds ==> e in ts
    ensures var d' := AppliedAll(NO_FAULTS, Desk(AfterReset(d.c), d.p), AllToClient(session, ds));
            d'.p.committed == d.p.committed + Rendered(News(ds))
    ensures forall o :: o in Outcomes(NO_FAULTS, Desk(AfterReset(d.c), d.p), AllToClient(session, ds)) ==> o == Done || o == Stale
  {
    ResetIsAtRest(d);
    AnyDelivery(session, Desk(AfterReset(d.c), d.p), ts, ds, d.p.committed);
  }

  /** Without it, a session whose events are numbered no higher than the last one's gets nothing typed at all. */
  lemma {:induction false} WithoutResetNothingArrives(faults: Faults, d: Desk, es: seq<Transcript>)
    requires forall i :: 0 <= i < |es| ==> es[i].revision <= d.c.lastRevision
    ensures AppliedAll(faults, d, es).p == d.p && AppliedAll(faults, d, es).c.lastRevision == d.c.lastRevision
  {
    if es != [] {
      WithoutResetNothingArrives(faults, d, es[..|es| - 1]);
    }
  }

  // ---- The counters ----

  /** An event counts as discarded exactly when it is stale, and as an utterance shown exactly when it enters one. */
  lemma {:induction false} EachIsCounted(faults: Faults, d: Desk, e: Transcript)
    ensures var (d', outcome) := Applied(faults, d, e);
            var enters := outcome != Stale && e.utteranceId != d.c.utteranceId && (!d.c.composing || !faults(d.p.calls));
            && d'.c.staleDiscarded == d.c.staleDiscarded + (if outcome == Stale then 1 else 0)
            && d'.c.utterancesShown == d.c.utterancesShown + (if enters then 1 else 0)
            && (outcome == Stale <==> e.revision <= d.c.lastRevision || (e.utteranceId != "" && e.utteranceId == d.c.abandoned))
            && (outcome == Stale ==> d'.c.lastRevision == if e.revision <= d.c.lastRevision then d.c.lastRevision else e.revision)
  {
    var (d1, ok1) := Entered(faults, d, e);
    if ok1 && d1.c.committed <= e.stable {
      WritingCountsNothing(faults, d1, e);
    }
  }

  lemma {:induction false} WritingCountsNothing(faults: Faults, d: Desk, e: Transcript)
    requires d.c.committed <= e.stable
    ensures var c := Written(faults, d, e).0.c;
            c.staleDiscarded == d.c.staleDiscarded && c.utterancesShown == d.c.utterancesShown
  {
    var d1 := Opened(faults, d).0;
    var d2 := Grown(faults, d1, e.stable).0;
    SealingCountsNothing(faults, Marked(faults, d2, e).0, e);
  }

  lemma {:induction false} SealingCountsNothing(faults: Faults, d: Desk, e: Transcript)
    ensures var c := Sealed(faults, d, e).0.c;
            c.staleDiscarded == d.c.staleDiscarded && c.utterancesShown == d.c.utterancesShown
  {
  }
}
