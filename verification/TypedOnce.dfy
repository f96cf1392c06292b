/** The composer types nothing twice, whatever arrives and whatever fails (client/internal/input/composer.go). */
module TypedOnce {
  import opened ComposerModel
  import opened FakePlatformModel

  // ---- Any events of any utterances ----

  predicate Ends(document: string, text: string) {
    |text| <= |document| && document[|document| - |text|..] == text
  }

  /** What the composer believes it has typed for the current utterance is the end of what is in the document. */
  predicate TypedIsCommitted(d: Desk) {
    Ends(d.p.committed, d.c.committed)
  }

  /** It has typed a separator on top, and failed to end the composition after it. */
  predicate SeparatorOnTop(d: Desk) {
    Ends(d.p.committed, d.c.committed + UTTERANCE_SEPARATOR) && d.p.composing && !d.c.composing
  }

  predicate Known(d: Desk) {
    TypedIsCommitted(d) || SeparatorOnTop(d)
  }

  lemma {:induction false} ShowingKeepsTyped(faults: Faults, d: Desk, e: Transcript)
    requires TypedIsCommitted(d) && d.c.committed <= e.stable
    ensures TypedIsCommitted(Shown(faults, d, e).0)
  {
    var base := d.p.committed[..|d.p.committed| - |d.c.committed|];
    OpeningTypesNothing(faults, d);
    GrowingTypesTheDelta(faults, Opened(faults, d).0, e.stable, base);
    assert Typed(Shown(faults, d, e).0, base);
  }

  /** Sealing types a separator that it does not record: the call goes out, and the one that ends the composition fails. */
  predicate LeavesSeparator(faults: Faults, d: Desk) {
    && d.c.committed != "" && d.c.wrote && !EndsInGap(d.c.committed)
    && d.c.composing && d.p.composing
    && !faults(d.p.calls) && faults(d.p.calls + 1)
  }

  lemma {:induction false} EndsWithSeparator(document: string, text: string)
    requires Ends(document, text)
    ensures Ends(document + UTTERANCE_SEPARATOR, text + UTTERANCE_SEPARATOR)
    ensures text != "" && !EndsInGap(text) ==> !Ends(document + UTTERANCE_SEPARATOR, text)
  {
    var longer := document + UTTERANCE_SEPARATOR;
    assert longer[|longer| - |text| - 1..] == document[|document| - |text|..] + UTTERANCE_SEPARATOR;
    if text != "" && Ends(longer, text) {
      assert longer[|longer| - |text|..][|text| - 1] == longer[|longer| - 1] == ' ';
    }
  }

  /** Sealing a final keeps the record exact if and only if it does not leave a separator behind like that. */
  lemma {:induction false} SealingKeepsTypedIff(faults: Faults, d: Desk, e: Transcript)
    requires TypedIsCommitted(d) && e.final
    ensures TypedIsCommitted(Sealed(faults, d, e).0) <==> !LeavesSeparator(faults, d)
    ensures Known(Sealed(faults, d, e).0)
  {
    EndsWithSeparator(d.p.committed, d.c.committed);
  }

  /** `e` is taken in as far as sealing, and its sealing leaves a separator. */
  predicate LosesSeparator(faults: Faults, d: Desk, e: Transcript) {
    && e.final && e.revision > d.c.lastRevision && (e.utteranceId == "" || e.utteranceId != d.c.abandoned)
    && var (d1, ok1) := Entered(faults, d, e);
    && ok1 && d1.c.committed <= e.stable
    && var (d2, ok2) := Shown(faults, d1, e);
    && ok2 && LeavesSeparator(faults, d2)
  }

  lemma {:induction false} EnteringKeepsTyped(faults: Faults, d: Desk, e: Transcript)
    requires TypedIsCommitted(d)
    ensures TypedIsCommitted(Entered(faults, d, e).0)
  {
    assert Ends(Entered(faults, d, e).0.p.committed, "");
  }

  lemma {:induction false} WritingKeepsTypedIff(faults: Faults, d: Desk, e: Transcript)
    requires TypedIsCommitted(d) && d.c.committed <= e.stable
    ensures var (d1, ok) := Shown(faults, d, e);
            var d' := Written(faults, d, e).0;
            Known(d') && (TypedIsCommitted(d') <==> !(e.final && ok && LeavesSeparator(faults, d1)))
  {
    var (d1, ok) := Shown(faults, d, e);
    ShowingKeepsTyped(faults, d, e);
    if ok && e.final {
      SealingKeepsTypedIff(faults, d1, e);
    }
  }

  lemma {:induction false} TakingInKeepsTypedIff(faults: Faults, d: Desk, e: Transcript)
    requires TypedIsCommitted(d)
    ensures var d' := TakenIn(faults, d, e).0;
            && Known(d')
            && (TypedIsCommitted(d') <==> !(&& e.final && d.c.committed <= e.stable
                                            && var (d1, ok) := Shown(faults, d, e); ok && LeavesSeparator(faults, d1)))
  {
    if d.c.committed <= e.stable {
      WritingKeepsTypedIff(faults, d, e);
    } else {
      assert Ends(Abandoned(faults, d, e).p.committed, "");
    }
  }

  /**
   * One event of any utterance, stale, retracting or new, whatever fails: the record stays exact if and only if the
   * event is not a final whose separator goes out just before the end of its composition fails.
   */
  lemma {:induction false} EventKeepsTypedIff(faults: Faults, d: Desk, e: Transcript)
    requires TypedIsCommitted(d)
    ensures TypedIsCommitted(Applied(faults, d, e).0) <==> !LosesSeparator(faults, d, e)
    ensures Known(Applied(faults, d, e).0)
  {
    EnteringKeepsTyped(faults, d, e);
    TakingInKeepsTypedIff(faults, Entered(faults, d, e).0, e);
  }

  /** Where a separator was left, the platform is still composing: nothing more is typed for the utterance. */
  lemma {:induction false} NothingOnTopOfSeparator(faults: Faults, d: Desk, e: Transcript)
    requires SeparatorOnTop(d)
    ensures Known(Applied(faults, d, e).0)
  {
    var (d1, ok1) := Entered(faults, d, e);
    assert Ends(d1.p.committed, "");
    if TypedIsCommitted(d1) {
      TakingInKeepsTypedIff(faults, d1, e);
    } else {
      assert d1 == d && !Opened(faults, d1).1;
      assert Ends(TakenIn(faults, d1, e).0.p.committed, "");
    }
  }

  /**
   * Any stream of events, of any utterances, finals included, in any order and with any failures: what the
   * composer has recorded is the end of the document, but for at most one separator.
   */
  lemma {:induction false} StreamKeepsTyped(faults: Faults, d: Desk, es: seq<Transcript>)
    requires Known(d)
    ensures Known(AppliedAll(faults, d, es))
  {
    if es != [] {
      var before, e := AppliedAll(faults, d, es[..|es| - 1]), es[|es| - 1];
      StreamKeepsTyped(faults, d, es[..|es| - 1]);
      if TypedIsCommitted(before) {
        EventKeepsTypedIff(faults, before, e);
      } else {
        NothingOnTopOfSeparator(faults, before, e);
      }
    }
  }

  /**
   * Such a final, on a new session: an event and its final, whose separator is typed before the end of the
   * composition fails. The record lacks the separator.
   */
  lemma {:induction false} FailedEndLosesTheSeparator()
    ensures var es := [Transcript("u", 1, "a", "", false), Transcript("u", 2, "a", "", true)];
            var d := Desk(NEW_COMPOSER, Platform("", "", false, 0));
            var d' := AppliedAll(n => n == 5, d, es);
            Outcomes(n => n == 5, d, es) == [Done, PlatformFailed] && d'.p.committed == "a " && !TypedIsCommitted(d')
  {
    var faults: Faults := n => n == 5;
    var d := Desk(NEW_COMPOSER, Platform("", "", false, 0));
    var e1, e2 := Transcript("u", 1, "a", "", false), Transcript("u", 2, "a", "", true);
    FirstCharacter(faults, d, e1);
    SeparatorThenNoEnd(faults, Applied(faults, d, e1).0, e2);
    TwoApplied(faults, d, e1, e2);
  }

  lemma {:induction false} FirstCharacter(faults: Faults, d: Desk, e: Transcript)
    requires d == Desk(NEW_COMPOSER, Platform("", "", false, 0)) && e == Transcript("u", 1, "a", "", false)
    requires !faults(0) && !faults(1) && !faults(2)
    ensures Applied(faults, d, e) ==
              (Desk(NEW_COMPOSER.(utteranceId := "u", committed := "a", lastRevision := 1, composing := true, wrote := true,
                                  utterancesShown := 1),
                    Platform("a", "", true, 3)), Done)
  {
    assert "" + "a" == "a" && "a"[0..] == "a";
  }

  lemma {:induction false} SeparatorThenNoEnd(faults: Faults, d: Desk, e: Transcript)
    requires e == Transcript("u", 2, "a", "", true)
    requires d.c.utteranceId == "u" && d.c.committed == "a" && d.c.lastRevision == 1 && d.c.composing && d.c.wrote
    requires d.c.abandoned == "" && !d.c.livePreview && d.p == Platform("a", "", true, 3)
    requires !faults(3) && !faults(4) && faults(5)
    ensures var (d', outcome) := Applied(faults, d, e);
            outcome == PlatformFailed && d'.p.committed == "a " && !TypedIsCommitted(d')
  {
    assert "a"[1..] == "" && "a" + UTTERANCE_SEPARATOR == "a ";
    assert "a "[1..] == " ";
  }

  lemma {:induction false} TwoApplied(faults: Faults, d: Desk, e1: Transcript, e2: Transcript)
    ensures var (d1, o1) := Applied(faults, d, e1);
            var (d2, o2) := Applied(faults, d1, e2);
            AppliedAll(faults, d, [e1, e2]) == d2 && Outcomes(faults, d, [e1, e2]) == [o1, o2]
  {
    assert AppliedAll(faults, d, [e1]) == Applied(faults, d, e1).0 && Outcomes(faults, d, [e1]) == [Applied(faults, d, e1).1] by {
      assert [e1][..0] == [];
      assert Outcomes(faults, d, []) == [];
    }
    assert [e1, e2][..1] == [e1];
  }

  // ---- Everything one utterance types ----

  /** Before its first event is taken in, while it is current, once its final has been reached, or given up. */
  datatype Phase = Before | Within | Over | Gone

  /** The document: what was there, the utterance's text, its separator, and a mark kept at the end. */
  datatype Typing = Typing(phase: Phase, base: string, text: string, separator: string, rest: string)
  {
    function Document(): string {
      base + text + separator + rest
    }
  }

  function SeparatorOf(text: string): string {
    if text == "" || EndsInGap(text) then "" else UTTERANCE_SEPARATOR
  }

  /** `w` says what has been typed for utterance `u`, whose events are numbered up to `top`. */
  predicate Tells(d: Desk, u: string, top: int, w: Typing) {
    && d.p.committed == w.Document()
    && match w.phase
       case Before => d.c.utteranceId != u && d.c.abandoned != u && w.text == "" && w.separator == "" && w.rest == ""
       case Within =>
         && d.c.utteranceId == u && d.c.abandoned != u && w.separator == "" && w.rest == ""
         && d.c.committed == w.text && d.c.wrote == (w.text != "")
       case Over => d.c.lastRevision >= top && (w.separator == "" || w.separator == SeparatorOf(w.text))
       case Gone => d.c.utteranceId != u && d.c.abandoned == u && w.separator == "" && w.rest == ""
  }

  /** Events of one utterance, the highest number its final's, if there is one. */
  predicate OfUtterance(es: seq<Transcript>, u: string, top: int) {
    forall i :: 0 <= i < |es| ==> IsOf(es[i], u, top)
  }

  predicate IsOf(e: Transcript, u: string, top: int) {
    e.utteranceId == u && e.revision <= top && (e.final ==> e.revision == top)
  }

  lemma {:induction false} ShowingTypes(faults: Faults, d: Desk, e: Transcript, u: string, top: int, w: Typing)
    returns (w': Typing)
    requires w.phase == Within && Tells(d, u, top, w) && d.c.committed <= e.stable
    ensures var (d', ok) := Shown(faults, d, e);
            && w' == w.(text := w'.text) && Tells(d', u, top, w')
            && (w'.text == w.text || w'.text == e.stable) && w.text <= w'.text
            && d'.c.lastRevision == d.c.lastRevision && d'.c.livePreview == d.c.livePreview
            && (ok ==> w'.text == e.stable && d'.c.composing && d'.p.composing)
            && (ok ==> d'.p.marked == (if d.c.livePreview then e.partial else ""))
  {
    var d1 := Opened(faults, d).0;
    OpeningTypesNothing(faults, d);
    assert w.base + w.text + "" + "" == w.base + w.text;
    GrowingTypesTheDelta(faults, d1, e.stable, w.base);
    w' := w.(text := Shown(faults, d, e).0.c.committed);
    assert w'.Document() == w.base + w'.text;
  }

  /** Sealing adds the separator, then what the platform keeps of the mark, or stops on the way. */
  lemma {:induction false} SealingTypes(faults: Faults, d: Desk, e: Transcript, u: string, top: int, w: Typing)
    returns (w': Typing)
    requires w.phase == Within && Tells(d, u, top, w) && e.final && e.revision == top
    requires d.c.composing && d.p.composing
    ensures var (d', ok) := Sealed(faults, d, e);
            && w' == w.(phase := Over, separator := w'.separator, rest := w'.rest) && Tells(d', u, top, w')
            && (w'.rest == "" || w'.rest == d.p.marked)
            && (ok ==> w'.separator == SeparatorOf(w.text) && w'.rest == d.p.marked)
  {
    var d0 := d.(c := d.c.(lastRevision := e.revision));
    var (d1, ok1) := Separated(faults, d0);
    var separator := if ok1 then SeparatorOf(w.text) else "";
    assert d1.p.committed == d.p.committed + separator;
    assert w.Document() == w.base + w.text;
    var rest := if ok1 && Ended(faults, d1).1 then d.p.marked else "";
    w' := w.(phase := Over, separator := separator, rest := rest);
    assert Sealed(faults, d, e).0.p.committed == w.base + w.text + separator + rest;
  }

  /** What a step may add: a longer stable text, a separator, the partial of a final as far as it was shown. */
  predicate Adds(w: Typing, w': Typing, e: Transcript, livePreview: bool, mark: string) {
    && (w'.base == w.base || (w.phase == Before && w'.base == w.base + mark))
    && (w'.text == w.text || (w.text <= w'.text && w'.text == e.stable))
    && (w'.rest == w.rest || (livePreview && e.final && w'.rest == e.partial))
  }

  /** What a final that is taken in leaves after its text: exactly its separator, and its partial if that was marked. */
  predicate Finishes(w: Typing, e: Transcript, livePreview: bool) {
    w.separator == SeparatorOf(e.stable) && w.rest == (if livePreview then e.partial else "")
  }

  lemma {:induction false} WritingTypes(faults: Faults, d: Desk, e: Transcript, u: string, top: int, w: Typing)
    returns (w': Typing)
    requires w.phase == Within && Tells(d, u, top, w) && IsOf(e, u, top) && d.c.committed <= e.stable
    ensures var (d', ok) := Written(faults, d, e);
            && Tells(d', u, top, w') && Adds(w, w', e, d.c.livePreview, "")
            && (w'.phase == Within || w'.phase == Over)
            && (ok ==> w'.text == e.stable)
            && (ok && e.final ==> w'.phase == Over && Finishes(w', e, d.c.livePreview))
  {
    var (d1, ok) := Shown(faults, d, e);
    w' := ShowingTypes(faults, d, e, u, top, w);
    if ok && e.final {
      w' := SealingTypes(faults, d1, e, u, top, w');
    }
  }

  lemma {:induction false} EnteringTypes(faults: Faults, d: Desk, e: Transcript, u: string, top: int, w: Typing)
    returns (w': Typing)
    requires (w.phase == Before || w.phase == Within) && Tells(d, u, top, w) && e.utteranceId == u
    ensures var (d', ok) := Entered(faults, d, e);
            && w' == w.(phase := w'.phase, base := w'.base) && Tells(d', u, top, w')
            && (w'.base == w.base || (w.phase == Before && w'.base == w.base + d.p.marked))
            && d'.c.livePreview == d.c.livePreview
            && (if ok then w'.phase == Within else w' == w && d'.p.marked == d.p.marked)
  {
    var (d', ok) := Entered(faults, d, e);
    w' := w;
    if ok && w.phase == Before {
      w' := w.(phase := Within, base := d'.p.committed);
      assert w.Document() == w.base;
      assert w'.Document() == w'.base;
    }
  }

  lemma {:induction false} OneEventTypes(faults: Faults, d: Desk, e: Transcript, u: string, top: int, w: Typing)
    returns (w': Typing)
    requires u != "" && Tells(d, u, top, w) && IsOf(e, u, top)
    ensures var (d', outcome) := Applied(faults, d, e);
            && Tells(d', u, top, w') && Adds(w, w', e, d.c.livePreview, d.p.marked)
            && d'.c.livePreview == d.c.livePreview
            && (w'.phase == Before ==> w == w' && d'.p.marked == d.p.marked)
            && (outcome == Done ==> w'.text == e.stable && (e.final ==> Finishes(w', e, d.c.livePreview)))
  {
    w' := w;
    if e.revision > d.c.lastRevision && e.utteranceId != d.c.abandoned {
      var (d1, ok1) := Entered(faults, d, e);
      w' := EnteringTypes(faults, d, e, u, top, w);
      if ok1 {
        w' := TakingInTypes(faults, d1, e, u, top, w');
      }
    }
  }

  lemma {:induction false} TakingInTypes(faults: Faults, d: Desk, e: Transcript, u: string, top: int, w: Typing)
    returns (w': Typing)
    requires u != "" && w.phase == Within && Tells(d, u, top, w) && IsOf(e, u, top)
    ensures var (d', outcome) := TakenIn(faults, d, e);
            && Tells(d', u, top, w') && Adds(w, w', e, d.c.livePreview, "") && w'.phase != Before
            && d'.c.livePreview == d.c.livePreview
            && (outcome == Done ==> w'.text == e.stable && (e.final ==> Finishes(w', e, d.c.livePreview)))
  {
    if d.c.committed <= e.stable {
      w' := WritingTypes(faults, d, e, u, top, w);
      WritingKeepsPreview(faults, d, e);
    } else {
      w' := w.(phase := Gone);
    }
  }

  lemma {:induction false} WritingKeepsPreview(faults: Faults, d: Desk, e: Transcript)
    requires d.c.committed <= e.stable
    ensures Written(faults, d, e).0.c.livePreview == d.c.livePreview
  {
    assert Shown(faults, d, e).0.c.livePreview == d.c.livePreview;
  }

  /**
   * All events of one utterance, its final numbered highest, with duplicates, in any order, over a platform any of
   * whose calls may fail, from a desk that has entered the utterance or not: after the base, which is the document
   * there was, with the last utterance's mark if that was ended, stands one of the stable texts, once, then at most
   * one separator, then at most the partial that the final itself had marked. An event that is taken in leaves its
   * own stable text, and a final that is taken in leaves exactly its separator.
   */
  lemma {:induction false} RetriesTypeOnce(faults: Faults, d: Desk, u: string, top: int, es: seq<Transcript>, w: Typing)
    returns (w': Typing)
    requires u != "" && Tells(d, u, top, w) && OfUtterance(es, u, top)
    ensures var d' := AppliedAll(faults, d, es);
            && Tells(d', u, top, w') && d'.c.livePreview == d.c.livePreview
            && (w'.phase == Before ==> w' == w && d'.p.marked == d.p.marked)
    ensures w'.base == w.base || (w.phase == Before && w'.base == w.base + d.p.marked)
    ensures w.text <= w'.text && (w'.text == w.text || exists i :: 0 <= i < |es| && es[i].stable == w'.text)
    ensures w'.rest == w.rest
         || (d.c.livePreview && exists i :: 0 <= i < |es| && es[i].final && es[i].partial == w'.rest)
    ensures es != [] && Outcomes(faults, d, es)[|es| - 1] == Done ==>
              var e := es[|es| - 1];
              w'.text == e.stable && (e.final ==> Finishes(w', e, d.c.livePreview))
    decreases |es|
  {
    w' := w;
    if es != [] {
      var init, e := es[..|es| - 1], es[|es| - 1];
      var mid := RetriesTypeOnce(faults, d, u, top, init, w);
      w' := OneEventTypes(faults, AppliedAll(faults, d, init), e, u, top, mid);
      StillAmong(init, es, mid, w, d.c.livePreview);
    }
  }

  lemma {:induction false} StillAmong(init: seq<Transcript>, es: seq<Transcript>, mid: Typing, w: Typing, livePreview: bool)
    requires init <= es
    ensures (exists i :: 0 <= i < |init| && init[i].stable == mid.text) ==> exists i :: 0 <= i < |es| && es[i].stable == mid.text
    ensures (exists i :: 0 <= i < |init| && init[i].final && init[i].partial == mid.rest) ==>
              exists i :: 0 <= i < |es| && es[i].final && es[i].partial == mid.rest
  {
    if i :| 0 <= i < |init| && init[i].stable == mid.text {
      assert es[i].stable == mid.text;
    }
    if i :| 0 <= i < |init| && init[i].final && init[i].partial == mid.rest {
      assert es[i].final && es[i].partial == mid.rest;
    }
  }
}
