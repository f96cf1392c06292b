/**
 * From the document the composer is proved against to the screen it really types on: the calls it makes
 * (client/internal/input/composer.go) through the keystroke emulation (client/internal/platform/keystroke.go).
 */
module OnScreen {
  import opened ComposerModel
  import EventLog
  import opened FakePlatformModel
  import K = Keystroke
  import E = EndToEnd
  import SessionModel
  import SessionSafety
  import Vad

  const STEADY: Faults := E.NO_FAULTS
  const STEADY_KEYS: K.Faults := _ => false

  // ---- The calls the composer makes when none fails ----

  function OpenedCalls(c: Composer): seq<K.Call> {
    if c.composing then [] else [K.Begin]
  }

  function GrownCalls(c: Composer, stable: string): seq<K.Call>
    requires c.committed <= stable
  {
    if c.committed == stable then [] else [K.Commit(stable[|c.committed|..])]
  }

  function MarkedCalls(c: Composer, e: Transcript): seq<K.Call> {
    [K.Mark(if c.livePreview then e.partial else "")]
  }

  function SeparatedCalls(c: Composer): seq<K.Call> {
    if !c.wrote || EndsInGap(c.committed) then [] else [K.Commit(UTTERANCE_SEPARATOR)]
  }

  function EndedCalls(c: Composer): seq<K.Call> {
    if c.composing then [K.End] else []
  }

  function SealedCalls(c: Composer, e: Transcript): seq<K.Call> {
    if e.final then SeparatedCalls(c) + EndedCalls(c) else []
  }

  /** In the composer's order: begin, commit what is newly stable, re-mark. */
  function ShownCalls(d: Desk, e: Transcript): seq<K.Call>
    requires d.c.committed <= e.stable
  {
    var d1 := Opened(STEADY, d).0;
    var d2 := Grown(STEADY, d1, e.stable).0;
    OpenedCalls(d.c) + GrownCalls(d1.c, e.stable) + MarkedCalls(d2.c, e)
  }

  /** And then seal. */
  function WrittenCalls(d: Desk, e: Transcript): seq<K.Call>
    requires d.c.committed <= e.stable
  {
    ShownCalls(d, e) + SealedCalls(Shown(STEADY, d, e).0.c, e)
  }

  function EnteredCalls(c: Composer, e: Transcript): seq<K.Call> {
    if e.utteranceId == c.utteranceId then [] else EndedCalls(c)
  }

  function AbandonedCalls(c: Composer): seq<K.Call> {
    if c.composing then [K.Cancel] else []
  }

  function AppliedCalls(d: Desk, e: Transcript): seq<K.Call> {
    if e.revision <= d.c.lastRevision || (e.utteranceId != "" && e.utteranceId == d.c.abandoned) then []
    else
      var d1 := Entered(STEADY, d, e).0;
      EnteredCalls(d.c, e) + if d1.c.committed <= e.stable then WrittenCalls(d1, e) else AbandonedCalls(d1.c)
  }

  function AllCalls(d: Desk, es: seq<Transcript>): seq<K.Call> {
    if es == [] then []
    else AllCalls(d, es[..|es| - 1]) + AppliedCalls(AppliedAll(STEADY, d, es[..|es| - 1]), es[|es| - 1])
  }

  // ---- The same calls on the text field in memory ----

  function Fed(p: Platform, call: K.Call): Platform {
    match call
    case Begin => AfterBegin(STEADY, p).0
    case Mark(text) => AfterMark(STEADY, p, text).0
    case Commit(text) => AfterCommit(STEADY, p, text).0
    case End => AfterEnd(STEADY, p).0
    case Cancel => AfterCancel(STEADY, p).0
    case Close => p
  }

  function FedAll(p: Platform, calls: seq<K.Call>): Platform {
    if calls == [] then p else Fed(FedAll(p, calls[..|calls| - 1]), calls[|calls| - 1])
  }

  function Played(b: K.Board, calls: seq<K.Call>): K.Board {
    K.MadeAll(STEADY_KEYS, b, calls)
  }

  lemma {:induction false} OneCall(b: K.Board, p: Platform, call: K.Call)
    ensures Played(b, [call]) == K.Made(STEADY_KEYS, b, call) && FedAll(p, [call]) == Fed(p, call)
    ensures Played(b, []) == b && FedAll(p, []) == p
  {
    assert [call][..0] == [];
    assert K.MadeAll(STEADY_KEYS, b, []) == b;
  }

  lemma {:induction false} CallsInTwo(b: K.Board, p: Platform, first: seq<K.Call>, second: seq<K.Call>)
    ensures Played(Played(b, first), second) == Played(b, first + second)
    ensures FedAll(FedAll(p, first), second) == FedAll(p, first + second)
  {
    if second == [] {
      assert first + second == first;
    } else {
      var n := |second| - 1;
      assert (first + second)[..|first + second| - 1] == first + second[..n];
      CallsInTwo(b, p, first, second[..n]);
    }
  }

  // ---- The screen mirrors the field ----

  /** On screen: the user's own text, then the document, with the same provisional end. */
  predicate Synced(b: K.Board, p: Platform, user: string) {
    && b.marked == p.marked
    && b.screen.text == user + p.committed + p.marked
    && (!p.composing ==> p.marked == "")
  }

  /** After a commit the emulation has taken the provisional text off; the next mark puts it back. */
  predicate Pending(b: K.Board, p: Platform, user: string) {
    b.marked == "" && b.screen.text == user + p.committed && p.composing
  }

  predicate Ready(b: K.Board, d: Desk, user: string) {
    Synced(b, d.p, user) && d.p.composing == d.c.composing
  }

  lemma {:induction false} SyncedOwns(b: K.Board, p: Platform, user: string)
    requires Synced(b, p, user) || Pending(b, p, user)
    ensures K.Owns(b) && K.Settled(b) == user + p.committed
  {
    assert b.screen.text == (user + p.committed) + b.marked;
    K.OwnsAfter(b, user + p.committed);
  }

  lemma {:induction false} Committing(b: K.Board, p: Platform, user: string, text: string)
    requires Synced(b, p, user) || Pending(b, p, user)
    requires p.composing && text != ""
    ensures var b', p' := K.Made(STEADY_KEYS, b, K.Commit(text)), Fed(p, K.Commit(text));
            Pending(b', p', user) && (p.marked == "" ==> Synced(b', p', user))
  {
    SyncedOwns(b, p, user);
    K.CommitFollowsSettled(STEADY_KEYS, b, text);
    assert user + p.committed + text == user + (p.committed + text);
    assert user + (p.committed + text) + "" == user + (p.committed + text);
  }

  lemma {:induction false} Marking(b: K.Board, p: Platform, user: string, text: string)
    requires Synced(b, p, user) || Pending(b, p, user)
    requires p.composing
    ensures Synced(K.Made(STEADY_KEYS, b, K.Mark(text)), Fed(p, K.Mark(text)), user)
  {
    SyncedOwns(b, p, user);
    K.MarkReplacesTheMark(STEADY_KEYS, b, text);
  }

  lemma {:induction false} Ending(b: K.Board, p: Platform, user: string)
    requires Synced(b, p, user)
    ensures Synced(K.Made(STEADY_KEYS, b, K.End), Fed(p, K.End), user)
  {
    assert user + p.committed + p.marked == user + (p.committed + p.marked) + "";
  }

  lemma {:induction false} Cancelling(b: K.Board, p: Platform, user: string)
    requires Synced(b, p, user)
    ensures Synced(K.Made(STEADY_KEYS, b, K.Cancel), Fed(p, K.Cancel), user)
  {
    SyncedOwns(b, p, user);
    K.CancelLeavesSettled(STEADY_KEYS, b);
    assert user + p.committed + "" == user + p.committed;
  }

  // ---- Phase by phase ----

  lemma {:induction false} OpenedOnScreen(b: K.Board, d: Desk, user: string)
    requires Ready(b, d, user)
    ensures var d', calls := Opened(STEADY, d).0, OpenedCalls(d.c);
            d'.p == FedAll(d.p, calls) && Ready(Played(b, calls), d', user) && d'.p.composing
            && d'.c == d.c.(composing := true)
  {
    OneCall(b, d.p, K.Begin);
  }

  lemma {:induction false} GrownOnScreen(b: K.Board, d: Desk, stable: string, user: string)
    requires Ready(b, d, user) && d.p.composing && d.c.committed <= stable
    ensures var d', calls := Grown(STEADY, d, stable).0, GrownCalls(d.c, stable);
            && d'.p == FedAll(d.p, calls)
            && (Synced(Played(b, calls), d'.p, user) || Pending(Played(b, calls), d'.p, user))
            && d'.p.composing && d'.c.composing == d.c.composing && d'.c.livePreview == d.c.livePreview
  {
    var delta := stable[|d.c.committed|..];
    OneCall(b, d.p, K.Commit(delta));
    if delta != "" {
      Committing(b, d.p, user, delta);
    }
  }

  lemma {:induction false} MarkedOnScreen(b: K.Board, d: Desk, e: Transcript, user: string)
    requires Synced(b, d.p, user) || Pending(b, d.p, user)
    requires d.p.composing && d.c.composing
    ensures var d', calls := Marked(STEADY, d, e).0, MarkedCalls(d.c, e);
            && d'.p == FedAll(d.p, calls) && Ready(Played(b, calls), d', user)
            && d'.c == d.c && d'.p.marked == (if d.c.livePreview then e.partial else "")
  {
    var text := if d.c.livePreview then e.partial else "";
    OneCall(b, d.p, K.Mark(text));
    Marking(b, d.p, user, text);
  }

  lemma {:induction false} SeparatedOnScreen(b: K.Board, d: Desk, user: string)
    requires Ready(b, d, user) && d.p.composing && d.p.marked == ""
    ensures var d', calls := Separated(STEADY, d).0, SeparatedCalls(d.c);
            && d'.p == FedAll(d.p, calls) && Ready(Played(b, calls), d', user)
            && d'.c == d.c.(wrote := false)
  {
    OneCall(b, d.p, K.Commit(UTTERANCE_SEPARATOR));
    if SeparatedCalls(d.c) != [] {
      Committing(b, d.p, user, UTTERANCE_SEPARATOR);
    }
  }

  lemma {:induction false} EndedOnScreen(b: K.Board, d: Desk, user: string)
    requires Ready(b, d, user)
    ensures var d', calls := Ended(STEADY, d).0, EndedCalls(d.c);
            && d'.p == FedAll(d.p, calls) && Ready(Played(b, calls), d', user)
            && d'.c == d.c.(composing := false)
  {
    OneCall(b, d.p, K.End);
    Ending(b, d.p, user);
  }

  /**
   * A final that leaves its partial marked, with a separator to type: the field puts the separator ahead of the mark
   * and keeps both, the emulation takes the mark off to type the separator, and it is not put back.
   */
  predicate LosesMark(d: Desk, e: Transcript) {
    e.final && d.p.marked != "" && SeparatedCalls(d.c) != []
  }

  lemma {:induction false} SealedOnScreen(b: K.Board, d: Desk, e: Transcript, user: string)
    requires Ready(b, d, user) && d.p.composing
    ensures var d', calls := Sealed(STEADY, d, e).0, SealedCalls(d.c, e);
            && d'.p == FedAll(d.p, calls)
            && (Ready(Played(b, calls), d', user) <==> !LosesMark(d, e))
            && d'.c.livePreview == d.c.livePreview
  {
    if !e.final {
      OneCall(b, d.p, K.End);
    } else if SeparatedCalls(d.c) == [] {
      SealedWithoutSeparator(b, d, e, user);
    } else if d.p.marked == "" {
      SealedUnmarked(b, d, e, user);
    } else {
      SealedOverMark(b, d, e, user);
    }
  }

  lemma {:induction false} SealedWithoutSeparator(b: K.Board, d: Desk, e: Transcript, user: string)
    requires Ready(b, d, user) && d.p.composing && e.final && SeparatedCalls(d.c) == []
    ensures var d', calls := Sealed(STEADY, d, e).0, SealedCalls(d.c, e);
            && d'.p == FedAll(d.p, calls) && Ready(Played(b, calls), d', user)
            && d'.c.livePreview == d.c.livePreview
  {
    assert [] + EndedCalls(d.c) == EndedCalls(d.c);
    EndedOnScreen(b, d, user);
  }

  lemma {:induction false} SealedUnmarked(b: K.Board, d: Desk, e: Transcript, user: string)
    requires Ready(b, d, user) && d.p.composing && e.final && d.p.marked == ""
    ensures var d', calls := Sealed(STEADY, d, e).0, SealedCalls(d.c, e);
            && d'.p == FedAll(d.p, calls) && Ready(Played(b, calls), d', user)
            && d'.c.livePreview == d.c.livePreview
  {
    var d0 := d.(c := d.c.(lastRevision := e.revision));
    SeparatedOnScreen(b, d0, user);
    EndedOnScreen(Played(b, SeparatedCalls(d.c)), Separated(STEADY, d0).0, user);
    CallsInTwo(b, d.p, SeparatedCalls(d.c), EndedCalls(d.c));
  }

  lemma {:induction false} SealedOverMark(b: K.Board, d: Desk, e: Transcript, user: string)
    requires Ready(b, d, user) && d.p.composing && e.final && d.p.marked != "" && SeparatedCalls(d.c) != []
    ensures var d', calls := Sealed(STEADY, d, e).0, SealedCalls(d.c, e);
            && d'.p == FedAll(d.p, calls) && !Ready(Played(b, calls), d', user)
            && d'.c.livePreview == d.c.livePreview
  {
    var separator := K.Commit(UTTERANCE_SEPARATOR);
    var b1, p1 := K.Made(STEADY_KEYS, b, separator), Fed(d.p, separator);
    OneCall(b, d.p, separator);
    Committing(b, d.p, user, UTTERANCE_SEPARATOR);
    OneCall(b1, p1, K.End);
    CallsInTwo(b, d.p, [separator], [K.End]);
    assert SealedCalls(d.c, e) == [separator] + [K.End];
    var p2 := Fed(p1, K.End);
    assert p2.committed == p1.committed + d.p.marked && p2.marked == "";
    assert |K.Made(STEADY_KEYS, b1, K.End).screen.text| < |user + p2.committed + p2.marked|;
  }

  lemma {:induction false} ShownOnScreen(b: K.Board, d: Desk, e: Transcript, user: string)
    requires Ready(b, d, user) && d.c.committed <= e.stable
    ensures var (d', ok) := Shown(STEADY, d, e);
            var calls := ShownCalls(d, e);
            && ok && d'.p == FedAll(d.p, calls) && Ready(Played(b, calls), d', user) && d'.p.composing
            && d'.c.livePreview == d.c.livePreview && d'.p.marked == (if d.c.livePreview then e.partial else "")
  {
    var d1, x := Opened(STEADY, d).0, OpenedCalls(d.c);
    OpenedOnScreen(b, d, user);
    var d2, y := Grown(STEADY, d1, e.stable).0, GrownCalls(d1.c, e.stable);
    GrownOnScreen(Played(b, x), d1, e.stable, user);
    CallsInTwo(b, d.p, x, y);
    var z := MarkedCalls(d2.c, e);
    MarkedOnScreen(Played(b, x + y), d2, e, user);
    CallsInTwo(b, d.p, x + y, z);
    assert Shown(STEADY, d, e) == Marked(STEADY, d2, e);
  }

  lemma {:induction false} WrittenOnScreen(b: K.Board, d: Desk, e: Transcript, user: string)
    requires Ready(b, d, user) && d.c.committed <= e.stable
    ensures var d', calls := Written(STEADY, d, e).0, WrittenCalls(d, e);
            && d'.p == FedAll(d.p, calls)
            && (Ready(Played(b, calls), d', user) <==> !LosesMark(Shown(STEADY, d, e).0, e))
            && d'.c.livePreview == d.c.livePreview
  {
    var d1, x := Shown(STEADY, d, e).0, ShownCalls(d, e);
    ShownOnScreen(b, d, e, user);
    SealedOnScreen(Played(b, x), d1, e, user);
    CallsInTwo(b, d.p, x, SealedCalls(d1.c, e));
  }

  lemma {:induction false} EnteredOnScreen(b: K.Board, d: Desk, e: Transcript, user: string)
    requires Ready(b, d, user)
    ensures var (d', ok) := Entered(STEADY, d, e);
            var calls := EnteredCalls(d.c, e);
            && ok && d'.p == FedAll(d.p, calls) && Ready(Played(b, calls), d', user)
            && d'.c.livePreview == d.c.livePreview
  {
    OneCall(b, d.p, K.End);
    EndedOnScreen(b, d, user);
  }

  lemma {:induction false} AbandonedOnScreen(b: K.Board, d: Desk, e: Transcript, user: string)
    requires Ready(b, d, user)
    ensures var d', calls := Abandoned(STEADY, d, e), AbandonedCalls(d.c);
            && d'.p == FedAll(d.p, calls) && Ready(Played(b, calls), d', user)
            && d'.c.livePreview == d.c.livePreview
  {
    OneCall(b, d.p, K.Cancel);
    Cancelling(b, d.p, user);
  }

  /** The branches of `Apply`, with no call failing. */
  lemma {:induction false} BranchOf(d: Desk, e: Transcript)
    ensures var d1 := Entered(STEADY, d, e).0;
            var stale := e.revision <= d.c.lastRevision || (e.utteranceId != "" && e.utteranceId == d.c.abandoned);
            if stale then
              && AppliedCalls(d, e) == [] && Applied(STEADY, d, e).0.p == d.p
              && Applied(STEADY, d, e).0.c.livePreview == d.c.livePreview
              && Applied(STEADY, d, e).0.c.composing == d.c.composing
            else if d1.c.committed <= e.stable then
              && AppliedCalls(d, e) == EnteredCalls(d.c, e) + WrittenCalls(d1, e)
              && Applied(STEADY, d, e).0 == Written(STEADY, d1, e).0
            else
              && AppliedCalls(d, e) == EnteredCalls(d.c, e) + AbandonedCalls(d1.c)
              && Applied(STEADY, d, e).0 == Abandoned(STEADY, d1, e)
  {
    assert Entered(STEADY, d, e).1;
  }

  /** `e` is taken in, and its sealing loses its mark on screen. */
  predicate Diverges(d: Desk, e: Transcript) {
    && e.revision > d.c.lastRevision && (e.utteranceId == "" || e.utteranceId != d.c.abandoned)
    && var d1 := Entered(STEADY, d, e).0;
    && d1.c.committed <= e.stable && LosesMark(Shown(STEADY, d1, e).0, e)
  }

  /**
   * One event: the calls the composer makes do to the screen what they do to the field, if and only if it is not a
   * final that leaves a partial marked and has a separator to type.
   */
  lemma {:induction false} AppliedOnScreen(b: K.Board, d: Desk, e: Transcript, user: string)
    requires Ready(b, d, user)
    ensures var d', calls := Applied(STEADY, d, e).0, AppliedCalls(d, e);
            && d'.p == FedAll(d.p, calls)
            && (Ready(Played(b, calls), d', user) <==> !Diverges(d, e))
            && d'.c.livePreview == d.c.livePreview
  {
    var d1, x := Entered(STEADY, d, e).0, EnteredCalls(d.c, e);
    var b1 := Played(b, x);
    BranchOf(d, e);
    EnteredOnScreen(b, d, e, user);
    OneCall(b, d.p, K.End);
    if d1.c.committed <= e.stable {
      WrittenOnScreen(b1, d1, e, user);
      CallsInTwo(b, d.p, x, WrittenCalls(d1, e));
    } else {
      AbandonedOnScreen(b1, d1, e, user);
      CallsInTwo(b, d.p, x, AbandonedCalls(d1.c));
    }
  }

  /** No event of the stream is such a final at its turn. */
  predicate NeverDiverges(d: Desk, es: seq<Transcript>) {
    es == [] || (NeverDiverges(d, es[..|es| - 1]) && !Diverges(AppliedAll(STEADY, d, es[..|es| - 1]), es[|es| - 1]))
  }

  /** Any stream of other events, stale ones and retractions included. */
  lemma {:induction false} AllOnScreen(b: K.Board, d: Desk, es: seq<Transcript>, user: string)
    requires Ready(b, d, user) && NeverDiverges(d, es)
    ensures var d' := AppliedAll(STEADY, d, es);
            Ready(Played(b, AllCalls(d, es)), d', user) && d'.c.livePreview == d.c.livePreview
  {
    if es == [] {
      OneCall(b, d.p, K.End);
    } else {
      var init := es[..|es| - 1];
      AllOnScreen(b, d, init, user);
      AppliedOnScreen(Played(b, AllCalls(d, init)), AppliedAll(STEADY, d, init), es[|es| - 1], user);
      CallsInTwo(b, d.p, AllCalls(d, init), AppliedCalls(AppliedAll(STEADY, d, init), es[|es| - 1]));
    }
  }

  /** With live preview off nothing is marked, so nothing diverges; nor does it when finals carry no partial. */
  lemma {:induction false} CleanEndsNeverDiverge(b: K.Board, d: Desk, es: seq<Transcript>, user: string)
    requires Ready(b, d, user)
    requires forall e :: e in es ==> e.final ==> !d.c.livePreview || e.partial == ""
    ensures NeverDiverges(d, es)
  {
    if es != [] {
      var init, e := es[..|es| - 1], es[|es| - 1];
      var before, b1 := AppliedAll(STEADY, d, init), Played(b, AllCalls(d, init));
      CleanEndsNeverDiverge(b, d, init, user);
      AllOnScreen(b, d, init, user);
      EnteredOnScreen(b1, before, e, user);
      var d1 := Entered(STEADY, before, e).0;
      if d1.c.committed <= e.stable {
        ShownOnScreen(Played(b1, EnteredCalls(before.c, e)), d1, e, user);
      }
    }
  }

  /**
   * Server, network, composer and keystrokes together, in draft mode: whatever was on screen stays, and
   * after it stands every delivered utterance's latest stable text, separated once sealed, and nothing else.
   */
  lemma {:induction false} DraftDictationOnScreen(cfg: SessionModel.Settings, env: SessionModel.Environment,
                                                  detector: Vad.Detector, crossCheck: bool,
                                                  schedule: seq<SessionModel.Action>, session: string, d: Desk,
                                                  ds: seq<EventLog.TranscriptEvent>, b: K.Board)
    requires cfg.draftMode && E.AtRest(d) && d.p.committed == "" && b.marked == ""
    requires forall e :: e in ds ==> e in SessionSafety.RunLog(cfg, env, detector, crossCheck, schedule)
    ensures Played(b, AllCalls(d, E.AllToClient(session, ds))).screen.text == b.screen.text + E.Rendered(E.News(ds))
  {
    var es := E.AllToClient(session, ds);
    FreshScreen(b, d);
    CleanEndsNeverDiverge(b, d, es, b.screen.text);
    AllOnScreen(b, d, es, b.screen.text);
    WhatIsShown(Played(b, AllCalls(d, es)), AppliedAll(STEADY, d, es), b.screen.text);
    E.DraftEndToEnd(cfg, env, detector, crossCheck, schedule, session, d, ds);
    assert "" + E.Rendered(E.News(ds)) == E.Rendered(E.News(ds));
  }

  lemma {:induction false} FreshScreen(b: K.Board, d: Desk)
    requires E.AtRest(d) && d.p.committed == "" && b.marked == ""
    ensures Ready(b, d, b.screen.text)
  {
    assert b.screen.text == b.screen.text + d.p.committed + d.p.marked;
  }

  lemma {:induction false} WhatIsShown(b: K.Board, d: Desk, user: string)
    requires Ready(b, d, user)
    ensures b.screen.text == user + d.p.Document()
  {
    assert user + d.p.committed + d.p.marked == user + (d.p.committed + d.p.marked);
  }
}
