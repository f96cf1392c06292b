/** Transcript events into text at the cursor (client/internal/input/composer.go). */
module ComposerModel {
  import opened FakePlatformModel

  const UTTERANCE_SEPARATOR: string := " "

  datatype Transcript = Transcript(utteranceId: string, revision: int, stable: string, partial: string, final: bool)

  /** What `Apply` comes back with. */
  datatype Outcome = Done | Stale | PlatformFailed | PrefixChanged

  datatype Composer = Composer(
    utteranceId: string, committed: string, lastRevision: int, composing: bool, livePreview: bool,
    wrote: bool, abandoned: string, staleDiscarded: nat, utterancesShown: nat)

  /** A composer and the text field it writes to. */
  datatype Desk = Desk(c: Composer, p: Platform)

  const NEW_COMPOSER := Composer("", "", 0, false, false, false, "", 0, 0)

  function AfterReset(c: Composer): Composer {
    c.(utteranceId := "", committed := "", abandoned := "", lastRevision := 0, composing := false, wrote := false)
  }

  /** Ends in one of the characters the separator check trims. */
  predicate EndsInGap(s: string) {
    s != "" && s[|s| - 1] in " \t\n"
  }

  function Ended(faults: Faults, d: Desk): (Desk, bool) {
    if !d.c.composing then (d, true)
    else
      var (p, ok) := AfterEnd(faults, d.p);
      (Desk(d.c.(composing := false), p), ok)
  }

  function Cancelled(faults: Faults, d: Desk): (Desk, bool) {
    if !d.c.composing then (d, true)
    else
      var (p, ok) := AfterCancel(faults, d.p);
      (Desk(d.c.(composing := false), p), ok)
  }

  /** `separateLocked`. */
  function Separated(faults: Faults, d: Desk): (Desk, bool) {
    if !d.c.wrote then (d, true)
    else
      var c := d.c.(wrote := false);
      if EndsInGap(c.committed) then (Desk(c, d.p), true)
      else
        var (p, ok) := AfterCommit(faults, d.p, UTTERANCE_SEPARATOR);
        (Desk(c, p), ok)
  }

  /** A new utterance starts a fresh committed prefix, once the composition before it is ended. */
  function Entered(faults: Faults, d: Desk, e: Transcript): (Desk, bool) {
    if e.utteranceId == d.c.utteranceId then (d, true)
    else
      var (d1, ok) := Ended(faults, d);
      if !ok then (d1, false)
      else
        (d1.(c := d1.c.(utteranceId := e.utteranceId, committed := "", wrote := false,
                        utterancesShown := d1.c.utterancesShown + 1)), true)
  }

  /** The server retracted text it had committed: drop the tail, keep the text, ignore the utterance. */
  function Abandoned(faults: Faults, d: Desk, e: Transcript): Desk {
    var d1 := Cancelled(faults, d).0;
    d1.(c := d1.c.(abandoned := e.utteranceId, committed := "", utteranceId := "", lastRevision := e.revision))
  }

  /** Make sure there is a composition. */
  function Opened(faults: Faults, d: Desk): (Desk, bool) {
    if d.c.composing then (d, true)
    else
      var (p, ok) := AfterBegin(faults, d.p);
      (Desk(if ok then d.c.(composing := true) else d.c, p), ok)
  }

  /** Commit what is newly stable. */
  function Grown(faults: Faults, d: Desk, stable: string): (Desk, bool)
    requires d.c.committed <= stable
  {
    var delta := stable[|d.c.committed|..];
    if delta == "" then (d, true)
    else
      var (p, ok) := AfterCommit(faults, d.p, delta);
      (Desk(if ok then d.c.(committed := stable, wrote := true) else d.c, p), ok)
  }

  /** Re-mark the partial, or clear what is left of one. */
  function Marked(faults: Faults, d: Desk, e: Transcript): (Desk, bool) {
    var (p, ok) := AfterMark(faults, d.p, if d.c.livePreview then e.partial else "");
    (d.(p := p), ok)
  }

  /** A final event releases the composition. */
  function Sealed(faults: Faults, d: Desk, e: Transcript): (Desk, bool) {
    var d0 := d.(c := d.c.(lastRevision := e.revision));
    if !e.final then (d0, true)
    else
      var (d1, ok1) := Separated(faults, d0);
      if !ok1 then (d1, false)
      else
        var (d2, ok2) := Ended(faults, d1);
        if !ok2 then (d2, false) else (d2.(c := d2.c.(utteranceId := "", committed := "")), true)
  }

  /** Commit first, then re-mark. */
  function Shown(faults: Faults, d: Desk, e: Transcript): (Desk, bool)
    requires d.c.committed <= e.stable
  {
    var (d1, ok1) := Opened(faults, d);
    if !ok1 then (d1, false)
    else
      var (d2, ok2) := Grown(faults, d1, e.stable);
      if ok2 then Marked(faults, d2, e) else (d2, false)
  }

  /** And then seal. */
  function Written(faults: Faults, d: Desk, e: Transcript): (Desk, bool)
    requires d.c.committed <= e.stable
  {
    var (d1, ok) := Shown(faults, d, e);
    if ok then Sealed(faults, d1, e) else (d1, false)
  }

  /** `Apply`. */
  function Applied(faults: Faults, d: Desk, e: Transcript): (Desk, Outcome) {
    if e.revision <= d.c.lastRevision then
      (d.(c := d.c.(staleDiscarded := d.c.staleDiscarded + 1)), Stale)
    else if e.utteranceId != "" && e.utteranceId == d.c.abandoned then
      (d.(c := d.c.(staleDiscarded := d.c.staleDiscarded + 1, lastRevision := e.revision)), Stale)
    else
      var (d1, ok1) := Entered(faults, d, e);
      if ok1 then TakenIn(faults, d1, e) else (d1, PlatformFailed)
  }

  /** An event of the current utterance: refuse a retraction, write anything else. */
  function TakenIn(faults: Faults, d: Desk, e: Transcript): (Desk, Outcome) {
    if !(d.c.committed <= e.stable) then (Abandoned(faults, d, e), PrefixChanged)
    else
      var (d1, ok) := Written(faults, d, e);
      (d1, if ok then Done else PlatformFailed)
  }

  /** `DropPartial`. */
  function PartialDropped(faults: Faults, d: Desk): (Desk, bool) {
    if !d.c.composing then (d, true)
    else
      var (d1, ok) := Cancelled(faults, d);
      if !ok then (d1, false)
      else (d1.(c := d1.c.(abandoned := d1.c.utteranceId, utteranceId := "", committed := "")), true)
  }

  /** `Finish`. */
  function Finished(faults: Faults, d: Desk): (Desk, bool) {
    var (d1, ok1) := Ended(faults, d);
    var (d2, ok2) := if ok1 then Separated(faults, d1) else (d1, false);
    (d2.(c := d2.c.(abandoned := d2.c.utteranceId, utteranceId := "", committed := "")), ok2)
  }

  /** Events applied in order, errors and all: the session goes on after each. */
  function AppliedAll(faults: Faults, d: Desk, es: seq<Transcript>): Desk {
    if es == [] then d
    else Applied(faults, AppliedAll(faults, d, es[..|es| - 1]), es[|es| - 1]).0
  }

  function Outcomes(faults: Faults, d: Desk, es: seq<Transcript>): (os: seq<Outcome>)
    ensures |os| == |es|
  {
    if es == [] then []
    else
      var n := |es| - 1;
      Outcomes(faults, d, es[..n]) + [Applied(faults, AppliedAll(faults, d, es[..n]), es[n]).1]
  }

  // ---- Nothing is typed twice ----

  /** The text committed for the current utterance is `c.committed`, after everything in `base`. */
  predicate Typed(d: Desk, base: string) {
    d.p.committed == base + d.c.committed
  }

  lemma {:induction false} OpeningTypesNothing(faults: Faults, d: Desk)
    ensures var d' := Opened(faults, d).0;
            d'.p.committed == d.p.committed && d'.c == d.c.(composing := d'.c.composing)
  {
  }

  lemma {:induction false} GrowingTypesTheDelta(faults: Faults, d: Desk, stable: string, base: string)
    requires Typed(d, base) && d.c.committed <= stable
    ensures var (d', ok) := Grown(faults, d, stable);
            && Typed(d', base)
            && d'.c == d.c.(committed := d'.c.committed, wrote := d'.c.wrote)
            && (if ok then d'.c.committed == stable else d'.c.committed == d.c.committed)
  {
    assert base + d.c.committed + stable[|d.c.committed|..] == base + stable;
  }

  /** Sealing adds at most one separator, and whatever mark the platform keeps. */
  lemma {:induction false} SealingTypesAtMostASeparator(faults: Faults, d: Desk, e: Transcript)
    ensures var (d', ok) := Sealed(faults, d, e);
            if !e.final then ok && d' == d.(c := d.c.(lastRevision := e.revision))
            else
              && d'.p.committed in [d.p.committed, d.p.committed + UTTERANCE_SEPARATOR, d.p.committed + d.p.marked,
                                    d.p.committed + UTTERANCE_SEPARATOR + d.p.marked]
              && !d'.c.wrote
              && (d'.c.committed == d.c.committed || (d'.c.committed == "" && d'.c.utteranceId == ""))
  {
  }

  /** Whatever is applied, whatever fails: text in the document is never altered, only added to. */
  lemma {:induction false} DocumentOnlyGrows(faults: Faults, d: Desk, e: Transcript)
    ensures d.p.committed <= Applied(faults, d, e).0.p.committed
  {
    var (d1, ok1) := Entered(faults, d, e);
    if ok1 && d1.c.committed <= e.stable {
      WritingOnlyAdds(faults, d1, e);
    }
  }

  lemma {:induction false} WritingOnlyAdds(faults: Faults, d: Desk, e: Transcript)
    requires d.c.committed <= e.stable
    ensures d.p.committed <= Written(faults, d, e).0.p.committed
  {
    OpeningTypesNothing(faults, d);
    var d1 := Opened(faults, d).0;
    var d2 := Grown(faults, d1, e.stable).0;
    assert d1.p.committed <= d2.p.committed;
    var d3 := Marked(faults, d2, e).0;
    SealingTypesAtMostASeparator(faults, d3, e);
  }

  // ---- What was handled stays handled ----

  lemma {:induction false} RevisionsOnlyIncrease(faults: Faults, d: Desk, es: seq<Transcript>)
    ensures d.c.lastRevision <= AppliedAll(faults, d, es).c.lastRevision
  {
    if es != [] {
      RevisionsOnlyIncrease(faults, d, es[..|es| - 1]);
      OneRevision(faults, AppliedAll(faults, d, es[..|es| - 1]), es[|es| - 1]);
    }
  }

  lemma {:induction false} OneRevision(faults: Faults, d: Desk, e: Transcript)
    ensures var (d', outcome) := Applied(faults, d, e);
            && d.c.lastRevision <= d'.c.lastRevision
            && (outcome == Done || outcome == PrefixChanged ==> d'.c.lastRevision == e.revision)
  {
    var (d1, ok1) := Entered(faults, d, e);
    if ok1 && d1.c.committed <= e.stable {
      WritingSetsRevision(faults, d1, e);
    }
  }

  lemma {:induction false} SealingSetsRevision(faults: Faults, d: Desk, e: Transcript)
    ensures Sealed(faults, d, e).0.c.lastRevision == e.revision
  {
  }

  lemma {:induction false} WritingSetsRevision(faults: Faults, d: Desk, e: Transcript)
    requires d.c.committed <= e.stable
    ensures var (d', ok) := Written(faults, d, e);
            && (d'.c.lastRevision == d.c.lastRevision || d'.c.lastRevision == e.revision)
            && (ok ==> d'.c.lastRevision == e.revision)
  {
    OpeningTypesNothing(faults, d);
    var d1 := Opened(faults, d).0;
    var d2 := Grown(faults, d1, e.stable).0;
    assert d1.c.lastRevision == d2.c.lastRevision == d.c.lastRevision;
    SealingSetsRevision(faults, Marked(faults, d2, e).0, e);
  }

  /**
   * An event that was taken in, a final or a retraction included, is stale for ever after: whatever other
   * events come and whatever calls fail in between, replaying it touches nothing but a counter.
   */
  lemma {:induction false} ReplaysAreStale(faults: Faults, d: Desk, e: Transcript, es: seq<Transcript>)
    requires Applied(faults, d, e).1 == Done || Applied(faults, d, e).1 == PrefixChanged
    ensures var later := AppliedAll(faults, Applied(faults, d, e).0, es);
            Applied(faults, later, e) == (later.(c := later.c.(staleDiscarded := later.c.staleDiscarded + 1)), Stale)
  {
    OneRevision(faults, d, e);
    RevisionsOnlyIncrease(faults, Applied(faults, d, e).0, es);
  }

  // ---- The composer as the object the controller owns ----

  class TextComposer {
    const platform: FakePlatform
    var utteranceId: string
    var committed: string
    var lastRevision: int
    var composing: bool
    var livePreview: bool
    var wrote: bool
    var abandoned: string
    var staleDiscarded: nat
    var utterancesShown: nat

    ghost function State(): Composer
      reads this
    {
      Composer(utteranceId, committed, lastRevision, composing, livePreview, wrote, abandoned,
               staleDiscarded, utterancesShown)
    }

    ghost function Model(): Desk
      reads this, platform
    {
      Desk(State(), platform.Model())
    }

    constructor (platform: FakePlatform)
      ensures State() == NEW_COMPOSER && this.platform == platform
    {
      this.platform := platform;
      utteranceId, committed, lastRevision, composing, livePreview := "", "", 0, false, false;
      wrote, abandoned, staleDiscarded, utterancesShown := false, "", 0, 0;
    }

    method Apply(e: Transcript) returns (outcome: Outcome)
      modifies this, platform
      ensures (Model(), outcome) == Applied(platform.faults, old(Model()), e)
    {
      if e.revision <= lastRevision {
        staleDiscarded := staleDiscarded + 1;
        return Stale;
      }
      if e.utteranceId != "" && e.utteranceId == abandoned {
        staleDiscarded := staleDiscarded + 1;
        lastRevision := e.revision;
        return Stale;
      }
      var entered := Enter(e);
      if !entered {
        return PlatformFailed;
      }
      if !(committed <= e.stable) {
        var _ := CancelLocked();
        abandoned := e.utteranceId;
        committed := "";
        utteranceId := "";
        lastRevision := e.revision;
        return PrefixChanged;
      }
      var ok := Write(e);
      return if ok then Done else PlatformFailed;
    }

    /** A new utterance starts a fresh committed prefix. */
    method Enter(e: Transcript) returns (ok: bool)
      modifies this, platform
      ensures (Model(), ok) == Entered(platform.faults, old(Model()), e)
    {
      if e.utteranceId == utteranceId {
        return true;
      }
      ok := EndLocked();
      if ok {
        utteranceId := e.utteranceId;
        committed := "";
        wrote := false;
        utterancesShown := utterancesShown + 1;
      }
    }

    /** The second half of `Apply`: commit first, then re-mark, then seal. */
    method Write(e: Transcript) returns (ok: bool)
      requires committed <= e.stable
      modifies this, platform
      ensures (Model(), ok) == Written(platform.faults, old(Model()), e)
    {
      if !composing {
        ok := platform.BeginComposition();
        if !ok {
          return;
        }
        composing := true;
      }
      ok := CommitNewlyStable(e.stable);
      if !ok {
        return;
      }
      ok := platform.SetMarkedText(if livePreview then e.partial else "");
      if !ok {
        return;
      }
      ok := Seal(e);
    }

    method CommitNewlyStable(stable: string) returns (ok: bool)
      requires committed <= stable
      modifies this, platform
      ensures (Model(), ok) == Grown(platform.faults, old(Model()), stable)
    {
      var delta := stable[|committed|..];
      if delta == "" {
        return true;
      }
      ok := platform.CommitText(delta);
      if ok {
        committed := stable;
        wrote := true;
      }
    }

    method Seal(e: Transcript) returns (ok: bool)
      modifies this, platform
      ensures (Model(), ok) == Sealed(platform.faults, old(Model()), e)
    {
      lastRevision := e.revision;
      ok := true;
      if e.final {
        ok := SeparateLocked();
        if !ok {
          return;
        }
        ok := EndLocked();
        if !ok {
          return;
        }
        utteranceId := "";
        committed := "";
      }
    }

    method SeparateLocked() returns (ok: bool)
      modifies this, platform
      ensures (Model(), ok) == Separated(platform.faults, old(Model()))
    {
      if !wrote {
        return true;
      }
      wrote := false;
      if EndsInGap(committed) {
        return true;
      }
      ok := platform.CommitText(UTTERANCE_SEPARATOR);
    }

    method EndLocked() returns (ok: bool)
      modifies this, platform
      ensures (Model(), ok) == Ended(platform.faults, old(Model()))
    {
      if !composing {
        return true;
      }
      composing := false;
      ok := platform.EndComposition();
    }

    method CancelLocked() returns (ok: bool)
      modifies this, platform
      ensures (Model(), ok) == Cancelled(platform.faults, old(Model()))
    {
      if !composing {
        return true;
      }
      composing := false;
      ok := platform.CancelComposition();
    }

    method DropPartial() returns (ok: bool)
      modifies this, platform
      ensures (Model(), ok) == PartialDropped(platform.faults, old(Model()))
    {
      if !composing {
        return true;
      }
      ok := CancelLocked();
      if !ok {
        return;
      }
      abandoned := utteranceId;
      utteranceId := "";
      committed := "";
    }

    method Finish() returns (ok: bool)
      modifies this, platform
      ensures (Model(), ok) == Finished(platform.faults, old(Model()))
    {
      ok := EndLocked();
      if ok {
        ok := SeparateLocked();
      }
      abandoned := utteranceId;
      utteranceId := "";
      committed := "";
    }

    method Reset()
      modifies this
      ensures State() == AfterReset(old(State()))
    {
      utteranceId := "";
      committed := "";
      abandoned := "";
      lastRevision := 0;
      composing := false;
      wrote := false;
    }
  }
}
