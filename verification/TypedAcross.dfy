/**
 * Several utterances on one composer (client/internal/input/composer.go): entering one forgets what was typed for
 * the last, so the promise that nothing is typed twice depends on no utterance being entered again.
 */
module TypedAcross {
  import opened Basics
  import opened ComposerModel
  import FakePlatformModel
  import opened TypedOnce

  type Faults = FakePlatformModel.Faults

  // ---- What one event puts in the document for its utterance ----

  predicate IsNews(d: Desk, e: Transcript) {
    e.revision > d.c.lastRevision && (e.utteranceId == "" || e.utteranceId != d.c.abandoned)
  }

  /** What writing an event's stable text adds to the document. */
  function AddedBy(faults: Faults, d: Desk, e: Transcript): string {
    if !IsNews(d, e) then ""
    else
      var (d1, ok1) := Entered(faults, d, e);
      if ok1 && d1.c.committed <= e.stable then Beyond(d1.p.committed, Shown(faults, d1, e).0.p.committed) else ""
  }

  function Beyond(before: string, after: string): string {
    if before <= after then after[|before|..] else after
  }

  /** All that the events of a stream have put in the document for utterance `u`, after `had`. */
  function TypedFor(faults: Faults, d: Desk, es: seq<Transcript>, u: string, had: string): string {
    if es == [] then had
    else
      var init, e := es[..|es| - 1], es[|es| - 1];
      TypedFor(faults, d, init, u, had) +
      if e.utteranceId == u then AddedBy(faults, AppliedAll(faults, d, init), e) else ""
  }

  // ---- When that is a second time ----

  /** The calls on the way to the stable text all go out. */
  predicate GoesOut(faults: Faults, d: Desk, e: Transcript) {
    var (d1, ok1) := Entered(faults, d, e);
    ok1 && var (d2, ok2) := Opened(faults, d1);
    ok2 && d1.c.committed <= e.stable && Grown(faults, d2, e.stable).1
  }

  /**
   * The utterance is neither current nor abandoned, but text of it has been typed: it is entered again with an
   * empty record, and all of its stable text goes out.
   */
  predicate EntersAgain(faults: Faults, d: Desk, e: Transcript, had: string) {
    && IsNews(d, e) && e.utteranceId != d.c.utteranceId
    && had != "" && e.stable != "" && GoesOut(faults, d, e)
  }

  /** Whatever an event adds completes what its utterance had to the event's own stable text. */
  predicate Completes(added: string, had: string, stable: string) {
    added == "" || had + added == stable
  }

  lemma {:induction false} ShowingAdds(faults: Faults, d: Desk, e: Transcript)
    requires d.c.committed <= e.stable
    ensures var d' := Shown(faults, d, e).0;
            var out := Opened(faults, d).1 && Grown(faults, Opened(faults, d).0, e.stable).1;
            && d'.p.committed == d.p.committed + (if out then e.stable[|d.c.committed|..] else "")
            && d'.c.committed == (if out then e.stable else d.c.committed)
            && d'.c.utteranceId == d.c.utteranceId && d'.c.abandoned == d.c.abandoned
  {
    OpeningTypesNothing(faults, d);
    assert d.p.committed + "" == d.p.committed;
  }

  lemma {:induction false} AddedWhen(faults: Faults, d: Desk, e: Transcript)
    ensures AddedBy(faults, d, e) ==
              if IsNews(d, e) && GoesOut(faults, d, e) then e.stable[|Entered(faults, d, e).0.c.committed|..] else ""
  {
    var d1 := Entered(faults, d, e).0;
    if d1.c.committed <= e.stable {
      ShowingAdds(faults, d1, e);
    }
  }

  /**
   * With the record of a current utterance exact, an event types again what its utterance already has if and only if
   * it enters that utterance again.
   */
  lemma {:induction false} TypesAgainIff(faults: Faults, d: Desk, e: Transcript, had: string)
    requires e.utteranceId == d.c.utteranceId ==> d.c.committed == had
    ensures !Completes(AddedBy(faults, d, e), had, e.stable) <==> EntersAgain(faults, d, e, had)
    ensures EntersAgain(faults, d, e, had) ==> AddedBy(faults, d, e) == e.stable
  {
    AddedWhen(faults, d, e);
    var d1 := Entered(faults, d, e).0;
    assert e.stable[0..] == e.stable;
    if e.utteranceId == d.c.utteranceId {
      assert d1 == d;
      assert had <= e.stable ==> had + e.stable[|had|..] == e.stable;
    }
  }

  /** What the composer has recorded as typed for an utterance: nothing, unless it is current. */
  function Record(d: Desk, u: string): string {
    if u == d.c.utteranceId then d.c.committed else ""
  }

  /** The record lacks something that was typed, and what the event has beyond the record goes out. */
  predicate TypesOver(faults: Faults, d: Desk, e: Transcript, had: string) {
    && IsNews(d, e) && GoesOut(faults, d, e)
    && Record(d, e.utteranceId) != e.stable && Record(d, e.utteranceId) != had
  }

  /** The same whatever the record: an event fails to complete what its utterance had if and only if it types over it. */
  lemma {:induction false} TypesOverIff(faults: Faults, d: Desk, e: Transcript, had: string)
    ensures !Completes(AddedBy(faults, d, e), had, e.stable) <==> TypesOver(faults, d, e, had)
  {
    var record := Record(d, e.utteranceId);
    AddedWhen(faults, d, e);
    if IsNews(d, e) && GoesOut(faults, d, e) {
      assert Entered(faults, d, e).0.c.committed == record;
      OneWayToComplete(had, record, e.stable);
    }
  }

  lemma {:induction false} OneWayToComplete(had: string, record: string, stable: string)
    requires record <= stable
    ensures had + stable[|record|..] == stable <==> had == record
  {
    if had + stable[|record|..] == stable {
      assert |had| == |record|;
      assert stable[..|had|] == had;
    } else {
      assert record + stable[|record|..] == stable;
    }
  }

  // ---- Whole streams ----

  /** Each event of the stream completes what its utterance had. */
  predicate AllComplete(faults: Faults, d: Desk, es: seq<Transcript>, had: string -> string) {
    es == [] ||
    (var init, e := es[..|es| - 1], es[|es| - 1];
     && AllComplete(faults, d, init, had)
     && Completes(AddedBy(faults, AppliedAll(faults, d, init), e),
                  TypedFor(faults, d, init, e.utteranceId, had(e.utteranceId)), e.stable))
  }

  predicate NoneTypesOver(faults: Faults, d: Desk, es: seq<Transcript>, had: string -> string) {
    es == [] ||
    (var init, e := es[..|es| - 1], es[|es| - 1];
     && NoneTypesOver(faults, d, init, had)
     && !TypesOver(faults, AppliedAll(faults, d, init), e, TypedFor(faults, d, init, e.utteranceId, had(e.utteranceId))))
  }

  /** The event makes current an utterance of which text has been typed already. */
  predicate Reenters(faults: Faults, d: Desk, e: Transcript, had: string) {
    IsNews(d, e) && e.utteranceId != d.c.utteranceId && had != "" && Entered(faults, d, e).1
  }

  predicate NoneReenters(faults: Faults, d: Desk, es: seq<Transcript>, had: string -> string) {
    es == [] ||
    (var init, e := es[..|es| - 1], es[|es| - 1];
     && NoneReenters(faults, d, init, had)
     && !Reenters(faults, AppliedAll(faults, d, init), e, TypedFor(faults, d, init, e.utteranceId, had(e.utteranceId))))
  }

  predicate Named(es: seq<Transcript>) {
    forall i :: 0 <= i < |es| ==> es[i].utteranceId != ""
  }

  /** What an event leaves current: what was, its own utterance, or none; and how the record stands then. */
  lemma {:induction false} RecordAfter(faults: Faults, d: Desk, e: Transcript)
    ensures var d' := Applied(faults, d, e).0;
            || (d'.c.utteranceId == d.c.utteranceId && d'.c.committed == d.c.committed && AddedBy(faults, d, e) == "")
            || d'.c.utteranceId == ""
            || (d'.c.utteranceId == e.utteranceId
                && d'.c.committed == Record(d, e.utteranceId) + AddedBy(faults, d, e)
                && (e.utteranceId != d.c.utteranceId ==> IsNews(d, e) && Entered(faults, d, e).1))
  {
    AddedWhen(faults, d, e);
    if IsNews(d, e) {
      var (d1, ok1) := Entered(faults, d, e);
      if ok1 {
        RecordTakenIn(faults, d1, e);
      }
    }
  }

  lemma {:induction false} RecordTakenIn(faults: Faults, d: Desk, e: Transcript)
    ensures var d' := TakenIn(faults, d, e).0;
            var out := d.c.committed <= e.stable && Opened(faults, d).1 && Grown(faults, Opened(faults, d).0, e.stable).1;
            || d'.c.utteranceId == ""
            || (d'.c.utteranceId == d.c.utteranceId
                && d'.c.committed == d.c.committed + (if out then e.stable[|d.c.committed|..] else ""))
  {
    if d.c.committed <= e.stable {
      var (d1, ok) := Shown(faults, d, e);
      ShowingAdds(faults, d, e);
      assert d.c.committed + e.stable[|d.c.committed|..] == e.stable;
      assert d.c.committed + "" == d.c.committed;
      if ok {
        SealingKeepsRecord(faults, d1, e);
      }
    }
  }

  lemma {:induction false} SealingKeepsRecord(faults: Faults, d: Desk, e: Transcript)
    ensures var c := Sealed(faults, d, e).0.c;
            c.utteranceId == "" || (c.utteranceId == d.c.utteranceId && c.committed == d.c.committed)
  {
  }

  /**
   * Any stream of events, of any utterances, in any order, with any failures: every event completes what its utterance
   * had to its own stable text, so nothing is typed twice, if and only if none types over a record that lacks some of it.
   */
  lemma {:induction false} StreamTypesOnceIff(faults: Faults, d: Desk, es: seq<Transcript>, had: string -> string)
    ensures AllComplete(faults, d, es, had) <==> NoneTypesOver(faults, d, es, had)
  {
    if es != [] {
      var init, e := es[..|es| - 1], es[|es| - 1];
      StreamTypesOnceIff(faults, d, init, had);
      TypesOverIff(faults, AppliedAll(faults, d, init), e, TypedFor(faults, d, init, e.utteranceId, had(e.utteranceId)));
    }
  }

  /** The record of the current utterance is what has been typed for it. */
  predicate RecordIsExact(faults: Faults, d: Desk, es: seq<Transcript>, had: string -> string) {
    var c := AppliedAll(faults, d, es).c;
    c.utteranceId != "" ==> c.committed == TypedFor(faults, d, es, c.utteranceId, had(c.utteranceId))
  }

  /** And a record comes to lack something only by entering an utterance again: without that, nothing is typed twice. */
  lemma {:induction false} WithoutReentryTypesOnce(faults: Faults, d: Desk, es: seq<Transcript>, had: string -> string)
    requires Named(es) && RecordIsExact(faults, d, [], had) && NoneReenters(faults, d, es, had)
    ensures AllComplete(faults, d, es, had) && RecordIsExact(faults, d, es, had)
  {
    if es != [] {
      var init, e := es[..|es| - 1], es[|es| - 1];
      var before := AppliedAll(faults, d, init);
      WithoutReentryTypesOnce(faults, d, init, had);
      TypesAgainIff(faults, before, e, TypedFor(faults, d, init, e.utteranceId, had(e.utteranceId)));
      RecordAfter(faults, before, e);
      RecordStays(faults, d, es, had);
    }
  }

  lemma {:induction false} RecordStays(faults: Faults, d: Desk, es: seq<Transcript>, had: string -> string)
    requires es != [] && Named(es) && RecordIsExact(faults, d, es[..|es| - 1], had)
    requires var init, e := es[..|es| - 1], es[|es| - 1];
             !Reenters(faults, AppliedAll(faults, d, init), e, TypedFor(faults, d, init, e.utteranceId, had(e.utteranceId)))
    ensures RecordIsExact(faults, d, es, had)
  {
    var init, e := es[..|es| - 1], es[|es| - 1];
    var before, typed := AppliedAll(faults, d, init), TypedFor(faults, d, init, e.utteranceId, had(e.utteranceId));
    RecordAfter(faults, before, e);
    assert typed + "" == typed && "" + AddedBy(faults, before, e) == AddedBy(faults, before, e);
    var u := before.c.utteranceId;
    assert TypedFor(faults, d, init, u, had(u)) + "" == TypedFor(faults, d, init, u, had(u));
  }

  // ---- One utterance after another ----

  /** The events of one utterance, its final numbered highest, in any order and as often as may be. */
  datatype Block = Block(u: string, top: int, es: seq<Transcript>)

  function Flattened(blocks: seq<Block>): seq<Transcript> {
    if blocks == [] then [] else Flattened(blocks[..|blocks| - 1]) + blocks[|blocks| - 1].es
  }

  predicate WellFormed(blocks: seq<Block>) {
    && (forall i :: 0 <= i < |blocks| ==> blocks[i].u != "" && OfUtterance(blocks[i].es, blocks[i].u, blocks[i].top))
    && (forall i, j :: 0 <= i < j < |blocks| ==> blocks[i].u != blocks[j].u)
  }

  /** The desk knows nothing of any of the utterances. */
  predicate NewTo(d: Desk, blocks: seq<Block>) {
    forall i :: 0 <= i < |blocks| ==> d.c.utteranceId != blocks[i].u && d.c.abandoned != blocks[i].u
  }

  /** What one utterance leaves: a mark kept from the one before, its text, its separator, its own mark. */
  datatype Part = Part(kept: string, text: string, separator: string, rest: string)

  function Told(parts: seq<Part>): string {
    if parts == [] then ""
    else
      var n := |parts| - 1;
      Told(parts[..n]) + (parts[n].kept + parts[n].text + parts[n].separator + parts[n].rest)
  }

  /** The text is one of the block's stable texts, or none of it came through; the rest is as it should be. */
  predicate PartOf(part: Part, block: Block, livePreview: bool) {
    && (part.text == "" || exists i :: 0 <= i < |block.es| && block.es[i].stable == part.text)
    && (part.separator == "" || part.separator == SeparatorOf(part.text))
    && (part.rest == "" || (livePreview && exists i :: 0 <= i < |block.es| && block.es[i].final && block.es[i].partial == part.rest))
  }

  predicate PartsOf(parts: seq<Part>, blocks: seq<Block>, livePreview: bool) {
    |parts| == |blocks| && forall i :: 0 <= i < |parts| ==> PartOf(parts[i], blocks[i], livePreview)
  }

  predicate Unmarked(parts: seq<Part>) {
    forall i :: 0 <= i < |parts| ==> parts[i].kept == "" && parts[i].rest == ""
  }

  lemma {:induction false} AppliedInTwo(faults: Faults, d: Desk, first: seq<Transcript>, second: seq<Transcript>)
    ensures AppliedAll(faults, d, first + second) == AppliedAll(faults, AppliedAll(faults, d, first), second)
  {
    if second == [] {
      assert first + second == first;
    } else {
      var n := |second| - 1;
      assert (first + second)[..|first + second| - 1] == first + second[..n];
      AppliedInTwo(faults, d, first, second[..n]);
    }
  }

  /** Events of one utterance leave the desk as it was to every other. */
  lemma {:induction false} OthersStayNew(faults: Faults, d: Desk, e: Transcript)
    ensures var d' := Applied(faults, d, e).0;
            && d'.c.utteranceId in [d.c.utteranceId, e.utteranceId, ""]
            && d'.c.abandoned in [d.c.abandoned, e.utteranceId]
            && (!d.c.livePreview && d.p.marked == "" ==> !d'.c.livePreview && d'.p.marked == "")
  {
    var (d1, ok1) := Entered(faults, d, e);
    if ok1 && d1.c.committed <= e.stable {
      WritingStays(faults, d1, e);
    }
  }

  lemma {:induction false} WritingStays(faults: Faults, d: Desk, e: Transcript)
    requires d.c.committed <= e.stable
    ensures var d' := Written(faults, d, e).0;
            && d'.c.utteranceId in [d.c.utteranceId, ""] && d'.c.abandoned == d.c.abandoned
            && (!d.c.livePreview && d.p.marked == "" ==> !d'.c.livePreview && d'.p.marked == "")
  {
    var (d1, ok) := Shown(faults, d, e);
    ShowingStays(faults, d, e);
    if ok {
      SealingStays(faults, d1, e);
    }
  }

  lemma {:induction false} ShowingStays(faults: Faults, d: Desk, e: Transcript)
    requires d.c.committed <= e.stable
    ensures var d' := Shown(faults, d, e).0;
            && d'.c.utteranceId == d.c.utteranceId && d'.c.abandoned == d.c.abandoned
            && d'.c.livePreview == d.c.livePreview
            && (!d.c.livePreview && d.p.marked == "" ==> d'.p.marked == "")
  {
  }

  lemma {:induction false} SealingStays(faults: Faults, d: Desk, e: Transcript)
    ensures var d' := Sealed(faults, d, e).0;
            && d'.c.utteranceId in [d.c.utteranceId, ""] && d'.c.abandoned == d.c.abandoned
            && d'.c.livePreview == d.c.livePreview
            && (d.p.marked == "" ==> d'.p.marked == "")
  {
  }

  lemma {:induction false} BlockStaysAway(faults: Faults, d: Desk, block: Block)
    requires OfUtterance(block.es, block.u, block.top)
    ensures var d' := AppliedAll(faults, d, block.es);
            && d'.c.utteranceId in [d.c.utteranceId, block.u, ""]
            && d'.c.abandoned in [d.c.abandoned, block.u]
            && (!d.c.livePreview && d.p.marked == "" ==> !d'.c.livePreview && d'.p.marked == "")
    decreases |block.es|
  {
    if block.es != [] {
      var init := block.es[..|block.es| - 1];
      BlockStaysAway(faults, d, Block(block.u, block.top, init));
      OthersStayNew(faults, AppliedAll(faults, d, init), block.es[|init|]);
    }
  }

  lemma {:induction false} BlocksStayAway(faults: Faults, d: Desk, blocks: seq<Block>, u: string)
    requires WellFormed(blocks) && u != "" && d.c.utteranceId != u && d.c.abandoned != u
    requires forall i :: 0 <= i < |blocks| ==> blocks[i].u != u
    ensures var d' := AppliedAll(faults, d, Flattened(blocks));
            && d'.c.utteranceId != u && d'.c.abandoned != u
            && (!d.c.livePreview && d.p.marked == "" ==> !d'.c.livePreview && d'.p.marked == "")
    decreases |blocks|
  {
    if blocks != [] {
      var init, last := blocks[..|blocks| - 1], blocks[|blocks| - 1];
      BlocksStayAway(faults, d, init, u);
      FlattenedSnoc(faults, d, blocks);
      BlockStaysAway(faults, AppliedAll(faults, d, Flattened(init)), last);
    }
  }

  lemma {:induction false} FlattenedSnoc(faults: Faults, d: Desk, blocks: seq<Block>)
    requires blocks != []
    ensures var init, last := blocks[..|blocks| - 1], blocks[|blocks| - 1];
            AppliedAll(faults, d, Flattened(blocks)) == AppliedAll(faults, AppliedAll(faults, d, Flattened(init)), last.es)
  {
    AppliedInTwo(faults, d, Flattened(blocks[..|blocks| - 1]), blocks[|blocks| - 1].es);
  }

  /** One more utterance, on a desk that does not know it. */
  lemma {:induction false} OneMoreBlock(faults: Faults, d: Desk, block: Block) returns (part: Part)
    requires block.u != "" && OfUtterance(block.es, block.u, block.top)
    requires d.c.utteranceId != block.u && d.c.abandoned != block.u
    ensures var d' := AppliedAll(faults, d, block.es);
            && d'.p.committed == d.p.committed + (part.kept + part.text + part.separator + part.rest)
            && PartOf(part, block, d.c.livePreview) && (part.kept == "" || part.kept == d.p.marked)
            && d'.c.livePreview == d.c.livePreview
  {
    var w := Typing(Before, d.p.committed, "", "", "");
    assert w.Document() == d.p.committed;
    var w' := RetriesTypeOnce(faults, d, block.u, block.top, block.es, w);
    part := PartFrom(d.p.committed, d.p.marked, w');
    ToldBy(AppliedAll(faults, d, block.es), block.u, block.top, w');
  }

  /** The part that a telling comes to, after a base. */
  lemma {:induction false} PartFrom(base: string, mark: string, w: Typing) returns (part: Part)
    requires w.base == base || w.base == base + mark
    ensures (part.kept == "" || part.kept == mark) && part == Part(part.kept, w.text, w.separator, w.rest)
    ensures w.Document() == base + (part.kept + part.text + part.separator + part.rest)
  {
    part := Part(if w.base == base then "" else mark, w.text, w.separator, w.rest);
    assert w.base == base + part.kept;
    assert base + part.kept + w.text + w.separator + w.rest == base + (part.kept + w.text + w.separator + w.rest);
  }

  lemma {:induction false} ToldBy(d: Desk, u: string, top: int, w: Typing)
    requires Tells(d, u, top, w)
    ensures d.p.committed == w.Document()
    ensures w.separator == "" || w.separator == SeparatorOf(w.text)
  {
  }

  /** From `d` to `d'`, the document has grown by exactly these parts, and by bare text without live preview. */
  predicate Grew(d: Desk, d': Desk, parts: seq<Part>, blocks: seq<Block>) {
    && PartsOf(parts, blocks, d.c.livePreview)
    && d'.p.committed == d.p.committed + Told(parts)
    && d'.c.livePreview == d.c.livePreview
    && (!d.c.livePreview && d.p.marked == "" ==> Unmarked(parts) && d'.p.marked == "")
  }

  /**
   * Utterance after utterance, the events of each in any order, repeated, any of their calls failing: the document is
   * what it was, and then each utterance's text once, with at most its separator. Without live preview, nothing else.
   */
  lemma {:induction false} BlocksTypeOnce(faults: Faults, d: Desk, blocks: seq<Block>) returns (parts: seq<Part>)
    requires WellFormed(blocks) && NewTo(d, blocks)
    ensures Grew(d, AppliedAll(faults, d, Flattened(blocks)), parts, blocks)
    decreases |blocks|
  {
    if blocks == [] {
      parts := [];
      assert d.p.committed + Told([]) == d.p.committed;
    } else {
      var init, last := blocks[..|blocks| - 1], blocks[|blocks| - 1];
      var before := AppliedAll(faults, d, Flattened(init));
      var sofar := BlocksTypeOnce(faults, d, init);
      BlocksStayAway(faults, d, init, last.u);
      parts := GrowsByOne(faults, d, before, sofar, init, last);
      AppliedInTwo(faults, d, Flattened(init), last.es);
      assert init + [last] == blocks;
    }
  }

  lemma {:induction false} GrowsByOne(faults: Faults, d: Desk, before: Desk, sofar: seq<Part>, init: seq<Block>, last: Block)
    returns (parts: seq<Part>)
    requires Grew(d, before, sofar, init)
    requires last.u != "" && OfUtterance(last.es, last.u, last.top)
    requires before.c.utteranceId != last.u && before.c.abandoned != last.u
    ensures Grew(d, AppliedAll(faults, before, last.es), parts, init + [last])
  {
    var part := OneMoreBlock(faults, before, last);
    BlockStaysAway(faults, before, last);
    parts := sofar + [part];
    ToldMore(d.p.committed, sofar, part);
    PartsMore(sofar, init, part, last, d.c.livePreview);
  }

  lemma {:induction false} PartsMore(parts: seq<Part>, blocks: seq<Block>, part: Part, block: Block, livePreview: bool)
    requires PartsOf(parts, blocks, livePreview) && PartOf(part, block, livePreview)
    ensures PartsOf(parts + [part], blocks + [block], livePreview)
    ensures Unmarked(parts) && part.kept == "" && part.rest == "" ==> Unmarked(parts + [part])
  {
  }

  lemma {:induction false} ToldMore(base: string, parts: seq<Part>, part: Part)
    ensures base + Told(parts + [part]) == base + Told(parts) + (part.kept + part.text + part.separator + part.rest)
  {
    assert (parts + [part])[..|parts|] == parts;
  }

  // ---- Where it goes wrong ----

  /**
   * An utterance entered again: the first is current, the commits of its later events and of the next utterance's fail,
   * and then an event of the first comes once more. It is taken in, and its opening is typed a second time.
   */
  lemma {:induction false} ReentryTypesTwice()
    ensures var faults: Faults := n => n == 3 || n == 4 || n == 7;
            var field := FakePlatformModel.Platform("", "", false, 0);
            var es := [Transcript("u0", 1, "a", "", false), Transcript("u0", 2, "ab", "", false),
                       Transcript("u0", 3, "ab", "", true), Transcript("u1", 4, "c", "", false)];
            var again := Transcript("u0", 2, "ab", "", false);
            var (d', outcome) := Applied(faults, AppliedAll(faults, Desk(NEW_COMPOSER, field), es), again);
            outcome == Done && d'.p.committed == "aab"
  {
    var faults: Faults := n => n == 3 || n == 4 || n == 7;
    var d0 := Desk(NEW_COMPOSER, FakePlatformModel.Platform("", "", false, 0));
    var e1, e2 := Transcript("u0", 1, "a", "", false), Transcript("u0", 2, "ab", "", false);
    var e3, e4 := Transcript("u0", 3, "ab", "", true), Transcript("u1", 4, "c", "", false);
    FourApplied(faults, d0, e1, e2, e3, e4);
    FirstEvent(faults);
    FailedCommits(faults);
    NextUtteranceFails(faults);
    FirstUtteranceAgain(faults);
  }

  /** The desk in the first utterance, with one character typed. */
  function InFirst(calls: nat): Desk {
    Desk(NEW_COMPOSER.(utteranceId := "u0", committed := "a", lastRevision := 1, composing := true, wrote := true,
                       utterancesShown := 1),
         FakePlatformModel.Platform("a", "", true, calls))
  }

  /** The desk in the second, of which nothing came through. */
  function InSecond(): Desk {
    Desk(NEW_COMPOSER.(utteranceId := "u1", lastRevision := 1, composing := true, utterancesShown := 2),
         FakePlatformModel.Platform("a", "", true, 8))
  }

  lemma {:induction false} FirstEvent(faults: Faults)
    requires !faults(0) && !faults(1) && !faults(2)
    ensures Applied(faults, Desk(NEW_COMPOSER, FakePlatformModel.Platform("", "", false, 0)),
                    Transcript("u0", 1, "a", "", false)) == (InFirst(3), Done)
  {
    assert "" + "a" == "a" && "a"[0..] == "a";
  }

  lemma {:induction false} FailedCommits(faults: Faults)
    requires faults(3) && faults(4)
    ensures Applied(faults, InFirst(3), Transcript("u0", 2, "ab", "", false)).0 == InFirst(4)
    ensures Applied(faults, InFirst(4), Transcript("u0", 3, "ab", "", true)).0 == InFirst(5)
  {
    assert "ab"[1..] == "b" && "a" <= "ab";
  }

  lemma {:induction false} NextUtteranceFails(faults: Faults)
    requires !faults(5) && !faults(6) && faults(7)
    ensures Applied(faults, InFirst(5), Transcript("u1", 4, "c", "", false)).0 == InSecond()
  {
    assert "c"[0..] == "c" && "a" + "" == "a";
  }

  lemma {:induction false} FirstUtteranceAgain(faults: Faults)
    requires !faults(8) && !faults(9) && !faults(10) && !faults(11)
    ensures var (d, outcome) := Applied(faults, InSecond(), Transcript("u0", 2, "ab", "", false));
            outcome == Done && d.p.committed == "aab"
  {
    assert "ab"[0..] == "ab" && "a" + "" == "a" && "a" + "ab" == "aab";
  }

  lemma {:induction false} FourApplied(faults: Faults, d: Desk, e1: Transcript, e2: Transcript, e3: Transcript, e4: Transcript)
    ensures AppliedAll(faults, d, [e1, e2, e3, e4])
         == Applied(faults, Applied(faults, Applied(faults, Applied(faults, d, e1).0, e2).0, e3).0, e4).0
  {
    assert [e1, e2, e3, e4] == [e1] + ([e2] + ([e3] + [e4]));
    AppliedInTwo(faults, d, [e1], [e2] + ([e3] + [e4]));
    OneApplied(faults, d, e1);
    AppliedInTwo(faults, Applied(faults, d, e1).0, [e2], [e3] + [e4]);
    OneApplied(faults, Applied(faults, d, e1).0, e2);
    var d2 := Applied(faults, Applied(faults, d, e1).0, e2).0;
    AppliedInTwo(faults, d2, [e3], [e4]);
    OneApplied(faults, d2, e3);
    OneApplied(faults, Applied(faults, d2, e3).0, e4);
  }

  lemma {:induction false} OneApplied(faults: Faults, d: Desk, e: Transcript)
    ensures AppliedAll(faults, d, [e]) == Applied(faults, d, e).0
  {
    assert [e][..0] == [];
  }
}
