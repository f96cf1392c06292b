/** What a client may rely on in the stream of transcripts (protocol/v1/protocol.md, section "Invariants"). */
module EventLog {
  import opened SessionModel

  type TranscriptEvent = e: Event | e.Transcript? witness Transcript(0, 0, "", "", false)

  function Transcripts(events: seq<Event>): seq<TranscriptEvent> {
    if events == [] then []
    else
      var n := |events| - 1;
      Transcripts(events[..n]) + if events[n].Transcript? then [events[n]] else []
  }

  /** Revisions are 1, 2, 3, … without a gap. */
  predicate Numbered(ts: seq<TranscriptEvent>) {
    ts == [] || (Numbered(ts[..|ts| - 1]) && ts[|ts| - 1].revision == |ts|)
  }

  /**
   * `b` may come right after `a`: nothing follows a final for its utterance, committed text that was shown
   * does not vanish, an utterance that shows some is only left through its final, and no event says over what
   * the one before it said.
   */
  predicate Follows(a: TranscriptEvent, b: TranscriptEvent) {
    && a.utterance <= b.utterance
    && (a.final ==> a.utterance < b.utterance)
    && (a.utterance == b.utterance && a.stable != "" ==> b.stable != "")
    && (a.utterance < b.utterance ==> a.final || a.stable == "")
    && !SaysOver(a, b)
  }

  predicate SaysOver(a: TranscriptEvent, b: TranscriptEvent) {
    a.utterance == b.utterance && a.stable == b.stable && a.partial == b.partial && !b.final
  }

  predicate Chained(ts: seq<TranscriptEvent>) {
    |ts| <= 1 || (Chained(ts[..|ts| - 1]) && Follows(ts[|ts| - 2], ts[|ts| - 1]))
  }

  /** `stable` is append-only from `a` to `b`. */
  predicate Grows(a: TranscriptEvent, b: TranscriptEvent) {
    a.utterance == b.utterance ==> a.stable <= b.stable
  }

  predicate Growing(ts: seq<TranscriptEvent>) {
    |ts| <= 1 || (Growing(ts[..|ts| - 1]) && Grows(ts[|ts| - 2], ts[|ts| - 1]))
  }

  // ---- From neighbours to any two events ----

  lemma {:induction false} NumberedAt(ts: seq<TranscriptEvent>, i: nat)
    requires Numbered(ts) && i < |ts|
    ensures ts[i].revision == i + 1
  {
    if i < |ts| - 1 {
      NumberedAt(ts[..|ts| - 1], i);
    }
  }

  /** A final is the last event of its utterance. */
  lemma {:induction false} FinalIsTerminal(ts: seq<TranscriptEvent>, i: nat, j: nat)
    requires Chained(ts) && i < j < |ts|
    ensures ts[i].utterance <= ts[j].utterance
    ensures ts[i].final ==> ts[i].utterance < ts[j].utterance
  {
    var init := ts[..|ts| - 1];
    if j < |ts| - 1 {
      FinalIsTerminal(init, i, j);
    } else if i < j - 1 {
      FinalIsTerminal(init, i, j - 1);
    }
  }

  /** Once an utterance has shown committed text, every later event of it shows some. */
  lemma {:induction false} ShownTextStays(ts: seq<TranscriptEvent>, i: nat, j: nat)
    requires Chained(ts) && i <= j < |ts|
    requires ts[i].utterance == ts[j].utterance && ts[i].stable != ""
    ensures ts[j].stable != ""
  {
    var init := ts[..|ts| - 1];
    if j < |ts| - 1 {
      ShownTextStays(init, i, j);
    } else if i < j {
      if i < j - 1 {
        FinalIsTerminal(init, i, j - 1);
      }
      ShownTextStays(init, i, j - 1);
    }
  }

  /** An utterance that ever showed committed text has its one final before anything of a later utterance. */
  lemma {:induction false} ShownTextIsSealed(ts: seq<TranscriptEvent>, i: nat, j: nat) returns (k: nat)
    requires Chained(ts) && i < j < |ts|
    requires ts[i].utterance < ts[j].utterance && ts[i].stable != ""
    ensures i <= k < j && ts[k].utterance == ts[i].utterance && ts[k].final
    ensures forall m :: 0 <= m < |ts| && m != k ==> !(ts[m].final && ts[m].utterance == ts[i].utterance)
  {
    k := SealedBefore(ts, i, j);
    forall m | 0 <= m < |ts| && m != k
      ensures !(ts[m].final && ts[m].utterance == ts[i].utterance)
    {
      FinalIsTerminal(ts, if m < k then m else k, if m < k then k else m);
    }
  }

  lemma {:induction false} SealedBefore(ts: seq<TranscriptEvent>, i: nat, j: nat) returns (k: nat)
    requires Chained(ts) && i < j < |ts|
    requires ts[i].utterance < ts[j].utterance && ts[i].stable != ""
    ensures i <= k < j && ts[k].utterance == ts[i].utterance && ts[k].final
  {
    var init := ts[..|ts| - 1];
    if j < |ts| - 1 {
      k := SealedBefore(init, i, j);
    } else if ts[j - 1].utterance == ts[i].utterance {
      ShownTextStays(init, i, j - 1);
      k := j - 1;
    } else {
      FinalIsTerminal(init, i, j - 1);
      k := SealedBefore(init, i, j - 1);
    }
  }

  /** `stable` is append-only between any two events of an utterance. */
  lemma {:induction false} GrowsThroughout(ts: seq<TranscriptEvent>, i: nat, j: nat)
    requires Chained(ts) && Growing(ts) && i <= j < |ts|
    ensures Grows(ts[i], ts[j])
  {
    var init := ts[..|ts| - 1];
    if j < |ts| - 1 {
      GrowsThroughout(init, i, j);
    } else if i < j {
      GrowsThroughout(init, i, j - 1);
      if i < j - 1 {
        FinalIsTerminal(init, i, j - 1);
      }
    }
  }

  lemma {:induction false} NothingElseIsATranscript(events: seq<Event>, e: Event)
    ensures Transcripts(events + [e]) == Transcripts(events) + if e.Transcript? then [e] else []
  {
    assert (events + [e])[..|events|] == events;
  }
}
