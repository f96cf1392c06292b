/** The frame timeline and the two questions asked of it (server/app/streaming/vad.py). */
module SpeechTimeline {
  import opened Basics

  /** One classified frame; durations are kept because the detector can be swapped for another size. */
  datatype Frame = Frame(samples: nat, speech: bool)

  datatype Span = NoSpeech | Speech(head: nat, tail: nat)

  function Total(timeline: seq<Frame>): nat {
    if timeline == [] then 0 else timeline[0].samples + Total(timeline[1..])
  }

  predicate Positive(timeline: seq<Frame>) {
    forall i :: 0 <= i < |timeline| ==> timeline[i].samples > 0
  }

  // ---- The reference: one label per sample ----

  function Repeated(samples: nat, speech: bool): seq<bool> {
    seq(samples, _ => speech)
  }

  function Labels(timeline: seq<Frame>): seq<bool> {
    if timeline == [] then []
    else Labels(timeline[..|timeline| - 1])
         + Repeated(timeline[|timeline| - 1].samples, timeline[|timeline| - 1].speech)
  }

  function CountTrue(labels: seq<bool>): nat {
    if labels == [] then 0
    else CountTrue(labels[..|labels| - 1]) + if labels[|labels| - 1] then 1 else 0
  }

  function LastOf<T>(s: seq<T>, n: nat): seq<T> {
    if n <= |s| then s[|s| - n..] else s
  }

  /** `speech_seconds_in_last`: how many of the last `n` samples are labelled speech. */
  function SpeechInLast(timeline: seq<Frame>, n: nat): nat {
    CountTrue(LastOf(Labels(timeline), n))
  }

  /** The first and one past the last speech label; `|labels|` and 0 when there is none. */
  function FirstTrue(labels: seq<bool>): (i: nat)
    ensures i <= |labels|
  {
    if labels == [] || labels[0] then 0 else 1 + FirstTrue(labels[1..])
  }

  function LastTrue(labels: seq<bool>): (i: nat)
    ensures i <= |labels|
  {
    if labels == [] || labels[|labels| - 1] then |labels| else LastTrue(labels[..|labels| - 1])
  }

  /** The hull of the speech in `labels`, which start at `at`, padded and clamped to a window of `n`. */
  function Hull(labels: seq<bool>, n: nat, at: int, pad: nat): Span {
    if true !in labels then NoSpeech
    else Speech(Max(0, at + FirstTrue(labels) - pad), Max(0, Min(n, at + LastTrue(labels) + pad)))
  }

  /** `speech_span_in_last`: where the speech sits inside the last `n` samples. */
  function SpanInLast(timeline: seq<Frame>, n: nat, pad: nat): Span {
    var labels := LastOf(Labels(timeline), n);
    Hull(labels, n, n - |labels|, pad)
  }

  // ---- Facts about labels ----

  lemma {:induction false} FirstTrueIs(labels: seq<bool>)
    ensures var i := FirstTrue(labels);
            (i < |labels| ==> labels[i]) && (forall k :: 0 <= k < i ==> !labels[k])
  {
    if labels != [] && !labels[0] {
      FirstTrueIs(labels[1..]);
      assert forall k :: 0 < k < |labels| ==> labels[k] == labels[1..][k - 1];
    }
  }

  lemma {:induction false} LastTrueIs(labels: seq<bool>)
    ensures var i := LastTrue(labels);
            (i > 0 ==> labels[i - 1]) && (forall k :: i <= k < |labels| ==> !labels[k])
  {
    if labels != [] && !labels[|labels| - 1] {
      LastTrueIs(labels[..|labels| - 1]);
    }
  }

  lemma {:induction false} CountTrueAppend(a: seq<bool>, b: seq<bool>)
    ensures CountTrue(a + b) == CountTrue(a) + CountTrue(b)
  {
    if b == [] {
      assert a + b == a;
    } else {
      assert (a + b)[..|a + b| - 1] == a + b[..|b| - 1];
      CountTrueAppend(a, b[..|b| - 1]);
    }
  }

  lemma {:induction false} CountRepeated(n: nat, speech: bool)
    ensures CountTrue(Repeated(n, speech)) == if speech then n else 0
  {
    if n > 0 {
      assert Repeated(n, speech)[..n - 1] == Repeated(n - 1, speech);
      CountRepeated(n - 1, speech);
    }
  }

  /** Nothing is counted exactly when no label says speech. */
  lemma {:induction false} CountZero(labels: seq<bool>)
    ensures CountTrue(labels) == 0 <==> true !in labels
  {
    if labels != [] {
      var init, last := labels[..|labels| - 1], labels[|labels| - 1];
      CountZero(init);
      assert labels == init + [last];
    }
  }

  lemma {:induction false} LabelsAppend(a: seq<Frame>, b: seq<Frame>)
    ensures Labels(a + b) == Labels(a) + Labels(b)
  {
    if b == [] {
      assert a + b == a;
    } else {
      assert (a + b)[..|a + b| - 1] == a + b[..|b| - 1];
      LabelsAppend(a, b[..|b| - 1]);
    }
  }

  lemma {:induction false} TotalSplit(timeline: seq<Frame>, k: nat)
    requires k <= |timeline|
    ensures Total(timeline) == Total(timeline[..k]) + Total(timeline[k..])
  {
    if k == 0 {
      assert timeline[0..] == timeline;
    } else {
      TotalSplit(timeline[1..], k - 1);
      assert timeline[1..][..k - 1] == timeline[..k][1..];
      assert timeline[1..][k - 1..] == timeline[k..];
    }
  }

  lemma {:induction false} TotalSnoc(timeline: seq<Frame>, frame: Frame)
    ensures Total(timeline + [frame]) == Total(timeline) + frame.samples
  {
    TotalSplit(timeline + [frame], |timeline|);
    assert (timeline + [frame])[..|timeline|] == timeline;
    assert Total([frame]) == frame.samples + Total([]);
  }

  lemma {:induction false} LabelsLength(timeline: seq<Frame>)
    ensures |Labels(timeline)| == Total(timeline)
  {
    if timeline != [] {
      var n := |timeline| - 1;
      LabelsLength(timeline[..n]);
      TotalSnoc(timeline[..n], timeline[n]);
      assert timeline[..n] + [timeline[n]] == timeline;
    }
  }

  // ---- The walk back that counts speech ----

  lemma {:induction false} WalkBackOne(timeline: seq<Frame>, n: nat)
    requires timeline != []
    ensures var f := timeline[|timeline| - 1];
            SpeechInLast(timeline, n)
            == SpeechInLast(timeline[..|timeline| - 1], Max(0, n - f.samples)) + if f.speech then Min(f.samples, n) else 0
  {
    var init, f := timeline[..|timeline| - 1], timeline[|timeline| - 1];
    var older, newer := Labels(init), Repeated(f.samples, f.speech);
    if n <= f.samples {
      assert LastOf(older + newer, n) == Repeated(n, f.speech);
      assert LastOf(older, 0) == [];
      CountRepeated(n, f.speech);
    } else {
      assert LastOf(older + newer, n) == LastOf(older, n - f.samples) + newer;
      CountTrueAppend(LastOf(older, n - f.samples), newer);
      CountRepeated(f.samples, f.speech);
    }
  }

  method SpeechSamplesInLast(timeline: seq<Frame>, samples: nat) returns (total: nat)
    ensures total == SpeechInLast(timeline, samples)
  {
    var remaining: int := samples;
    total := 0;
    var i := |timeline|;
    assert timeline[..i] == timeline;
    while i > 0 && remaining > 0
      invariant 0 <= i <= |timeline|
      invariant total + SpeechInLast(timeline[..i], Max(0, remaining)) == SpeechInLast(timeline, samples)
    {
      WalkBackOne(timeline[..i], remaining);
      i := i - 1;
      assert timeline[..i + 1][..i] == timeline[..i];
      var frame := timeline[i];
      if frame.speech {
        total := total + Min(frame.samples, remaining);
      }
      remaining := remaining - frame.samples;
    }
    assert LastOf(Labels(timeline[..i]), Max(0, remaining)) == [];
  }

  // ---- The walk back and forth that places speech ----

  lemma {:induction false} FirstTrueAppend(a: seq<bool>, b: seq<bool>)
    ensures FirstTrue(a + b) == if FirstTrue(a) < |a| then FirstTrue(a) else |a| + FirstTrue(b)
  {
    var i := if FirstTrue(a) < |a| then FirstTrue(a) else |a| + FirstTrue(b);
    FirstTrueIs(a);
    FirstTrueIs(b);
    FirstTrueUnique(a + b, i);
  }

  lemma {:induction false} FirstTrueUnique(labels: seq<bool>, i: nat)
    requires i <= |labels| && (i < |labels| ==> labels[i])
    requires forall k :: 0 <= k < i ==> !labels[k]
    ensures FirstTrue(labels) == i
  {
    FirstTrueIs(labels);
  }

  lemma {:induction false} LastTrueUnique(labels: seq<bool>, i: nat)
    requires i <= |labels| && (i > 0 ==> labels[i - 1])
    requires forall k :: i <= k < |labels| ==> !labels[k]
    ensures LastTrue(labels) == i
  {
    LastTrueIs(labels);
  }

  /** One frame further on: speech starts with the first frame of it and ends with the last. */
  lemma {:induction false} PlaceOne(before: seq<bool>, frame: Frame)
    requires frame.samples > 0
    ensures var after := before + Repeated(frame.samples, frame.speech);
            && LastTrue(after) == (if frame.speech then |after| else LastTrue(before))
            && FirstTrue(after) == (if LastTrue(before) > 0 then FirstTrue(before)
                                    else if frame.speech then |before| else |after|)
  {
    var newer := Repeated(frame.samples, frame.speech);
    var after := before + newer;
    FirstTrueIs(before);
    LastTrueIs(before);
    if frame.speech {
      assert after[|after| - 1] == newer[frame.samples - 1];
      LastTrueUnique(after, |after|);
      FirstTrueUnique(newer, 0);
    } else {
      FirstTrueUnique(newer, frame.samples);
      LastTrueUnique(after, LastTrue(before));
    }
    assert LastTrue(before) > 0 ==> before[LastTrue(before) - 1];
    assert LastTrue(before) > 0 <==> FirstTrue(before) < |before|;
    FirstTrueAppend(before, newer);
  }

  lemma {:induction false} FirstPastEdge(labels: seq<bool>, over: nat)
    requires over < |labels| && true in labels
    requires forall k :: 0 <= k <= over ==> labels[k] == labels[0]
    ensures if labels[0] then FirstTrue(labels) == 0 && FirstTrue(labels[over..]) == 0
            else FirstTrue(labels) == over + FirstTrue(labels[over..])
  {
    var window := labels[over..];
    assert window[0] == labels[over];
    if labels[0] {
      FirstTrueUnique(labels, 0);
      FirstTrueUnique(window, 0);
    } else {
      FirstTrueUnique(labels[..over], over);
      assert labels[..over] + window == labels;
      FirstTrueAppend(labels[..over], window);
    }
  }

  lemma {:induction false} LastPastEdge(labels: seq<bool>, over: nat)
    requires over < |labels| && true in labels
    requires forall k :: 0 <= k <= over ==> labels[k] == labels[0]
    ensures true in labels[over..]
    ensures LastTrue(labels) == over + LastTrue(labels[over..])
  {
    var window := labels[over..];
    var last := LastTrue(labels);
    FoundIff(labels);
    LastTrueIs(labels);
    assert labels[over] == labels[0];
    assert last - 1 <= over ==> labels[last - 1] == labels[0];
    assert last > over;
    assert window[last - over - 1] == labels[last - 1];
    LastTrueUnique(window, last - over);
  }

  /** A frame that straddles the window's edge is clamped to it. */
  lemma {:induction false} StraddlingFrameIsClamped(labels: seq<bool>, n: nat, over: nat, pad: nat)
    requires over < |labels| && n == |labels| - over
    requires forall k :: 0 <= k <= over ==> labels[k] == labels[0]
    ensures Hull(labels, n, 0 - over, pad) == Hull(labels[over..], n, 0, pad)
  {
    if true in labels {
      FirstPastEdge(labels, over);
      LastPastEdge(labels, over);
    } else {
      assert forall x :: x in labels[over..] ==> x in labels;
    }
  }

  method SpeechSpanInLast(timeline: seq<Frame>, samples: nat, pad: nat) returns (span: Span)
    requires Positive(timeline)
    ensures span == SpanInLast(timeline, samples, pad)
  {
    if samples == 0 {
      assert LastOf(Labels(timeline), 0) == [];
      return NoSpeech;
    }
    var k, covered := WalkBack(timeline, samples);
    span := PlaceFrames(timeline[k..], samples, samples - covered, pad);
    HullOfWholeFrames(timeline, k, samples, pad);
  }

  /** The backward half of the walk: the latest frames, just enough to cover the window. */
  method WalkBack(timeline: seq<Frame>, samples: nat) returns (k: nat, covered: nat)
    requires samples > 0
    ensures k <= |timeline| && covered == Total(timeline[k..])
    ensures k == 0 || covered >= samples
    ensures covered >= samples ==> k < |timeline| && Total(timeline[k + 1..]) < samples
  {
    k := |timeline|;
    covered := 0;
    while k > 0 && covered < samples
      invariant 0 <= k <= |timeline|
      invariant covered == Total(timeline[k..])
      invariant covered >= samples ==> k < |timeline| && Total(timeline[k + 1..]) < samples
    {
      k := k - 1;
      assert timeline[k..] == [timeline[k]] + timeline[k + 1..];
      covered := covered + timeline[k].samples;
    }
  }

  /** The forward half of the walk: `at` is where the first frame starts, before the window if negative. */
  method PlaceFrames(frames: seq<Frame>, samples: nat, at: int, pad: nat) returns (span: Span)
    requires Positive(frames)
    ensures span == Hull(Labels(frames), samples, at, pad)
  {
    var found, first, last := false, 0, 0;
    var here := at;
    for i := 0 to |frames|
      invariant here == at + |Labels(frames[..i])|
      invariant found == (LastTrue(Labels(frames[..i])) > 0)
      invariant found ==> first == at + FirstTrue(Labels(frames[..i])) && last == at + LastTrue(Labels(frames[..i]))
      invariant !found ==> FirstTrue(Labels(frames[..i])) == |Labels(frames[..i])|
    {
      assert frames[..i + 1][..i] == frames[..i];
      PlaceOne(Labels(frames[..i]), frames[i]);
      if frames[i].speech {
        if !found {
          found, first := true, here;
        }
        last := here + frames[i].samples;
      }
      here := here + frames[i].samples;
    }
    assert frames[..|frames|] == frames;
    FoundIff(Labels(frames));
    return if !found then NoSpeech else Speech(Max(0, first - pad), Max(0, Min(samples, last + pad)));
  }

  lemma {:induction false} FoundIff(labels: seq<bool>)
    ensures LastTrue(labels) > 0 <==> true in labels
    ensures FirstTrue(labels) < |labels| <==> true in labels
  {
    FirstTrueIs(labels);
    LastTrueIs(labels);
  }

  /** The frames that cover the window, the oldest possibly straddling its edge, give the window's hull. */
  lemma {:induction false} HullOfWholeFrames(timeline: seq<Frame>, k: nat, n: nat, pad: nat)
    requires k <= |timeline|
    requires k == 0 || Total(timeline[k..]) >= n
    requires Total(timeline[k..]) >= n ==> k < |timeline| && Total(timeline[k + 1..]) < n
    ensures SpanInLast(timeline, n, pad) == Hull(Labels(timeline[k..]), n, n - Total(timeline[k..]), pad)
  {
    var frames := timeline[k..];
    var labels := Labels(frames);
    LabelsLength(frames);
    if |labels| < n {
      assert frames == timeline;
    } else {
      LastOfFrames(timeline, k, n);
      assert frames[1..] == timeline[k + 1..];
      HullOfCoveringFrames(frames, labels, n, pad);
      SpanOfFullWindow(timeline, labels[|labels| - n..], n, pad);
    }
  }

  lemma {:induction false} SpanOfFullWindow(timeline: seq<Frame>, last: seq<bool>, n: nat, pad: nat)
    requires last == LastOf(Labels(timeline), n) && |last| == n
    ensures SpanInLast(timeline, n, pad) == Hull(last, n, 0, pad)
  {
  }

  lemma {:induction false} HullOfCoveringFrames(frames: seq<Frame>, labels: seq<bool>, n: nat, pad: nat)
    requires frames != [] && labels == Labels(frames) && Total(frames[1..]) < n <= |labels|
    ensures Hull(labels, n, n - |labels|, pad) == Hull(labels[|labels| - n..], n, 0, pad)
  {
    var over := |labels| - n;
    assert over < frames[0].samples by {
      LabelsLength(frames);
    }
    OldestFrameLabels(frames, over);
    StraddlingFrameIsClamped(labels, n, over, pad);
  }

  /** Frames that cover the window are all the window depends on. */
  lemma {:induction false} LastOfFrames(timeline: seq<Frame>, k: nat, n: nat)
    requires k <= |timeline| && n <= |Labels(timeline[k..])|
    ensures LastOf(Labels(timeline), n) == Labels(timeline[k..])[|Labels(timeline[k..])| - n..]
  {
    LabelsAppend(timeline[..k], timeline[k..]);
    assert timeline[..k] + timeline[k..] == timeline;
  }

  lemma {:induction false} OldestFrameLabels(frames: seq<Frame>, over: nat)
    requires frames != [] && over < frames[0].samples
    ensures over < |Labels(frames)|
    ensures forall i :: 0 <= i <= over ==> Labels(frames)[i] == Labels(frames)[0]
  {
    assert frames == [frames[0]] + frames[1..];
    LabelsAppend([frames[0]], frames[1..]);
    LabelsOne(frames[0]);
    assert forall i :: 0 <= i <= over ==> Labels(frames)[i] == Repeated(frames[0].samples, frames[0].speech)[i];
  }

  lemma {:induction false} LabelsOne(frame: Frame)
    ensures Labels([frame]) == Repeated(frame.samples, frame.speech)
  {
    assert [frame][..0] == [];
  }

  // ---- What the two answers have to do with each other, and with the clip that is decoded ----

  /** There is a span exactly when some of the last `n` samples count as speech. */
  lemma {:induction false} SpanIffSpeech(timeline: seq<Frame>, n: nat, pad: nat)
    ensures SpanInLast(timeline, n, pad).NoSpeech? <==> SpeechInLast(timeline, n) == 0
  {
    CountZero(LastOf(Labels(timeline), n));
  }

  /**
   * The timeline lags the window by the `lag` samples not yet classified, so its answer is `lag` late.
   * As long as the padding covers that, every sample of the window labelled speech is inside the span.
   */
  lemma {:induction false} SpanCoversSpeech(timeline: seq<Frame>, n: nat, pad: nat, lag: nat, i: nat)
    requires lag <= pad && i + lag < n
    requires n <= |Labels(timeline)| + lag + i && Labels(timeline)[|Labels(timeline)| + lag + i - n]
    ensures var span := SpanInLast(timeline, n, pad);
            span.Speech? && span.head <= i < span.tail <= n
  {
    var all, labels := Labels(timeline), LastOf(Labels(timeline), n);
    var at := |all| + lag + i - n;
    var offset := n - |labels|;
    FirstTrueIs(labels);
    LastTrueIs(labels);
    assert labels[i + lag - offset] == all[at];
  }
}
