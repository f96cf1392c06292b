/** What the silence tracker's counters mean, in the detector's own verdicts (server/app/streaming/vad.py). */
module Verdicts {
  import opened Audio
  import opened SessionAudio
  import opened SessionModel
  import opened SpeechTimeline
  import opened Vad

  // ---- Runs ----

  /** How many flags at the end are all set. */
  function TrailingRun(flags: seq<bool>): (n: nat)
    ensures n <= |flags|
  {
    if flags == [] || !flags[|flags| - 1] then 0 else 1 + TrailingRun(flags[..|flags| - 1])
  }

  lemma {:induction false} RunIsLongest(flags: seq<bool>, m: nat)
    requires m <= |flags|
    ensures m <= TrailingRun(flags) <==> forall i :: |flags| - m <= i < |flags| ==> flags[i]
  {
    if m > 0 && flags[|flags| - 1] {
      RunIsLongest(flags[..|flags| - 1], m - 1);
    } else {
      assert m > 0 ==> !flags[|flags| - 1];
    }
  }

  lemma {:induction false} RunSnoc(flags: seq<bool>, flag: bool)
    ensures TrailingRun(flags + [flag]) == if flag then TrailingRun(flags) + 1 else 0
  {
    assert (flags + [flag])[..|flags|] == flags;
  }

  // ---- Trailing silence and speech ----

  function Voiced(frames: seq<Frame>): seq<bool> {
    seq(|frames|, i requires 0 <= i < |frames| => frames[i].speech)
  }

  function Silent(frames: seq<Frame>): seq<bool> {
    seq(|frames|, i requires 0 <= i < |frames| => !frames[i].speech)
  }

  /** The counters are those of the verdicts in `frames`. */
  predicate Counts(t: Tracker, frames: seq<Frame>) {
    && t.trailingSilenceFrames == TrailingRun(Silent(frames))
    && t.speechFrames == CountTrue(Voiced(frames))
  }

  lemma {:induction false} FrameCounts(signal: Signal, t: Tracker, frame: seq<Byte>, before: seq<Frame>)
    requires Counts(t, before)
    ensures Counts(AfterFrame(signal, t, frame), before + [Frame(t.detector.frameSamples, t.detector.judge(t.heard + [frame]))])
  {
    var speech := t.detector.judge(t.heard + [frame]);
    var after := before + [Frame(t.detector.frameSamples, speech)];
    assert Silent(after) == Silent(before) + [!speech] && Voiced(after) == Voiced(before) + [speech];
    RunSnoc(Silent(before), !speech);
    CountTrueAppend(Voiced(before), [speech]);
    assert [speech][..0] == [];
  }

  lemma {:induction false} ConsumedCounts(signal: Signal, t: Tracker, data: seq<Byte>, before: seq<Frame>)
    requires Counts(t, before)
    ensures Counts(Consumed(signal, t, data), before + FramesOf(signal, t, data))
    decreases |data|
  {
    hide AfterFrame;
    var n := t.FrameBytes();
    if n <= |data| {
      var t' := AfterFrame(signal, t, data[..n]);
      var frame := Frame(t.detector.frameSamples, t.detector.judge(t.heard + [data[..n]]));
      FrameCounts(signal, t, data[..n], before);
      ConsumedCounts(signal, t', data[n..], before + [frame]);
      assert before + [frame] + FramesOf(signal, t', data[n..]) == before + FramesOf(signal, t, data);
    } else {
      assert before + [] == before;
    }
  }

  /**
   * Since its reset a tracker has heard `h`: the trailing silence counts the longest run of silent verdicts at the
   * end of all of them, the speech count all speech verdicts, a change of detector on the way included.
   */
  lemma {:induction false} CountsAreVerdicts(signal: Signal, t0: Tracker, h: seq<Byte>)
    requires t0 == AfterResetTracker(t0)
    ensures Counts(Consumed(signal, t0, h), FramesOf(signal, t0, h))
  {
    assert Counts(t0, []);
    ConsumedCounts(signal, t0, h, []);
    assert [] + FramesOf(signal, t0, h) == FramesOf(signal, t0, h);
  }

  /** In every reachable state. */
  lemma {:induction false} EveryRunCountsVerdicts(cfg: Settings, env: Environment, detector: Detector,
                                                  crossCheck: bool, schedule: seq<Action>)
    returns (t0: Tracker, h: seq<Byte>)
    requires Fits(detector) && Fits(env.signal.energy)
    ensures var s := Ran(cfg, env, NewSession(cfg, detector, crossCheck), schedule);
            && HeardFrom(env.signal, s.silence, s.buffer.data, t0, h)
            && Counts(s.silence, FramesOf(env.signal, t0, h))
  {
    var s := Ran(cfg, env, NewSession(cfg, detector, crossCheck), schedule);
    EveryRunKeepsAudio(cfg, env, detector, crossCheck, schedule);
    t0, h :| HeardFrom(env.signal, s.silence, s.buffer.data, t0, h);
    CountsAreVerdicts(env.signal, t0, h);
  }

  // ---- How long the silence is ----

  /** All of the frames are of one size. */
  predicate Sized(frames: seq<Frame>, samples: nat) {
    forall i :: 0 <= i < |frames| ==> frames[i].samples == samples
  }

  lemma {:induction false} SizedTotal(frames: seq<Frame>, samples: nat)
    requires Sized(frames, samples)
    ensures Total(frames) == |frames| * samples
  {
    if frames != [] {
      SizedTotal(frames[1..], samples);
      assert |frames| * samples == samples + |frames[1..]| * samples;
    }
  }

  /** The audit is only ever switched off, and the detector stays for as long as it is not. */
  lemma {:induction false} FrameKeepsDetector(signal: Signal, t: Tracker, frame: seq<Byte>)
    ensures var t' := AfterFrame(signal, t, frame);
            && (t'.crossCheck ==> t.crossCheck)
            && (t'.crossCheck == t.crossCheck ==> t'.detector == t.detector)
  {
  }

  lemma {:induction false} FramesAreSized(signal: Signal, t: Tracker, data: seq<Byte>)
    ensures var t' := Consumed(signal, t, data);
            && (t'.crossCheck ==> t.crossCheck)
            && (t'.crossCheck == t.crossCheck ==>
                  t'.detector == t.detector && Sized(FramesOf(signal, t, data), t.detector.frameSamples))
    decreases |data|
  {
    hide AfterFrame;
    var n := t.FrameBytes();
    if n <= |data| {
      FrameKeepsDetector(signal, t, data[..n]);
      FramesAreSized(signal, AfterFrame(signal, t, data[..n]), data[n..]);
    }
  }

  lemma {:induction false} TotalInTwo(a: seq<Frame>, b: seq<Frame>)
    ensures Total(a + b) == Total(a) + Total(b)
  {
    if a == [] {
      assert a + b == b;
    } else {
      assert (a + b)[1..] == a[1..] + b;
      TotalInTwo(a[1..], b);
    }
  }

  /** The frames up to a change of detector are of the one size, those after it of the other; there is at most one. */
  lemma {:induction false} FramesChangeOnce(signal: Signal, t: Tracker, data: seq<Byte>) returns (k: nat)
    ensures var frames := FramesOf(signal, t, data);
            k <= |frames| && Sized(frames[..k], t.detector.frameSamples)
            && Sized(frames[k..], Consumed(signal, t, data).detector.frameSamples)
    decreases |data|
  {
    hide AfterFrame;
    var n := t.FrameBytes();
    k := 0;
    if n <= |data| {
      var t' := AfterFrame(signal, t, data[..n]);
      var frame := Frame(t.detector.frameSamples, t.detector.judge(t.heard + [data[..n]]));
      var rest := FramesOf(signal, t', data[n..]);
      FrameKeepsDetector(signal, t, data[..n]);
      assert ([frame] + rest)[1..] == rest;
      if t'.crossCheck == t.crossCheck {
        var j := FramesChangeOnce(signal, t', data[n..]);
        k := j + 1;
        assert ([frame] + rest)[..k] == [frame] + rest[..j] && ([frame] + rest)[k..] == rest[j..];
      } else {
        FramesAreSized(signal, t', data[n..]);
        k := 1;
      }
    }
  }

  /**
   * The trailing silence is counted at the size of the detector's frames now. It is the length of the run if and only
   * if the run began after the detector last changed, or the change was to frames of the same size.
   */
  lemma {:induction false} SilenceIsItsLengthIff(signal: Signal, t0: Tracker, h: seq<Byte>) returns (k: nat)
    requires t0 == AfterResetTracker(t0)
    ensures var frames, t := FramesOf(signal, t0, h), Consumed(signal, t0, h);
            var run := TrailingRun(Silent(frames));
            && k <= |frames| && Sized(frames[..k], t0.detector.frameSamples) && Sized(frames[k..], t.detector.frameSamples)
            && (t.TrailingSilence() == Total(LastOf(frames, run)) <==>
                  run <= |frames| - k || t.detector.frameSamples == t0.detector.frameSamples)
  {
    var frames, t := FramesOf(signal, t0, h), Consumed(signal, t0, h);
    k := FramesChangeOnce(signal, t0, h);
    CountsAreVerdicts(signal, t0, h);
    LengthOfRun(frames, k, t0.detector.frameSamples, t.detector.frameSamples, TrailingRun(Silent(frames)));
  }

  lemma {:induction false} LengthOfRun(frames: seq<Frame>, k: nat, before: nat, after: nat, run: nat)
    requires k <= |frames| && run <= |frames| && Sized(frames[..k], before) && Sized(frames[k..], after)
    ensures Total(LastOf(frames, run)) == run * after <==> run <= |frames| - k || after == before
  {
    var n := |frames| - k;
    if run <= n {
      assert LastOf(frames, run) == frames[k..][n - run..];
      SizedTotal(LastOf(frames, run), after);
    } else {
      var earlier := frames[..k][|frames| - run..];
      assert LastOf(frames, run) == earlier + frames[k..];
      TotalInTwo(earlier, frames[k..]);
      SizedTotal(earlier, before);
      SizedTotal(frames[k..], after);
      ProductsDiffer(run - n, n, before, after);
    }
  }

  lemma {:induction false} ProductsDiffer(m: nat, n: nat, a: nat, b: nat)
    requires m > 0
    ensures m * a + n * b == (m + n) * b <==> a == b
  {
    assert (m + n) * b == m * b + n * b;
    if a < b {
      assert m * b - m * a == m * (b - a) > 0;
    } else if a > b {
      assert m * a - m * b == m * (a - b) > 0;
    }
  }

  // ---- What the detector is asked, and when it is given up ----

  function AfterFrames(signal: Signal, t: Tracker, frames: seq<seq<Byte>>): Tracker {
    if frames == [] then t
    else AfterFrame(signal, AfterFrames(signal, t, frames[..|frames| - 1]), frames[|frames| - 1])
  }

  /** Which of the frames are loud and yet judged silent, each in the light of all before it. */
  function Misheard(signal: Signal, detector: Detector, frames: seq<seq<Byte>>): seq<bool> {
    seq(|frames|, i requires 0 <= i < |frames| => signal.loud(frames[i]) && !detector.judge(frames[..i + 1]))
  }

  /** The latest frames were misheard for as long as is allowed. */
  predicate Distrusted(signal: Signal, detector: Detector, frames: seq<seq<Byte>>) {
    TrailingRun(Misheard(signal, detector, frames)) * detector.frameSamples >= DISAGREEMENT_LIMIT
  }

  predicate Trusted(signal: Signal, detector: Detector, frames: seq<seq<Byte>>) {
    forall k :: 0 <= k <= |frames| ==> !Distrusted(signal, detector, frames[..k])
  }

  lemma {:induction false} TrustedBefore(signal: Signal, detector: Detector, frames: seq<seq<Byte>>, k: nat)
    requires Trusted(signal, detector, frames) && k <= |frames|
    ensures Trusted(signal, detector, frames[..k])
  {
    assert forall i :: 0 <= i <= k ==> frames[..k][..i] == frames[..i];
  }

  /** A tracker that has asked its detector about `frames` and still trusts it. */
  ghost predicate Asked(signal: Signal, t0: Tracker, t: Tracker, frames: seq<seq<Byte>>) {
    && t.detector == t0.detector && t.heard == frames && t.crossCheck == t0.crossCheck && t.fellBack == t0.fellBack
    && (t0.crossCheck ==> t.loudButSilentFrames == TrailingRun(Misheard(signal, t0.detector, frames)))
  }

  lemma {:induction false} MisheardSnoc(signal: Signal, detector: Detector, frames: seq<seq<Byte>>, frame: seq<Byte>)
    ensures Misheard(signal, detector, frames + [frame])
         == Misheard(signal, detector, frames) + [signal.loud(frame) && !detector.judge(frames + [frame])]
  {
    var after := frames + [frame];
    assert after[..|frames| + 1] == after;
    forall i | 0 <= i < |frames|
      ensures Misheard(signal, detector, after)[i] == Misheard(signal, detector, frames)[i]
    {
      assert after[..i + 1] == frames[..i + 1];
    }
  }

  lemma {:induction false} OneMoreAsked(signal: Signal, t0: Tracker, t: Tracker, frames: seq<seq<Byte>>, frame: seq<Byte>)
    requires Asked(signal, t0, t, frames)
    ensures var t' := AfterFrame(signal, t, frame);
            if t0.crossCheck && Distrusted(signal, t0.detector, frames + [frame])
            then t'.detector == signal.energy && t'.heard == [] && t'.fellBack && !t'.crossCheck
            else Asked(signal, t0, t', frames + [frame])
  {
    MisheardSnoc(signal, t0.detector, frames, frame);
    RunSnoc(Misheard(signal, t0.detector, frames), signal.loud(frame) && !t0.detector.judge(frames + [frame]));
  }

  /** As long as it is trusted, or not audited, the detector judges each frame in the light of every one since the reset. */
  lemma {:induction false} WhileTrusted(signal: Signal, t0: Tracker, frames: seq<seq<Byte>>)
    requires t0.heard == [] && t0.loudButSilentFrames == 0
    requires t0.crossCheck ==> Trusted(signal, t0.detector, frames)
    ensures Asked(signal, t0, AfterFrames(signal, t0, frames), frames)
  {
    if frames != [] {
      var init, last := frames[..|frames| - 1], frames[|frames| - 1];
      if t0.crossCheck {
        TrustedBefore(signal, t0.detector, frames, |init|);
      }
      WhileTrusted(signal, t0, init);
      assert init + [last] == frames == frames[..|frames|];
      OneMoreAsked(signal, t0, AfterFrames(signal, t0, init), init, last);
    }
  }

  lemma {:induction false} StaysFallenBack(signal: Signal, t0: Tracker, first: seq<seq<Byte>>, frames: seq<seq<Byte>>)
    requires AfterFrames(signal, t0, first).fellBack && first <= frames
    ensures AfterFrames(signal, t0, frames).fellBack
    decreases |frames|
  {
    if first != frames {
      StaysFallenBack(signal, t0, first, frames[..|frames| - 1]);
    }
  }

  /**
   * An audited detector is given up for the energy one if and only if, at some point since the reset, the frames up to
   * there end in a run that was loud, judged silent, and as long as is allowed; at the first such frame.
   */
  lemma {:induction false} FallsBackIff(signal: Signal, t0: Tracker, frames: seq<seq<Byte>>)
    requires t0.heard == [] && t0.loudButSilentFrames == 0 && t0.crossCheck && !t0.fellBack
    ensures var t := AfterFrames(signal, t0, frames);
            && (t.fellBack <==> !Trusted(signal, t0.detector, frames))
            && (t.fellBack && Trusted(signal, t0.detector, frames[..if frames == [] then 0 else |frames| - 1]) ==>
                  t.detector == signal.energy && t.heard == [] && !t.crossCheck)
  {
    if Trusted(signal, t0.detector, frames) {
      WhileTrusted(signal, t0, frames);
    } else {
      var k := FirstDistrusted(signal, t0.detector, frames);
      var init, last := frames[..k - 1], frames[k - 1];
      WhileTrusted(signal, t0, init);
      assert init + [last] == frames[..k] && frames[..k][..k - 1] == init;
      OneMoreAsked(signal, t0, AfterFrames(signal, t0, init), init, last);
      StaysFallenBack(signal, t0, frames[..k], frames);
      if Trusted(signal, t0.detector, frames[..|frames| - 1]) {
        NotAmong(signal, t0.detector, frames, k);
        assert frames[..k] == frames;
      }
    }
  }

  lemma {:induction false} NotAmong(signal: Signal, detector: Detector, frames: seq<seq<Byte>>, k: nat)
    requires 0 < k <= |frames| && Trusted(signal, detector, frames[..|frames| - 1])
    ensures k < |frames| ==> !Distrusted(signal, detector, frames[..k])
  {
    if k < |frames| {
      assert frames[..|frames| - 1][..k] == frames[..k];
    }
  }

  lemma {:induction false} NothingIsTrusted(signal: Signal, detector: Detector, frames: seq<seq<Byte>>)
    ensures frames == [] ==> Trusted(signal, detector, frames)
  {
    if frames == [] {
      assert frames[..0] == [] && Misheard(signal, detector, []) == [];
    }
  }

  lemma {:induction false} FirstDistrusted(signal: Signal, detector: Detector, frames: seq<seq<Byte>>) returns (k: nat)
    requires !Trusted(signal, detector, frames)
    ensures 0 < k <= |frames| && Distrusted(signal, detector, frames[..k])
    ensures Trusted(signal, detector, frames[..k - 1])
    decreases |frames|
  {
    NothingIsTrusted(signal, detector, frames);
    if Trusted(signal, detector, frames[..|frames| - 1]) {
      k := |frames|;
      forall i | 0 <= i < k
        ensures !Distrusted(signal, detector, frames[..i])
      {
        assert frames[..k - 1][..i] == frames[..i];
      }
      assert frames[..k] == frames;
    } else {
      var init := frames[..|frames| - 1];
      k := FirstDistrusted(signal, detector, init);
      assert init[..k] == frames[..k] && init[..k - 1] == frames[..k - 1];
    }
  }

  // ---- The same over the bytes ----

  /** Whole frames of one size. */
  predicate Whole(frames: seq<seq<Byte>>, size: nat) {
    forall i :: 0 <= i < |frames| ==> |frames[i]| == size
  }

  /** The verdicts of a detector on frames, each in the light of all before it. */
  function Judged(detector: Detector, frames: seq<seq<Byte>>): seq<Frame> {
    seq(|frames|, i requires 0 <= i < |frames| => Frame(detector.frameSamples, detector.judge(frames[..i + 1])))
  }

  lemma {:induction false} JudgedSnoc(detector: Detector, frames: seq<seq<Byte>>)
    requires frames != []
    ensures Judged(detector, frames)
         == Judged(detector, frames[..|frames| - 1]) + [Frame(detector.frameSamples, detector.judge(frames))]
  {
    var init := frames[..|frames| - 1];
    assert frames[..|frames|] == frames;
    forall i | 0 <= i < |init|
      ensures Judged(detector, frames)[i] == Judged(detector, init)[i]
    {
      assert init[..i + 1] == frames[..i + 1];
    }
  }

  lemma {:induction false} FramesOfInTwo(signal: Signal, t: Tracker, a: seq<Byte>, b: seq<Byte>)
    requires Consumed(signal, t, a).leftover == []
    ensures FramesOf(signal, t, a + b) == FramesOf(signal, t, a) + FramesOf(signal, Consumed(signal, t, a), b)
    decreases |a|
  {
    hide AfterFrame, Consumed, FramesOf;
    var n := t.FrameBytes();
    if n <= |a| {
      assert (a + b)[..n] == a[..n] && (a + b)[n..] == a[n..] + b;
      FirstFrame(signal, t, a);
      FirstFrame(signal, t, a + b);
      FramesOfInTwo(signal, AfterFrame(signal, t, a[..n]), a[n..], b);
    } else {
      NoFrame(signal, t, a);
      assert a + b == b;
      FramesIgnoreLeftover(signal, t, [], b);
      assert [] + FramesOf(signal, t, b) == FramesOf(signal, t, b);
    }
  }

  lemma {:induction false} FirstFrame(signal: Signal, t: Tracker, data: seq<Byte>)
    requires t.FrameBytes() <= |data|
    ensures var first, rest := data[..t.FrameBytes()], data[t.FrameBytes()..];
            var t' := AfterFrame(signal, t, first);
            && Consumed(signal, t, data) == Consumed(signal, t', rest)
            && FramesOf(signal, t, data)
               == [Frame(t.detector.frameSamples, t.detector.judge(t.heard + [first]))] + FramesOf(signal, t', rest)
  {
    hide AfterFrame;
  }

  lemma {:induction false} NoFrame(signal: Signal, t: Tracker, data: seq<Byte>)
    requires |data| < t.FrameBytes()
    ensures Consumed(signal, t, data) == t.(leftover := data) && FramesOf(signal, t, data) == []
  {
  }

  lemma {:induction false} FramesIgnoreLeftover(signal: Signal, t: Tracker, carried: seq<Byte>, data: seq<Byte>)
    ensures FramesOf(signal, t.(leftover := carried), data) == FramesOf(signal, t, data)
    decreases |data|
  {
    hide AfterFrame;
    var n := t.FrameBytes();
    if n <= |data| {
      var t', u' := AfterFrame(signal, t, data[..n]), AfterFrame(signal, t.(leftover := carried), data[..n]);
      FrameIgnoresLeftover(signal, t, carried, data[..n]);
      FramesIgnoreLeftover(signal, t', u'.leftover, data[n..]);
    }
  }

  /**
   * The verdicts on what a tracker hears since its reset are the detector's own, on frames of its size, each in the
   * light of every frame since the reset: for as long as it is trusted, or for good when it is not audited.
   */
  lemma {:induction false} VerdictsAreJudgements(signal: Signal, t0: Tracker, frames: seq<seq<Byte>>)
    requires t0 == AfterResetTracker(t0) && Whole(frames, t0.FrameBytes())
    requires t0.crossCheck ==> Trusted(signal, t0.detector, frames)
    ensures FramesOf(signal, t0, Flatten(frames)) == Judged(t0.detector, frames)
    ensures Consumed(signal, t0, Flatten(frames)) == AfterFrames(signal, t0, frames).(leftover := [])
  {
    hide AfterFrame, Consumed, FramesOf, Judged, Trusted;
    if frames != [] {
      var init, last := frames[..|frames| - 1], frames[|frames| - 1];
      if t0.crossCheck {
        TrustedBefore(signal, t0.detector, frames, |init|);
      }
      VerdictsAreJudgements(signal, t0, init);
      WhileTrusted(signal, t0, init);
      JudgedSnoc(t0.detector, frames);
      assert init + [last] == frames;
      OneMoreJudged(signal, t0, Flatten(init), AfterFrames(signal, t0, init), last);
    } else {
      NothingJudged(signal, t0);
    }
  }

  lemma {:induction false} NothingJudged(signal: Signal, t0: Tracker)
    requires t0.leftover == []
    ensures FramesOf(signal, t0, Flatten([])) == Judged(t0.detector, [])
    ensures Consumed(signal, t0, Flatten([])) == AfterFrames(signal, t0, []).(leftover := [])
  {
    assert t0.(leftover := []) == t0;
  }

  lemma {:induction false} OneMoreJudged(signal: Signal, t0: Tracker, h: seq<Byte>, t: Tracker, frame: seq<Byte>)
    requires Consumed(signal, t0, h) == t.(leftover := []) && |frame| == t.FrameBytes()
    ensures Consumed(signal, t0, h + frame) == AfterFrame(signal, t, frame).(leftover := [])
    ensures FramesOf(signal, t0, h + frame)
         == FramesOf(signal, t0, h) + [Frame(t.detector.frameSamples, t.detector.judge(t.heard + [frame]))]
  {
    hide AfterFrame;
    OneFrame(signal, t, frame);
    ConsumedInTwo(signal, t0, h, frame);
    FramesOfInTwo(signal, t0, h, frame);
  }

  lemma {:induction false} OneFrame(signal: Signal, t: Tracker, frame: seq<Byte>)
    requires |frame| == t.FrameBytes()
    ensures var whole := t.(leftover := []);
            && AfterPush(signal, whole, frame) == AfterFrame(signal, t, frame).(leftover := [])
            && FramesOf(signal, whole, frame) == [Frame(t.detector.frameSamples, t.detector.judge(t.heard + [frame]))]
  {
    var whole := t.(leftover := []);
    assert [] + frame == frame && frame[..|frame|] == frame && frame[|frame|..] == [];
    FrameIgnoresLeftover(signal, t, [], frame);
    var next := AfterFrame(signal, whole, frame);
    assert Consumed(signal, next, []) == next.(leftover := []);
    assert FramesOf(signal, next, []) == [];
  }
}
