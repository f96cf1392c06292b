/**
 * The streaming session as the object the server keeps (server/app/streaming/session.py): every method is
 * proved against the step machine that the theorems are about.
 */
module Streaming {
  import opened Basics
  import opened Audio
  import LocalAgreementPolicy
  import opened SessionModel
  import SpeechTimeline
  import Stitch
  import opened Text
  import opened Tokens
  import Vad

  // ---- Loops over a decoder's words ----

  /** `_words_after`. */
  method SkipWords(words: seq<Word>, characters: int) returns (rest: seq<Word>)
    ensures rest == WordsAfter(words, characters)
  {
    var consumed := 0;
    assert words[0..] == words;
    for i := 0 to |words|
      invariant consumed <= characters || i == 0
      invariant WordsAfter(words[i..], characters - consumed) == WordsAfter(words, characters)
    {
      assert words[i..][0] == words[i] && words[i..][1..] == words[i + 1..];
      consumed := consumed + |words[i].text|;
      if consumed > characters {
        return words[i..];
      }
    }
    return [];
  }

  /** `_word_boundary_seconds`. */
  method WordBoundarySeconds(words: seq<Word>, committed: string) returns (boundary: Option<int>)
    ensures boundary == WordBoundary(words, committed)
  {
    var target := |Strip(committed)|;
    if target == 0 || words == [] {
      return None;
    }
    var consumed := "";
    for i := 0 to |words|
      invariant BoundaryFrom(words, i, consumed, target) == WordBoundary(words, committed)
    {
      consumed := consumed + words[i].text;
      if |Strip(consumed)| >= target {
        return Some(words[i].end);
      }
    }
    return None;
  }

  /** The words that end by the limit, as the compaction picks them. */
  method PickEnding(words: seq<Word>, limit: int) returns (picked: seq<Word>)
    ensures picked == EndingBy(words, limit)
  {
    picked := [];
    for i := 0 to |words|
      invariant picked == EndingBy(words[..i], limit)
    {
      assert words[..i + 1][..i] == words[..i];
      if words[i].end <= limit {
        picked := picked + [words[i]];
      }
    }
    assert words[..|words|] == words;
  }

  // ---- The session ----

  class StreamingSession {
    const cfg: Settings
    const env: Environment
    const buffer: AudioBuffer
    const silence: Vad.SilenceTracker
    const agreement: LocalAgreementPolicy.LocalAgreement
    var revision: nat
    var utterance: nat
    var lastEmitted: Option<(string, string)>
    var windowHypothesis: string
    var committedPrefix: string
    var prompt: string
    var events: seq<Event>
    var wake: bool
    var flushRequested: bool
    var flushDone: bool
    var closing: bool
    var alive: bool
    var nextDraftCompaction: nat
    var decodes: nat

    ghost function CurrentPage(): Page
      reads this, agreement
    {
      Page(agreement.Model(), revision, utterance, lastEmitted, windowHypothesis, committedPrefix, prompt, events)
    }

    ghost function Hands(): Handshake
      reads this
    {
      Handshake(wake, flushRequested, flushDone, closing, alive)
    }

    ghost function Model(): Session
      reads this, buffer, silence, agreement
    {
      Session(buffer.Model(), silence.Model(), CurrentPage(), Hands(), nextDraftCompaction, decodes)
    }

    ghost predicate Valid()
      reads this, silence
    {
      silence.signal == env.signal && silence.Model().Valid()
    }

    constructor (cfg: Settings, env: Environment, detector: Vad.Detector, crossCheck: bool)
      ensures Valid() && Model() == NewSession(cfg, detector, crossCheck)
      ensures this.cfg == cfg && this.env == env
      ensures fresh(buffer) && fresh(silence) && fresh(agreement)
    {
      this.cfg, this.env := cfg, env;
      buffer := new AudioBuffer();
      silence := new Vad.SilenceTracker(env.signal, detector, crossCheck);
      agreement := new LocalAgreementPolicy.LocalAgreement(cfg.agreementWindow);
      revision, utterance, lastEmitted, windowHypothesis := 0, 0, None, "";
      committedPrefix, prompt, events := "", "", [];
      wake, flushRequested, flushDone, closing, alive := false, false, false, false, true;
      nextDraftCompaction, decodes := 0, 0;
    }

    // ---- Inbound ----

    method PushAudio(chunk: seq<Byte>)
      requires Valid()
      modifies this, buffer, silence
      ensures Valid() && Model() == AfterPushAudio(env, old(Model()), chunk)
    {
      if flushRequested || closing {
        return;
      }
      var ok := buffer.Append(chunk);
      if !ok {
        return;
      }
      Vad.PushKeepsValid(env.signal, silence.Model(), chunk);
      silence.Push(chunk);
      wake := true;
    }

    method Flush()
      modifies this
      ensures Model() == AfterFlush(old(Model()))
    {
      if flushRequested {
        return;
      }
      flushRequested := true;
      wake := true;
    }

    method Close()
      requires Valid()
      modifies this, buffer, silence
      ensures Valid() && Model() == AfterClose(old(Model()))
    {
      closing := true;
      wake := true;
      buffer.Reset();
      silence.Reset();
    }

    /** What reaches the session while a decode runs, in order. */
    method TakeIn(inputs: seq<Input>)
      requires Valid()
      modifies this, buffer, silence
      ensures Valid() && Model() == AfterInputs(env, old(Model()), inputs)
    {
      for i := 0 to |inputs|
        invariant Valid() && Model() == AfterInputs(env, old(Model()), inputs[..i])
      {
        assert inputs[..i + 1][..i] == inputs[..i];
        match inputs[i]
        case Push(pcm) => PushAudio(pcm);
        case Flush => Flush();
        case Close => Close();
      }
      assert inputs[..|inputs|] == inputs;
    }

    // ---- Emitting ----

    method Emit(stable: string, partial: string, final: bool)
      modifies this
      ensures CurrentPage() == Emitted(old(CurrentPage()), stable, partial, final)
      ensures Model() == old(Model()).(page := CurrentPage())
    {
      if !final && lastEmitted == Some((stable, partial)) {
        return;
      }
      revision := revision + 1;
      lastEmitted := Some((stable, partial));
      events := events + [Transcript(utterance, revision, stable, partial, final)];
    }

    method Report(code: ErrorCode)
      modifies this
      ensures CurrentPage() == Reported(old(CurrentPage()), code)
      ensures Model() == old(Model()).(page := CurrentPage())
    {
      events := events + [Error(code)];
    }

    /** `_start_new_utterance` and the resets that follow it everywhere. */
    method StartNewUtterance()
      modifies this, agreement
      ensures CurrentPage() == NextUtterance(old(CurrentPage()))
      ensures Model() == old(Model()).(page := CurrentPage())
    {
      utterance := utterance + 1;
      committedPrefix := "";
      prompt := "";
      agreement.Reset("");
      lastEmitted := None;
    }

    method CloseUtterance(windowText: string)
      modifies this, agreement
      ensures CurrentPage() == UtteranceClosed(env.fold, old(CurrentPage()), windowText)
      ensures Model() == old(Model()).(page := CurrentPage())
    {
      if Strip(committedPrefix + windowText) == "" {
        return;
      }
      var result := agreement.CommitAll(env.fold, windowText);
      if result.conflict {
        var typed := Concat(agreement.committed);
        Emit(committedPrefix + typed, "", true);
        var remainder := RemainderAfter(typed, windowText);
        StartNewUtterance();
        if Strip(remainder) != "" {
          var sealed := agreement.CommitAll(env.fold, remainder);
          Emit(sealed.stable, "", true);
        }
      } else {
        Emit(committedPrefix + result.stable, "", true);
      }
    }

    method ResetUtterance()
      requires Valid()
      modifies this, buffer, silence, agreement
      ensures Valid() && Model() == UtteranceReset(old(Model()))
    {
      StartNewUtterance();
      buffer.Reset();
      silence.Reset();
      windowHypothesis := "";
      nextDraftCompaction := 0;
    }

    // ---- Decoding ----

    method WindowWorthDecoding() returns (worth: bool)
      requires Valid()
      ensures worth == WorthDecoding(cfg, Model())
    {
      var speech := SpeechTimeline.SpeechSamplesInLast(silence.timeline, |buffer.data| / BYTES_PER_SAMPLE);
      return speech > 0 && speech >= cfg.minSpeech;
    }

    method TrimToSpeech(pcm: seq<Byte>) returns (clip: seq<Byte>, offset: nat)
      requires Valid()
      ensures (clip, offset) == OnlyTheSpeech(cfg, silence.Model(), pcm)
    {
      if !cfg.trimToSpeech {
        return pcm, 0;
      }
      var span := SpeechTimeline.SpeechSpanInLast(silence.timeline, |pcm| / BYTES_PER_SAMPLE, SPEECH_PAD);
      if span.NoSpeech? {
        return pcm, 0;
      }
      var head, tail := span.head * BYTES_PER_SAMPLE, span.tail * BYTES_PER_SAMPLE;
      if head == 0 && tail >= |pcm| {
        return pcm, 0;
      }
      return SliceFrom(SliceTo(pcm, tail), head), span.head;
    }

    /** `_without_repeat_of`; `Aborted` stands for the exception that an index past the position map raises. */
    method DropRepeat(said: string, text: string, words: seq<Word>) returns (reply: Reply)
      requires StitchesAsSpecified(env)
      ensures reply == WithoutRepeatOf(env.stitch, said, text, words)
    {
      if said == "" || text == "" {
        return Result(text, words);
      }
      var cut := Stitch.RepeatedPrefix(env.fold, said, text);
      if cut.IndexError? {
        return Aborted;
      }
      if cut.characters == 0 {
        return Result(text, words);
      }
      var rest := SkipWords(words, cut.characters);
      return Result(LStrip(SliceFrom(text, cut.characters)), rest);
    }

    /** The handler of last resort in `_run`. */
    method Crash()
      modifies this
      ensures Model() == Crashed(old(Model()))
    {
      Report(InternalError);
      flushDone := true;
      alive := false;
    }

    /** What is done with the decoder's answer. */
    method Conclude(answer: Answer, said: string, offset: nat) returns (reply: Reply)
      requires StitchesAsSpecified(env)
      modifies this
      ensures (Model(), reply) == Concluded(env.stitch, old(Model()), said, answer, offset)
    {
      if closing {
        return Aborted;
      }
      match answer
      case Fault =>
        Report(InferenceFailed);
        return Nothing;
      case Heard(text, words) =>
        reply := DropRepeat(said, text, Shifted(words, offset));
        if reply.Aborted? {
          Crash();
        }
    }

    method Decode(pcm: seq<Byte>, byDraft: bool) returns (reply: Reply)
      requires Valid() && StitchesAsSpecified(env)
      modifies this, buffer, silence
      ensures Valid() && (Model(), reply) == Decoded(cfg, env, old(Model()), pcm, byDraft)
    {
      if pcm == [] {
        return Nothing;
      }
      var clip, offset := TrimToSpeech(pcm);
      if clip == [] {
        return Nothing;
      }
      reply := Exchange(clip, offset, byDraft);
    }

    /** The executor call. */
    method Exchange(clip: seq<Byte>, offset: nat, byDraft: bool) returns (reply: Reply)
      requires Valid() && StitchesAsSpecified(env)
      modifies this, buffer, silence
      ensures Valid() && (Model(), reply) == Exchanged(env, old(Model()), clip, offset, byDraft)
    {
      var said := prompt;
      var n := decodes;
      decodes := n + 1;
      TakeIn(env.arrivals(n));
      reply := Conclude(AnswerOf(env, n, clip, said, byDraft), said, offset);
    }

    // ---- Incremental passes ----

    /** Carry committed text over a cut, as both trimming paths do. */
    method Carry(text: string)
      modifies this, agreement
      ensures CurrentPage() == Carried(old(CurrentPage()), text)
      ensures Model() == old(Model()).(page := CurrentPage())
    {
      committedPrefix := committedPrefix + text;
      prompt := Tail(committedPrefix, PROMPT_CHARACTERS);
      agreement.Reset("");
      windowHypothesis := "";
    }

    method TrimDecodedAudio(words: seq<Word>)
      modifies this, buffer, agreement
      ensures Model() == Trimmed(cfg, old(Model()), words)
    {
      if |buffer.data| / BYTES_PER_SAMPLE < cfg.maxWindow {
        return;
      }
      var committed := Concat(agreement.committed);
      if Strip(committed) == "" {
        return;
      }
      var cut := WordBoundarySeconds(words, committed);
      if cut.None? || cut.value <= MIN_CUT {
        return;
      }
      var _ := buffer.TrimBefore(cut.value);
      Carry(committed);
    }

    /** The end of `_compact_draft_window`, once the accurate model has answered, or failed to. */
    method CommitWordsUpTo(words: seq<Word>, limit: int, window: nat)
      modifies this, buffer, agreement
      ensures Model() == Compacted(old(Model()), words, limit, window)
    {
      var committed := PickEnding(words, limit);
      var text := Strip(Spoken(committed));
      if committed == [] || text == "" {
        nextDraftCompaction := window + COMPACTION_BACKOFF;
        return;
      }
      var _ := buffer.TrimBefore(committed[|committed| - 1].end);
      nextDraftCompaction := 0;
      CommitAccurately(text);
    }

    method CommitAccurately(text: string)
      modifies this, agreement
      ensures CurrentPage() == AccuratelyCommitted(old(CurrentPage()), text)
      ensures Model() == old(Model()).(page := CurrentPage())
    {
      Carry(text + " ");
      Emit(committedPrefix, "", false);
    }

    /** False when the loop is over: the session was closed, or an exception got out. */
    method CompactDraftWindow() returns (goesOn: bool)
      requires Valid() && StitchesAsSpecified(env)
      modifies this, buffer, silence, agreement
      ensures Valid()
      ensures DraftWindowCompacted(cfg, env, old(Model())) == if goesOn then Goes(Model()) else Stops(Model())
    {
      var window := |buffer.data| / BYTES_PER_SAMPLE;
      if window < cfg.maxWindow || window < nextDraftCompaction {
        return true;
      }
      var reply := Decode(buffer.data, false);
      goesOn := CommitWhatWasRead(reply, window);
    }

    method CommitWhatWasRead(reply: Reply, window: nat) returns (goesOn: bool)
      modifies this, buffer, agreement
      ensures CompactedOn(cfg, old(Model()), reply, window) == if goesOn then Goes(Model()) else Stops(Model())
    {
      if reply.Aborted? {
        return false;
      }
      CommitWordsUpTo(if reply.Result? then reply.words else [], window - CompactionTail(cfg), window);
      return true;
    }

    method ShowDraft(hypothesis: string)
      modifies this, agreement
      ensures CurrentPage() == DraftShown(env.fold, old(CurrentPage()), hypothesis)
      ensures Model() == old(Model()).(page := CurrentPage())
    {
      windowHypothesis := hypothesis;
      var result := agreement.Update(env.fold, hypothesis);
      if result.conflict {
        agreement.Reset("");
        var _ := agreement.Update(env.fold, hypothesis);
      }
      Emit(committedPrefix, hypothesis, false);
    }

    /** What a single-model pass does with a non-empty hypothesis. */
    method Digest(hypothesis: string, words: seq<Word>)
      modifies this, buffer, agreement
      ensures Model() == Digested(cfg, env.fold, old(Model()), hypothesis, words)
    {
      windowHypothesis := hypothesis;
      var typed := Concat(agreement.committed);
      var result := agreement.Update(env.fold, hypothesis);
      if result.conflict {
        Rotate(typed, hypothesis, words);
      } else {
        Emit(committedPrefix + result.stable, result.partial, false);
        TrimDecodedAudio(words);
      }
    }

    method Rotate(typed: string, hypothesis: string, words: seq<Word>)
      modifies this, buffer, agreement
      ensures var rotated := NextUtterance(UtteranceClosed(env.fold, old(CurrentPage()), typed)).(windowHypothesis := "");
              Model() == Reanchored(old(Model()), rotated, Reopened(env.fold, rotated, typed, hypothesis),
                                    WordBoundary(words, typed))
    {
      hide UtteranceClosed;
      CloseUtterance(typed);
      StartNewUtterance();
      windowHypothesis := "";
      var cut := WordBoundarySeconds(words, typed);
      if cut.Some? && cut.value > MIN_CUT {
        var _ := buffer.TrimBefore(cut.value);
        return;
      }
      var reopened := agreement.Update(env.fold, RemainderAfter(typed, hypothesis));
      Emit(reopened.stable, reopened.partial, false);
    }

    method DecodeIncremental() returns (goesOn: bool)
      requires Valid() && StitchesAsSpecified(env)
      modifies this, buffer, silence, agreement
      ensures Valid()
      ensures IncrementallyDecoded(cfg, env, old(Model())) == if goesOn then Goes(Model()) else Stops(Model())
    {
      var pcm := buffer.data;
      buffer.MarkDecoded();
      var reply := Decode(pcm, cfg.draftMode);
      if reply.Aborted? {
        return false;
      }
      var hypothesis := if reply.Result? then Strip(reply.text) else "";
      if hypothesis == "" {
        return true;
      }
      if cfg.draftMode {
        ShowDraft(hypothesis);
        goesOn := CompactDraftWindow();
      } else {
        Digest(hypothesis, reply.words);
        return true;
      }
    }

    // ---- Finalizing ----

    method Finish(accurate: string)
      modifies this, agreement
      ensures CurrentPage() == Finished(cfg, env.fold, old(CurrentPage()), accurate)
      ensures Model() == old(Model()).(page := CurrentPage())
    {
      if accurate != "" {
        windowHypothesis := accurate;
      }
      var windowText;
      if cfg.draftMode {
        agreement.Reset("");
        windowText := accurate;
      } else {
        windowText := if windowHypothesis != "" then windowHypothesis else Concat(agreement.committed);
      }
      CloseUtterance(windowText);
    }

    /** The accurate pass over what has not been seen, if any. */
    method AccuratePass() returns (reply: Reply)
      requires Valid() && StitchesAsSpecified(env)
      modifies this, buffer, silence
      ensures Valid()
      ensures (Model(), reply) == FinalDecoded(cfg, env, old(Model()))
    {
      var worth := WindowWorthDecoding();
      if !worth || !(cfg.draftMode || (|buffer.data| - buffer.decoded) / BYTES_PER_SAMPLE > 0) {
        return Nothing;
      }
      var pcm := buffer.data;
      buffer.MarkDecoded();
      reply := Decode(pcm, false);
    }

    method Finalize() returns (goesOn: bool)
      requires Valid() && StitchesAsSpecified(env)
      modifies this, buffer, silence, agreement
      ensures Valid()
      ensures Finalized(cfg, env, old(Model())) == if goesOn then Goes(Model()) else Stops(Model())
    {
      var reply := AccuratePass();
      if reply.Aborted? {
        return false;
      }
      Finish(if reply.Result? then Strip(reply.text) else "");
      ResetUtterance();
      return true;
    }

    // ---- The loop ----

    /** Finalize for a flush, and release the flusher unless the loop is over. */
    method ServeFlush()
      requires Valid() && StitchesAsSpecified(env)
      modifies this, buffer, silence, agreement
      ensures Valid() && Model() == Served(Finalized(cfg, env, old(Model())))
    {
      var goesOn := Finalize();
      if goesOn {
        flushDone := true;
      }
    }

    method KeepPreRoll()
      modifies buffer
      ensures Model() == PreRolled(cfg, old(Model()))
    {
      if |buffer.data| / BYTES_PER_SAMPLE > cfg.silence * 2 {
        buffer.KeepTail(cfg.silence);
      }
    }

    /** `_step`: at most one unit of work, and whether more may be pending. */
    method Step() returns (more: bool)
      requires Valid() && StitchesAsSpecified(env)
      modifies this, buffer, silence, agreement
      ensures Valid() && (Model(), more) == Stepped(cfg, env, old(Model()))
    {
      hide Finalized, IncrementallyDecoded, WorthDecoding, PreRolled;
      if closing {
        return false;
      }
      var worth := WindowWorthDecoding();
      if !worth {
        KeepPreRoll();
        if flushRequested {
          ServeFlush();
        }
        return false;
      }
      more := false;
      if |buffer.data| / BYTES_PER_SAMPLE >= cfg.maxUtterance {
        more := FinalizeTooLong();
      } else if flushRequested {
        ServeFlush();
      } else if silence.trailingSilenceFrames * silence.detector.frameSamples >= cfg.silence {
        var _ := Finalize();
      } else if (|buffer.data| - buffer.decoded) / BYTES_PER_SAMPLE >= cfg.chunk {
        var _ := DecodeIncremental();
      }
    }

    method FinalizeTooLong() returns (more: bool)
      requires Valid() && StitchesAsSpecified(env)
      modifies this, buffer, silence, agreement
      ensures Valid()
      ensures (Model(), more) == CappedOn(Finalized(cfg, env, old(Model()).(page := Reported(old(CurrentPage()), UtteranceTooLong))))
    {
      Report(UtteranceTooLong);
      var goesOn := Finalize();
      if goesOn && flushRequested {
        flushDone := true;
        return false;
      }
      return goesOn;
    }

    /** One round of `_run`: the wake event is cleared, and steps are taken until none has more to do. */
    method Round()
      requires Valid() && StitchesAsSpecified(env)
      modifies this, buffer, silence, agreement
      ensures Valid() && Model() == Woken(cfg, env, old(Model()))
    {
      if !alive || closing || !wake {
        return;
      }
      wake := false;
      ghost var start := Model();
      var more := true;
      while more && !closing
        invariant Valid()
        invariant Drained(cfg, env, start) == if more && !closing then Drained(cfg, env, Model()) else Model()
        decreases more, |buffer.data|
      {
        ghost var before := Model();
        more := Step();
        if more {
          MoreMeansEmptied(cfg, env, before);
        }
      }
    }

    /** A whole run, at the scheduler's mercy: what is proved of every `Ran` holds of this object. */
    method Play(schedule: seq<Action>)
      requires Valid() && StitchesAsSpecified(env)
      modifies this, buffer, silence, agreement
      ensures Valid() && Model() == Ran(cfg, env, old(Model()), schedule)
    {
      for i := 0 to |schedule|
        invariant Valid() && Model() == Ran(cfg, env, old(Model()), schedule[..i])
      {
        assert schedule[..i + 1][..i] == schedule[..i];
        match schedule[i]
        case Arrive(Push(pcm)) => PushAudio(pcm);
        case Arrive(Flush) => Flush();
        case Arrive(Close) => Close();
        case Round => Round();
      }
      assert schedule[..|schedule|] == schedule;
    }
  }
}
