/** What a decode comes back with, and that nothing else of a decoder matters (server/app/streaming/session.py). */
module Questions {
  import opened Audio
  import opened Basics
  import opened ClipsSent
  import opened SessionModel
  import Stitch
  import opened Text

  // ---- One decode ----

  /** What the model that is asked answers: to this many decodes before, this clip and this prompt. */
  function AnswerTo(cfg: Settings, env: Environment, q: Question): Answer {
    var clip := OnlyTheSpeech(cfg, q.from.silence, q.from.buffer.data).0;
    if q.byDraft then env.draft(q.from.decodes, clip, q.from.page.prompt)
    else env.accurate(q.from.decodes, clip, q.from.page.prompt)
  }

  /** The words of an answer, in the window's time. */
  predicate InWindow(words: seq<Word>, offset: int, moved: seq<Word>) {
    && |moved| == |words|
    && forall i :: 0 <= i < |words| ==> moved[i] == Word(words[i].text, words[i].start + offset, words[i].end + offset)
  }

  /** `left` are the words from the first that reaches past the first `n` characters. */
  predicate ReachPast(words: seq<Word>, n: nat, left: seq<Word>) {
    && |left| <= |words| && left == words[|words| - |left|..]
    && |Spoken(words[..|words| - |left|])| <= n
    && (left != [] ==> |Spoken(words[..|words| - |left| + 1])| > n)
  }

  /** `text` and `words` are what is left of an answer when what repeats the prompt is gone. */
  predicate WithoutRepeat(fold: Casefold, prompt: string, heard: string, moved: seq<Word>, text: string, words: seq<Word>) {
    match Stitch.RepeatedPrefixOf(fold, prompt, heard)
    case IndexError => false
    case Cut(n) =>
      if n == 0 then text == heard && words == moved
      else n <= |heard| && text == LStrip(heard[n..]) && ReachPast(moved, n, words)
  }

  lemma {:induction false} WordsAfterReachPast(words: seq<Word>, n: nat)
    ensures ReachPast(words, n, WordsAfter(words, n))
  {
    if words == [] {
    } else if |words[0].text| > n {
      assert words[0..] == words && words[..0] == [] && words[..1][1..] == [];
    } else {
      var rest, left := words[1..], WordsAfter(words[1..], n - |words[0].text|);
      WordsAfterReachPast(rest, n - |words[0].text|);
      var j := |rest| - |left|;
      assert words[j + 1..] == rest[j..] && words[..j + 1][1..] == rest[..j];
      assert left != [] ==> words[..j + 2][1..] == rest[..j + 1];
    }
  }

  /**
   * The decode of a window that is asked for: whatever arrives meanwhile is taken in, and then it is cut short by a
   * close, or reports a failure and says nothing, or says the answer without what repeats the prompt, its words in the
   * window's time; where the repeat cannot be placed the loop ends.
   */
  lemma {:induction false} WhatComesBack(cfg: Settings, env: Environment, s: Session, byDraft: bool)
    requires StitchesAsSpecified(env) && GoesOut(cfg, s)
    ensures var (s1, reply) := Decoded(cfg, env, s, s.buffer.data, byDraft);
            var offset := OnlyTheSpeech(cfg, s.silence, s.buffer.data).1;
            var arrived := AfterInputs(env, s.(decodes := s.decodes + 1), env.arrivals(s.decodes));
            if arrived.hands.closing then reply == Aborted && s1 == arrived
            else
              match AnswerTo(cfg, env, Question(s, byDraft))
              case Fault => reply == Nothing && s1 == arrived.(page := arrived.page.(events := arrived.page.events + [Error(InferenceFailed)]))
              case Heard(heard, words) =>
                if Stitch.RepeatedPrefixOf(env.fold, s.page.prompt, heard).IndexError? then
                  && reply == Aborted && !s1.hands.alive && s1.hands.flushDone
                  && s1.page == arrived.page.(events := arrived.page.events + [Error(InternalError)])
                else
                  && s1 == arrived && reply.Result?
                  && exists moved :: InWindow(words, offset, moved)
                       && WithoutRepeat(env.fold, s.page.prompt, heard, moved, reply.text, reply.words)
  {
    hide OnlyTheSpeech, WithoutRepeatOf, WithoutRepeat, AfterInputs;
    var (clip, offset) := OnlyTheSpeech(cfg, s.silence, s.buffer.data);
    var answer := AnswerTo(cfg, env, Question(s, byDraft));
    if answer.Heard? {
      assert InWindow(answer.words, offset, Shifted(answer.words, offset));
      RepeatGoes(env, s.page.prompt, answer.text, Shifted(answer.words, offset));
    }
  }

  lemma {:induction false} RepeatGoes(env: Environment, prompt: string, heard: string, moved: seq<Word>)
    requires StitchesAsSpecified(env)
    ensures var reply := WithoutRepeatOf(env.stitch, prompt, heard, moved);
            if Stitch.RepeatedPrefixOf(env.fold, prompt, heard).IndexError? then reply == Aborted
            else reply.Result? && WithoutRepeat(env.fold, prompt, heard, moved, reply.text, reply.words)
  {
    Stitch.NothingOverlaps(env.fold, prompt, heard);
    match Stitch.RepeatedPrefixOf(env.fold, prompt, heard)
    case IndexError =>
    case Cut(n) =>
      Stitch.PositionsShape(heard);
      WordsAfterReachPast(moved, n);
  }

  // ---- A whole run ----

  /** Alike in everything but the two models. */
  ghost predicate SameAround(e: Environment, e': Environment) {
    e'.fold == e.fold && e'.stitch == e.stitch && e'.signal == e.signal && e'.arrivals == e.arrivals
  }

  /** The models of both answer these questions alike. */
  predicate AnswerAlike(cfg: Settings, e: Environment, e': Environment, asked: seq<Question>) {
    forall k :: 0 <= k < |asked| ==> AnswerTo(cfg, e, asked[k]) == AnswerTo(cfg, e', asked[k])
  }

  lemma {:induction false} AlikeInParts(cfg: Settings, e: Environment, e': Environment, a: seq<Question>, b: seq<Question>)
    requires AnswerAlike(cfg, e, e', a + b)
    ensures AnswerAlike(cfg, e, e', a) && AnswerAlike(cfg, e, e', b)
  {
    assert forall k :: 0 <= k < |a| ==> a[k] == (a + b)[k];
    assert forall k :: 0 <= k < |b| ==> b[k] == (a + b)[|a| + k];
  }

  lemma {:induction false} InputsAlike(e: Environment, e': Environment, s: Session, inputs: seq<Input>)
    requires SameAround(e, e')
    ensures AfterInputs(e', s, inputs) == AfterInputs(e, s, inputs)
  {
    if inputs != [] {
      InputsAlike(e, e', s, inputs[..|inputs| - 1]);
    }
  }

  lemma {:induction false} DecodesAlike(cfg: Settings, e: Environment, e': Environment, s: Session, byDraft: bool)
    requires SameAround(e, e') && AnswerAlike(cfg, e, e', Sent(cfg, s, byDraft))
    ensures Decoded(cfg, e', s, s.buffer.data, byDraft) == Decoded(cfg, e, s, s.buffer.data, byDraft)
  {
    InputsAlike(e, e', s.(decodes := s.decodes + 1), e.arrivals(s.decodes));
    if GoesOut(cfg, s) {
      assert Sent(cfg, s, byDraft)[0] == Question(s, byDraft);
    }
  }

  lemma {:induction false} PassesOnAlike(cfg: Settings, e: Environment, e': Environment, s: Session, reply: Reply)
    requires SameAround(e, e') && AnswerAlike(cfg, e, e', PassOnSent(cfg, e, s, reply))
    ensures PassedOn(cfg, e', s, reply) == PassedOn(cfg, e, s, reply)
  {
    hide Decoded, Digested, DraftShown, CompactedOn;
    if reply.Result? && Said(reply) != "" && cfg.draftMode {
      var shown := s.(page := DraftShown(e.fold, s.page, Said(reply)));
      if CompactionSent(cfg, shown) == Sent(cfg, shown, false) {
        DecodesAlike(cfg, e, e', shown, false);
      }
    }
  }

  lemma {:induction false} PassesAlike(cfg: Settings, e: Environment, e': Environment, s: Session)
    requires SameAround(e, e') && AnswerAlike(cfg, e, e', PassSent(cfg, e, s))
    ensures IncrementallyDecoded(cfg, e', s) == IncrementallyDecoded(cfg, e, s)
  {
    hide Decoded, PassedOn, PassOnSent;
    var (s1, reply) := PassDecoded(cfg, e, s);
    AlikeInParts(cfg, e, e', Sent(cfg, Marked(s), cfg.draftMode), PassOnSent(cfg, e, s1, reply));
    DecodesAlike(cfg, e, e', Marked(s), cfg.draftMode);
    PassesOnAlike(cfg, e, e', s1, reply);
  }

  lemma {:induction false} FinalizesAlike(cfg: Settings, e: Environment, e': Environment, s: Session)
    requires SameAround(e, e') && AnswerAlike(cfg, e, e', FinalSent(cfg, s))
    ensures Finalized(cfg, e', s) == Finalized(cfg, e, s)
  {
    hide Decoded, FinalizedOn, NeedsAccuratePass;
    if NeedsAccuratePass(cfg, s) {
      DecodesAlike(cfg, e, e', Marked(s), false);
    }
  }

  lemma {:induction false} StepsAlike(cfg: Settings, e: Environment, e': Environment, s: Session)
    requires SameAround(e, e') && AnswerAlike(cfg, e, e', StepSent(cfg, e, s))
    ensures Stepped(cfg, e', s) == Stepped(cfg, e, s)
  {
    hide Finalized, IncrementallyDecoded, FinalSent, PassSent, Chosen;
    match Chosen(cfg, s)
    case Idle =>
    case PreRoll =>
      if PreRolled(cfg, s).hands.flushRequested {
        FinalizesAlike(cfg, e, e', PreRolled(cfg, s));
      }
    case TooLong => FinalizesAlike(cfg, e, e', s.(page := Reported(s.page, UtteranceTooLong)));
    case Flushing => FinalizesAlike(cfg, e, e', s);
    case Silence => FinalizesAlike(cfg, e, e', s);
    case Pass => PassesAlike(cfg, e, e', s);
  }

  lemma {:induction false} DrainsAlike(cfg: Settings, e: Environment, e': Environment, s: Session)
    requires SameAround(e, e') && AnswerAlike(cfg, e, e', DrainSent(cfg, e, s))
    ensures Drained(cfg, e', s) == Drained(cfg, e, s)
    decreases |s.buffer.data|
  {
    hide Stepped, StepSent;
    var (s1, more) := Stepped(cfg, e, s);
    if more && !s1.hands.closing {
      MoreMeansEmptied(cfg, e, s);
      AlikeInParts(cfg, e, e', StepSent(cfg, e, s), DrainSent(cfg, e, s1));
      StepsAlike(cfg, e, e', s);
      DrainsAlike(cfg, e, e', s1);
    } else {
      StepsAlike(cfg, e, e', s);
    }
  }

  /**
   * The numbered questions of a run are all that it asks: with any other two models that answer those alike, whatever
   * else they would have said, the run is the same.
   */
  lemma {:induction false} NothingElseIsAsked(cfg: Settings, e: Environment, e': Environment, s: Session, schedule: seq<Action>)
    requires SameAround(e, e') && AnswerAlike(cfg, e, e', RunSent(cfg, e, s, schedule))
    ensures Ran(cfg, e', s, schedule) == Ran(cfg, e, s, schedule)
  {
    hide Drained, DrainSent;
    if schedule != [] {
      var init, action := schedule[..|schedule| - 1], schedule[|schedule| - 1];
      var before := Ran(cfg, e, s, init);
      AlikeInParts(cfg, e, e', RunSent(cfg, e, s, init), ActionSent(cfg, e, before, action));
      NothingElseIsAsked(cfg, e, e', s, init);
      if action.Round? && before.hands.alive && !before.hands.closing && before.hands.wake {
        DrainsAlike(cfg, e, e', before.(hands := before.hands.(wake := false)));
      }
    }
  }
}
