/** The flush handshake: no wake-up is lost, and a flush is always answered (server/app/streaming/session.py). */
module FlushHandshake {
  import Audio
  import opened SessionModel
  import Text
  import Vad

  /** How the flags may move while a step runs: nothing is withdrawn, and a new flush has set the wake event. */
  predicate Moves(h: Handshake, h': Handshake) {
    && (h.closing ==> h'.closing)
    && (h.flushRequested ==> h'.flushRequested)
    && (h.flushDone ==> h'.flushDone)
    && (h'.alive ==> h.alive)
    && (h.wake ==> h'.wake)
    && (h'.flushRequested && !h.flushRequested ==> h'.wake)
    && (!h'.alive && h.alive ==> h'.flushDone)
    && (h'.flushDone ==> h.flushDone || h'.flushRequested || !h'.alive)
  }

  lemma {:induction false} InputsMove(env: Environment, s: Session, inputs: seq<Input>)
    ensures Moves(s.hands, AfterInputs(env, s, inputs).hands)
    ensures AfterInputs(env, s, inputs).hands.alive == s.hands.alive
  {
    if inputs != [] {
      InputsMove(env, s, inputs[..|inputs| - 1]);
    }
  }

  /** A decode that does not come back was cancelled by `aclose`, or ended the loop with the flusher released. */
  predicate CutShort(h: Handshake) {
    h.closing || (h.flushDone && !h.alive)
  }

  lemma {:induction false} ExchangeMoves(env: Environment, s: Session, clip: seq<Audio.Byte>, offset: int, byDraft: bool)
    ensures var (s1, reply) := Exchanged(env, s, clip, offset, byDraft);
            Moves(s.hands, s1.hands) && (reply.Aborted? ==> CutShort(s1.hands))
  {
    InputsMove(env, s.(decodes := s.decodes + 1), env.arrivals(s.decodes));
  }

  lemma {:induction false} DecodingMoves(cfg: Settings, env: Environment, s: Session, pcm: seq<Audio.Byte>, byDraft: bool)
    ensures var (s1, reply) := Decoded(cfg, env, s, pcm, byDraft);
            Moves(s.hands, s1.hands) && (reply.Aborted? ==> CutShort(s1.hands))
  {
    var (clip, offset) := OnlyTheSpeech(cfg, s.silence, pcm);
    ExchangeMoves(env, s, clip, offset, byDraft);
  }

  lemma {:induction false} CompactingMoves(cfg: Settings, env: Environment, s: Session)
    ensures Moves(s.hands, DraftWindowCompacted(cfg, env, s).s.hands)
  {
    DecodingMoves(cfg, env, s, s.buffer.data, false);
  }

  lemma {:induction false} PassMoves(cfg: Settings, env: Environment, s: Session)
    ensures Moves(s.hands, IncrementallyDecoded(cfg, env, s).s.hands)
  {
    var (s1, reply) := PassDecoded(cfg, env, s);
    DecodingMoves(cfg, env, s.(buffer := Audio.AfterMarkDecoded(s.buffer)), s.buffer.data, cfg.draftMode);
    PassingOnMoves(cfg, env, s1, reply);
  }

  lemma {:induction false} DigestingKeepsHands(cfg: Settings, fold: Text.Casefold, s: Session, h: string, words: seq<Word>)
    ensures Digested(cfg, fold, s, h, words).hands == s.hands
  {
    if Conflicts(fold, s.page, h) {
      var typed := s.page.agreement.Committed();
      var page := Rotated(fold, s.page, h);
      assert Reanchored(s, page, Reopened(fold, page, typed, h), WordBoundary(words, typed)).hands == s.hands;
    } else {
      assert Trimmed(cfg, s.(page := ReadingShown(fold, s.page, h)), words).hands == s.hands;
    }
  }

  lemma {:induction false} PassingOnMoves(cfg: Settings, env: Environment, s: Session, reply: Reply)
    ensures Moves(s.hands, PassedOn(cfg, env, s, reply).s.hands)
  {
    if reply.Result? && Said(reply) != "" {
      if cfg.draftMode {
        var shown := s.(page := DraftShown(env.fold, s.page, Said(reply)));
        CompactingMoves(cfg, env, shown);
        assert PassedOn(cfg, env, s, reply) == DraftWindowCompacted(cfg, env, shown);
      } else {
        DigestingKeepsHands(cfg, env.fold, s, Said(reply), reply.words);
      }
    }
  }

  lemma {:induction false} FinalizingMoves(cfg: Settings, env: Environment, s: Session)
    ensures var flow := Finalized(cfg, env, s);
            Moves(s.hands, flow.s.hands) && (flow.Stops? ==> CutShort(flow.s.hands))
  {
    var (s1, reply) := FinalDecoded(cfg, env, s);
    assert Moves(s.hands, s1.hands) && (reply.Aborted? ==> CutShort(s1.hands)) by {
      DecodingMoves(cfg, env, s.(buffer := Audio.AfterMarkDecoded(s.buffer)), s.buffer.data, false);
    }
    assert Finalized(cfg, env, s).s.hands == s1.hands;
  }

  /** A step begun with a flush requested answers it on every branch, unless the session is closed under it. */
  lemma {:induction false} StepAnswersFlush(cfg: Settings, env: Environment, s: Session)
    ensures var (s1, more) := Stepped(cfg, env, s);
            && Moves(s.hands, s1.hands)
            && (s.hands.flushRequested && !s.hands.closing ==> s1.hands.flushDone || s1.hands.closing)
            && (more && s1.hands.flushRequested ==> s1.hands.closing)
  {
    match Chosen(cfg, s)
    case Idle =>
    case PreRoll => FinalizingMoves(cfg, env, PreRolled(cfg, s));
    case TooLong => FinalizingMoves(cfg, env, s.(page := Reported(s.page, UtteranceTooLong)));
    case Flushing => FinalizingMoves(cfg, env, s);
    case Silence => FinalizingMoves(cfg, env, s);
    case Pass => PassMoves(cfg, env, s);
  }

  lemma {:induction false} RoundAnswersFlush(cfg: Settings, env: Environment, s: Session)
    ensures var s1 := Drained(cfg, env, s);
            && Moves(s.hands, s1.hands)
            && (s.hands.flushRequested && !s.hands.closing ==> s1.hands.flushDone || s1.hands.closing)
    decreases |s.buffer.data|
  {
    var (s1, more) := Stepped(cfg, env, s);
    StepAnswersFlush(cfg, env, s);
    if more && !s1.hands.closing {
      MoreMeansEmptied(cfg, env, s);
      RoundAnswersFlush(cfg, env, s1);
    }
  }

  /** While a flush waits for its answer and the session is open, the loop has been told to wake. */
  predicate NoLostWakeUp(h: Handshake) {
    && (h.flushRequested && !h.flushDone && !h.closing ==> h.alive && h.wake)
    && (!h.alive ==> h.flushDone)
    && (h.flushDone ==> h.flushRequested || !h.alive)
  }

  lemma {:induction false} ActionKeepsWakeUp(cfg: Settings, env: Environment, s: Session, action: Action)
    requires NoLostWakeUp(s.hands)
    ensures NoLostWakeUp(Acted(cfg, env, s, action).hands)
    ensures var h' := Acted(cfg, env, s, action).hands;
            && (s.hands.flushDone ==> h'.flushDone) && (s.hands.closing ==> h'.closing)
            && (s.hands.flushRequested ==> h'.flushRequested)
            && (action == Round && s.hands.flushRequested ==> h'.flushDone || h'.closing)
  {
    match action
    case Arrive(input) => InputsMove(env, s, [input]); assert [input][..0] == [];
    case Round => RoundAnswersFlush(cfg, env, s.(hands := s.hands.(wake := false)));
  }

  /** In every reachable state, whatever the decoder does and whatever arrives while it does. */
  lemma {:induction false} EveryRunKeepsWakeUps(cfg: Settings, env: Environment, detector: Vad.Detector,
                                                crossCheck: bool, schedule: seq<Action>)
    ensures NoLostWakeUp(Ran(cfg, env, NewSession(cfg, detector, crossCheck), schedule).hands)
  {
    if schedule != [] {
      var init := schedule[..|schedule| - 1];
      EveryRunKeepsWakeUps(cfg, env, detector, crossCheck, init);
      ActionKeepsWakeUp(cfg, env, Ran(cfg, env, NewSession(cfg, detector, crossCheck), init), schedule[|schedule| - 1]);
    }
  }

  /** A flush is answered by the next round of the loop, and stays answered, or the session was closed. */
  lemma {:induction false} FlushIsAnswered(cfg: Settings, env: Environment, detector: Vad.Detector,
                                           crossCheck: bool, schedule: seq<Action>, i: nat, j: nat)
    requires i < j < |schedule| && schedule[i] == Arrive(Flush) && schedule[j] == Round
    ensures var h := Ran(cfg, env, NewSession(cfg, detector, crossCheck), schedule).hands;
            h.flushDone || h.closing
  {
    var init := schedule[..|schedule| - 1];
    var before := Ran(cfg, env, NewSession(cfg, detector, crossCheck), init);
    EveryRunKeepsWakeUps(cfg, env, detector, crossCheck, init);
    ActionKeepsWakeUp(cfg, env, before, schedule[|schedule| - 1]);
    if j < |schedule| - 1 {
      FlushIsAnswered(cfg, env, detector, crossCheck, init, i, j);
    } else {
      FlushStaysRequested(cfg, env, detector, crossCheck, init, i);
    }
  }

  lemma {:induction false} FlushStaysRequested(cfg: Settings, env: Environment, detector: Vad.Detector,
                                               crossCheck: bool, schedule: seq<Action>, i: nat)
    requires i < |schedule| && schedule[i] == Arrive(Flush)
    ensures Ran(cfg, env, NewSession(cfg, detector, crossCheck), schedule).hands.flushRequested
  {
    var init := schedule[..|schedule| - 1];
    EveryRunKeepsWakeUps(cfg, env, detector, crossCheck, init);
    ActionKeepsWakeUp(cfg, env, Ran(cfg, env, NewSession(cfg, detector, crossCheck), init), schedule[|schedule| - 1]);
    if i < |schedule| - 1 {
      FlushStaysRequested(cfg, env, detector, crossCheck, init, i);
    }
  }
}
