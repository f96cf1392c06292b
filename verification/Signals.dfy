/** A session flushes and closes when it is told to, and only then (server/app/streaming/session.py). */
module Signals {
  import opened Audio
  import opened FlushHandshake
  import opened SessionModel
  import Text
  import Vad

  /** The input arrived during one of the decodes from the first number up to the second. */
  predicate Arrived(env: Environment, input: Input, first: nat, next: nat) {
    exists k :: first <= k < next && input in env.arrivals(k)
  }

  /** From `s` to `s'` the session is told exactly what arrived during the decodes between. */
  predicate Told(env: Environment, s: Session, s': Session) {
    && s.decodes <= s'.decodes
    && (s'.hands.closing <==> s.hands.closing || Arrived(env, Close, s.decodes, s'.decodes))
    && (s'.hands.flushRequested <==> s.hands.flushRequested || Arrived(env, Flush, s.decodes, s'.decodes))
  }

  lemma {:induction false} ToldInTwo(env: Environment, s: Session, m: Session, s': Session)
    requires Told(env, s, m) && Told(env, m, s')
    ensures Told(env, s, s')
  {
    forall input, k | m.decodes <= k < s'.decodes && input in env.arrivals(k)
      ensures Arrived(env, input, s.decodes, s'.decodes)
    {
    }
    forall input, k | s.decodes <= k < m.decodes && input in env.arrivals(k)
      ensures Arrived(env, input, s.decodes, s'.decodes)
    {
    }
  }

  lemma {:induction false} InputsTell(env: Environment, s: Session, inputs: seq<Input>)
    ensures var s' := AfterInputs(env, s, inputs);
            && s'.decodes == s.decodes
            && (s'.hands.closing <==> s.hands.closing || Close in inputs)
            && (s'.hands.flushRequested <==> s.hands.flushRequested || Flush in inputs)
  {
    if inputs != [] {
      var init := inputs[..|inputs| - 1];
      assert inputs == init + [inputs[|init|]];
      InputsTell(env, s, init);
    }
  }

  lemma {:induction false} ExchangeTells(env: Environment, s: Session, clip: seq<Byte>, offset: int, byDraft: bool)
    ensures Told(env, s, Exchanged(env, s, clip, offset, byDraft).0)
  {
    var n := s.decodes;
    InputsTell(env, s.(decodes := n + 1), env.arrivals(n));
    forall input
      ensures Arrived(env, input, n, n + 1) <==> input in env.arrivals(n)
    {
      if input in env.arrivals(n) {
        assert n <= n < n + 1;
      }
    }
  }

  lemma {:induction false} DecodingTells(cfg: Settings, env: Environment, s: Session, pcm: seq<Byte>, byDraft: bool)
    ensures Told(env, s, Decoded(cfg, env, s, pcm, byDraft).0)
  {
    hide Exchanged;
    var (clip, offset) := OnlyTheSpeech(cfg, s.silence, pcm);
    ExchangeTells(env, s, clip, offset, byDraft);
  }

  lemma {:induction false} CompactingTells(cfg: Settings, env: Environment, s: Session)
    ensures Told(env, s, DraftWindowCompacted(cfg, env, s).s)
  {
    hide Decoded, CompactedOn;
    var (s1, reply) := Decoded(cfg, env, s, s.buffer.data, false);
    DecodingTells(cfg, env, s, s.buffer.data, false);
    CompactedKeepsCount(cfg, s1, reply, s.buffer.Samples());
  }

  lemma {:induction false} CompactedKeepsCount(cfg: Settings, s: Session, reply: Reply, window: nat)
    ensures var s' := CompactedOn(cfg, s, reply, window).s; s'.decodes == s.decodes && s'.hands == s.hands
  {
  }

  lemma {:induction false} PassingOnTells(cfg: Settings, env: Environment, s: Session, reply: Reply)
    ensures Told(env, s, PassedOn(cfg, env, s, reply).s)
  {
    hide DraftWindowCompacted, DraftShown, Digested;
    if reply.Result? && Said(reply) != "" {
      if cfg.draftMode {
        CompactingTells(cfg, env, s.(page := DraftShown(env.fold, s.page, Said(reply))));
      } else {
        DigestingKeepsHands(cfg, env.fold, s, Said(reply), reply.words);
        DigestingKeepsCount(cfg, env.fold, s, Said(reply), reply.words);
      }
    }
  }

  lemma {:induction false} DigestingKeepsCount(cfg: Settings, fold: Text.Casefold, s: Session, h: string, words: seq<Word>)
    ensures Digested(cfg, fold, s, h, words).decodes == s.decodes
  {
  }

  lemma {:induction false} PassTells(cfg: Settings, env: Environment, s: Session)
    ensures Told(env, s, IncrementallyDecoded(cfg, env, s).s)
  {
    hide Decoded, PassedOn;
    var (s1, reply) := PassDecoded(cfg, env, s);
    DecodingTells(cfg, env, s.(buffer := AfterMarkDecoded(s.buffer)), s.buffer.data, cfg.draftMode);
    PassingOnTells(cfg, env, s1, reply);
    ToldInTwo(env, s, s1, PassedOn(cfg, env, s1, reply).s);
  }

  lemma {:induction false} FinalizingTells(cfg: Settings, env: Environment, s: Session)
    ensures Told(env, s, Finalized(cfg, env, s).s)
  {
    hide Decoded, Finished;
    DecodingTells(cfg, env, s.(buffer := AfterMarkDecoded(s.buffer)), s.buffer.data, false);
  }

  lemma {:induction false} StepTells(cfg: Settings, env: Environment, s: Session)
    ensures Told(env, s, Stepped(cfg, env, s).0)
  {
    hide Finalized, IncrementallyDecoded;
    match Chosen(cfg, s)
    case Idle =>
    case PreRoll => FinalizingTells(cfg, env, PreRolled(cfg, s));
    case TooLong => FinalizingTells(cfg, env, s.(page := Reported(s.page, UtteranceTooLong)));
    case Flushing => FinalizingTells(cfg, env, s);
    case Silence => FinalizingTells(cfg, env, s);
    case Pass => PassTells(cfg, env, s);
  }

  lemma {:induction false} DrainTells(cfg: Settings, env: Environment, s: Session)
    ensures Told(env, s, Drained(cfg, env, s))
    decreases |s.buffer.data|
  {
    hide Stepped;
    var (s1, more) := Stepped(cfg, env, s);
    StepTells(cfg, env, s);
    if more && !s1.hands.closing {
      MoreMeansEmptied(cfg, env, s);
      DrainTells(cfg, env, s1);
      ToldInTwo(env, s, s1, Drained(cfg, env, s1));
    }
  }

  /** The input came in between two rounds, or during one of a run's decodes. */
  predicate Sent(env: Environment, input: Input, schedule: seq<Action>, decodes: nat) {
    Arrive(input) in schedule || Arrived(env, input, 0, decodes)
  }

  /**
   * Over every run: a session is closing exactly when a close was sent, and has been told to flush exactly when a flush
   * was; and a flush counts as done only when one was asked for, or the loop has ended.
   */
  lemma {:induction false} EveryRunDoesAsTold(cfg: Settings, env: Environment, detector: Vad.Detector,
                                              crossCheck: bool, schedule: seq<Action>)
    ensures var s := Ran(cfg, env, NewSession(cfg, detector, crossCheck), schedule);
            && (s.hands.closing <==> Sent(env, Close, schedule, s.decodes))
            && (s.hands.flushRequested <==> Sent(env, Flush, schedule, s.decodes))
            && (s.hands.flushDone ==> s.hands.flushRequested || !s.hands.alive)
  {
    EveryRunKeepsWakeUps(cfg, env, detector, crossCheck, schedule);
    if schedule != [] {
      var init, action := schedule[..|schedule| - 1], schedule[|schedule| - 1];
      assert schedule == init + [action];
      EveryRunDoesAsTold(cfg, env, detector, crossCheck, init);
      OneMoreAction(cfg, env, Ran(cfg, env, NewSession(cfg, detector, crossCheck), init), init, action);
    }
  }

  lemma {:induction false} OneMoreAction(cfg: Settings, env: Environment, s: Session, init: seq<Action>, action: Action)
    requires s.hands.closing <==> Sent(env, Close, init, s.decodes)
    requires s.hands.flushRequested <==> Sent(env, Flush, init, s.decodes)
    ensures var s' := Acted(cfg, env, s, action);
            && (s'.hands.closing <==> Sent(env, Close, init + [action], s'.decodes))
            && (s'.hands.flushRequested <==> Sent(env, Flush, init + [action], s'.decodes))
  {
    hide Drained;
    match action
    case Arrive(input) =>
    case Round =>
      var begun := s.(hands := s.hands.(wake := false));
      DrainTells(cfg, env, begun);
      if s.hands.alive && !s.hands.closing && s.hands.wake {
        ArrivedInTwo(env, Close, s.decodes, Drained(cfg, env, begun).decodes);
        ArrivedInTwo(env, Flush, s.decodes, Drained(cfg, env, begun).decodes);
      }
  }

  lemma {:induction false} ArrivedInTwo(env: Environment, input: Input, middle: nat, next: nat)
    requires middle <= next
    ensures Arrived(env, input, 0, next) <==> Arrived(env, input, 0, middle) || Arrived(env, input, middle, next)
  {
  }
}
