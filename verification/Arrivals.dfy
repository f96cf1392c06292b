/** What reaches a session while it waits or decodes (server/app/streaming/session.py, the inbound methods). */
module Arrivals {
  import opened Audio
  import opened SessionModel
  import opened Vad

  /** The payloads that are taken in: whole samples, before the first flush and before a close. */
  function Accepted(inputs: seq<Input>): seq<seq<Byte>> {
    if inputs == [] then []
    else
      var init, last := inputs[..|inputs| - 1], inputs[|inputs| - 1];
      Accepted(init) +
      if last.Push? && Flush !in init && Close !in init && |last.pcm| % BYTES_PER_SAMPLE == 0 then [last.pcm] else []
  }

  /** From an open session `s`, the inputs lead to `s'`. */
  ghost predicate TakenIn(signal: Signal, s: Session, inputs: seq<Input>, s': Session) {
    && (s'.hands.closing <==> Close in inputs)
    && (s'.hands.flushRequested <==> Flush in inputs)
    && (s'.hands.wake <==> s.hands.wake || Accepted(inputs) != [] || Flush in inputs || Close in inputs)
    && s'.hands.flushDone == s.hands.flushDone && s'.hands.alive == s.hands.alive
    && s' == s.(buffer := s'.buffer, silence := s'.silence, hands := s'.hands)
    && (if Close in inputs then s'.buffer.data == []
        else Grown(s.buffer, Flatten(Accepted(inputs)), s'.buffer)
             && s'.silence == AfterPushes(signal, s.silence, Accepted(inputs)))
  }

  predicate Grown(b: Buffer, pcm: seq<Byte>, b': Buffer) {
    b'.data == b.data + pcm && b'.total == b.total + |pcm| && b'.decoded == b.decoded
  }

  /**
   * As long as nothing closes an open session, its window grows by exactly the payloads taken in, in order, and the
   * tracker has heard them one by one; nothing that was held changes, nor what counts as decoded. A close empties the
   * window whatever follows it.
   */
  lemma {:induction false} ArrivalsAreHeard(env: Environment, s: Session, inputs: seq<Input>)
    requires !s.hands.closing && !s.hands.flushRequested
    ensures TakenIn(env.signal, s, inputs, AfterInputs(env, s, inputs))
  {
    hide AfterInput;
    if inputs == [] {
      assert s.buffer.data + [] == s.buffer.data;
    } else {
      var init, last := inputs[..|inputs| - 1], inputs[|inputs| - 1];
      assert inputs == init + [last];
      ArrivalsAreHeard(env, s, init);
      match last
      case Push(pcm) => OnePayload(env, s, AfterInputs(env, s, init), init, pcm);
      case Flush => OneSignal(env, s, AfterInputs(env, s, init), init, last);
      case Close => OneSignal(env, s, AfterInputs(env, s, init), init, last);
    }
  }

  lemma {:induction false} OnePayload(env: Environment, s: Session, before: Session, init: seq<Input>, pcm: seq<Byte>)
    requires TakenIn(env.signal, s, init, before)
    ensures TakenIn(env.signal, s, init + [Push(pcm)], AfterInput(env, before, Push(pcm)))
  {
    hide AfterPush;
    var inputs := init + [Push(pcm)];
    assert inputs[..|inputs| - 1] == init;
    if Flush !in init && Close !in init && |pcm| % BYTES_PER_SAMPLE == 0 {
      var all := Accepted(init) + [pcm];
      assert Accepted(inputs) == all && all[..|all| - 1] == Accepted(init);
      assert s.buffer.data + Flatten(Accepted(init)) + pcm == s.buffer.data + (Flatten(Accepted(init)) + pcm);
    } else {
      assert Accepted(inputs) == Accepted(init);
    }
  }

  lemma {:induction false} OneSignal(env: Environment, s: Session, before: Session, init: seq<Input>, last: Input)
    requires TakenIn(env.signal, s, init, before) && !last.Push?
    ensures TakenIn(env.signal, s, init + [last], AfterInput(env, before, last))
  {
    var inputs := init + [last];
    assert inputs[..|inputs| - 1] == init;
    assert Accepted(inputs) == Accepted(init) + [] == Accepted(init);
  }

  /** A session told to flush takes no more audio, and a closed one holds none. */
  lemma {:induction false} NothingAfterFlush(env: Environment, s: Session, inputs: seq<Input>)
    requires s.hands.flushRequested && !s.hands.closing
    ensures var s' := AfterInputs(env, s, inputs);
            && (s'.hands.closing <==> Close in inputs)
            && (Close !in inputs ==> s' == s)
            && (Close in inputs ==> s'.buffer.data == [])
  {
    if inputs != [] {
      var init := inputs[..|inputs| - 1];
      assert inputs == init + [inputs[|init|]];
      NothingAfterFlush(env, s, init);
    }
  }
}
