/**
 * The streaming session as a step machine: PCM in, transcript events out (server/app/streaming/session.py).
 *
 * The one suspension point is the executor call inside a decode. What arrives there, and what the decoder
 * answers, comes from the environment; every function below is deterministic in it. Times are in samples.
 */
module SessionModel {
  import opened Audio
  import opened Basics
  import opened LocalAgreementPolicy
  import SpeechTimeline
  import Stitch
  import opened Text
  import opened Tokens
  import opened Vad

  const SPEECH_PAD: nat := 3200
  const PROMPT_CHARACTERS: nat := 200
  const MIN_CUT: nat := 1600
  const COMPACTION_BACKOFF: nat := 32000

  // ---- What surrounds the session ----

  datatype Word = Word(text: string, start: int, end: int)

  /** A decode pass fails, or answers with a text and its words' timings. */
  datatype Answer = Fault | Heard(text: string, words: seq<Word>)

  /** A decoder may answer anything: it sees how many passes there were, the clip and the prompt. */
  type Decoder = (nat, seq<Byte>, string) -> Answer

  /** How a hypothesis that repeats its prompt is cut: `repeated_prefix`, see `StitchesAsSpecified`. */
  type Stitcher = (string, string) -> Stitch.CutResult

  /** What can reach the session while it waits or decodes. */
  datatype Input = Push(pcm: seq<Byte>) | Flush | Close

  /** `arrivals(k)` is what comes in, in order, while the k-th decode runs. */
  datatype Environment = Environment(
    fold: Casefold, stitch: Stitcher, signal: Signal, accurate: Decoder, draft: Decoder,
    arrivals: nat -> seq<Input>)

  /** What is proved of a session holds for any way to cut; this is the one it uses. */
  ghost predicate StitchesAsSpecified(env: Environment) {
    forall previous, hypothesis :: env.stitch(previous, hypothesis) == Stitch.RepeatedPrefixOf(env.fold, previous, hypothesis)
  }

  datatype Settings = Settings(
    draftMode: bool, chunk: nat, silence: nat, minSpeech: nat, trimToSpeech: bool,
    maxUtterance: nat, maxWindow: nat, agreementWindow: Window)

  datatype ErrorCode = UtteranceTooLong | InferenceFailed | InternalError

  datatype Event =
    | Transcript(utterance: nat, revision: nat, stable: string, partial: string, final: bool)
    | Error(code: ErrorCode)

  // ---- The session ----

  /** What has been said: the fields the text of an utterance depends on, and the event queue. */
  datatype Page = Page(
    agreement: Agreement,
    revision: nat,
    utterance: nat,
    lastEmitted: Option<(string, string)>,
    windowHypothesis: string,
    committedPrefix: string,
    prompt: string,
    events: seq<Event>)

  /** The wake event, the flush handshake, and whether the decode loop still runs. */
  datatype Handshake = Handshake(wake: bool, flushRequested: bool, flushDone: bool, closing: bool, alive: bool)

  datatype Session = Session(
    buffer: Buffer, silence: Tracker, page: Page, hands: Handshake, nextDraftCompaction: nat, decodes: nat)

  function NewPage(window: Window): Page {
    Page(Fresh(window), 0, 0, None, "", "", "", [])
  }

  function NewSession(cfg: Settings, detector: Detector, crossCheck: bool): Session {
    Session(EMPTY_BUFFER, NewTracker(detector, crossCheck), NewPage(cfg.agreementWindow),
            Handshake(false, false, false, false, true), 0, 0)
  }

  /** A step goes on, or was cut short by `aclose` or an exception. */
  datatype Flow = Goes(s: Session) | Stops(s: Session)

  datatype Reply = Nothing | Result(text: string, words: seq<Word>) | Aborted

  // ---- Inbound ----

  /** `push_audio`: ignored after a flush or while closing; a ragged payload raises and changes nothing. */
  function AfterPushAudio(env: Environment, s: Session, pcm: seq<Byte>): Session {
    if s.hands.flushRequested || s.hands.closing || |pcm| % BYTES_PER_SAMPLE != 0 then s
    else s.(buffer := AfterAppend(s.buffer, pcm),
            silence := AfterPush(env.signal, s.silence, pcm),
            hands := s.hands.(wake := true))
  }

  function AfterFlush(s: Session): Session {
    if s.hands.flushRequested then s
    else s.(hands := s.hands.(flushRequested := true, wake := true))
  }

  /** `aclose`: a decode in flight is cancelled, and the audio is dropped. */
  function AfterClose(s: Session): Session {
    s.(buffer := AfterResetBuffer(s.buffer),
       silence := AfterResetTracker(s.silence),
       hands := s.hands.(closing := true, wake := true))
  }

  function AfterInput(env: Environment, s: Session, input: Input): Session {
    match input
    case Push(pcm) => AfterPushAudio(env, s, pcm)
    case Flush => AfterFlush(s)
    case Close => AfterClose(s)
  }

  function AfterInputs(env: Environment, s: Session, inputs: seq<Input>): Session {
    if inputs == [] then s
    else AfterInput(env, AfterInputs(env, s, inputs[..|inputs| - 1]), inputs[|inputs| - 1])
  }

  // ---- Emitting ----

  function Emitted(p: Page, stable: string, partial: string, final: bool): Page {
    if !final && p.lastEmitted == Some((stable, partial)) then p
    else
      p.(revision := p.revision + 1,
         lastEmitted := Some((stable, partial)),
         events := p.events + [Transcript(p.utterance, p.revision + 1, stable, partial, final)])
  }

  function Reported(p: Page, code: ErrorCode): Page {
    p.(events := p.events + [Error(code)])
  }

  /** The page of a fresh utterance: numbered next, with nothing shown and nothing committed. */
  function NextUtterance(p: Page): Page {
    p.(utterance := p.utterance + 1,
       committedPrefix := "",
       prompt := "",
       agreement := AfterReset(p.agreement, ""),
       lastEmitted := None)
  }

  /** `_close_utterance`. */
  function UtteranceClosed(fold: Casefold, p: Page, windowText: string): Page {
    if Strip(p.committedPrefix + windowText) == "" then p
    else
      var (agreement, r) := AfterCommitAll(fold, p.agreement, windowText);
      if r.conflict then
        var typed := p.agreement.Committed();
        var sealed := NextUtterance(Emitted(p, p.committedPrefix + typed, "", true));
        var remainder := RemainderAfter(typed, windowText);
        if Strip(remainder) == "" then sealed
        else
          var (agreement', r') := AfterCommitAll(fold, sealed.agreement, remainder);
          Emitted(sealed.(agreement := agreement'), r'.stable, "", true)
      else
        Emitted(p.(agreement := agreement), p.committedPrefix + r.stable, "", true)
  }

  /** `_reset_utterance`. */
  function UtteranceReset(s: Session): Session {
    s.(buffer := AfterResetBuffer(s.buffer),
       silence := AfterResetTracker(s.silence),
       page := NextUtterance(s.page).(windowHypothesis := ""),
       nextDraftCompaction := 0)
  }

  // ---- Decoding ----

  /** `_window_worth_decoding`. */
  predicate WorthDecoding(cfg: Settings, s: Session) {
    var speech := SpeechTimeline.SpeechInLast(s.silence.timeline, s.buffer.Samples());
    speech > 0 && speech >= cfg.minSpeech
  }

  /** `_only_the_speech`: the part of the window that is decoded, and the sample it starts at. */
  function OnlyTheSpeech(cfg: Settings, silence: Tracker, pcm: seq<Byte>): (seq<Byte>, nat) {
    if !cfg.trimToSpeech then (pcm, 0)
    else Clipped(pcm, SpeechTimeline.SpanInLast(silence.timeline, |pcm| / BYTES_PER_SAMPLE, SPEECH_PAD))
  }

  function Clipped(pcm: seq<Byte>, span: SpeechTimeline.Span): (seq<Byte>, nat) {
    match span
    case NoSpeech => (pcm, 0)
    case Speech(first, last) =>
      var head, tail := first * BYTES_PER_SAMPLE, last * BYTES_PER_SAMPLE;
      if head == 0 && tail >= |pcm| then (pcm, 0)
      else (SliceFrom(SliceTo(pcm, tail), head), first)
  }

  /** `_shifted`. */
  function Shifted(words: seq<Word>, offset: int): seq<Word> {
    seq(|words|, i requires 0 <= i < |words| =>
      words[i].(start := words[i].start + offset, end := words[i].end + offset))
  }

  /** Text of the words, end to end. */
  function Spoken(words: seq<Word>): string {
    if words == [] then "" else words[0].text + Spoken(words[1..])
  }

  /** `_words_after`: from the first word that reaches past the first `characters`. */
  function WordsAfter(words: seq<Word>, characters: int): seq<Word> {
    if words == [] then []
    else if |words[0].text| > characters then words
    else WordsAfter(words[1..], characters - |words[0].text|)
  }

  /** `_without_repeat_of`. */
  function WithoutRepeatOf(stitch: Stitcher, prompt: string, text: string, words: seq<Word>): Reply {
    if prompt == "" || text == "" then Result(text, words)
    else
      match stitch(prompt, text)
      case IndexError => Aborted
      case Cut(n) =>
        if n == 0 then Result(text, words)
        else Result(LStrip(SliceFrom(text, n)), WordsAfter(words, n))
  }

  /** The last line of defence in `_run`: report, release the flusher, and end the loop. */
  function Crashed(s: Session): Session {
    s.(page := Reported(s.page, InternalError), hands := s.hands.(flushDone := true, alive := false))
  }

  /** What a decode comes back with, once the answer is in. */
  function Answered(stitch: Stitcher, s: Session, prompt: string, answer: Answer, offset: int): (Session, Reply) {
    match answer
    case Fault => (s.(page := Reported(s.page, InferenceFailed)), Nothing)
    case Heard(text, words) =>
      var reply := WithoutRepeatOf(stitch, prompt, text, Shifted(words, offset));
      if reply.Aborted? then (Crashed(s), Aborted) else (s, reply)
  }

  /** The model that is asked, and what it answers. */
  function AnswerOf(env: Environment, n: nat, clip: seq<Byte>, prompt: string, byDraft: bool): Answer {
    if byDraft then env.draft(n, clip, prompt) else env.accurate(n, clip, prompt)
  }

  /** Cancelled if the session was closed meanwhile. */
  function Concluded(stitch: Stitcher, s: Session, prompt: string, answer: Answer, offset: int): (Session, Reply) {
    if s.hands.closing then (s, Aborted) else Answered(stitch, s, prompt, answer, offset)
  }

  /** The executor call: the clip goes out, whatever arrives meanwhile is taken in, the answer comes back. */
  function Exchanged(env: Environment, s: Session, clip: seq<Byte>, offset: int, byDraft: bool): (Session, Reply) {
    Concluded(env.stitch, AfterInputs(env, s.(decodes := s.decodes + 1), env.arrivals(s.decodes)),
              s.page.prompt, AnswerOf(env, s.decodes, clip, s.page.prompt, byDraft), offset)
  }

  /** `_decode`. */
  function Decoded(cfg: Settings, env: Environment, s: Session, pcm: seq<Byte>, byDraft: bool): (Session, Reply) {
    var (clip, offset) := OnlyTheSpeech(cfg, s.silence, pcm);
    if pcm == [] || clip == [] then (s, Nothing) else Exchanged(env, s, clip, offset, byDraft)
  }

  // ---- Trimming ----

  /** `_word_boundary_seconds`: where `committed` ends by the decoder's own timings. */
  function WordBoundary(words: seq<Word>, committed: string): Option<int> {
    if Strip(committed) == "" then None else BoundaryFrom(words, 0, "", |Strip(committed)|)
  }

  function BoundaryFrom(words: seq<Word>, i: nat, consumed: string, target: nat): Option<int>
    requires i <= |words|
    decreases |words| - i
  {
    if i == |words| then None
    else
      var now := consumed + words[i].text;
      if |Strip(now)| >= target then Some(words[i].end) else BoundaryFrom(words, i + 1, now, target)
  }

  /** `s[-n:]`. */
  function Tail(s: string, n: nat): string {
    if n < |s| then s[|s| - n..] else s
  }

  /** Carry `text` as committed with its audio gone. */
  function Carried(p: Page, text: string): Page {
    var prefix := p.committedPrefix + text;
    p.(committedPrefix := prefix,
       prompt := Tail(prefix, PROMPT_CHARACTERS),
       agreement := AfterReset(p.agreement, ""),
       windowHypothesis := "")
  }

  /** `_trim_decoded_audio`. */
  function Trimmed(cfg: Settings, s: Session, words: seq<Word>): Session {
    var committed := s.page.agreement.Committed();
    if s.buffer.Samples() < cfg.maxWindow || Strip(committed) == "" then s
    else
      match WordBoundary(words, committed)
      case None => s
      case Some(cut) =>
        if cut <= MIN_CUT then s
        else s.(buffer := AfterTrimBefore(s.buffer, cut), page := Carried(s.page, committed))
  }

  /** The words that end by `limit`. */
  function EndingBy(words: seq<Word>, limit: int): seq<Word> {
    if words == [] then []
    else
      var n := |words| - 1;
      EndingBy(words[..n], limit) + if words[n].end <= limit then [words[n]] else []
  }

  /** The audio `_compact_draft_window` keeps uncommitted. */
  function CompactionTail(cfg: Settings): nat {
    if cfg.silence >= 2 * cfg.chunk then cfg.silence else 2 * cfg.chunk
  }

  /** Commit what the accurate model read, and show it. */
  function AccuratelyCommitted(p: Page, text: string): Page {
    var carried := Carried(p, text + " ");
    Emitted(carried, carried.committedPrefix, "", false)
  }

  /** The end of `_compact_draft_window`, once the accurate model has answered. */
  function Compacted(s: Session, words: seq<Word>, limit: int, window: nat): Session {
    var committed := EndingBy(words, limit);
    var text := Strip(Spoken(committed));
    if committed == [] || text == "" then s.(nextDraftCompaction := window + COMPACTION_BACKOFF)
    else
      s.(buffer := AfterTrimBefore(s.buffer, committed[|committed| - 1].end),
         page := AccuratelyCommitted(s.page, text),
         nextDraftCompaction := 0)
  }

  /** `_compact_draft_window` from where the accurate model has answered, or failed to. */
  function CompactedOn(cfg: Settings, s: Session, reply: Reply, window: nat): Flow {
    match reply
    case Aborted => Stops(s)
    case Nothing => Goes(Compacted(s, [], window - CompactionTail(cfg), window))
    case Result(_, words) => Goes(Compacted(s, words, window - CompactionTail(cfg), window))
  }

  /** `_compact_draft_window`. */
  function DraftWindowCompacted(cfg: Settings, env: Environment, s: Session): Flow {
    var window := s.buffer.Samples();
    if window < cfg.maxWindow || window < s.nextDraftCompaction then Goes(s)
    else
      var (s1, reply) := Decoded(cfg, env, s, s.buffer.data, false);
      CompactedOn(cfg, s1, reply, window)
  }

  // ---- Incremental passes ----

  /** What the draft readings agree on; a revision of a draft is not a conflict. */
  function DraftFolded(fold: Casefold, a: Agreement, hypothesis: string): Agreement {
    var (agreement, r) := AfterUpdate(fold, a, hypothesis);
    if r.conflict then AfterUpdate(fold, AfterReset(agreement, ""), hypothesis).0 else agreement
  }

  /** A draft reading is shown, never committed. */
  function DraftShown(fold: Casefold, p: Page, hypothesis: string): Page {
    Emitted(p.(windowHypothesis := hypothesis, agreement := DraftFolded(fold, p.agreement, hypothesis)),
            p.committedPrefix, hypothesis, false)
  }

  /** The reading agrees with what is committed: show it. */
  function ReadingShown(fold: Casefold, p: Page, hypothesis: string): Page {
    var (agreement, r) := AfterUpdate(fold, p.agreement, hypothesis);
    Emitted(p.(windowHypothesis := hypothesis, agreement := agreement),
            p.committedPrefix + r.stable, r.partial, false)
  }

  /** The reading contradicts what is committed: close the utterance at what the user has, open the next. */
  function Rotated(fold: Casefold, p: Page, hypothesis: string): Page {
    var contradicted := p.(windowHypothesis := hypothesis,
                           agreement := AfterUpdate(fold, p.agreement, hypothesis).0);
    NextUtterance(UtteranceClosed(fold, contradicted, p.agreement.Committed())).(windowHypothesis := "")
  }

  /** Without timings to cut on, the part of the reading the user does not have yet is shown at once. */
  function Reopened(fold: Casefold, p: Page, typed: string, hypothesis: string): Page {
    var (agreement, r) := AfterUpdate(fold, p.agreement, RemainderAfter(typed, hypothesis));
    Emitted(p.(agreement := agreement), r.stable, r.partial, false)
  }

  predicate Conflicts(fold: Casefold, p: Page, hypothesis: string) {
    AfterUpdate(fold, p.agreement, hypothesis).1.conflict
  }

  /**
   * After a rotation: drop the audio behind what was typed, on the decoder's own timings; without any to
   * cut on, show the rest of the reading at once.
   */
  function Reanchored(s: Session, rotated: Page, reopened: Page, cut: Option<int>): Session {
    if cut.Some? && cut.value > MIN_CUT
    then s.(page := rotated, buffer := AfterTrimBefore(s.buffer, cut.value))
    else s.(page := reopened)
  }

  /** What a single-model pass does with a non-empty hypothesis. */
  function Digested(cfg: Settings, fold: Casefold, s: Session, hypothesis: string, words: seq<Word>): Session {
    if Conflicts(fold, s.page, hypothesis) then
      var typed := s.page.agreement.Committed();
      var page := Rotated(fold, s.page, hypothesis);
      Reanchored(s, page, Reopened(fold, page, typed, hypothesis), WordBoundary(words, typed))
    else
      Trimmed(cfg, s.(page := ReadingShown(fold, s.page, hypothesis)), words)
  }

  /** What a reply says, stripped; empty when it says nothing. */
  function Said(reply: Reply): string {
    if reply.Result? then Strip(reply.text) else ""
  }

  /** The decode of an incremental pass: the draft model when there is one. */
  function PassDecoded(cfg: Settings, env: Environment, s: Session): (Session, Reply) {
    Decoded(cfg, env, s.(buffer := AfterMarkDecoded(s.buffer)), s.buffer.data, cfg.draftMode)
  }

  /** What an incremental pass does with its reply. */
  function PassedOn(cfg: Settings, env: Environment, s: Session, reply: Reply): Flow {
    if reply.Aborted? then Stops(s)
    else if Said(reply) == "" then Goes(s)
    else if cfg.draftMode then
      DraftWindowCompacted(cfg, env, s.(page := DraftShown(env.fold, s.page, Said(reply))))
    else Goes(Digested(cfg, env.fold, s, Said(reply), reply.words))
  }

  /** `_decode_incremental`. */
  function IncrementallyDecoded(cfg: Settings, env: Environment, s: Session): Flow {
    var (s1, reply) := PassDecoded(cfg, env, s);
    PassedOn(cfg, env, s1, reply)
  }

  // ---- Finalizing ----

  predicate NeedsAccuratePass(cfg: Settings, s: Session) {
    WorthDecoding(cfg, s) && (cfg.draftMode || s.buffer.Undecoded() > 0)
  }

  /** The text an utterance ends on: draft readings are dropped, whatever the accurate pass gave is kept. */
  function Finished(cfg: Settings, fold: Casefold, p: Page, accurate: string): Page {
    var heard := if accurate != "" then p.(windowHypothesis := accurate) else p;
    if cfg.draftMode then
      UtteranceClosed(fold, heard.(agreement := AfterReset(heard.agreement, "")), accurate)
    else
      UtteranceClosed(fold, heard,
                      if heard.windowHypothesis != "" then heard.windowHypothesis else heard.agreement.Committed())
  }

  /** The accurate pass over what has not been seen, if any; always the accurate model. */
  function FinalDecoded(cfg: Settings, env: Environment, s: Session): (Session, Reply) {
    if NeedsAccuratePass(cfg, s)
    then Decoded(cfg, env, s.(buffer := AfterMarkDecoded(s.buffer)), s.buffer.data, false)
    else (s, Nothing)
  }

  /** The end of `_finalize`, once the accurate pass is over. */
  function FinalizedOn(cfg: Settings, fold: Casefold, s: Session, reply: Reply): Flow {
    if reply.Aborted? then Stops(s)
    else Goes(UtteranceReset(s.(page := Finished(cfg, fold, s.page, Said(reply)))))
  }

  /** `_finalize`. */
  function Finalized(cfg: Settings, env: Environment, s: Session): Flow {
    var (s1, reply) := FinalDecoded(cfg, env, s);
    FinalizedOn(cfg, env.fold, s1, reply)
  }

  // ---- The loop ----

  function FlushServed(s: Session): Session {
    s.(hands := s.hands.(flushDone := true))
  }

  /** What `_step` does with one pass of the loop. */
  datatype Work = Idle | PreRoll | TooLong | Flushing | Silence | Pass

  function Chosen(cfg: Settings, s: Session): Work {
    if s.hands.closing then Idle
    else if !WorthDecoding(cfg, s) then PreRoll
    else if s.buffer.Samples() >= cfg.maxUtterance then TooLong
    else if s.hands.flushRequested then Flushing
    else if s.silence.TrailingSilence() >= cfg.silence then Silence
    else if s.buffer.Undecoded() >= cfg.chunk then Pass
    else Idle
  }

  /** Nothing worth decoding: keep a short pre-roll and drop the rest. */
  function PreRolled(cfg: Settings, s: Session): Session {
    if s.buffer.Samples() > cfg.silence * 2 then s.(buffer := AfterKeepTail(s.buffer, cfg.silence)) else s
  }

  /** The flush is done with, unless the step was cut short. */
  function Served(flow: Flow): Session {
    if flow.Goes? then FlushServed(flow.s) else flow.s
  }

  /** After an over-long utterance there may be more to do, unless the finalizing served a flush too. */
  function CappedOn(flow: Flow): (Session, bool) {
    if flow.Stops? || flow.s.hands.flushRequested then (Served(flow), false) else (flow.s, true)
  }

  /** `_step`: at most one unit of work, and whether more may be pending. */
  function Stepped(cfg: Settings, env: Environment, s: Session): (Session, bool) {
    match Chosen(cfg, s)
    case Idle => (s, false)
    case PreRoll =>
      var s1 := PreRolled(cfg, s);
      if s1.hands.flushRequested then (Served(Finalized(cfg, env, s1)), false) else (s1, false)
    case TooLong =>
      CappedOn(Finalized(cfg, env, s.(page := Reported(s.page, UtteranceTooLong))))
    case Flushing => (Served(Finalized(cfg, env, s)), false)
    case Silence => (Finalized(cfg, env, s).s, false)
    case Pass => (IncrementallyDecoded(cfg, env, s).s, false)
  }

  /** A step that asks for another has just emptied the buffer, so there is never a third. */
  lemma {:induction false} MoreMeansEmptied(cfg: Settings, env: Environment, s: Session)
    requires Stepped(cfg, env, s).1
    ensures Stepped(cfg, env, s).0.buffer.data == [] && s.buffer.data != []
  {
    WorthNeedsAudio(cfg, s);
    assert Chosen(cfg, s) == TooLong;
    FinalizedEmpties(cfg, env, s.(page := Reported(s.page, UtteranceTooLong)));
  }

  lemma {:induction false} WorthNeedsAudio(cfg: Settings, s: Session)
    ensures WorthDecoding(cfg, s) ==> s.buffer.data != []
  {
    assert SpeechTimeline.LastOf(SpeechTimeline.Labels(s.silence.timeline), 0) == [];
  }

  lemma {:induction false} FinalizedEmpties(cfg: Settings, env: Environment, s: Session)
    ensures Finalized(cfg, env, s).Goes? ==> Finalized(cfg, env, s).s.buffer.data == []
  {
  }

  /** The inner loop of `_run`. */
  function Drained(cfg: Settings, env: Environment, s: Session): Session
    decreases |s.buffer.data|
  {
    var (s1, more) := Stepped(cfg, env, s);
    if !more || s1.hands.closing then s1
    else
      MoreMeansEmptied(cfg, env, s);
      Drained(cfg, env, s1)
  }

  /** One round of `_run`: the wake event is cleared before the work it announces. */
  function Woken(cfg: Settings, env: Environment, s: Session): Session {
    if !s.hands.alive || s.hands.closing || !s.hands.wake then s
    else Drained(cfg, env, s.(hands := s.hands.(wake := false)))
  }

  /** The scheduler lets something arrive or lets the decode loop take a round. */
  datatype Action = Arrive(input: Input) | Round

  function Acted(cfg: Settings, env: Environment, s: Session, action: Action): Session {
    match action
    case Arrive(input) => AfterInput(env, s, input)
    case Round => Woken(cfg, env, s)
  }

  /** A whole run. */
  function Ran(cfg: Settings, env: Environment, s: Session, schedule: seq<Action>): Session {
    if schedule == [] then s
    else Acted(cfg, env, Ran(cfg, env, s, schedule[..|schedule| - 1]), schedule[|schedule| - 1])
  }
}
