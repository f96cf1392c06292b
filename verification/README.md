# Verified model of the local-dictation text pipeline

Local-dictation turns speech into text at the cursor. PCM goes into a streaming session on the server;
transcript events come out; a composer on the client turns those into text, which keystrokes put on the
screen. The decoders behind it may say anything, and everything may interleave with a decode. This project
models that pipeline in Dafny, as the code does it, and proves what its README and its protocol promise:
committed text only ever grows, revisions only ever increase, nothing is typed twice or taken back, a flush is
always answered, and trimming stays behind the text. Not all of that is so: the section "Where the code does less
than it says" lists each promise the code fails, exactly when it holds, and an input on which it does not.

Run `dafny verify dfyconfig.toml`.

## How it is put together

* Text and its tokens: `Text.dfy`, `Tokens.dfy`. A text is a sequence of characters; whitespace is Python's;
  case folding is an arbitrary function from a character to a string.
* What a session is made of, each as the class the server keeps and a function per method that the method is
  proved against: the commit policy (`LocalAgreement.dfy`), repeat removal (`Stitch.dfy`), the audio buffer
  (`AudioBuffer.dfy`), the silence tracker and its frame timeline (`Vad.dfy`, `SpeechTimeline.dfy`).
* The session: `SessionModel.dfy` is the step machine, `StreamingSession.dfy` the object, whose `Play` takes any
  schedule exactly where `SessionModel.Ran` does. An `Environment` holds what the session does not control: what
  each model answers to a clip and a prompt, and what arrives (audio, flush, close) during each decode, which is
  the one point where the coroutine is suspended. How a repeated prompt is cut is also a field of it, so that the
  theorems about runs hold for any way to cut; the object uses `Stitch.RepeatedPrefix`.
  Times are in samples, 16000 to the second.
* What every run keeps: `SessionSafety.dfy` and `EventLog.dfy` (the event stream), `FlushHandshake.dfy`,
  `DraftNonInterference.dfy`, `SessionAudio.dfy` (what is held), `Verdicts.dfy` (what the silence counters mean),
  `Prompts.dfy` (what the prompt is).
* What a session does: `StepWork.dfy` (which work a step does, and what a pass shows), `Finals.dfy` (what text an
  utterance ends on), `Arrivals.dfy` and `Signals.dfy` (what is taken in, and what the session is told),
  `ConflictDelivery.dfy` and `Rotation.dfy` (what a contradiction delivers, and what audio goes with it),
  `Trimming.dfy`, `ClipsSent.dfy` and `Questions.dfy` (what the decoders are asked, and what comes back).
* The client: `Composer.dfy` over the text field in `FakePlatform.dfy`; when it types nothing twice, within an
  utterance in `TypedOnce.dfy` and across utterances in `TypedAcross.dfy`; how a session starts and ends in
  `SessionEnds.dfy`; `Keystroke.dfy`, `Controller.dfy`, `Gain.dfy`. Any platform call may fail.
* Both ends together: `EndToEnd.dfy`, and down to the keystrokes, `OnScreen.dfy`.
* `EditDistance.dfy`: the distance the benchmark scores with.

## Where the code does less than it says

* `protocol/v1/protocol.md:187-189` promises that `stable` is append-only within an utterance. With a draft model it
  is (`DraftRunsGrow`). With one model it is not: re-anchoring committed tokens on a re-spaced reading shrinks
  `"ab "` to `"ab"` (`StableCanShrink`), and the client then refuses the event and abandons the utterance. It holds
  exactly when every reading that does not contradict the committed text starts with it or differs from it in
  case (`SingleModelGrowsIff`, `SingleModelRetractsIff`). The committed *words* always only extend.
* `repeated_prefix` maps a length in folded characters back through positions of unfolded ones. When folding
  lengthens a character the cut is wrong, or raises `IndexError` and ends the session's decode loop. It is right
  for every previous text exactly when each of the first 240 compared characters folds to one (`CutsExactlyIff`);
  the sharp s is an instance (`SharpSIsAnIndexError`).
* The comment at `server/app/streaming/session.py:571-574` has trimming err towards less audio, never more. A reading
  that differs in case is measured by the committed text, which can be longer than what the reading spells, and
  then the cut can take audio of a word that is not committed (`RecasingCanRunAhead`). `CutWithinIff` says exactly
  when it stays within a given word, `TrimRunsPastIff` when a pass drops more, and `TrimStaysBehindText` covers every
  reading that spells the committed tokens no shorter than they are committed, as one that repeats them does.
* Text composed after a `Stop` that timed out, or a microphone that did not open, can still come from the old
  connection while a new session is listening (`AStaleConsumeCanApply`, `ADeafStartCanApply`); those are the only two ways
  (`WhoOutlivesItsGeneration`).
* A final event that leaves its partial marked, which the server does not send, would lose it on screen when there is
  a separator to type: the text field keeps the mark behind the separator, the keystroke emulation takes it off
  (`AppliedOnScreen` says exactly when the two differ).
* The comment at `client/internal/input/composer.go:124-126` has stale events dropped so that a resumed session may
  repeat what it sent. Entering an utterance forgets what was typed for the last one, and a failed commit leaves the
  revision where it was, so a repeated event can enter its utterance again and type all of it a second time
  (`ReentryTypesTwice`). An event does so exactly when its revision is new, its utterance is neither current nor
  abandoned, some of it was typed before, and the calls go out (`TypesAgainIff`); a stream types nothing twice exactly
  when no event types over a record that lacks some of its utterance (`StreamTypesOnceIff`), which only re-entering
  can bring about (`WithoutReentryTypesOnce`). Events that come utterance after utterance are safe, whatever is
  repeated, reordered or fails within each (`BlocksTypeOnce`).
* When the separator after a final goes out and ending the composition then fails, the composer no longer knows that
  it typed it (`EventKeepsTypedIff`); the text of that utterance is not typed twice by its own retried events all the
  same (`RetriesTypeOnce`). The interface permits that failure; no adapter in the repository has it, since ending a
  composition never fails at `client/internal/platform/keystroke.go:92` or `client/internal/input/fake.go:105`.
* The comment at `server/app/streaming/session.py:310-312` has a rotation drop the audio behind what was typed. The cut
  goes by the number of characters, the rest by the number of tokens, so it is right only for a reading of the same
  length: otherwise it drops words nobody has been given (`RotationCanDropAWord`) or keeps some that are on screen.
  `RotationDropsIff` says for each word when exactly its audio is the last to go, and when more goes.
* The comment at `client/internal/input/composer.go:250-251` has `Finish` type the separator after the composition has
  ended. The keystroke emulation types it then (`FinishOnScreen`); the text field takes text only in a composition, so
  there `Finish` comes back with an error exactly when there is a separator to type (`FinishKeepsTheMark`).
* `trailing_silence_seconds` multiplies a count of frames by the length of the detector's frames now. After a fallback
  in the middle of a silence that is not the length of the silence (`SilenceIsItsLengthIff`).

## Model

| member | source | states |
|---|---|---|
| `Tokens.TokenizeRoundTrip` | server/app/streaming/local_agreement.py:27-40 | joining the tokens of any text gives the text back |
| `Tokens.RetokenizeIff` | server/app/streaming/local_agreement.py:27-40 | a token list survives joining and re-tokenising if and only if it is well formed: every token but the last ends in whitespace, leading whitespace on the first |
| `Tokens.CutsRetokenize` | server/app/streaming/local_agreement.py:27-40 | a prefix or suffix of a token list survives joining and re-tokenising |
| `Tokens.CommonPrefix` | server/app/streaming/local_agreement.py:43-48 | the index loop computes the common prefix |
| `Tokens.CommonPrefixIsLongest` | server/app/streaming/local_agreement.py:43-48 | no longer list is a prefix of both |
| `Tokens.RemainderDelivers` | server/app/streaming/local_agreement.py:80-89 | after sealing, the remainder re-tokenises to exactly the reading's tokens past the sealed count: each at its own index, none twice, none missing |
| `LocalAgreementPolicy.LocalAgreement.Update` | server/app/streaming/local_agreement.py:125-173 | the method's in-place re-casing, re-anchoring and memory are the specified update |
| `LocalAgreementPolicy.LocalAgreement.CommitAll` | server/app/streaming/local_agreement.py:175-189 | the method seals as specified, or reports the conflict and changes nothing |
| `LocalAgreementPolicy.LocalAgreement.Reset` | server/app/streaming/local_agreement.py:121-123 | forgets the memory, keeps the given text as committed |
| `LocalAgreementPolicy.WordsExtend` | server/app/streaming/local_agreement.py:125-173 | without conflict the new commitment is a prefix of the re-cased reading, no shorter than before, and its words extend the old words |
| `LocalAgreementPolicy.CommitsTheLongestAgreement` | server/app/streaming/local_agreement.py:149-166 | a token is newly committed only with a full memory that shares it byte for byte at its index, and the longest such run ending in whitespace is taken |
| `LocalAgreementPolicy.BreakingEarlyIsHarmless` | server/app/streaming/local_agreement.py:149-166 | stopping the comparison once nothing new can come of it changes no commitment |
| `LocalAgreementPolicy.StablePlusPartial` | server/app/streaming/local_agreement.py:125-173 | without conflict stable and partial join to the re-cased hypothesis, and to the hypothesis itself when it repeats the committed words |
| `LocalAgreementPolicy.ConflictKeepsCommitment` | server/app/streaming/local_agreement.py:132-142 | a conflict leaves the commitment untouched, restarts the memory, and sealing with the same reading conflicts too |
| `LocalAgreementPolicy.CommittedWordsOnlyExtend` | server/app/streaming/local_agreement.py:125-173 | over any run of readings, conflicts included, the committed word list only extends |
| `LocalAgreementPolicy.CommitsOnlyWhatNAgreeOn` | server/app/streaming/local_agreement.py:125-173 | over any run, a newly committed token is byte for byte the token at its index in n consecutive remembered readings |
| `LocalAgreementPolicy.GrowsIffExtends` | server/app/streaming/local_agreement.py:125-173 | the committed text grows literally if and only if the hypothesis starts with it or differs from it in case |
| `LocalAgreementPolicy.SealGrowsIffExtends` | server/app/streaming/local_agreement.py:175-189 | the same condition, exactly, for sealing |
| `LocalAgreementPolicy.SealingStartsOver` | server/app/streaming/local_agreement.py:175-189 | sealing commits every token of the hypothesis, extends the committed words and forgets the memory: no single reading after it commits more |
| `LocalAgreementPolicy.StableCanShrink` | server/app/streaming/local_agreement.py:146-148 | three readings after which the committed text loses its trailing space |
| `Stitch.Comparable` | server/app/streaming/stitch.py:54-67 | the loop computes the folded kept characters and the position map |
| `Stitch.RepeatedPrefix` | server/app/streaming/stitch.py:70-94 | the downward search computes the specified cut, or fails on the index past the map |
| `Stitch.LongestOverlapMeaning` | server/app/streaming/stitch.py:70-94 | the overlap found is a real one within the limits, and none of the lengths allowed is longer |
| `Stitch.CutsExactlyIff` | server/app/streaming/stitch.py:54-94 | after every previous text the cut removes text that compares equal to its tail and leaves a kept character or nothing, 0 only without overlap, if and only if each of the first 240 compared characters folds to one |
| `Stitch.SingleFoldsCutExactly` | server/app/streaming/stitch.py:54-94 | the same for one previous text, for any folding that never erases a character |
| `Stitch.SpacingIsIgnored` | server/app/streaming/stitch.py:54-67 | whitespace and the replacement character count for nothing wherever they stand, every other character as it folds |
| `Stitch.SharpSIsAnIndexError` | server/app/streaming/stitch.py:88-93 | a hypothesis on which the position map is indexed past its end |
| `Audio.AudioBuffer.Append` | server/app/streaming/buffer.py:26-32 | whole samples are appended; a ragged payload is refused and changes nothing |
| `Audio.AudioBuffer.MarkDecoded` | server/app/streaming/buffer.py:43-44 | everything held counts as decoded |
| `Audio.AudioBuffer.TrimBefore` | server/app/streaming/buffer.py:46-61 | drops and counts the clamped number of bytes, moving the decoded mark with them |
| `Audio.AudioBuffer.KeepTail` | server/app/streaming/buffer.py:63-74 | keeps the newest samples asked for, counted as decoded |
| `Audio.AudioBuffer.Reset` | server/app/streaming/buffer.py:76-78 | empties the buffer, not its total |
| `Audio.OperationsKeepValid` | server/app/streaming/buffer.py:26-78 | every operation keeps whole samples and leaves the newest audio in place |
| `Audio.CutSurvivesArrivals` | server/app/streaming/buffer.py:46-61 | audio that arrives during a decode moves neither the window's start nor the cut, and stays undecoded |
| `SpeechTimeline.SpeechSamplesInLast` | server/app/streaming/vad.py:305-324 | the backward walk over frames of mixed sizes counts the speech labels among the last n samples |
| `SpeechTimeline.SpeechSpanInLast` | server/app/streaming/vad.py:326-365 | the walk gives the padded, clamped hull of the speech labels among the last n samples |
| `SpeechTimeline.SpanIffSpeech` | server/app/streaming/vad.py:305-365 | there is no span if and only if the count is zero |
| `SpeechTimeline.SpanCoversSpeech` | server/app/streaming/vad.py:326-365 | a timeline that lags by no more than the padding still covers every sample labelled speech |
| `Vad.SilenceTracker.Push` | server/app/streaming/vad.py:371-388 | the frame loop consumes the chunk as specified |
| `Vad.SilenceTracker.Remember` | server/app/streaming/vad.py:390-394 | the eviction loop keeps the bounded history |
| `Vad.SilenceTracker.Audit` | server/app/streaming/vad.py:396-415 | counts loud frames judged silent and falls back at the limit |
| `Vad.SilenceTracker.Reset` | server/app/streaming/vad.py:425-432 | forgets the utterance, not the detector |
| `Vad.ChunkingInvariant` | server/app/streaming/vad.py:371-423 | two pushes are one push of both, for any detector and even when it is swapped mid-chunk for one of another frame size |
| `Vad.AnyChunking` | server/app/streaming/vad.py:371-423 | any number of pushes is one push of everything |
| `Vad.PushKeepsValid` | server/app/streaming/vad.py:371-423 | the leftover stays shorter than the current frame and is the end of what was heard |
| `Vad.BoundedIsLongest` | server/app/streaming/vad.py:390-394 | the history is the longest suffix of the frames within the bound |
| `Vad.TimelineLagsByLeftover` | server/app/streaming/vad.py:371-394 | the frames classified account for every byte but the leftover |
| `Verdicts.CountsAreVerdicts` | server/app/streaming/vad.py:371-388 | the trailing-silence count is the longest run of silent verdicts at the end of all since the reset, the speech count their speech verdicts, through a change of detector |
| `Verdicts.EveryRunCountsVerdicts` | server/app/streaming/vad.py:371-388 | so it is in every reachable state of a session |
| `Verdicts.SilenceIsItsLengthIff` | server/app/streaming/vad.py:367-369 | the trailing silence is the length of that run if and only if the run began after the last change of detector, or the frames kept their size |
| `Verdicts.VerdictsAreJudgements` | server/app/streaming/vad.py:371-388 | for as long as the detector is trusted, the verdicts are its own on the whole frames heard, each in the light of every frame since the reset |
| `Verdicts.FallsBackIff` | server/app/streaming/vad.py:396-423 | an audited detector is given up if and only if some stretch of frames ends in a run, loud and judged silent, of four seconds; then the energy detector starts afresh |
| `Streaming.SkipWords` | server/app/streaming/session.py:635-642 | the loop finds the words left once the first characters are removed |
| `Streaming.WordBoundarySeconds` | server/app/streaming/session.py:645-660 | the loop finds the end of the first word by which as much has been spelled as is committed |
| `Streaming.StreamingSession.PushAudio` | server/app/streaming/session.py:159-167 | buffers and classifies a chunk, unless flushed, closing or ragged |
| `Streaming.StreamingSession.Flush` | server/app/streaming/session.py:169-177 | requests the flush and wakes the loop, once |
| `Streaming.StreamingSession.Close` | server/app/streaming/session.py:131-144 | drops the audio and stops the loop |
| `Streaming.StreamingSession.Emit` | server/app/streaming/session.py:591-604 | numbers and queues a transcript, unless it repeats the last |
| `Streaming.StreamingSession.CloseUtterance` | server/app/streaming/session.py:452-482 | seals the utterance, carrying the remainder of a contradicting reading into the next |
| `Streaming.StreamingSession.ResetUtterance` | server/app/streaming/session.py:484-493 | starts the next utterance on an empty window |
| `Streaming.StreamingSession.TrimToSpeech` | server/app/streaming/session.py:498-523 | cuts the window to its speech and says where that starts |
| `Streaming.StreamingSession.DropRepeat` | server/app/streaming/session.py:560-589 | cuts a repeated prompt from a hypothesis and its words |
| `Streaming.StreamingSession.Decode` | server/app/streaming/session.py:525-558 | one executor call with everything that arrives during it taken in, in order |
| `Streaming.StreamingSession.TrimDecodedAudio` | server/app/streaming/session.py:327-353 | drops committed audio once the window is full and carries the text as prefix and prompt |
| `Streaming.StreamingSession.CompactDraftWindow` | server/app/streaming/session.py:363-405 | commits the accurate model's words up to the cut, or backs off |
| `Streaming.StreamingSession.DecodeIncremental` | server/app/streaming/session.py:266-325 | one pass in either mode: show, trim, rotate or compact |
| `Streaming.StreamingSession.Finalize` | server/app/streaming/session.py:415-450 | the last accurate pass, the final text and the reset |
| `Streaming.StreamingSession.Step` | server/app/streaming/session.py:218-264 | at most one unit of work, and whether more may be pending |
| `Streaming.StreamingSession.Round` | server/app/streaming/session.py:191-204 | clears the wake flag and steps until done; terminates |
| `Streaming.StreamingSession.Play` | server/app/streaming/session.py:159-204 | over any schedule the object is in the state the step machine is in |
| `Arrivals.ArrivalsAreHeard` | server/app/streaming/session.py:159-177 | whatever arrives at an open session: the window grows by exactly the whole-sample payloads before the first flush, in order, the tracker hears them, nothing else changes; a close empties it |
| `Arrivals.NothingAfterFlush` | server/app/streaming/session.py:159-177 | after a flush nothing is taken in |
| `StepWork.StepOnTooLittle` | server/app/streaming/session.py:223-233 | with too few samples labelled speech a step keeps the newest pause's worth of a window twice that long, and ends the utterance without a decode if a flush waits |
| `StepWork.StepAtTheCap` | server/app/streaming/session.py:235-252 | at the cap the error goes out and the utterance ends; more is asked for unless that served a flush or was cut short |
| `StepWork.StepOnFlush` | server/app/streaming/session.py:254-257 | below it a waiting flush ends the utterance and is answered |
| `StepWork.StepOnPause` | server/app/streaming/session.py:259-261 | else, when the latest verdicts are all silent for a pause's worth of frames, the utterance ends |
| `StepWork.StepOnChunk` | server/app/streaming/session.py:262-325 | else, with a chunk of samples not decoded, the mode's model is asked about all that is held; a draft is shown whole, a reading with the casing on screen split where it is committed, a contradiction closes the utterance, nothing said changes nothing |
| `StepWork.StepOnTooFew` | server/app/streaming/session.py:262-264 | else nothing changes |
| `StepWork.CompactionIs` | server/app/streaming/session.py:363-405 | the accurate model reads a full window, two seconds longer than at the last vain attempt; what it reads before the tail is committed, shown and dropped |
| `StepWork.DecodeCountsAll` | server/app/streaming/session.py:266-269 | unless closed, after a decode all that was held counts as decoded and what arrived meanwhile does not |
| `StepWork.FlushDeliversTheText` | server/app/streaming/session.py:191-204 | in draft mode the round that serves a flush sends exactly the final of the prefix and the accurate text, and answers it |
| `Finals.FinalizingSeals` | server/app/streaming/session.py:415-493 | from every state between steps a finalize asks once more if there is something to ask, seals the utterance on the text that came to, a contradiction's rest as one more, and leaves nothing of it behind; or is cut short |
| `Finals.NewSessionStartsAfresh` | server/app/streaming/session.py:88-125 | a new session starts as every later utterance does, open and with nothing said |
| `Finals.DraftFinal` | server/app/streaming/session.py:436-446 | in draft mode exactly one transcript, the final of the utterance at the next revision, prefix and stripped accurate text; the prefix alone when there is none, and no final when that is empty |
| `Finals.SingleModelFinal` | server/app/streaming/session.py:436-446 | with one model the final is the prefix and the answer, or else the window's latest hypothesis, with the casing on screen, unless that contradicts; none exactly when there is nothing to show |
| `SessionModel.MoreMeansEmptied` | server/app/streaming/session.py:235-252 | a step asks for another only after emptying the buffer, so the inner loop ends |
| `ConflictDelivery.ConflictIsDelivered` | server/app/streaming/session.py:457-475 | closing on a contradicting reading emits the committed text as the final, then, unless blank, the final of a next utterance with exactly the reading's tokens past the committed ones |
| `ConflictDelivery.RotationIsDelivered` | server/app/streaming/session.py:297-322 | the page of a rotation that cannot cut: the committed text goes out as the final, then the rest of the reading, token for token, as the partial of a later utterance |
| `Rotation.ContradictionIsDelivered` | server/app/streaming/session.py:297-322 | a whole contradicting pass: with timings to cut on, only the final goes out and the audio before the cut goes; without, the audio stays and the rest of the reading follows, token for token |
| `Rotation.RotationDropsIff` | server/app/streaming/session.py:310-316 | for each word, the audio up to its end is exactly what a rotation drops if and only if what the user has is as long as the words up to it spell and longer than those before; more goes if and only if there is a cut and they spell less |
| `Rotation.RotationStaysWithinTypedIff` | server/app/streaming/session.py:310-316 | the audio dropped stays within the word holding the last token the user has been given if and only if there is no cut or the words up to it spell as much as the user has |
| `Rotation.RotationCanDropAWord` | server/app/streaming/session.py:310-316 | from a session's first two readings, a rotation that drops the audio of a word that was never delivered |
| `SessionSafety.EveryRunIsOrderly` | server/app/streaming/session.py:266-496 | any decoder, schedule and mode: revisions are 1, 2, 3, …; no event repeats the one before; nothing follows a final for its utterance; shown committed text never vanishes; an utterance that shows some is left only by its final |
| `EventLog.ShownTextIsSealed` | server/app/streaming/session.py:452-482 | in such a log an utterance that ever showed committed text has exactly one final, before any event of a later one |
| `EventLog.FinalIsTerminal` | server/app/streaming/session.py:591-604 | utterances come in order and a final is the last event of its own |
| `SessionSafety.DraftRunsGrow` | server/app/streaming/session.py:281-295 | with a draft model stable is append-only in every run |
| `SessionSafety.SingleModelGrowsIff` | server/app/streaming/session.py:297-325 | with one model it is append-only in a run if and only if every pass of it contradicts or literally extends what was committed when it answered |
| `FlushHandshake.EveryRunKeepsWakeUps` | server/app/streaming/session.py:169-204 | in every reachable state a flush that waits finds the loop alive and told to wake, or the session closing |
| `FlushHandshake.StepAnswersFlush` | server/app/streaming/session.py:218-264 | a step begun with a flush requested sets done on every branch unless it is closed |
| `FlushHandshake.FlushIsAnswered` | server/app/streaming/session.py:169-204 | a flush is answered by the next round, and stays answered |
| `Signals.EveryRunDoesAsTold` | server/app/streaming/session.py:131-177 | in every run the session is closing exactly when a close was sent, told to flush exactly when a flush was, and a flush is done only when one was asked for or the loop has ended |
| `Trimming.CutEndsTheLastCommittedWord` | server/app/streaming/session.py:645-660 | for words that spell the hypothesis the cut is the end of exactly the word holding the last committed character |
| `Trimming.CutIsNeverPast` | server/app/streaming/session.py:560-589 | after a repeated prompt and its words are gone the cut is still no later than that |
| `Trimming.TrimStaysBehindText` | server/app/streaming/session.py:297-353 | a whole pass drops no audio past the word holding the last character the reading spells for the committed tokens, when it spells them no shorter |
| `Trimming.EveryTrimStaysBehindText` | server/app/streaming/session.py:297-353 | and every such pass has such a word |
| `Trimming.TrimRunsPastIff` | server/app/streaming/session.py:327-353 | for any reading, a pass drops audio past a word if and only if it trims and the words up to that one spell less than is committed |
| `Trimming.RepeatingSpellsAlike` | server/app/streaming/local_agreement.py:125-173 | a reading that repeats the committed words spells the new commitment exactly |
| `Trimming.CutWithinIff` | server/app/streaming/session.py:645-660 | the cut is within a word if and only if the words up to it spell as many characters as are committed |
| `Trimming.RecasingCanRunAhead` | server/app/streaming/session.py:297-353 | after two readings that commit "ss ", a pass over a re-cased reading that drops the audio of a word of which nothing is committed |
| `Trimming.CompactionDropsWhatItCommits` | server/app/streaming/session.py:380-405 | the words whose audio goes are exactly the words committed, and the tail to keep is kept |
| `SessionAudio.EveryRunKeepsAudio` | server/app/streaming/session.py:159-204 | in every reachable state the buffer holds whole samples and is the end of what the tracker has heard since its last reset |
| `SessionAudio.LabelIsVerdict` | server/app/streaming/vad.py:371-394 | the label a window's sample has in the timeline is the detector's verdict on the frame with that sample's own bytes |
| `SessionAudio.ClipHoldsTheSpeech` | server/app/streaming/session.py:498-523 | the clip is a sample-aligned slice at its offset holding every window sample the detector judged speech, as far as the history goes back, and shifted word times stay inside the window |
| `SessionAudio.ClipIsExact` | server/app/streaming/session.py:498-523 | and it is no more than that: from the padding before the first sample labelled speech to the padding after the last, or all of the window when there is none or trimming is off |
| `SessionAudio.EveryClipHoldsTheSpeech` | server/app/streaming/session.py:498-523 | so it is for the window of every reachable state between actions, decoded or not |
| `ClipsSent.EveryDecodeGetsTheSpeech` | server/app/streaming/session.py:266-558 | so it is for each clip handed to a decoder in a run, by its number, the accurate one in the middle of a draft pass included |
| `Prompts.EveryRunCarriesThePrompt` | server/app/streaming/session.py:349-353 | in every reachable state the prompt is the last 200 characters of the committed text whose audio is gone, and what has been shown as committed is that text and, with one model, what is committed of the window |
| `Prompts.TrimmingMovesText` | server/app/streaming/session.py:327-353 | trimming moves committed text from the window to that text, loses none and shows nothing |
| `ClipsSent.EveryDecodeGetsThePrompt` | server/app/streaming/session.py:525-558 | each numbered decode of a run is asked with that prompt |
| `Questions.WhatComesBack` | server/app/streaming/session.py:525-589 | a decode takes in what arrives, and is cut short by a close, reports a failure, ends the loop, or comes back with the answer less the repeated prompt, its words in the window's time |
| `Questions.NothingElseIsAsked` | server/app/streaming/session.py:266-558 | with any other models that answer the numbered questions of a run alike, clip, prompt and number, the run is the same |
| `DraftNonInterference.DraftTextNeverMatters` | server/app/streaming/session.py:266-450 | runs whose draft answers differ in text commit the same prefixes, finals and errors in the same order |
| `FakePlatformModel.FakePlatform.CommitText` | client/internal/input/fake.go:91-103 | appends while composing, else fails without effect |
| `FakePlatformModel.FakePlatform.EndComposition` | client/internal/input/fake.go:105-117 | marked text becomes real text |
| `ComposerModel.TextComposer.Apply` | client/internal/input/composer.go:120-206 | one event, every branch and every failing call |
| `ComposerModel.TextComposer.SeparateLocked` | client/internal/input/composer.go:213-225 | a space after written text that does not end in one |
| `ComposerModel.TextComposer.DropPartial` | client/internal/input/composer.go:230-243 | clears the mark and abandons the utterance |
| `ComposerModel.TextComposer.Finish` | client/internal/input/composer.go:247-260 | ends the composition, then separates |
| `TypedOnce.RetriesTypeOnce` | client/internal/input/composer.go:120-225 | any events of an utterance, its final numbered highest, in any order, repeated, any call failing, entered already or not: after what was there stands one of its stable texts, once and only ever extended, then at most one separator and the final's own marked partial; one that is taken in leaves its own text, a final exactly its separator |
| `TypedOnce.StreamKeepsTyped` | client/internal/input/composer.go:120-225 | after any events of any utterances, finals, stale and retracting ones included, and any failures, what the composer has recorded as typed is the end of the document, but for at most one separator |
| `TypedOnce.EventKeepsTypedIff` | client/internal/input/composer.go:120-225 | one event keeps the record exact if and only if it is not a final whose separator goes out just before the end of its composition fails |
| `TypedOnce.FailedEndLosesTheSeparator` | client/internal/input/composer.go:193-206 | a new session's first event and such a final |
| `TypedAcross.TypesAgainIff` | client/internal/input/composer.go:120-187 | with an exact record, an event types again what its utterance has if and only if its revision is new, its utterance neither current nor abandoned, some of it typed, and the calls go out; it then types all of it |
| `TypedAcross.TypesOverIff` | client/internal/input/composer.go:120-187 | for any record, an event fails to complete what its utterance had to its own text if and only if the record lacks some of that, and what the event has beyond the record goes out |
| `TypedAcross.StreamTypesOnceIff` | client/internal/input/composer.go:120-225 | any stream of any utterances, any call failing: each event completes what its utterance had if and only if none types over a record that lacks some |
| `TypedAcross.WithoutReentryTypesOnce` | client/internal/input/composer.go:120-225 | a stream in which no utterance with text typed is entered again types nothing twice, and the record stays exact |
| `TypedAcross.BlocksTypeOnce` | client/internal/input/composer.go:120-225 | utterance after utterance, each in any order, repeated, any call failing: the document is what it was and then each utterance's text once, one of its stable texts, with at most its separator; without live preview nothing else |
| `TypedAcross.ReentryTypesTwice` | client/internal/input/composer.go:124-147 | five deliveries of four events on a new composer, three commits failing: the document is "aab" |
| `ComposerModel.ReplaysAreStale` | client/internal/input/composer.go:124-130 | an event once taken in changes nothing but a counter for ever after |
| `ComposerModel.DocumentOnlyGrows` | client/internal/input/composer.go:120-206 | whatever is applied and whatever fails, text in the document is only added to |
| `SessionEnds.DroppingKeepsText` | client/internal/input/composer.go:227-243 | dropping the partial keeps every committed character; it clears the mark and gives the utterance up exactly when there is a composition and cancelling it succeeds |
| `SessionEnds.AbandonedStaysSilent` | client/internal/input/composer.go:131-136 | no event of a given-up utterance touches document or mark again, whatever fails |
| `SessionEnds.RetractionKeepsText` | client/internal/input/composer.go:146-163 | a retraction keeps the text, drops the mark and gives the utterance up |
| `SessionEnds.FinishKeepsTheMark` | client/internal/input/composer.go:245-260 | finishing makes the mark text, types nothing else in the text field and gives the utterance up; it fails exactly when there is a separator to type |
| `SessionEnds.FinishOnScreen` | client/internal/input/composer.go:245-260 | through the keystrokes what was provisional stays and the separator, if one is due, follows |
| `SessionEnds.ResetIsAtRest` | client/internal/input/composer.go:262-273 | a reset makes the composer ready for a new session exactly when the field is done with the last one and live preview is off |
| `SessionEnds.NextSessionArrives` | client/internal/input/composer.go:262-273 | after it all of the next session's growing log arrives, whatever the last one left behind |
| `SessionEnds.EachIsCounted` | client/internal/input/composer.go:124-145 | an event is counted as discarded exactly when it is stale, and an utterance as shown exactly when it is entered |
| `EndToEnd.IdsAreDistinct` | server/app/streaming/session.py:155-157 | utterance identifiers are distinct and not empty, past four digits too |
| `EndToEnd.PaddedIsDecimal` | server/app/streaming/session.py:155-157 | the index in an identifier is its decimal value, with zeros in front only to make up four digits |
| `EndToEnd.InOrderDelivery` | client/internal/input/composer.go:120-225 | a log in order is applied without a retraction if and only if stable grows, and then the document is its text |
| `EndToEnd.AnyDelivery` | client/internal/input/composer.go:120-225 | a growing log under any duplication, reordering and loss: never a retraction, and the document is the text of what was news |
| `EndToEnd.DraftEndToEnd` | client/internal/input/composer.go:120-225 | every draft-mode run delivered to the composer: no retraction, and the document is each utterance's latest stable text, separated once sealed |
| `EndToEnd.SingleModelEndToEnd` | client/internal/input/composer.go:120-225 | the same with one model when every pass is faithful |
| `EndToEnd.SingleModelRetractsIff` | client/internal/input/composer.go:146-163 | the client hits a retraction if and only if some pass was not faithful |
| `OnScreen.AppliedOnScreen` | client/internal/platform/keystroke.go:30-109 | one event does to the screen what it does to the text field if and only if it is not a final that leaves a partial marked with a separator to type |
| `OnScreen.AllOnScreen` | client/internal/platform/keystroke.go:30-109 | the same for any stream without such a final |
| `OnScreen.CleanEndsNeverDiverge` | client/internal/input/composer.go:193-195 | there is none when live preview is off, or when finals carry no partial |
| `OnScreen.DraftDictationOnScreen` | client/internal/platform/keystroke.go:30-109 | PCM to screen: the user's text stays, followed by exactly the delivered stable text |
| `Keystroke.KeystrokeComposer.SetMarkedText` | client/internal/platform/keystroke.go:44-68 | retypes the differing tail, and records what is left when typing it fails |
| `Keystroke.KeystrokeComposer.CommitText` | client/internal/platform/keystroke.go:75-89 | takes the provisional text off and types the permanent one |
| `Keystroke.KeystrokeComposer.CancelComposition` | client/internal/platform/keystroke.go:101-111 | erases the provisional text and forgets it either way |
| `Keystroke.MarkingFailsIff` | client/internal/platform/keystroke.go:44-68 | marking fails exactly when a call it makes of the typer does, and makes none for the same text |
| `Keystroke.CommittingFailsIff` | client/internal/platform/keystroke.go:75-89 | so does committing, and makes none for no text |
| `Keystroke.CancellingFailsIff` | client/internal/platform/keystroke.go:101-111 | so does cancelling, and makes none without a mark |
| `Keystroke.OpenSinceBegin` | client/internal/platform/keystroke.go:30-111 | after any calls a composition is open exactly when it was begun since the last that ended or was cancelled |
| `Keystroke.BeginAndEndSettle` | client/internal/platform/keystroke.go:30-98 | what is on screen when a composition begins or ends is settled from then on |
| `Keystroke.MarkReplacesTheMark` | client/internal/platform/keystroke.go:44-68 | success replaces exactly the marked region; failure leaves a prefix of it as the mark, still what is on screen |
| `Keystroke.UsersTextIsSafe` | client/internal/platform/keystroke.go:30-121 | any calls, any failing: no backspace reaches text that was not marked |
| `Keystroke.NoShorterScript` | client/internal/platform/keystroke.go:38-43 | no script of keys and backspaces between two texts is shorter than erasing to their common prefix and typing the rest |
| `Keystroke.MarkIsMinimal` | client/internal/platform/keystroke.go:44-68 | a successful mark uses as few keystrokes as any script with its effect |
| `EditDistance.EditDistance` | server/scripts/benchmark.py:95-109 | the two rows compute the recurrence |
| `EditDistance.LevIsFewestEdits` | server/scripts/benchmark.py:95-109 | the recurrence, diagonal outright on a match, is the length of a shortest chain of single insertions, deletions and substitutions anywhere |
| `EditDistance.Symmetric` | server/scripts/benchmark.py:95-109 | the distance is symmetric |
| `EditDistance.Triangle` | server/scripts/benchmark.py:95-109 | it obeys the triangle inequality |
| `EditDistance.ZeroIffEqual` | server/scripts/benchmark.py:95-109 | it is zero if and only if the lists are equal |
| `ControllerModel.OneOwner` | client/internal/session/controller.go:146-320 | over every interleaving Connecting belongs to one Start and Finalizing to one Stop, the latest generation's |
| `ControllerModel.DoubleTapIsHarmless` | client/internal/session/controller.go:142-156 | a toggle acting on a state read earlier changes nothing while a session starts or stops, and otherwise finds no other goroutine busy |
| `ControllerModel.PressStartsOrStops` | client/internal/session/controller.go:142-156 | over every interleaving a press on the state as it is begins one Start from Idle or Error, the latest session's Stop while Listening, and nothing otherwise |
| `ControllerModel.StalePressIsRefusedIff` | client/internal/session/controller.go:142-156 | a press on a state read earlier is refused exactly when it read a session starting or stopping, may not start now, or is not listening now |
| `ControllerModel.NoSessionAtRest` | client/internal/session/controller.go:158-320 | in Idle and Error no session is held |
| `ControllerModel.WhatWasCalled` | client/internal/session/controller.go:206-302 | a generation's microphone was opened, stopped, and its stop sent exactly when its goroutines are past each |
| `ControllerModel.StopsItsOwnSession` | client/internal/session/controller.go:273-283 | the session a Stop talks to is that of the generation it waits on |
| `ControllerModel.CaptureNeverStartsTwice` | client/internal/session/controller.go:206-293 | between two starts of capture there is a stop |
| `ControllerModel.StopFollowsTheMicrophone` | client/internal/session/controller.go:288-302 | a session's stop is sent after its own capture stopped, with none started since |
| `ControllerModel.FinishedClosesOnce` | client/internal/session/controller.go:158-228 | finished is never closed twice, and is closed exactly when Start gave up early or consume ended |
| `ControllerModel.WhoOutlivesItsGeneration` | client/internal/session/controller.go:304-320 | a consume outlives its generation only after a timed-out stop or a microphone that did not open |
| `ControllerModel.AStaleConsumeCanApply` | client/internal/session/controller.go:304-366 | after a stop that timed out it can, from any listening state: it applies events while the next generation listens |
| `ControllerModel.ListeningIsReached` | client/internal/session/controller.go:158-228 | a first Start in which nothing fails reaches such a state |
| `ControllerModel.ADeafStartCanApply` | client/internal/session/controller.go:208-222 | after a microphone that did not open it can too, from any idle state |
| `ControllerModel.StopFinishesOnceConsumeEnds` | client/internal/session/controller.go:304-320 | from any state of a Stop, consume ending is all it takes to return to Idle, or to Error exactly when the stop could not be sent |
| `ControllerModel.StartsWhenIdle` | client/internal/session/controller.go:158-228 | from Idle or Error a Start in which nothing fails reaches Listening |
| `Gain.Apply` | client/internal/audio/gain.go:54-69 | the loop rewrites the frame in place as specified, the early return at unity included |
| `Gain.EverySampleIsScaled` | client/internal/audio/gain.go:54-69 | every little-endian sample becomes its scaled value in place, a trailing odd byte is untouched |
| `Gain.ScalingIsExact` | client/internal/audio/gain.go:59-66 | sign kept, toward zero, within one step of exact unless pinned at its own end of the range |
| `Gain.ScalingIsMonotone` | client/internal/audio/gain.go:59-66 | a greater sample never comes out smaller |
| `Gain.UnityIsIdentity` | client/internal/audio/gain.go:55-58 | at unity the frame is unchanged, so returning early is right |
| `Gain.SetIsSettable` | client/internal/audio/gain.go:42-44 | every multiplier is stored within 512 to 8192, within one step of exact when in range |

## Left out

* Timeouts and clocks: a flush timeout, decode timing, metrics, logging. A flush waits for its answer.
* Sockets, JSON, TLS and limits on sessions: events reach the client as a list, possibly duplicated, reordered or cut short.
* Real decoders, Silero and the energy detector: arbitrary functions of what they have seen, of any frame size.
* Floating point: times are whole samples, a word's times integers; the gain multiplier is a real, NaN excluded.
* The text field in memory never fails to end or cancel a composition; here any call of a platform may fail.
* Unicode normalisation and decoding: case folding is per character and otherwise arbitrary; the keystroke layer works on runes.
* Cancellation inside a decode is the session closing at that point; exceptions other than a decode failure and the index error cannot occur in the model.
* Audio that arrives during the final decode is discarded with the buffer, as in the code; no conservation of audio across utterances is claimed.
* An uncommitted tail can be lost when trimming clears the window's hypothesis and a flush then finds nothing undecoded; no claim is made that every word heard is delivered.
* `Controller.Abort` and focus polling, status updates, the UI; the order of `consume` against the composer's own lock.
* Live preview in the end-to-end theorems: an utterance that never gets a final would keep its marked text.
* Failing platform calls in the end-to-end theorems: they are covered one utterance at a time by `RetriesTypeOnce`, and across utterances by the theorems of `TypedAcross.dfy`.
* The order of events in `RetriesTypeOnce` is arbitrary, but a final carries its utterance's highest revision: nothing follows a final (`EveryRunIsOrderly`).
* Partial delivery of a keystroke burst, and the user typing meanwhile: each typer call is all or nothing.
* Call counters of the text field, `Close` of the composer, `drop_repeated_prefix`, `normalize` and `error_rate`.
- Rotation.RotationStaysWithinTypedIff: has no unconditional form, because the cut goes by length; `RotationCanDropAWord` is the input.
- Trimming.TrimStaysBehindText: asks the reading to spell the committed tokens no shorter than they are committed, because without that it is false; `RecasingCanRunAhead` is the input and `TrimRunsPastIff` the exact condition.
- EndToEnd.SingleModelEndToEnd: asks every pass to be faithful, because that is exactly when it holds; see `SingleModelRetractsIff`.
- Verdicts.EveryRunCountsVerdicts: asks, like `EveryRunKeepsAudio`, that frames are no longer than the padding around speech.
- SessionAudio.EveryRunKeepsAudio: asks both detectors for frames no longer than the padding around speech, 3200 samples, because the clip could otherwise miss speech; the detectors there are use 512 and 320.
- TypedOnce.RetriesTypeOnce: speaks of the events of one utterance, because across utterances it is false; `TypedAcross.ReentryTypesTwice` is the input, `TypesAgainIff` and `StreamTypesOnceIff` the exact condition, `BlocksTypeOnce` what holds of any number of utterances that do not interleave.
- TypedOnce.StreamKeepsTyped: allows one separator that is typed and not recorded, because that happens; `EventKeepsTypedIff` says exactly when. That the record is all that was typed for its utterance is `TypedAcross.WithoutReentryTypesOnce`.
- OnScreen.AllOnScreen: excludes finals that leave a partial marked with a separator to type, because it is false of exactly those, by `AppliedOnScreen`.
- Stitch.CutsExactlyIff: assumes a folding that maps a character to at least one and whose results are already folded and compared, as Unicode case folding does.
