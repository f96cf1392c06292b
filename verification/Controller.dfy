/**
 * The session lifecycle as the interleaved steps of its goroutines (client/internal/session/controller.go).
 *
 * Each `Start` that gets past the state check begins a generation: the `Start` goroutine itself, the
 * `consume` it spawns, and the `Stop` that ends it. A step is what one goroutine does between two points
 * where another may run; what the network, the microphone or a timer answers is the scheduler's choice.
 */
module ControllerModel {
  import opened Basics

  datatype Control = Idle | Connecting | Listening | Finalizing | Error

  // ---- Where each goroutine of a generation is ----

  datatype StartAt =
    | Dialing | Greeting | AwaitingReady | Registering | Spawning | OpeningMic | Announcing
    | Failing(mic: bool)
    | Started | Failed(mic: bool)

  datatype ConsumeAt = NotSpawned | Running | Ended

  datatype StopAt =
    | NotCalled
    | StoppingMic | Asking | Waiting | Draining
    | Finishing(timedOut: bool, failed: bool)
    | Stopped(timedOut: bool, failed: bool)

  /** `closes` counts how often `finished` was closed: a second time would panic. */
  datatype Generation = Generation(start: StartAt, consume: ConsumeAt, stop: StopAt, closes: nat, asked: Option<nat>)

  /** Calls whose order matters, and on which generation's behalf they are made. */
  datatype Call = MicOpened(g: nat) | MicStopped(g: nat) | StopSent(g: nat) | Applied(g: nat)

  /** The fields under the mutex, every generation so far, and the calls made. */
  datatype State = State(control: Control, session: Option<nat>, gens: seq<Generation>, log: seq<Call>)

  const INITIAL := State(Idle, None, [], [])

  datatype Action =
    | CallStart
    | CallStop
    | StartStep(g: nat, ok: bool)
    | StopStep(g: nat, ok: bool)
    | Apply(g: nat)
    | ConsumeEnds(g: nat)

  // ---- Steps ----

  /** The head of `Start`, under the lock: `ErrBusy` unless idle. */
  function StartCalled(s: State): State {
    if s.control != Idle && s.control != Error then s
    else s.(control := Connecting, gens := s.gens + [Generation(Dialing, NotSpawned, NotCalled, 0, None)])
  }

  /** The head of `Stop`, under the lock: it takes the session and `finished` that are current. */
  function StopCalled(s: State): State {
    if s.control != Listening || s.gens == [] then s
    else
      var g := |s.gens| - 1;
      s.(control := Finalizing, gens := s.gens[g := s.gens[g].(stop := StoppingMic, asked := s.session)])
  }

  /** What the global shortcut does with the state it reads; by the time it acts the state may be another. */
  function Toggled(control: Control): Option<Action> {
    match control
    case Idle => Some(CallStart)
    case Error => Some(CallStart)
    case Listening => Some(CallStop)
    case Connecting => None
    case Finalizing => None
  }

  /** An early exit of `Start`: `finished` is closed here, as there is no `consume` to close it. */
  function GaveUp(gen: Generation): Generation {
    gen.(start := Failing(false), closes := gen.closes + 1)
  }

  function StartStepped(s: State, g: nat, ok: bool): State
    requires g < |s.gens|
  {
    var gen := s.gens[g];
    match gen.start
    case Dialing => s.(gens := s.gens[g := if ok then gen.(start := Greeting) else GaveUp(gen)])
    case Greeting => s.(gens := s.gens[g := if ok then gen.(start := AwaitingReady) else GaveUp(gen)])
    case AwaitingReady => s.(gens := s.gens[g := if ok then gen.(start := Registering) else GaveUp(gen)])
    case Registering => s.(session := Some(g), gens := s.gens[g := gen.(start := Spawning)])
    case Spawning => s.(gens := s.gens[g := gen.(start := OpeningMic, consume := Running)])
    case OpeningMic =>
      if ok then s.(gens := s.gens[g := gen.(start := Announcing)], log := s.log + [MicOpened(g)])
      else s.(gens := s.gens[g := gen.(start := Failing(true))])
    case Announcing => s.(control := Listening, gens := s.gens[g := gen.(start := Started)])
    case Failing(mic) => s.(control := Error, session := None, gens := s.gens[g := gen.(start := Failed(mic))])
    case Started => s
    case Failed(_) => s
  }

  /** `Waiting` goes on when `finished` is closed (`ok`) or the timer fires; `Draining` has no timer. */
  function StopStepped(s: State, g: nat, ok: bool): State
    requires g < |s.gens|
  {
    var gen := s.gens[g];
    match gen.stop
    case NotCalled => s
    case StoppingMic => s.(gens := s.gens[g := gen.(stop := Asking)], log := s.log + [MicStopped(g)])
    case Asking =>
      s.(gens := s.gens[g := gen.(stop := if ok then Waiting else Draining)], log := s.log + [StopSent(g)])
    case Waiting =>
      if ok && gen.closes == 0 then s
      else s.(gens := s.gens[g := gen.(stop := Finishing(!ok, false))])
    case Draining =>
      if gen.closes == 0 then s
      else s.(gens := s.gens[g := gen.(stop := Finishing(false, true))])
    case Finishing(timedOut, failed) =>
      s.(control := if failed then Error else Idle, session := None,
         gens := s.gens[g := gen.(stop := Stopped(timedOut, failed))])
    case Stopped(_, _) => s
  }

  function Next(s: State, action: Action): State {
    match action
    case CallStart => StartCalled(s)
    case CallStop => StopCalled(s)
    case StartStep(g, ok) => if g < |s.gens| then StartStepped(s, g, ok) else s
    case StopStep(g, ok) => if g < |s.gens| then StopStepped(s, g, ok) else s
    case Apply(g) =>
      if g < |s.gens| && s.gens[g].consume == Running then s.(log := s.log + [Applied(g)]) else s
    case ConsumeEnds(g) =>
      if g < |s.gens| && s.gens[g].consume == Running
      then s.(gens := s.gens[g := s.gens[g].(consume := Ended, closes := s.gens[g].closes + 1)])
      else s
  }

  function Ran(schedule: seq<Action>): State {
    if schedule == [] then INITIAL else Next(Ran(schedule[..|schedule| - 1]), schedule[|schedule| - 1])
  }

  // ---- What every interleaving keeps ----

  predicate StartBusy(gen: Generation) {
    !gen.start.Started? && !gen.start.Failed?
  }

  predicate StopBusy(gen: Generation) {
    !gen.stop.NotCalled? && !gen.stop.Stopped?
  }

  predicate MicIsOpen(gen: Generation) {
    (gen.start.Announcing? || gen.start.Started?) && (gen.stop.NotCalled? || gen.stop.StoppingMic?)
  }

  /** `Start` is past the point where it hands the connection to `consume`. */
  predicate Handed(gen: Generation) {
    match gen.start
    case OpeningMic => true
    case Announcing => true
    case Started => true
    case Failing(mic) => mic
    case Failed(mic) => mic
    case _ => false
  }

  /** `Start` gave up before that point. */
  predicate ExitedEarly(gen: Generation) {
    (gen.start.Failing? || gen.start.Failed?) && !gen.start.mic
  }

  predicate Consistent(gen: Generation, g: nat) {
    && (gen.consume == NotSpawned <==> !Handed(gen))
    && gen.closes == (if ExitedEarly(gen) || gen.consume == Ended then 1 else 0)
    && (gen.stop != NotCalled ==> gen.start == Started && gen.asked == Some(g))
    && (gen.stop.Finishing? || gen.stop.Stopped? ==> (gen.closes == 1 || gen.stop.timedOut) && !(gen.stop.timedOut && gen.stop.failed))
  }

  /** Nothing of a generation but a late `consume` is left. */
  predicate Over(gen: Generation) {
    gen.start.Failed? || (gen.start.Started? && gen.stop.Stopped?)
  }

  function ControlOf(gen: Generation): set<Control> {
    if StartBusy(gen) then {Connecting}
    else if gen.start.Failed? then {Error}
    else if gen.stop.NotCalled? then {Listening}
    else if gen.stop.Stopped? then {if gen.stop.failed then Error else Idle}
    else {Finalizing}
  }

  /** The session field while the latest generation needs it. */
  predicate SessionHeld(s: State, gen: Generation, g: nat) {
    && ((Handed(gen) || gen.start.Spawning?) && !Over(gen) ==> s.session == Some(g))
    && (Over(gen) ==> s.session == None)
  }

  /** The latest call to start or stop capture. */
  function LastMic(log: seq<Call>): Option<Call> {
    if log == [] then None
    else
      var last := log[|log| - 1];
      if last.MicOpened? || last.MicStopped? then Some(last) else LastMic(log[..|log| - 1])
  }

  predicate Quiet(mic: Option<Call>) {
    mic.Some? ==> mic.value.MicStopped?
  }

  /** Capture only starts when none is going on, and a generation's `stop` is sent right after its capture stops. */
  predicate WellOrdered(log: seq<Call>) {
    log == [] ||
    (var before, last := log[..|log| - 1], log[|log| - 1];
     && WellOrdered(before)
     && (last.MicOpened? ==> Quiet(LastMic(before)))
     && (last.StopSent? ==> LastMic(before) == Some(MicStopped(last.g))))
  }

  predicate MicMatches(mic: Option<Call>, gen: Generation, g: nat) {
    if MicIsOpen(gen) then mic == Some(MicOpened(g))
    else if gen.stop.NotCalled? then Quiet(mic)
    else mic == Some(MicStopped(g))
  }

  predicate LatestIs(s: State) {
    s.gens != [] ==>
      var g := |s.gens| - 1;
      && s.control in ControlOf(s.gens[g])
      && SessionHeld(s, s.gens[g], g)
      && MicMatches(LastMic(s.log), s.gens[g], g)
  }

  predicate Inv(s: State) {
    && (s.gens == [] ==> s == INITIAL)
    && (forall g :: 0 <= g < |s.gens| - 1 ==> Over(s.gens[g]))
    && (forall g :: 0 <= g < |s.gens| ==> Consistent(s.gens[g], g))
    && LatestIs(s)
    && WellOrdered(s.log)
  }

  lemma {:induction false} CallSnoc(log: seq<Call>, call: Call)
    ensures LastMic(log + [call]) == if call.MicOpened? || call.MicStopped? then Some(call) else LastMic(log)
    ensures WellOrdered(log + [call]) <==>
              && WellOrdered(log)
              && (call.MicOpened? ==> Quiet(LastMic(log)))
              && (call.StopSent? ==> LastMic(log) == Some(MicStopped(call.g)))
  {
    assert (log + [call])[..|log|] == log;
  }

  /** The latest generation takes a step. */
  lemma {:induction false} LatestMoves(s: State, s': State, gen: Generation)
    requires Inv(s) && s.gens != []
    requires s'.gens == s.gens[|s.gens| - 1 := gen] && Consistent(gen, |s.gens| - 1)
    requires s'.control in ControlOf(gen) && SessionHeld(s', gen, |s.gens| - 1)
    requires MicMatches(LastMic(s'.log), gen, |s.gens| - 1)
    requires WellOrdered(s'.log)
    ensures Inv(s')
  {
  }

  /** A generation that has been left behind moves only in its `consume`. */
  lemma {:induction false} OlderMoves(s: State, s': State, g: nat, gen: Generation)
    requires Inv(s) && g < |s.gens| - 1
    requires s' == s.(gens := s.gens[g := gen]) && Consistent(gen, g) && Over(gen)
    ensures Inv(s')
  {
    var last := |s.gens| - 1;
    assert s'.gens[last] == s.gens[last];
  }

  lemma {:induction false} StartStepKeepsInv(s: State, g: nat, ok: bool)
    requires Inv(s) && g < |s.gens|
    ensures Inv(StartStepped(s, g, ok))
  {
    hide LastMic, WellOrdered;
    if g == |s.gens| - 1 {
      var s' := StartStepped(s, g, ok);
      CallSnoc(s.log, MicOpened(g));
      LatestMoves(s, s', s'.gens[g]);
    } else {
      assert Over(s.gens[g]);
    }
  }

  lemma {:induction false} StopStepKeepsInv(s: State, g: nat, ok: bool)
    requires Inv(s) && g < |s.gens|
    ensures Inv(StopStepped(s, g, ok))
  {
    assert Consistent(s.gens[g], g);
    if g == |s.gens| - 1 {
      var s' := StopStepped(s, g, ok);
      CallSnoc(s.log, MicStopped(g));
      CallSnoc(s.log, StopSent(g));
      LatestMoves(s, s', s'.gens[g]);
    } else {
      assert Over(s.gens[g]);
    }
  }

  lemma {:induction false} ConsumeKeepsInv(s: State, g: nat)
    requires Inv(s) && g < |s.gens|
    ensures Inv(Next(s, Apply(g))) && Inv(Next(s, ConsumeEnds(g)))
  {
    CallSnoc(s.log, Applied(g));
    var s' := Next(s, ConsumeEnds(g));
    assert Consistent(s.gens[g], g);
    if g == |s.gens| - 1 {
      LatestMoves(s, s', s'.gens[g]);
    } else {
      OlderMoves(s, s', g, s'.gens[g]);
    }
  }

  lemma {:induction false} CallKeepsInv(s: State)
    requires Inv(s)
    ensures Inv(StartCalled(s)) && Inv(StopCalled(s))
  {
    hide Inv, StartCalled, StopCalled;
    StartCallKeepsInv(s);
    StopCallKeepsInv(s);
  }

  lemma {:induction false} StartCallKeepsInv(s: State)
    requires Inv(s)
    ensures Inv(StartCalled(s))
  {
    if s.gens != [] {
      assert Consistent(s.gens[|s.gens| - 1], |s.gens| - 1);
    }
  }

  lemma {:induction false} StopCallKeepsInv(s: State)
    requires Inv(s)
    ensures Inv(StopCalled(s))
  {
    if s.gens != [] {
      var g := |s.gens| - 1;
      assert Consistent(s.gens[g], g);
      var s' := StopCalled(s);
      LatestMoves(s, s', s'.gens[g]);
    }
  }

  lemma {:induction false} StepKeepsInv(s: State, action: Action)
    requires Inv(s)
    ensures Inv(Next(s, action))
  {
    match action
    case CallStart => CallKeepsInv(s);
    case CallStop => CallKeepsInv(s);
    case StartStep(g, ok) => if g < |s.gens| { StartStepKeepsInv(s, g, ok); }
    case StopStep(g, ok) => if g < |s.gens| { StopStepKeepsInv(s, g, ok); }
    case Apply(g) => if g < |s.gens| { ConsumeKeepsInv(s, g); }
    case ConsumeEnds(g) => if g < |s.gens| { ConsumeKeepsInv(s, g); }
  }

  lemma {:induction false} EveryInterleavingKeepsInv(schedule: seq<Action>)
    ensures Inv(Ran(schedule))
  {
    if schedule != [] {
      EveryInterleavingKeepsInv(schedule[..|schedule| - 1]);
      StepKeepsInv(Ran(schedule[..|schedule| - 1]), schedule[|schedule| - 1]);
    }
  }

  // ---- Ownership ----

  /** Connecting and Finalizing each belong to one goroutine: the latest generation's `Start`, or its `Stop`. */
  lemma {:induction false} OneOwner(schedule: seq<Action>, g: nat)
    requires g < |Ran(schedule).gens|
    ensures var s := Ran(schedule);
            && (StartBusy(s.gens[g]) <==> s.control == Connecting && g == |s.gens| - 1)
            && (StopBusy(s.gens[g]) <==> s.control == Finalizing && g == |s.gens| - 1)
  {
    EveryInterleavingKeepsInv(schedule);
    var s := Ran(schedule);
    assert Consistent(s.gens[g], g);
    assert g < |s.gens| - 1 ==> Over(s.gens[g]);
  }

  /** `Stop` talks to the session of the generation whose `finished` it waits on. */
  lemma {:induction false} StopsItsOwnSession(schedule: seq<Action>, g: nat)
    requires g < |Ran(schedule).gens| && Ran(schedule).gens[g].stop != NotCalled
    ensures Ran(schedule).gens[g].asked == Some(g)
  {
    EveryInterleavingKeepsInv(schedule);
    assert Consistent(Ran(schedule).gens[g], g);
  }

  /**
   * A press of the shortcut acts on a state it read earlier. Whatever has happened since: while a session is
   * starting or stopping it changes nothing, and otherwise it hands ownership to one goroutine, with no other busy.
   */
  lemma {:induction false} DoubleTapIsHarmless(schedule: seq<Action>, read: Control)
    requires Toggled(read).Some?
    ensures var s := Ran(schedule);
            var s' := Next(s, Toggled(read).value);
            && (s.control == Connecting || s.control == Finalizing ==> s' == s)
            && (s' != s ==>
                  && (s'.control == Connecting || s'.control == Finalizing)
                  && (forall g :: 0 <= g < |s.gens| ==> !StartBusy(s.gens[g]) && !StopBusy(s.gens[g])))
  {
    var s := Ran(schedule);
    forall g | 0 <= g < |s.gens| && s.control != Connecting && s.control != Finalizing
      ensures !StartBusy(s.gens[g]) && !StopBusy(s.gens[g])
    {
      OneOwner(schedule, g);
    }
  }

  /** A press of the shortcut, on the state it has read. */
  function Pressed(s: State, read: Control): State {
    match Toggled(read)
    case None => s
    case Some(action) => Next(s, action)
  }

  /**
   * Over every interleaving, a press on the state as it is: from Idle or Error it begins one more generation, whose
   * `Start` is dialing; while listening it begins the latest one's `Stop`, which is about to stop the microphone and
   * has its session; otherwise it does nothing.
   */
  lemma {:induction false} PressStartsOrStops(schedule: seq<Action>)
    ensures var s := Ran(schedule);
            var s' := Pressed(s, s.control);
            match s.control
            case Idle => s' == s.(control := Connecting, gens := s.gens + [Generation(Dialing, NotSpawned, NotCalled, 0, None)])
            case Error => s' == s.(control := Connecting, gens := s.gens + [Generation(Dialing, NotSpawned, NotCalled, 0, None)])
            case Listening =>
              var g := |s.gens| - 1;
              && g >= 0 && s.gens[g].start == Started && s.gens[g].stop == NotCalled
              && s' == s.(control := Finalizing, gens := s.gens[g := s.gens[g].(stop := StoppingMic, asked := Some(g))])
            case Connecting => s' == s
            case Finalizing => s' == s
  {
    EveryInterleavingKeepsInv(schedule);
    var s := Ran(schedule);
    if s.control == Listening {
      assert Consistent(s.gens[|s.gens| - 1], |s.gens| - 1);
    }
  }

  /** Neither starting nor dictating nor stopping. */
  predicate AtRest(control: Control) {
    control == Idle || control == Error
  }

  /**
   * A press on a state read earlier is refused, and changes nothing, if and only if it read a session starting or
   * stopping, or meant to start and may not now, or meant to stop and is not listening now. Otherwise it does what a
   * press does now.
   */
  lemma {:induction false} StalePressIsRefusedIff(schedule: seq<Action>, read: Control)
    ensures var s := Ran(schedule);
            && (Pressed(s, read) == s <==>
                  || read == Connecting || read == Finalizing
                  || (AtRest(read) && !AtRest(s.control))
                  || (read == Listening && s.control != Listening))
            && (Pressed(s, read) != s ==> Pressed(s, read) == Pressed(s, s.control))
  {
    EveryInterleavingKeepsInv(schedule);
  }

  /** At rest no session is held. */
  lemma {:induction false} NoSessionAtRest(schedule: seq<Action>)
    ensures AtRest(Ran(schedule).control) ==> Ran(schedule).session == None
  {
    EveryInterleavingKeepsInv(schedule);
    var s := Ran(schedule);
    if s.gens != [] {
      assert Consistent(s.gens[|s.gens| - 1], |s.gens| - 1);
    }
  }

  // ---- What was called ----

  predicate Past(stop: StopAt, asked: bool) {
    match stop
    case NotCalled => false
    case StoppingMic => false
    case Asking => !asked
    case _ => true
  }

  /** The calls made for a generation are those that its goroutines have got past. */
  predicate CallsMatch(log: seq<Call>, gen: Generation, g: nat) {
    && (MicOpened(g) in log <==> gen.start == Announcing || gen.start == Started)
    && (MicStopped(g) in log <==> Past(gen.stop, false))
    && (StopSent(g) in log <==> Past(gen.stop, true))
  }

  predicate AllCallsMatch(s: State) {
    && (forall g :: 0 <= g < |s.gens| ==> CallsMatch(s.log, s.gens[g], g))
    && (forall i :: 0 <= i < |s.log| ==> s.log[i].g < |s.gens|)
  }

  lemma {:induction false} StepKeepsCalls(s: State, action: Action)
    requires Inv(s) && AllCallsMatch(s)
    ensures AllCallsMatch(Next(s, action))
  {
    hide Inv, AllCallsMatch, StartStepped, StopStepped, StartCalled, StopCalled;
    match action
    case CallStart => CallKeepsCalls(s, StartCalled(s));
    case CallStop => CallKeepsCalls(s, StopCalled(s));
    case StartStep(g, ok) => if g < |s.gens| { StartStepKeepsCalls(s, g, ok); }
    case StopStep(g, ok) => if g < |s.gens| { StopStepKeepsCalls(s, g, ok); }
    case Apply(g) => if g < |s.gens| { ConsumeKeepsCalls(s, g); }
    case ConsumeEnds(g) => if g < |s.gens| { ConsumeKeepsCalls(s, g); }
  }

  lemma {:induction false} StartStepKeepsCalls(s: State, g: nat, ok: bool)
    requires AllCallsMatch(s) && g < |s.gens|
    ensures AllCallsMatch(StartStepped(s, g, ok))
  {
    assert CallsMatch(s.log, s.gens[g], g);
    OneGenerationMoves(s, StartStepped(s, g, ok), g);
  }

  lemma {:induction false} StopStepKeepsCalls(s: State, g: nat, ok: bool)
    requires AllCallsMatch(s) && g < |s.gens|
    ensures AllCallsMatch(StopStepped(s, g, ok))
  {
    assert CallsMatch(s.log, s.gens[g], g);
    OneGenerationMoves(s, StopStepped(s, g, ok), g);
  }

  lemma {:induction false} ConsumeKeepsCalls(s: State, g: nat)
    requires AllCallsMatch(s) && g < |s.gens|
    ensures AllCallsMatch(Next(s, Apply(g))) && AllCallsMatch(Next(s, ConsumeEnds(g)))
  {
    assert CallsMatch(s.log, s.gens[g], g);
    OneGenerationMoves(s, Next(s, Apply(g)), g);
    OneGenerationMoves(s, Next(s, ConsumeEnds(g)), g);
  }

  lemma {:induction false} CallKeepsCalls(s: State, s': State)
    requires Inv(s) && AllCallsMatch(s) && (s' == StartCalled(s) || s' == StopCalled(s))
    ensures AllCallsMatch(s')
  {
    assert forall call :: call in s.log ==> call.g < |s.gens|;
    forall g | 0 <= g < |s'.gens|
      ensures CallsMatch(s'.log, s'.gens[g], g)
    {
      if g < |s.gens| {
        assert CallsMatch(s.log, s.gens[g], g);
      }
    }
  }

  /** At most one call, for the generation that moves. */
  lemma {:induction false} OneGenerationMoves(s: State, s': State, g: nat)
    requires AllCallsMatch(s) && g < |s.gens| == |s'.gens|
    requires forall k :: 0 <= k < |s.gens| && k != g ==> s'.gens[k] == s.gens[k]
    requires s'.log == s.log || (s.log <= s'.log && |s'.log| == |s.log| + 1 && s'.log[|s.log|].g == g)
    requires CallsMatch(s.log, s.gens[g], g) ==> CallsMatch(s'.log, s'.gens[g], g)
    ensures AllCallsMatch(s')
  {
    forall k | 0 <= k < |s'.gens|
      ensures CallsMatch(s'.log, s'.gens[k], k)
    {
      assert CallsMatch(s.log, s.gens[k], k);
      if s'.log != s.log {
        assert s'.log == s.log + [s'.log[|s.log|]];
      }
    }
  }

  /** Over every interleaving: the microphone was opened, stopped, and the stop sent exactly when each was due. */
  lemma {:induction false} WhatWasCalled(schedule: seq<Action>)
    ensures AllCallsMatch(Ran(schedule))
  {
    if schedule != [] {
      WhatWasCalled(schedule[..|schedule| - 1]);
      EveryInterleavingKeepsInv(schedule[..|schedule| - 1]);
      StepKeepsCalls(Ran(schedule[..|schedule| - 1]), schedule[|schedule| - 1]);
    }
  }

  // ---- The microphone ----

  lemma {:induction false} WellOrderedAt(log: seq<Call>, j: nat)
    requires WellOrdered(log) && j < |log|
    ensures log[j].MicOpened? ==> Quiet(LastMic(log[..j]))
    ensures log[j].StopSent? ==> LastMic(log[..j]) == Some(MicStopped(log[j].g))
    decreases |log|
  {
    var init := log[..|log| - 1];
    if j < |init| {
      WellOrderedAt(init, j);
      assert init[..j] == log[..j];
    }
  }

  /** Where the latest call to start or stop capture is. */
  lemma {:induction false} LastMicAt(log: seq<Call>) returns (k: nat)
    ensures LastMic(log).Some? ==> k < |log| && log[k] == LastMic(log).value
    ensures forall i :: k < i < |log| ==> !log[i].MicOpened? && !log[i].MicStopped?
    ensures LastMic(log).None? ==> forall i :: 0 <= i < |log| ==> !log[i].MicOpened? && !log[i].MicStopped?
  {
    k := 0;
    if log != [] {
      var last := log[|log| - 1];
      if last.MicOpened? || last.MicStopped? {
        k := |log| - 1;
      } else {
        k := LastMicAt(log[..|log| - 1]);
      }
    }
  }

  /** Over every interleaving, between two starts of capture there is a stop. */
  lemma {:induction false} CaptureNeverStartsTwice(schedule: seq<Action>, i: nat, j: nat)
    requires i < j < |Ran(schedule).log|
    requires Ran(schedule).log[i].MicOpened? && Ran(schedule).log[j].MicOpened?
    ensures exists k :: i < k < j && Ran(schedule).log[k].MicStopped?
  {
    var log := Ran(schedule).log;
    EveryInterleavingKeepsInv(schedule);
    WellOrderedAt(log, j);
    var k := LastMicAt(log[..j]);
    assert log[..j][i] == log[i];
    assert log[k].MicStopped? && i < k;
  }

  /** Over every interleaving, `stop` is sent after the same generation's capture stopped, with none since. */
  lemma {:induction false} StopFollowsTheMicrophone(schedule: seq<Action>, j: nat)
    requires j < |Ran(schedule).log| && Ran(schedule).log[j].StopSent?
    ensures var log := Ran(schedule).log;
            exists k :: 0 <= k < j && log[k] == MicStopped(log[j].g) && forall i :: k < i < j ==> !log[i].MicOpened?
  {
    var log := Ran(schedule).log;
    EveryInterleavingKeepsInv(schedule);
    WellOrderedAt(log, j);
    var k := LastMicAt(log[..j]);
    assert forall i :: k < i < j ==> log[i] == log[..j][i];
    assert log[k] == MicStopped(log[j].g);
  }

  // ---- `finished` ----

  /** It is never closed twice; it is closed exactly once `Start` gives up early or `consume` ends. */
  lemma {:induction false} FinishedClosesOnce(schedule: seq<Action>, g: nat)
    requires g < |Ran(schedule).gens|
    ensures var gen := Ran(schedule).gens[g];
            && gen.closes <= 1
            && (gen.closes == 1 <==> ExitedEarly(gen) || gen.consume == Ended)
            && (Over(gen) && gen.consume != Running ==> gen.closes == 1)
  {
    EveryInterleavingKeepsInv(schedule);
    assert Consistent(Ran(schedule).gens[g], g);
  }

  /** A `consume` outlives its generation only after a stop that timed out or a microphone that did not open. */
  lemma {:induction false} WhoOutlivesItsGeneration(schedule: seq<Action>, g: nat)
    requires g < |Ran(schedule).gens|
    ensures var s := Ran(schedule);
            s.gens[g].consume == Running && (g < |s.gens| - 1 || s.control == Idle || s.control == Error) ==>
              s.gens[g].stop == Stopped(true, false) || s.gens[g].start == Failed(true)
  {
    EveryInterleavingKeepsInv(schedule);
    var s := Ran(schedule);
    assert Consistent(s.gens[g], g);
    assert g < |s.gens| - 1 ==> Over(s.gens[g]);
  }

  // ---- Progress ----

  function RanFrom(s: State, schedule: seq<Action>): State
    decreases |schedule|
  {
    if schedule == [] then s else RanFrom(Next(s, schedule[0]), schedule[1..])
  }

  lemma {:induction false} RanOn(before: seq<Action>, after: seq<Action>)
    ensures Ran(before + after) == RanFrom(Ran(before), after)
    decreases |after|
  {
    if after == [] {
      assert before + after == before;
    } else {
      RanOn(before + [after[0]], after[1..]);
      assert before + [after[0]] + after[1..] == before + after;
      assert (before + [after[0]])[..|before|] == before;
    }
  }

  /** The stop could not be sent. */
  predicate NotSent(stop: StopAt) {
    match stop
    case Draining => true
    case Finishing(_, failed) => failed
    case Stopped(_, failed) => failed
    case _ => false
  }

  /** However a stop stands, `consume` ending is all it takes for it to finish: in Error only if it could not be sent. */
  lemma {:induction false} StopFinishesOnceConsumeEnds(schedule: seq<Action>)
    requires Ran(schedule).control == Finalizing
    ensures var g := |Ran(schedule).gens| - 1;
            g >= 0 &&
            var s' := Ran(schedule + [ConsumeEnds(g)] + [StopStep(g, true), StopStep(g, true), StopStep(g, true), StopStep(g, true)]);
            s'.control == if NotSent(Ran(schedule).gens[g].stop) then Error else Idle
  {
    EveryInterleavingKeepsInv(schedule);
    var g := |Ran(schedule).gens| - 1;
    var steps := [StopStep(g, true), StopStep(g, true), StopStep(g, true), StopStep(g, true)];
    FinishesFrom(Ran(schedule), g, steps);
    RanOn(schedule + [ConsumeEnds(g)], steps);
    RanOn(schedule, [ConsumeEnds(g)]);
    assert [ConsumeEnds(g)][1..] == [];
  }

  lemma {:induction false} FinishesFrom(s: State, g: nat, steps: seq<Action>)
    requires Inv(s) && s.control == Finalizing && g == |s.gens| - 1
    requires |steps| == 4 && forall i :: 0 <= i < |steps| ==> steps[i] == StopStep(g, true)
    ensures RanFrom(Next(s, ConsumeEnds(g)), steps).control == if NotSent(s.gens[g].stop) then Error else Idle
  {
    assert Consistent(s.gens[g], g);
    var s0 := Next(s, ConsumeEnds(g));
    assert s0.gens[g].closes == 1 && s0.gens[g].stop == s.gens[g].stop;
    StopsFinish(s0, g, steps);
  }

  function Left(stop: StopAt): nat {
    match stop
    case NotCalled => 0
    case StoppingMic => 4
    case Asking => 3
    case Waiting => 2
    case Draining => 2
    case Finishing(_, _) => 1
    case Stopped(_, _) => 0
  }

  lemma {:induction false} OneStop(s: State, g: nat)
    requires g < |s.gens| && s.gens[g].closes == 1 && StopBusy(s.gens[g])
    ensures var s' := Next(s, StopStep(g, true));
            && |s'.gens| == |s.gens| && s'.gens[g].closes == 1
            && Left(s'.gens[g].stop) == Left(s.gens[g].stop) - 1
            && NotSent(s'.gens[g].stop) == NotSent(s.gens[g].stop)
            && (Left(s'.gens[g].stop) == 0 ==>
                  s'.gens[g].stop.Stopped? && s'.control == if NotSent(s.gens[g].stop) then Error else Idle)
  {
  }

  lemma {:induction false} StopsFinish(s: State, g: nat, steps: seq<Action>)
    requires g < |s.gens| && s.gens[g].closes == 1
    requires StopBusy(s.gens[g]) || s.control == if NotSent(s.gens[g].stop) then Error else Idle
    requires !s.gens[g].stop.NotCalled? && |steps| >= Left(s.gens[g].stop)
    requires forall i :: 0 <= i < |steps| ==> steps[i] == StopStep(g, true)
    ensures RanFrom(s, steps).control == if NotSent(s.gens[g].stop) then Error else Idle
    decreases |steps|
  {
    if steps != [] {
      if StopBusy(s.gens[g]) {
        OneStop(s, g);
      }
      StopsFinish(Next(s, steps[0]), g, steps[1..]);
    }
  }

  /** A `Start` in which everything goes well. */
  function Dictation(g: nat): seq<Action> {
    [CallStart] + Steps(g, 7)
  }

  function Steps(g: nat, n: nat): seq<Action> {
    if n == 0 then [] else [StartStep(g, true)] + Steps(g, n - 1)
  }

  /** How many more steps a `Start` takes when everything goes well. */
  function ToGo(start: StartAt): nat {
    match start
    case Dialing => 7
    case Greeting => 6
    case AwaitingReady => 5
    case Registering => 4
    case Spawning => 3
    case OpeningMic => 2
    case Announcing => 1
    case _ => 0
  }

  /** A generation after `gens` on its way, with nothing gone wrong. */
  predicate OnItsWay(s: State, gens: seq<Generation>, log: seq<Call>) {
    && |s.gens| == |gens| + 1 && s.gens[..|gens|] == gens
    && var gen := s.gens[|gens|];
       && !gen.start.Failing? && !gen.start.Failed?
       && gen == Generation(gen.start, if ToGo(gen.start) <= 2 then Running else NotSpawned, NotCalled, 0, None)
       && s.control == (if gen.start == Started then Listening else Connecting)
       && s.log == (if ToGo(gen.start) <= 1 then log + [MicOpened(|gens|)] else log)
  }

  lemma {:induction false} Arrives(s: State, gens: seq<Generation>, log: seq<Call>)
    requires OnItsWay(s, gens, log)
    ensures var s' := RanFrom(s, Steps(|gens|, ToGo(s.gens[|gens|].start)));
            OnItsWay(s', gens, log) && s'.gens[|gens|].start == Started
    decreases ToGo(s.gens[|gens|].start)
  {
    var g := |gens|;
    var n := ToGo(s.gens[g].start);
    if n > 0 {
      var s1 := Next(s, StartStep(g, true));
      assert OnItsWay(s1, gens, log) && ToGo(s1.gens[g].start) == n - 1;
      Arrives(s1, gens, log);
      assert Steps(g, n)[1..] == Steps(g, n - 1);
    }
  }

  /** From Idle or Error a session can always be started. */
  lemma {:induction false} StartsWhenIdle(before: seq<Action>)
    requires Ran(before).control == Idle || Ran(before).control == Error
    ensures var s := Ran(before);
            var s' := Ran(before + Dictation(|s.gens|));
            && s'.control == Listening
            && s'.gens == s.gens + [Generation(Started, Running, NotCalled, 0, None)]
            && s'.log == s.log + [MicOpened(|s.gens|)]
  {
    RanOn(before, Dictation(|Ran(before).gens|));
    StartsFrom(Ran(before));
  }

  lemma {:induction false} StartsFrom(s: State)
    requires s.control == Idle || s.control == Error
    ensures var s' := RanFrom(s, Dictation(|s.gens|));
            && s'.control == Listening
            && s'.gens == s.gens + [Generation(Started, Running, NotCalled, 0, None)]
            && s'.log == s.log + [MicOpened(|s.gens|)]
  {
    hide StartStepped, StopStepped;
    var g := |s.gens|;
    assert Dictation(g)[0] == CallStart && Dictation(g)[1..] == Steps(g, 7);
    Arrives(StartCalled(s), s.gens, s.log);
    var s' := RanFrom(StartCalled(s), Steps(g, 7));
    assert s'.gens == s'.gens[..g] + [s'.gens[g]];
  }

  /** A `Stop` whose wait for the server times out. */
  function TimedOutStop(g: nat): seq<Action> {
    [CallStop, StopStep(g, true), StopStep(g, true), StopStep(g, false), StopStep(g, true)]
  }

  lemma {:induction false} TimesOut(before: seq<Action>)
    requires Ran(before).control == Listening && Ran(before).gens != []
    ensures var s := Ran(before);
            var g := |s.gens| - 1;
            var s' := Ran(before + TimedOutStop(g));
            && s'.control == Idle
            && s'.gens == s.gens[g := s.gens[g].(stop := Stopped(true, false), asked := s.session)]
  {
    var s := Ran(before);
    var g := |s.gens| - 1;
    var steps := TimedOutStop(g);
    RanOn(before, steps);
    assert RanFrom(s, steps) == RanFrom(Next(s, CallStop), steps[1..]);
    var s1 := Next(s, CallStop);
    assert RanFrom(s1, steps[1..]) == RanFrom(Next(s1, StopStep(g, true)), steps[2..]) by {
      assert steps[1..][1..] == steps[2..];
    }
    var s2 := Next(s1, StopStep(g, true));
    assert RanFrom(s2, steps[2..]) == RanFrom(Next(s2, StopStep(g, true)), steps[3..]) by {
      assert steps[2..][1..] == steps[3..];
    }
    var s3 := Next(s2, StopStep(g, true));
    assert RanFrom(s3, steps[3..]) == RanFrom(Next(s3, StopStep(g, false)), steps[4..]) by {
      assert steps[3..][1..] == steps[4..];
    }
    var s4 := Next(s3, StopStep(g, false));
    assert RanFrom(s4, steps[4..]) == Next(s4, StopStep(g, true)) by {
      assert steps[4..] == [StopStep(g, true)];
      assert steps[4..][1..] == [];
    }
  }

  lemma {:induction false} ApplyAfter(before: seq<Action>, g: nat)
    requires g < |Ran(before).gens| && Ran(before).gens[g].consume == Running
    ensures Ran(before + [Apply(g)]) == Ran(before).(log := Ran(before).log + [Applied(g)])
  {
    assert (before + [Apply(g)])[..|before|] == before;
  }

  /**
   * And it does happen, from any state that is listening with the connection still up: after a stop that
   * timed out, the old `consume` is still applying events while the next generation already listens.
   */
  lemma {:induction false} AStaleConsumeCanApply(before: seq<Action>) returns (schedule: seq<Action>)
    requires Ran(before).control == Listening && Ran(before).gens != []
    requires Ran(before).gens[|Ran(before).gens| - 1].consume == Running
    ensures var g, s := |Ran(before).gens| - 1, Ran(schedule);
            && |s.gens| == g + 2 && s.control == Listening
            && |s.log| >= 2 && s.log[|s.log| - 2..] == [MicOpened(g + 1), Applied(g)]
  {
    var g := |Ran(before).gens| - 1;
    var stopped := before + TimedOutStop(g);
    TimesOut(before);
    schedule := AppliesLate(stopped, g);
  }

  /** Such a state is reached at once. */
  lemma {:induction false} ListeningIsReached()
    ensures var s := Ran([] + Dictation(0));
            s.control == Listening && |s.gens| == 1 && s.gens[0].consume == Running
  {
    StartsWhenIdle([]);
  }

  /** A `Start` whose microphone does not open. */
  function DeafStart(g: nat): seq<Action> {
    [CallStart] + Steps(g, 5) + [StartStep(g, false), StartStep(g, true)]
  }

  lemma {:induction false} RanFromInTwo(s: State, first: seq<Action>, second: seq<Action>)
    ensures RanFrom(s, first + second) == RanFrom(RanFrom(s, first), second)
    decreases |first|
  {
    if first == [] {
      assert first + second == second;
    } else {
      assert (first + second)[1..] == first[1..] + second;
      RanFromInTwo(Next(s, first[0]), first[1..], second);
    }
  }

  /** The first steps of the way to Listening. */
  lemma {:induction false} OnTheWay(s: State, gens: seq<Generation>, log: seq<Call>, n: nat)
    requires OnItsWay(s, gens, log) && n <= ToGo(s.gens[|gens|].start)
    ensures var s' := RanFrom(s, Steps(|gens|, n));
            OnItsWay(s', gens, log) && ToGo(s'.gens[|gens|].start) == ToGo(s.gens[|gens|].start) - n
    decreases n
  {
    var g := |gens|;
    if n > 0 {
      var s1 := Next(s, StartStep(g, true));
      assert OnItsWay(s1, gens, log) && ToGo(s1.gens[g].start) == ToGo(s.gens[g].start) - 1;
      OnTheWay(s1, gens, log, n - 1);
      assert Steps(g, n)[1..] == Steps(g, n - 1);
    }
  }

  lemma {:induction false} StaysDeaf(before: seq<Action>)
    requires Ran(before).control == Idle || Ran(before).control == Error
    ensures var s := Ran(before);
            var s' := Ran(before + DeafStart(|s.gens|));
            s'.control == Error && s'.gens == s.gens + [Generation(Failed(true), Running, NotCalled, 0, None)]
  {
    var s := Ran(before);
    var g := |s.gens|;
    RanOn(before, DeafStart(g));
    DeafFrom(s);
  }

  lemma {:induction false} DeafFrom(s: State)
    requires s.control == Idle || s.control == Error
    ensures var s' := RanFrom(s, DeafStart(|s.gens|));
            s'.control == Error && s'.gens == s.gens + [Generation(Failed(true), Running, NotCalled, 0, None)]
  {
    var g := |s.gens|;
    var last := [StartStep(g, false), StartStep(g, true)];
    assert DeafStart(g) == [CallStart] + (Steps(g, 5) + last);
    assert ([CallStart] + (Steps(g, 5) + last))[1..] == Steps(g, 5) + last;
    OnTheWay(StartCalled(s), s.gens, s.log, 5);
    RanFromInTwo(StartCalled(s), Steps(g, 5), last);
    var m := RanFrom(StartCalled(s), Steps(g, 5));
    assert ToGo(m.gens[g].start) == 2;
    MicFails(m, g);
    assert m.gens == m.gens[..g] + [m.gens[g]];
  }

  lemma {:induction false} MicFails(m: State, g: nat)
    requires g < |m.gens| && m.gens[g].start == OpeningMic
    ensures RanFrom(m, [StartStep(g, false), StartStep(g, true)])
         == m.(control := Error, session := None, gens := m.gens[g := m.gens[g].(start := Failed(true))])
  {
    var last := [StartStep(g, false), StartStep(g, true)];
    assert last[1..] == [StartStep(g, true)] && last[1..][1..] == [];
    var m1 := Next(m, StartStep(g, false));
    var m2 := Next(m1, StartStep(g, true));
    assert m2.gens == m.gens[g := m.gens[g].(start := Failed(true))];
    assert RanFrom(m1, last[1..]) == m2;
  }

  /** The other way it happens: the microphone of the first session did not open, the second listens. */
  lemma {:induction false} ADeafStartCanApply(before: seq<Action>) returns (schedule: seq<Action>)
    requires Ran(before).control == Idle || Ran(before).control == Error
    ensures var g, s := |Ran(before).gens|, Ran(schedule);
            && |s.gens| == g + 2 && s.control == Listening
            && |s.log| >= 2 && s.log[|s.log| - 2..] == [MicOpened(g + 1), Applied(g)]
  {
    var g := |Ran(before).gens|;
    var failed := before + DeafStart(g);
    StaysDeaf(before);
    schedule := AppliesLate(failed, g);
  }

  /** Once a generation is left behind with its `consume` running, the next may start, and find it applying. */
  lemma {:induction false} AppliesLate(before: seq<Action>, g: nat) returns (schedule: seq<Action>)
    requires Ran(before).control == Idle || Ran(before).control == Error
    requires |Ran(before).gens| == g + 1 && Ran(before).gens[g].consume == Running
    ensures var s := Ran(schedule);
            && |s.gens| == g + 2 && s.control == Listening
            && |s.log| >= 2 && s.log[|s.log| - 2..] == [MicOpened(g + 1), Applied(g)]
  {
    var again := before + Dictation(g + 1);
    StartsWhenIdle(before);
    schedule := again + [Apply(g)];
    ApplyAfter(again, g);
  }
}
