/** An IME composition emulated with ordinary typing (client/internal/platform/keystroke.go). */
module Keystroke {
  import opened Tokens

  // ---- The typer: a screen, of which only the text before the cursor matters ----

  /** Which calls fail, by number; a call that fails types and deletes nothing. */
  type Faults = nat -> bool

  datatype Screen = Screen(text: string, calls: nat, strokes: nat)

  function Typed(faults: Faults, s: Screen, text: string): (Screen, bool) {
    if faults(s.calls) then (s.(calls := s.calls + 1), false)
    else (Screen(s.text + text, s.calls + 1, s.strokes + |text|), true)
  }

  /** What `count` backspaces leave: at the start of the text there is nothing more to delete. */
  function Shortened(text: string, count: nat): string {
    if count <= |text| then text[..|text| - count] else ""
  }

  function Erased(faults: Faults, s: Screen, count: nat): (Screen, bool) {
    if faults(s.calls) then (s.(calls := s.calls + 1), false)
    else (Screen(Shortened(s.text, count), s.calls + 1, s.strokes + count), true)
  }

  // ---- The composition ----

  /** The provisional text, and the screen it was typed on. */
  datatype Board = Board(marked: string, open: bool, screen: Screen)

  function Begun(b: Board): Board {
    b.(open := true, marked := "")
  }

  function Erasing(faults: Faults, b: Board, count: nat): (Board, bool) {
    if count == 0 then (b, true)
    else
      var (screen, ok) := Erased(faults, b.screen, count);
      (b.(screen := screen), ok)
  }

  /** `SetMarkedText`: only the differing tail is retyped. */
  function Remarked(faults: Faults, b: Board, text: string): (Board, bool) {
    if text == b.marked then (b, true) else RemarkedFrom(faults, b, CommonPrefixOf(b.marked, text), text)
  }

  function RemarkedFrom(faults: Faults, b: Board, shared: string, text: string): (Board, bool)
    requires shared <= b.marked && shared <= text
  {
    var (b1, ok1) := Erasing(faults, b, |b.marked| - |shared|);
    if ok1 then Retyped(faults, b1, shared, text) else (b1, false)
  }

  /** The second half of `SetMarkedText`, once the differing tail is gone. */
  function Retyped(faults: Faults, b: Board, shared: string, text: string): (Board, bool)
    requires |shared| <= |text|
  {
    var addition := text[|shared|..];
    if addition == "" then (b.(marked := text), true)
    else
      var (screen, ok) := Typed(faults, b.screen, addition);
      (b.(screen := screen, marked := if ok then text else shared), ok)
  }

  /** `CommitText`: the provisional tail goes, the permanent text is typed. */
  function Committed(faults: Faults, b: Board, text: string): (Board, bool) {
    if text == "" then (b, true)
    else
      var (b1, ok1) := Erasing(faults, b, |b.marked|);
      if !ok1 then (b1, false)
      else
        var (screen, ok2) := Typed(faults, b1.screen, text);
        (b1.(screen := screen, marked := ""), ok2)
  }

  function Ended(b: Board): Board {
    b.(marked := "", open := false)
  }

  function Cancelled(faults: Faults, b: Board): (Board, bool) {
    Erasing(faults, b.(marked := "", open := false), |b.marked|)
  }

  /** `Close`: the provisional text is erased if it can be, and forgotten either way. */
  function Closed(faults: Faults, b: Board): Board {
    Erasing(faults, b, |b.marked|).0.(marked := "")
  }

  datatype Call = Begin | Mark(text: string) | Commit(text: string) | End | Cancel | Close

  function Made(faults: Faults, b: Board, call: Call): Board {
    match call
    case Begin => Begun(b)
    case Mark(text) => Remarked(faults, b, text).0
    case Commit(text) => Committed(faults, b, text).0
    case End => Ended(b)
    case Cancel => Cancelled(faults, b).0
    case Close => Closed(faults, b)
  }

  function MadeAll(faults: Faults, b: Board, calls: seq<Call>): Board {
    if calls == [] then b else Made(faults, MadeAll(faults, b, calls[..|calls| - 1]), calls[|calls| - 1])
  }

  // ---- No backspace reaches text that is not provisional ----

  /** The provisional text is the end of what is on screen. */
  predicate Owns(b: Board) {
    |b.marked| <= |b.screen.text| && b.screen.text[|b.screen.text| - |b.marked|..] == b.marked
  }

  /** Everything on screen but the provisional text: the user's own, and what was committed. */
  function Settled(b: Board): string
    requires Owns(b)
  {
    b.screen.text[..|b.screen.text| - |b.marked|]
  }

  lemma {:induction false} SettledThenMarked(b: Board)
    requires Owns(b)
    ensures b.screen.text == Settled(b) + b.marked
  {
  }

  /** Backspacing over part of the provisional text leaves the rest of it, after the settled text. */
  lemma {:induction false} ErasingStaysInTheMark(faults: Faults, b: Board, keep: nat)
    requires Owns(b) && keep <= |b.marked|
    ensures var (b', ok) := Erasing(faults, b, |b.marked| - keep);
            && b'.marked == b.marked
            && (ok ==> b'.screen.text == Settled(b) + b.marked[..keep])
            && (ok ==> b'.screen.strokes == b.screen.strokes + (|b.marked| - keep))
            && (!ok ==> b'.screen.text == b.screen.text && b'.screen.strokes == b.screen.strokes)
  {
    var text := b.screen.text;
    assert text == Settled(b) + b.marked;
    assert text[..|text| - (|b.marked| - keep)] == Settled(b) + b.marked[..keep];
    assert b.marked[..|b.marked|] == b.marked;
  }

  lemma {:induction false} OwnsAfter(b: Board, settled: string)
    requires b.screen.text == settled + b.marked
    ensures Owns(b) && Settled(b) == settled
  {
  }

  /** What marking comes to: the screen changes only after the settled text, and the record of it is honest. */
  predicate MarkedAfter(settled: string, marked: string, strokes: nat, b': Board, ok: bool, text: string) {
    && b'.screen.text == settled + b'.marked
    && (ok ==> b'.marked == text && b'.screen.strokes == strokes + Distance(marked, text))
    && (!ok ==> b'.marked <= marked && strokes <= b'.screen.strokes <= strokes + Distance(marked, text))
  }

  lemma {:induction false} RetypingIsHonest(faults: Faults, b: Board, settled: string, shared: string, text: string)
    requires b.screen.text == settled + shared && shared <= text
    ensures var (b', ok) := Retyped(faults, b, shared, text);
            && b'.screen.text == settled + b'.marked
            && b'.marked == (if ok then text else shared)
            && b'.screen.strokes == b.screen.strokes + (if ok then |text| - |shared| else 0)
  {
    var addition := text[|shared|..];
    assert shared + addition == text;
    if addition != "" {
      assert settled + shared + addition == settled + text;
    }
  }

  lemma {:induction false} RemarkingIsHonest(faults: Faults, b: Board, settled: string, shared: string, text: string)
    requires Owns(b) && settled == Settled(b)
    requires shared <= b.marked && shared <= text
    ensures var (b', ok) := RemarkedFrom(faults, b, shared, text);
            && b'.screen.text == settled + b'.marked
            && (ok ==> b'.marked == text && b'.screen.strokes == b.screen.strokes + |b.marked| + |text| - 2 * |shared|)
            && (!ok ==> b'.marked <= b.marked)
            && (!ok ==> b.screen.strokes <= b'.screen.strokes <= b.screen.strokes + |b.marked| - |shared|)
  {
    var (b1, ok1) := Erasing(faults, b, |b.marked| - |shared|);
    SettledThenMarked(b);
    ErasingStaysInTheMark(faults, b, |shared|);
    assert b.marked[..|shared|] == shared;
    if ok1 {
      RetypingIsHonest(faults, b1, settled, shared, text);
    }
  }

  lemma {:induction false} MarkingRewrites(faults: Faults, b: Board, text: string)
    requires Owns(b)
    ensures var (b', ok) := Remarked(faults, b, text);
            MarkedAfter(Settled(b), b.marked, b.screen.strokes, b', ok, text)
  {
    SettledThenMarked(b);
    if text == b.marked {
      CommonPrefixOfSelf(text);
    } else {
      RemarkingIsHonest(faults, b, Settled(b), CommonPrefixOf(b.marked, text), text);
    }
  }

  /** Marking replaces exactly the provisional text; a failure halfway leaves an honest record of it. */
  lemma {:induction false} MarkReplacesTheMark(faults: Faults, b: Board, text: string)
    requires Owns(b)
    ensures var (b', ok) := Remarked(faults, b, text);
            && Owns(b') && Settled(b') == Settled(b)
            && (ok ==> b'.marked == text && b'.screen.text == Settled(b) + text)
            && (!ok ==> b'.marked <= b.marked)
            && b'.screen.strokes - b.screen.strokes <= Distance(b.marked, text)
            && (ok ==> b'.screen.strokes - b.screen.strokes == Distance(b.marked, text))
  {
    MarkingRewrites(faults, b, text);
    OwnsAfter(Remarked(faults, b, text).0, Settled(b));
  }

  lemma {:induction false} CommonPrefixOfSelf<T>(s: seq<T>)
    ensures CommonPrefixOf(s, s) == s
  {
    CommonPrefixIsLongest(s, s, s);
  }

  lemma {:induction false} CommitFollowsSettled(faults: Faults, b: Board, text: string)
    requires Owns(b)
    ensures var (b', ok) := Committed(faults, b, text);
            && Owns(b') && Settled(b) <= Settled(b')
            && (ok && text != "" ==> b'.marked == "" && b'.screen.text == Settled(b) + text)
            && (!ok ==> Settled(b') == Settled(b))
  {
    assert b.screen.text == Settled(b) + b.marked;
    assert Shortened(b.screen.text, |b.marked|) == Settled(b);
  }

  lemma {:induction false} CancelLeavesSettled(faults: Faults, b: Board)
    requires Owns(b)
    ensures var (b', ok) := Cancelled(faults, b);
            && Owns(b') && b'.marked == "" && Settled(b) <= Settled(b')
            && (ok ==> b'.screen.text == Settled(b))
  {
    assert b.screen.text == Settled(b) + b.marked;
    assert Shortened(b.screen.text, |b.marked|) == Settled(b);
  }

  lemma {:induction false} CallKeepsSettled(faults: Faults, b: Board, call: Call)
    requires Owns(b)
    ensures Owns(Made(faults, b, call))
    ensures Settled(b) <= Settled(Made(faults, b, call))
  {
    match call
    case Begin =>
    case Mark(text) => MarkReplacesTheMark(faults, b, text);
    case Commit(text) => CommitFollowsSettled(faults, b, text);
    case End =>
    case Cancel => CancelLeavesSettled(faults, b);
    case Close => assert Shortened(b.screen.text, |b.marked|) == Settled(b);
  }

  /** Any calls in any order, any of them failing anywhere: what was on screen before stays on screen. */
  lemma {:induction false} UsersTextIsSafe(faults: Faults, b: Board, calls: seq<Call>)
    requires Owns(b)
    ensures Owns(MadeAll(faults, b, calls))
    ensures Settled(b) <= Settled(MadeAll(faults, b, calls)) <= MadeAll(faults, b, calls).screen.text
  {
    if calls != [] {
      UsersTextIsSafe(faults, b, calls[..|calls| - 1]);
      CallKeepsSettled(faults, MadeAll(faults, b, calls[..|calls| - 1]), calls[|calls| - 1]);
    }
  }

  // ---- When a call fails, and whether a composition is open ----

  /** All the typer's calls between two numbers succeed. */
  predicate AllSucceed(faults: Faults, first: nat, next: nat) {
    forall n :: first <= n < next ==> !faults(n)
  }

  /** Marking, committing and cancelling each succeed exactly when every call they make of the typer does; at most two. */
  lemma {:induction false} MarkingFailsIff(faults: Faults, b: Board, text: string)
    ensures var (b', ok) := Remarked(faults, b, text);
            && b.screen.calls <= b'.screen.calls <= b.screen.calls + 2 && b'.open == b.open
            && (ok <==> AllSucceed(faults, b.screen.calls, b'.screen.calls))
            && (text == b.marked ==> b' == b)
  {
    TwoCalls(faults, b.screen.calls);
  }

  lemma {:induction false} CommittingFailsIff(faults: Faults, b: Board, text: string)
    ensures var (b', ok) := Committed(faults, b, text);
            && b.screen.calls <= b'.screen.calls <= b.screen.calls + 2 && b'.open == b.open
            && (ok <==> AllSucceed(faults, b.screen.calls, b'.screen.calls))
            && (text == "" ==> b' == b)
  {
    TwoCalls(faults, b.screen.calls);
  }

  lemma {:induction false} CancellingFailsIff(faults: Faults, b: Board)
    ensures var (b', ok) := Cancelled(faults, b);
            && b.screen.calls <= b'.screen.calls <= b.screen.calls + 1
            && (ok <==> AllSucceed(faults, b.screen.calls, b'.screen.calls))
            && (b.marked == "" ==> b'.screen == b.screen)
  {
    TwoCalls(faults, b.screen.calls);
  }

  lemma {:induction false} TwoCalls(faults: Faults, n: nat)
    ensures AllSucceed(faults, n, n + 1) <==> !faults(n)
    ensures AllSucceed(faults, n, n + 2) <==> !faults(n) && !faults(n + 1)
  {
  }

  /** A composition begun since the last that was ended or cancelled. */
  predicate OpenAfter(open: bool, calls: seq<Call>) {
    if calls == [] then open
    else
      match calls[|calls| - 1]
      case Begin => true
      case End => false
      case Cancel => false
      case _ => OpenAfter(open, calls[..|calls| - 1])
  }

  lemma {:induction false} OpenSinceBegin(faults: Faults, b: Board, calls: seq<Call>)
    ensures MadeAll(faults, b, calls).open == OpenAfter(b.open, calls)
  {
    if calls != [] {
      var before, last := MadeAll(faults, b, calls[..|calls| - 1]), calls[|calls| - 1];
      OpenSinceBegin(faults, b, calls[..|calls| - 1]);
      if last.Mark? {
        MarkingFailsIff(faults, before, last.text);
      } else if last.Commit? {
        CommittingFailsIff(faults, before, last.text);
      }
    }
  }

  /** Whatever is on screen when a composition begins, or ends, is settled from then on. */
  lemma {:induction false} BeginAndEndSettle(faults: Faults, b: Board, call: Call)
    requires call == Begin || call == End
    ensures var b' := Made(faults, b, call); Owns(b') && Settled(b') == b.screen.text == b'.screen.text && b'.marked == ""
  {
  }

  // ---- The fewest keystrokes ----

  datatype Stroke = Back | Key(c: char)

  function Struck(text: string, stroke: Stroke): string {
    match stroke
    case Back => Shortened(text, 1)
    case Key(c) => text + [c]
  }

  function Played(text: string, script: seq<Stroke>): string
    decreases |script|
  {
    if script == [] then text else Played(Struck(text, script[0]), script[1..])
  }

  /** Backspace to what the texts share, then type the rest. */
  function Distance(from: string, to: string): nat {
    |from| + |to| - 2 * |CommonPrefixOf(from, to)|
  }

  lemma {:induction false} CommonPrefixSnoc(a: string, c: char, t: string)
    ensures |CommonPrefixOf(a, t)| <= |CommonPrefixOf(a + [c], t)| <= |CommonPrefixOf(a, t)| + 1
  {
    var p, q := CommonPrefixOf(a, t), CommonPrefixOf(a + [c], t);
    CommonPrefixIsLongest(a + [c], t, p);
    var r := if |q| <= |a| then q else q[..|a|];
    CommonPrefixIsLongest(a, t, r);
  }

  /** One keystroke brings a text at most one keystroke closer to any other. */
  lemma {:induction false} OneStrokeAtATime(text: string, stroke: Stroke, to: string)
    ensures Distance(text, to) <= 1 + Distance(Struck(text, stroke), to)
  {
    match stroke
    case Key(c) => CommonPrefixSnoc(text, c, to);
    case Back =>
      if text != "" {
        assert text[..|text| - 1] + [text[|text| - 1]] == text;
        CommonPrefixSnoc(text[..|text| - 1], text[|text| - 1], to);
      }
  }

  /** No script of backspaces and keys that turns one text into another is shorter than the distance. */
  lemma {:induction false} NoShorterScript(from: string, script: seq<Stroke>, to: string)
    requires Played(from, script) == to
    ensures |script| >= Distance(from, to)
    decreases |script|
  {
    if script == [] {
      CommonPrefixOfSelf(to);
    } else {
      NoShorterScript(Struck(from, script[0]), script[1..], to);
      OneStrokeAtATime(from, script[0], to);
    }
  }

  lemma {:induction false} DistanceIgnoresSettled(settled: string, from: string, to: string)
    ensures Distance(settled + from, settled + to) == Distance(from, to)
  {
    var p := CommonPrefixOf(from, to);
    var q := CommonPrefixOf(settled + from, settled + to);
    CommonPrefixIsLongest(settled + from, settled + to, settled + p);
    var r := q[|settled|..];
    assert r <= from && r <= to by {
      assert q == (settled + from)[..|q|] && q == (settled + to)[..|q|];
      assert r == from[..|r|] && r == to[..|r|];
    }
    CommonPrefixIsLongest(from, to, r);
  }

  lemma {:induction false} NoShorterRewrite(text: string, settled: string, from: string, to: string, script: seq<Stroke>)
    requires text == settled + from && Played(text, script) == settled + to
    ensures Distance(from, to) <= |script|
  {
    NoShorterScript(text, script, settled + to);
    DistanceIgnoresSettled(settled, from, to);
  }

  lemma {:induction false} MarkingTakes(faults: Faults, b: Board, text: string)
    requires Owns(b) && Remarked(faults, b, text).1
    ensures Remarked(faults, b, text).0.screen.strokes == b.screen.strokes + Distance(b.marked, text)
  {
    MarkReplacesTheMark(faults, b, text);
  }

  /** A successful mark takes as few keystrokes as any script with the same effect on the screen. */
  lemma {:induction false} MarkIsMinimal(faults: Faults, b: Board, text: string, script: seq<Stroke>)
    requires Owns(b) && Remarked(faults, b, text).1
    requires Played(b.screen.text, script) == Settled(b) + text
    ensures Remarked(faults, b, text).0.screen.strokes - b.screen.strokes <= |script|
  {
    MarkingTakes(faults, b, text);
    SettledThenMarked(b);
    NoShorterRewrite(b.screen.text, Settled(b), b.marked, text, script);
  }

  // ---- The composer as the object the platform hands out ----

  class Typer {
    const faults: Faults
    var text: string
    var calls: nat
    var strokes: nat

    ghost function Model(): Screen
      reads this
    {
      Screen(text, calls, strokes)
    }

    constructor (faults: Faults, text: string)
      ensures Model() == Screen(text, 0, 0) && this.faults == faults
    {
      this.faults, this.text, calls, strokes := faults, text, 0, 0;
    }

    method TypeText(added: string) returns (ok: bool)
      modifies this
      ensures (Model(), ok) == Typed(faults, old(Model()), added)
    {
      calls := calls + 1;
      if faults(calls - 1) {
        return false;
      }
      text := text + added;
      strokes := strokes + |added|;
      return true;
    }

    method Backspace(count: nat) returns (ok: bool)
      modifies this
      ensures (Model(), ok) == Erased(faults, old(Model()), count)
    {
      calls := calls + 1;
      if faults(calls - 1) {
        return false;
      }
      text := Shortened(text, count);
      strokes := strokes + count;
      return true;
    }
  }

  class KeystrokeComposer {
    const typer: Typer
    var marked: string
    var open: bool

    ghost function Model(): Board
      reads this, typer
    {
      Board(marked, open, typer.Model())
    }

    constructor (typer: Typer)
      ensures this.typer == typer && marked == "" && !open
    {
      this.typer, marked, open := typer, "", false;
    }

    method BeginComposition()
      modifies this
      ensures Model() == Begun(old(Model()))
    {
      open := true;
      marked := "";
    }

    method SetMarkedText(text: string) returns (ok: bool)
      modifies this, typer
      ensures (Model(), ok) == Remarked(typer.faults, old(Model()), text)
    {
      if text == marked {
        return true;
      }
      var shared := CommonPrefix(marked, text);
      var remove := |marked| - |shared|;
      if remove > 0 {
        ok := typer.Backspace(remove);
        if !ok {
          return;
        }
      }
      var addition := text[|shared|..];
      if addition != "" {
        ok := typer.TypeText(addition);
        if !ok {
          marked := shared;
          return;
        }
      }
      marked := text;
      return true;
    }

    method CommitText(text: string) returns (ok: bool)
      modifies this, typer
      ensures (Model(), ok) == Committed(typer.faults, old(Model()), text)
    {
      if text == "" {
        return true;
      }
      if |marked| > 0 {
        ok := typer.Backspace(|marked|);
        if !ok {
          return;
        }
        marked := "";
      }
      ok := typer.TypeText(text);
    }

    method EndComposition()
      modifies this
      ensures Model() == Ended(old(Model()))
    {
      marked := "";
      open := false;
    }

    method CancelComposition() returns (ok: bool)
      modifies this, typer
      ensures (Model(), ok) == Cancelled(typer.faults, old(Model()))
    {
      var count := |marked|;
      marked := "";
      open := false;
      if count == 0 {
        return true;
      }
      ok := typer.Backspace(count);
    }

    method Close()
      modifies this, typer
      ensures Model() == Closed(typer.faults, old(Model()))
    {
      if |marked| > 0 {
        var _ := typer.Backspace(|marked|);
        marked := "";
      }
    }
  }
}
