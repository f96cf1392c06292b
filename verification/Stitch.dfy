/** Joining a fresh decode onto the text committed before it (server/app/streaming/stitch.py). */
module Stitch {
  import opened Text

  const MAX_REPEAT_CHARACTERS: nat := 240
  const MIN_REPEAT_CHARACTERS: nat := 2
  const REPLACEMENT_CHARACTER: char := '\U{FFFD}'

  predicate Skipped(c: char) {
    IsSpace(c) || c == REPLACEMENT_CHARACTER
  }

  /** The characters overlaps are matched on, folded. */
  function Kept(fold: Casefold, text: string): string {
    if text == "" then ""
    else
      var n := |text| - 1;
      Kept(fold, text[..n]) + if Skipped(text[n]) then "" else fold(text[n])
  }

  /** Where each kept character came from. */
  function Positions(text: string): seq<nat> {
    if text == "" then []
    else
      var n := |text| - 1;
      Positions(text[..n]) + if Skipped(text[n]) then [] else [n]
  }

  /** The kept characters themselves. */
  function Compared(text: string): string {
    if text == "" then ""
    else
      var n := |text| - 1;
      Compared(text[..n]) + if Skipped(text[n]) then "" else [text[n]]
  }

  method Comparable(fold: Casefold, text: string) returns (kept: string, positions: seq<nat>)
    ensures kept == Kept(fold, text) && positions == Positions(text)
  {
    kept, positions := "", [];
    for index := 0 to |text|
      invariant kept == Kept(fold, text[..index]) && positions == Positions(text[..index])
    {
      assert text[..index + 1][..index] == text[..index];
      if Skipped(text[index]) {
        continue;
      }
      kept := kept + fold(text[index]);
      positions := positions + [index];
    }
    assert text[..|text|] == text;
  }

  /** What Python does: a count, or an index past the end of the position map. */
  datatype CutResult = Cut(characters: nat) | IndexError

  predicate Overlaps(tail: string, head: string, length: nat) {
    length <= |tail| && length <= |head| && tail[|tail| - length..] == head[..length]
  }

  /** The longest overlap of at least the minimum and at most `limit` characters, or 0. */
  function LongestOverlap(tail: string, head: string, limit: nat): nat {
    if limit < MIN_REPEAT_CHARACTERS then 0
    else if Overlaps(tail, head, limit) then limit
    else LongestOverlap(tail, head, limit - 1)
  }

  function Limit(tail: string, head: string): nat {
    var shorter := if |tail| <= |head| then |tail| else |head|;
    if shorter <= MAX_REPEAT_CHARACTERS then shorter else MAX_REPEAT_CHARACTERS
  }

  /** The overlap of two texts as they are compared. */
  function Overlap(fold: Casefold, previous: string, hypothesis: string): nat {
    var tail, head := Kept(fold, previous), Kept(fold, hypothesis);
    LongestOverlap(tail, head, Limit(tail, head))
  }

  function CutFor(hypothesis: string, length: nat): CutResult {
    var positions := Positions(hypothesis);
    if length == 0 then Cut(0)
    else if length == |positions| then Cut(|hypothesis|)
    else if length < |positions| then Cut(positions[length])
    else IndexError
  }

  function RepeatedPrefixOf(fold: Casefold, previous: string, hypothesis: string): CutResult {
    CutFor(hypothesis, Overlap(fold, previous, hypothesis))
  }

  lemma {:induction false} NothingOverlaps(fold: Casefold, previous: string, hypothesis: string)
    ensures previous == "" || hypothesis == "" ==> RepeatedPrefixOf(fold, previous, hypothesis) == Cut(0)
  {
  }

  method RepeatedPrefix(fold: Casefold, previous: string, hypothesis: string) returns (cut: CutResult)
    ensures cut == RepeatedPrefixOf(fold, previous, hypothesis)
  {
    NothingOverlaps(fold, previous, hypothesis);
    hide Kept, Positions;
    if previous == "" || hypothesis == "" {
      return Cut(0);
    }
    var tail, _ := Comparable(fold, previous);
    var head, positions := Comparable(fold, hypothesis);
    if tail == "" || head == "" {
      return Cut(0);
    }
    var length := Limit(tail, head);
    while length >= MIN_REPEAT_CHARACTERS
      invariant 0 <= length <= Limit(tail, head)
      invariant LongestOverlap(tail, head, length) == Overlap(fold, previous, hypothesis)
    {
      if tail[|tail| - length..] == head[..length] {
        if length == |positions| {
          return Cut(|hypothesis|);
        }
        if length > |positions| {
          return IndexError;
        }
        return Cut(positions[length]);
      }
      length := length - 1;
    }
    return Cut(0);
  }

  // ---- What the cut means ----

  lemma {:induction false} LongestOverlapMeaning(tail: string, head: string, limit: nat)
    ensures var best := LongestOverlap(tail, head, limit);
            && (best != 0 ==> MIN_REPEAT_CHARACTERS <= best <= limit && Overlaps(tail, head, best))
            && (forall length :: MIN_REPEAT_CHARACTERS <= length <= limit && Overlaps(tail, head, length) ==> length <= best)
  {
    if limit >= MIN_REPEAT_CHARACTERS && !Overlaps(tail, head, limit) {
      LongestOverlapMeaning(tail, head, limit - 1);
    }
  }

  /** The position map lists, in order, where the kept characters are. */
  lemma {:induction false} PositionsShape(text: string)
    ensures var ps := Positions(text);
            && |ps| == |Compared(text)| <= |text|
            && (forall k :: 0 <= k < |ps| ==> ps[k] < |text| && !Skipped(text[ps[k]]))
  {
    if text != "" {
      PositionsShape(text[..|text| - 1]);
    }
  }

  /** Up to the place of the `length`-th kept character there are the first `length` kept characters. */
  lemma {:induction false} ComparedUpTo(text: string, length: nat)
    requires length < |Positions(text)|
    ensures Positions(text)[length] < |text|
    ensures |Positions(text)| == |Compared(text)|
    ensures Compared(text[..Positions(text)[length]]) == Compared(text)[..length]
  {
    var n := |text| - 1;
    PositionsShape(text);
    PositionsShape(text[..n]);
    if length < |Positions(text[..n])| {
      ComparedUpTo(text[..n], length);
      var p := Positions(text)[length];
      assert text[..n][..p] == text[..p];
    }
  }

  lemma {:induction false} KeptSplit(fold: Casefold, a: string, b: string)
    ensures Kept(fold, a + b) == Kept(fold, a) + Kept(fold, b)
  {
    if b == "" {
      assert a + b == a;
    } else {
      assert (a + b)[..|a + b| - 1] == a + b[..|b| - 1];
      KeptSplit(fold, a, b[..|b| - 1]);
    }
  }

  /** Whitespace and the decoder's replacement character are not compared, wherever they stand; everything else is, folded. */
  lemma {:induction false} SpacingIsIgnored(fold: Casefold, a: string, c: char, b: string)
    ensures Kept(fold, a + [c] + b) ==
              if IsSpace(c) || c == '\U{FFFD}' then Kept(fold, a + b) else Kept(fold, a) + fold(c) + Kept(fold, b)
  {
    KeptSplit(fold, a + [c], b);
    KeptSplit(fold, a, b);
    assert (a + [c])[..|a|] == a;
    assert Kept(fold, a) + "" == Kept(fold, a);
  }

  /** Every case folding maps a character to at least one. */
  ghost predicate Folds(fold: Casefold) {
    forall c :: fold(c) != ""
  }

  predicate Single(fold: Casefold, s: string) {
    forall i :: 0 <= i < |s| ==> |fold(s[i])| == 1
  }

  /** The first `n` kept characters fold to one character each. */
  predicate FoldsSingly(fold: Casefold, text: string, n: nat) {
    Single(fold, SliceTo(Compared(text), n))
  }

  /** The compared form is never shorter than what it was folded from, and as long only without expansions. */
  lemma {:induction false} KeptLength(fold: Casefold, text: string)
    requires Folds(fold)
    ensures |Kept(fold, text)| >= |Compared(text)|
    ensures |Kept(fold, text)| == |Compared(text)| <==> Single(fold, Compared(text))
  {
    if text != "" {
      var n := |text| - 1;
      KeptLength(fold, text[..n]);
      var c := Compared(text[..n]);
      assert Skipped(text[n]) ==> Compared(text) == c;
      assert !Skipped(text[n]) ==> Single(fold, c + [text[n]]) == (Single(fold, c) && |fold(text[n])| == 1) by {
        SingleSnoc(fold, c, text[n]);
      }
    }
  }

  lemma {:induction false} SingleSnoc(fold: Casefold, s: string, c: char)
    ensures Single(fold, s + [c]) <==> Single(fold, s) && |fold(c)| == 1
  {
    if Single(fold, s + [c]) {
      assert (s + [c])[|s|] == c;
      assert forall i :: 0 <= i < |s| ==> s[i] == (s + [c])[i];
    }
  }

  /**
   * The cut removes exactly the overlap and the noise around it: what is cut off compares equal to the
   * tail of the previous text, and what is left opens with a kept character or is empty.
   */
  predicate CutIsExact(fold: Casefold, previous: string, hypothesis: string) {
    var length := Overlap(fold, previous, hypothesis);
    var tail := Kept(fold, previous);
    match RepeatedPrefixOf(fold, previous, hypothesis)
    case IndexError => false
    case Cut(n) =>
      && n <= |hypothesis|
      && (length == 0 <==> n == 0)
      && (length != 0 ==>
            && length <= |tail|
            && Kept(fold, hypothesis[..n]) == tail[|tail| - length..]
            && (n < |hypothesis| ==> !Skipped(hypothesis[n])))
  }

  lemma {:induction false} SingleFoldsCutExactly(fold: Casefold, previous: string, hypothesis: string)
    requires Folds(fold)
    requires FoldsSingly(fold, hypothesis, MAX_REPEAT_CHARACTERS)
    ensures CutIsExact(fold, previous, hypothesis)
  {
    var length := Overlap(fold, previous, hypothesis);
    var tail, head := Kept(fold, previous), Kept(fold, hypothesis);
    OverlapIsShared(fold, previous, hypothesis);
    if length != 0 {
      FoldsFewer(fold, hypothesis, length, MAX_REPEAT_CHARACTERS);
      CutKeeps(fold, hypothesis, length);
      var n := RepeatedPrefixOf(fold, previous, hypothesis).characters;
      assert head[..length] == Kept(fold, hypothesis[..n]);
    }
  }

  lemma {:induction false} OverlapIsShared(fold: Casefold, previous: string, hypothesis: string)
    ensures var length := Overlap(fold, previous, hypothesis);
            var tail, head := Kept(fold, previous), Kept(fold, hypothesis);
            length != 0 ==>
              && MIN_REPEAT_CHARACTERS <= length <= MAX_REPEAT_CHARACTERS
              && length <= |tail| && length <= |head|
              && tail[|tail| - length..] == head[..length]
  {
    var tail, head := Kept(fold, previous), Kept(fold, hypothesis);
    LongestOverlapMeaning(tail, head, Limit(tail, head));
  }

  /** Where every compared character folds to one, the cut for a length leaves exactly that length behind. */
  lemma {:induction false} CutKeeps(fold: Casefold, hypothesis: string, length: nat)
    requires Folds(fold) && FoldsSingly(fold, hypothesis, length)
    requires 0 < length <= |Kept(fold, hypothesis)| && length <= MAX_REPEAT_CHARACTERS
    ensures CutFor(hypothesis, length).Cut?
    ensures var n := CutFor(hypothesis, length).characters;
            && 0 < n <= |hypothesis|
            && (n < |hypothesis| ==> !Skipped(hypothesis[n]))
            && Kept(fold, hypothesis[..n]) == Kept(fold, hypothesis)[..length]
  {
    CutLength(fold, hypothesis, length);
  }

  lemma {:induction false} FoldsFewer(fold: Casefold, text: string, m: nat, n: nat)
    requires m <= n && FoldsSingly(fold, text, n)
    ensures FoldsSingly(fold, text, m)
  {
    var few, many := SliceTo(Compared(text), m), SliceTo(Compared(text), n);
    assert forall i :: 0 <= i < |few| ==> few[i] == many[i];
  }

  /** How much of the compared form lies before the cut. */
  lemma {:induction false} CutLength(fold: Casefold, hypothesis: string, length: nat)
    requires Folds(fold)
    requires 0 < length <= |Kept(fold, hypothesis)| && length <= MAX_REPEAT_CHARACTERS
    ensures FoldsSingly(fold, hypothesis, length) ==> length <= |Positions(hypothesis)|
    ensures |Positions(hypothesis)| == |Compared(hypothesis)|
    ensures CutFor(hypothesis, length).Cut? ==>
              var n := CutFor(hypothesis, length).characters;
              && 0 < n <= |hypothesis|
              && (n < |hypothesis| ==> !Skipped(hypothesis[n]))
              && Kept(fold, hypothesis[..n]) <= Kept(fold, hypothesis)
              && (|Kept(fold, hypothesis[..n])| == length <==> FoldsSingly(fold, hypothesis, length))
  {
    var chars := Compared(hypothesis);
    PositionsShape(hypothesis);
    KeptLength(fold, hypothesis);
    if length == |chars| {
      assert hypothesis[..|hypothesis|] == hypothesis;
    } else if length < |chars| {
      CutInside(fold, hypothesis, length);
    }
  }

  /** The cut before the compared character numbered `length`. */
  lemma {:induction false} CutInside(fold: Casefold, hypothesis: string, length: nat)
    requires Folds(fold) && 0 < length < |Positions(hypothesis)| == |Compared(hypothesis)|
    ensures var n := Positions(hypothesis)[length];
            && 0 < n < |hypothesis| && !Skipped(hypothesis[n])
            && Kept(fold, hypothesis[..n]) <= Kept(fold, hypothesis)
            && (|Kept(fold, hypothesis[..n])| == length <==> FoldsSingly(fold, hypothesis, length))
  {
    hide Kept, Positions, Compared;
    PositionsShape(hypothesis);
    ComparedUpTo(hypothesis, length);
    var n := Positions(hypothesis)[length];
    assert Compared(hypothesis[..n]) == SliceTo(Compared(hypothesis), length);
    KeptSplit(fold, hypothesis[..n], hypothesis[n..]);
    assert hypothesis[..n] + hypothesis[n..] == hypothesis;
    KeptLength(fold, hypothesis[..n]);
    PositionsShape(hypothesis[..n]);
  }

  /** What a case folding produces is already folded, and survives comparison. */
  ghost predicate Idempotent(fold: Casefold) {
    forall c, i :: !Skipped(c) && 0 <= i < |fold(c)| ==> !Skipped(fold(c)[i]) && fold(fold(c)[i]) == [fold(c)[i]]
  }

  predicate Folded(fold: Casefold, s: string) {
    forall i :: 0 <= i < |s| ==> !Skipped(s[i]) && fold(s[i]) == [s[i]]
  }

  lemma {:induction false} KeptIsFolded(fold: Casefold, text: string)
    requires Idempotent(fold)
    ensures Folded(fold, Kept(fold, text))
  {
    if text != "" {
      var n := |text| - 1;
      KeptIsFolded(fold, text[..n]);
    }
  }

  lemma {:induction false} FoldedIsKept(fold: Casefold, s: string)
    requires Folded(fold, s)
    ensures Kept(fold, s) == s
  {
    if s != "" {
      FoldedIsKept(fold, s[..|s| - 1]);
    }
  }

  /** One expanding character among the first 240 kept, and there is a text the cut goes wrong after. */
  lemma {:induction false} ExpansionBreaksTheCut(fold: Casefold, hypothesis: string) returns (previous: string)
    requires Folds(fold) && Idempotent(fold)
    requires !FoldsSingly(fold, hypothesis, MAX_REPEAT_CHARACTERS)
    ensures !CutIsExact(fold, previous, hypothesis)
  {
    hide Kept, Positions, Compared, CutFor, Idempotent;
    var chars, head := Compared(hypothesis), Kept(fold, hypothesis);
    var j :| 0 <= j < |SliceTo(chars, MAX_REPEAT_CHARACTERS)| && |fold(chars[j])| != 1;
    var length := if j == 0 then MIN_REPEAT_CHARACTERS else j + 1;
    KeptLength(fold, hypothesis);
    assert |head| >= |chars| + 1;
    previous := head[..length];
    KeptIsFolded(fold, hypothesis);
    FoldedIsKept(fold, previous);
    assert Overlaps(previous, head, length);
    assert Overlap(fold, previous, hypothesis) == length;
    CutLength(fold, hypothesis, length);
    assert !FoldsSingly(fold, hypothesis, length) by {
      assert SliceTo(chars, length)[j] == chars[j];
    }
  }

  /**
   * `repeated_prefix` cuts correctly after every possible previous text exactly when each of the first
   * 240 compared characters of the hypothesis folds to one character.
   */
  lemma {:induction false} CutsExactlyIff(fold: Casefold, hypothesis: string)
    requires Folds(fold) && Idempotent(fold)
    ensures (forall previous :: CutIsExact(fold, previous, hypothesis)) <==>
            FoldsSingly(fold, hypothesis, MAX_REPEAT_CHARACTERS)
  {
    if FoldsSingly(fold, hypothesis, MAX_REPEAT_CHARACTERS) {
      forall previous
        ensures CutIsExact(fold, previous, hypothesis)
      {
        SingleFoldsCutExactly(fold, previous, hypothesis);
      }
    } else {
      var previous := ExpansionBreaksTheCut(fold, hypothesis);
    }
  }

  /** The sharp s folds to two letters, and then a hypothesis of that one letter is an index error. */
  lemma {:induction false} SharpSIsAnIndexError(fold: Casefold)
    requires fold('\U{DF}') == "ss" && fold('s') == "s"
    ensures RepeatedPrefixOf(fold, "ss", "\U{DF}") == IndexError
  {
    KeptOne(fold, 's');
    KeptOne(fold, '\U{DF}');
    KeptSplit(fold, "s", "s");
    assert "s" + "s" == "ss";
    assert Overlaps("ss", "ss", 2);
    assert LongestOverlap("ss", "ss", 2) == 2;
  }

  lemma {:induction false} KeptOne(fold: Casefold, c: char)
    requires !Skipped(c)
    ensures Kept(fold, [c]) == fold(c) && Positions([c]) == [0]
  {
    assert [c][..0] == "";
  }
}
