/** What a rotation delivers, and what audio goes with it (server/app/streaming/session.py, `_decode_incremental`). */
module Rotation {
  import opened Audio
  import opened Basics
  import opened ConflictDelivery
  import opened LocalAgreementPolicy
  import opened SessionModel
  import opened SessionSafety
  import opened Text
  import opened Tokens
  import opened Trimming

  /** There are timings to cut on. */
  predicate Cuts(cut: Option<int>) {
    cut.Some? && cut.value > MIN_CUT
  }

  /** What a contradicting pass emits: the final at what the user has and, without a cut, the rest of the reading. */
  function RotationEvents(p: Page, rotated: Page, rest: string, cut: Option<int>): seq<Event> {
    OneOrTwo(FinalAt(p, p.agreement.Committed()),
             Transcript(rotated.utterance, p.revision + 2, "", rest, false),
             !Cuts(cut))
  }

  /**
   * A whole contradicting pass. With timings to cut on, only the final is emitted and the audio before the cut goes,
   * so that the next pass can read the rest; without, the audio stays and the rest is shown, token for token.
   */
  lemma {:induction false} ContradictionIsDelivered(cfg: Settings, fold: Casefold, s: Session, reading: string, words: seq<Word>)
    requires PageInv(false, fold, s.page) && Conflicts(fold, s.page, reading)
    ensures var typed := s.page.agreement.Committed();
            var rest := RemainderAfter(typed, reading);
            var cut := WordBoundary(words, typed);
            var rotated := Rotated(fold, s.page, reading);
            var s' := Digested(cfg, fold, s, reading, words);
            && s'.page.events == s.page.events + RotationEvents(s.page, rotated, rest, cut)
            && s'.buffer == (if Cuts(cut) then AfterTrimBefore(s.buffer, cut.value) else s.buffer)
            && s.page.utterance < rotated.utterance
            && Tokenize(rest) == SliceFrom(Tokenize(reading), |Tokenize(typed)|)
  {
    RotationIsDelivered(fold, s.page, reading);
    RotationSeals(fold, s.page, reading);
  }

  // ---- How much audio goes ----

  function BytesDropped(s: Session, s': Session): int {
    |s.buffer.data| - |s'.buffer.data|
  }

  /** The words end one after the other, inside the window. */
  predicate Apart(words: seq<Word>, window: nat) {
    && (forall i :: 0 <= i < |words| ==> 0 < words[i].end <= window)
    && forall i, j :: 0 <= i < j < |words| ==> words[i].end < words[j].end
  }

  lemma {:induction false} WhatGoes(cfg: Settings, fold: Casefold, s: Session, reading: string, words: seq<Word>)
    requires Conflicts(fold, s.page, reading) && Apart(words, s.buffer.Samples())
    ensures var cut := WordBoundary(words, s.page.agreement.Committed());
            BytesDropped(s, Digested(cfg, fold, s, reading, words))
            == if Cuts(cut) then BYTES_PER_SAMPLE * cut.value else 0
  {
    var typed := s.page.agreement.Committed();
    if WordBoundary(words, typed).Some? {
      var j := BoundaryIsSomeWord(words, 0, "", |Strip(typed)|);
    }
  }

  /** The boundary is the end of a word if and only if what is typed is spelled by its end and not before it. */
  lemma {:induction false} CutAtIff(words: seq<Word>, window: nat, typed: string, k: nat)
    requires Apart(words, window) && Strip(typed) != "" && k < |words|
    ensures WordBoundary(words, typed) == Some(words[k].end) <==>
              |Strip(Spoken(words[..k]))| < |Strip(typed)| <= |Strip(Spoken(words[..k + 1]))|
  {
    CutWithinIff(words, typed, k);
    if k > 0 {
      CutWithinIff(words, typed, k - 1);
      NoneBetween(words, window, typed, k);
    } else {
      StripBlank("");
      assert words[..0] == [];
      NoneBetween(words, window, typed, k);
    }
  }

  /** A boundary within a word is within the one before, or at its end. */
  lemma {:induction false} NoneBetween(words: seq<Word>, window: nat, typed: string, k: nat)
    requires Apart(words, window) && k < |words| && Strip(typed) != ""
    ensures var cut := WordBoundary(words, typed);
            cut.Some? && cut.value <= words[k].end ==>
              cut.value == words[k].end || (k > 0 && cut.value <= words[k - 1].end)
  {
    if WordBoundary(words, typed).Some? {
      var j := BoundaryIsSomeWord(words, 0, "", |Strip(typed)|);
    }
  }

  /**
   * For each word: the audio up to its end is what goes if and only if what the user has is as long as what the
   * words up to it spell, and longer than what those before it do; and more goes if and only if there is a cut
   * and they spell less. The cut goes by length, so it is right only for a reading of the same length.
   */
  lemma {:induction false} RotationDropsIff(cfg: Settings, fold: Casefold, s: Session, reading: string, words: seq<Word>, k: nat)
    requires PageInv(false, fold, s.page) && Conflicts(fold, s.page, reading)
    requires Apart(words, s.buffer.Samples()) && k < |words|
    ensures var typed := s.page.agreement.Committed();
            var gone := BytesDropped(s, Digested(cfg, fold, s, reading, words));
            && (gone == BYTES_PER_SAMPLE * words[k].end <==>
                  && words[k].end > MIN_CUT
                  && |Strip(Spoken(words[..k]))| < |Strip(typed)| <= |Strip(Spoken(words[..k + 1]))|)
            && (gone > BYTES_PER_SAMPLE * words[k].end <==>
                  Cuts(WordBoundary(words, typed)) && |Strip(Spoken(words[..k + 1]))| < |Strip(typed)|)
  {
    var typed := s.page.agreement.Committed();
    TypedIsNotBlank(fold, s.page, reading);
    WhatGoes(cfg, fold, s, reading, words);
    CutAtIff(words, s.buffer.Samples(), typed, k);
    CutWithinIff(words, typed, k);
    GoneIff(WordBoundary(words, typed), BytesDropped(s, Digested(cfg, fold, s, reading, words)), words[k].end);
  }

  lemma {:induction false} GoneIff(cut: Option<int>, gone: int, end: int)
    requires gone == (if Cuts(cut) then BYTES_PER_SAMPLE * cut.value else 0) && end > 0
    ensures gone == BYTES_PER_SAMPLE * end <==> end > MIN_CUT && cut == Some(end)
    ensures gone > BYTES_PER_SAMPLE * end <==> Cuts(cut) && !(cut.Some? && cut.value <= end)
  {
  }

  lemma {:induction false} EmptyNeverConflicts(fold: Casefold, p: Page, reading: string)
    ensures p.agreement.committed == [] ==> !Conflicts(fold, p, reading)
  {
    assert Words([]) == [];
    assert SliceTo(Tokenize(reading), 0) == [];
  }

  lemma {:induction false} TypedIsNotBlank(fold: Casefold, p: Page, reading: string)
    requires PageInv(false, fold, p) && Conflicts(fold, p, reading)
    ensures OpensWithWord(p.agreement.Committed()) && Strip(p.agreement.Committed()) != ""
  {
    EmptyNeverConflicts(fold, p, reading);
    PlainOpens(p.agreement.committed);
    WordIsNotBlank("", p.agreement.Committed());
    assert "" + p.agreement.Committed() == p.agreement.Committed();
  }

  /**
   * When the words spell the reading: the audio dropped stays within the tokens the user has been given, that is,
   * within the word holding the last of them, if and only if there is no cut or the words up to that one spell as
   * much as the user has.
   */
  lemma {:induction false} RotationStaysWithinTypedIff(cfg: Settings, fold: Casefold, s: Session, reading: string, words: seq<Word>)
    returns (k: nat)
    requires PageInv(false, fold, s.page) && Conflicts(fold, s.page, reading)
    requires Apart(words, s.buffer.Samples()) && reading == Strip(Spoken(words)) && reading != ""
    ensures var typed := s.page.agreement.Committed();
            && Holds(words, k, LastCommittedAt(words, Spelling(reading, |Tokenize(typed)|)))
            && (BytesDropped(s, Digested(cfg, fold, s, reading, words)) <= BYTES_PER_SAMPLE * words[k].end <==>
                  !Cuts(WordBoundary(words, typed)) || |Strip(Spoken(words[..k + 1]))| >= |Strip(typed)|)
  {
    var typed := s.page.agreement.Committed();
    TypedIsNotBlank(fold, s.page, reading);
    StripEnds(Spoken(words));
    TokenizeRoundTrip(typed);
    SpellingIsThere(reading, |Tokenize(typed)|);
    SpellingIsPrefix(reading, |Tokenize(typed)|);
    StrippedAt(Spoken(words), |Strip(Spelling(reading, |Tokenize(typed)|))|);
    k := SomeWordHolds(words, LastCommittedAt(words, Spelling(reading, |Tokenize(typed)|)));
    RotationDropsIff(cfg, fold, s, reading, words, k);
  }

  /** A reading spells something for any number of tokens. */
  lemma {:induction false} SpellingIsThere(reading: string, n: nat)
    requires OpensWithWord(reading) && n > 0
    ensures Strip(Spelling(reading, n)) != ""
  {
    var tokens := Tokenize(reading);
    TokenizeRoundTrip(reading);
    if n <= |tokens| {
      ConcatSplit(tokens, n);
      assert tokens[..n][0] == tokens[0];
    }
    TokenizeStripped(reading);
    assert Spelling(reading, n)[0] == reading[0];
    WordIsNotBlank("", Spelling(reading, n));
    assert "" + Spelling(reading, n) == Spelling(reading, n);
  }

  // ---- A rotation that drops a word nobody has ----

  /** Two readings that agree on their first word. */
  function AgreedPage(fold: Casefold): Page {
    ReadingShown(fold, ReadingShown(fold, NewPage(2), "ab cd"), "ab ce")
  }

  lemma {:induction false} AgreedPageIs(fold: Casefold)
    ensures PageInv(false, fold, AgreedPage(fold))
    ensures AgreedPage(fold).agreement == Agreement(2, [["ab ", "ce"]], ["ab "])
  {
    AgreedTokens();
    SampleRun(fold);
    FreshPage(false, fold, 2);
    FirstWordsShown(fold, NewPage(2), "ab cd");
    FirstWordsShown(fold, ReadingShown(fold, NewPage(2), "ab cd"), "ab ce");
  }

  lemma {:induction false} AgreedTokens()
    ensures Tokenize("ab cd") == ["ab ", "cd"] && Tokenize("ab ce") == ["ab ", "ce"]
    ensures OpensWithWord("ab cd") && OpensWithWord("ab ce")
  {
    assert "ab" + " " + "cd" == "ab cd" && "ab" + " " + "ce" == "ab ce" && "ab" + " " == "ab ";
    TwoWords("ab", " ", "cd");
    TwoWords("ab", " ", "ce");
  }

  lemma {:induction false} FirstWordsShown(fold: Casefold, p: Page, reading: string)
    requires PageInv(false, fold, p) && p.agreement.committed == [] && OpensWithWord(reading)
    ensures PageInv(false, fold, ReadingShown(fold, p, reading))
    ensures ReadingShown(fold, p, reading).agreement == FoldIn(fold, p.agreement, Tokenize(reading))
  {
    EmptyNeverConflicts(fold, p, reading);
    ShowingAReading(fold, p, reading);
  }

  /**
   * The user has "ab ", the next reading is "x y": the cut is at the end of "y", whose token is past those the
   * user has. Its audio goes, and nothing is emitted but the final.
   */
  lemma {:induction false} RotationCanDropAWord(cfg: Settings, fold: Casefold, s: Session)
    requires fold('x') == "x" && fold('a') == "a"
    requires s.page == AgreedPage(fold) && s.buffer.Samples() >= 4000
    ensures var words := [Word("x", 0, 2000), Word(" y", 2000, 4000)];
            var s' := Digested(cfg, fold, s, "x y", words);
            && Strip(Spoken(words)) == "x y" && Conflicts(fold, s.page, "x y")
            && s'.page.events == s.page.events + [FinalAt(s.page, "ab ")]
            && s'.buffer.data == s.buffer.data[BYTES_PER_SAMPLE * 4000..]
            && RemainderAfter("ab ", "x y") == "y"
  {
    AgreedPageIs(fold);
    ConcatOne("ab ");
    SampleWords();
    SampleConflict(fold);
    SampleCut();
    ContradictionIsDelivered(cfg, fold, s, "x y", [Word("x", 0, 2000), Word(" y", 2000, 4000)]);
  }

  lemma {:induction false} SampleWords()
    ensures Spoken([Word("x", 0, 2000), Word(" y", 2000, 4000)]) == "x y" && Strip("x y") == "x y"
    ensures Tokenize("x y") == ["x ", "y"] && Tokenize("ab ") == ["ab "] && RemainderAfter("ab ", "x y") == "y"
  {
    SpokenByTwo(Word("x", 0, 2000), Word(" y", 2000, 4000));
    assert "x" + " y" == "x y" && "x" + " " + "y" == "x y" && "x" + " " == "x " && "ab" + " " == "ab ";
    AlreadyStripped("x y");
    TwoWords("x", " ", "y");
    SampleToken("ab", " ");
    RetokenizeWellFormed(["ab "]);
    ConcatOne("ab ");
    ConcatOne("y");
    assert SliceFrom(["x ", "y"], 1) == ["y"];
  }

  lemma {:induction false} SampleConflict(fold: Casefold)
    requires fold('x') == "x" && fold('a') == "a"
    ensures StandingOf(fold, ["ab "], ["x ", "y"]) == Contradicts
  {
    RStripUnique("ab", " ");
    RStripUnique("x", " ");
    assert "ab" + " " == "ab " && "x" + " " == "x ";
    assert SliceTo(["x ", "y"], 1) == ["x "];
    assert Words(["x "]) == ["x"] && Words(["ab "]) == ["ab"];
    assert Fold(fold, "x")[0] == 'x' && Fold(fold, "ab")[0] == 'a';
    assert FoldAll(fold, ["x"])[0] == Fold(fold, "x") && FoldAll(fold, ["ab"])[0] == Fold(fold, "ab");
  }

  lemma {:induction false} SampleCut()
    ensures WordBoundary([Word("x", 0, 2000), Word(" y", 2000, 4000)], "ab ") == Some(4000)
  {
    assert Strip("ab ") == "ab" by {
      StripUnique("", "ab", " ");
      assert "" + "ab" + " " == "ab ";
    }
    AlreadyStripped("x");
    AlreadyStripped("x y");
    assert "" + "x" == "x" && "x" + " y" == "x y";
    SecondOfTwo([Word("x", 0, 2000), Word(" y", 2000, 4000)], 2);
  }

  lemma {:induction false} SecondOfTwo(words: seq<Word>, target: nat)
    requires |words| == 2 && |Strip("" + words[0].text)| < target <= |Strip("" + words[0].text + words[1].text)|
    ensures BoundaryFrom(words, 0, "", target) == Some(words[1].end)
  {
    assert BoundaryFrom(words, 1, "" + words[0].text, target) == Some(words[1].end);
  }
}
