/** Trimming never runs ahead of the text (server/app/streaming/session.py). */
module Trimming {
  import opened Basics
  import opened Audio
  import opened LocalAgreementPolicy
  import opened SessionModel
  import Stitch
  import opened Text
  import opened Tokens

  // ---- The word that holds a character ----

  lemma {:induction false} SpokenSnoc(words: seq<Word>, k: nat)
    requires k < |words|
    ensures Spoken(words[..k + 1]) == Spoken(words[..k]) + words[k].text
  {
    if k == 0 {
      assert words[..1][1..] == [];
    } else {
      SpokenSnoc(words[1..], k - 1);
      assert words[..k + 1][1..] == words[1..][..k];
      assert words[..k][1..] == words[1..][..k - 1];
    }
  }

  lemma {:induction false} SpokenSplit(words: seq<Word>, k: nat)
    requires k <= |words|
    ensures Spoken(words) == Spoken(words[..k]) + Spoken(words[k..])
  {
    if k > 0 {
      SpokenSplit(words[1..], k - 1);
      assert words[..k][1..] == words[1..][..k - 1];
      assert words[1..][k - 1..] == words[k..];
    } else {
      assert words[0..] == words;
    }
  }

  /** Word `k` holds character `at` of what the words spell. */
  predicate Holds(words: seq<Word>, k: nat, at: int) {
    k < |words| && |Spoken(words[..k])| <= at < |Spoken(words[..k + 1])|
  }

  lemma {:induction false} SomeWordHolds(words: seq<Word>, at: nat) returns (k: nat)
    requires at < |Spoken(words)|
    ensures Holds(words, k, at)
  {
    k := |words|;
    assert words[..k] == words;
    while k > 0 && |Spoken(words[..k])| > at
      invariant 0 <= k <= |words|
      invariant k < |words| ==> |Spoken(words[..k + 1])| > at
      invariant k == |words| ==> |Spoken(words[..k])| > at
    {
      k := k - 1;
    }
  }

  predicate InOrder(words: seq<Word>) {
    forall i, j :: 0 <= i <= j < |words| ==> words[i].end <= words[j].end
  }

  // ---- Stripping and lengths ----

  lemma {:induction false} RStripKeeps(s: string, v: nat)
    requires v < |s| && !IsSpace(s[v])
    ensures |RStrip(s)| > v
  {
    if EndsInSpace(s) {
      RStripKeeps(s[..|s| - 1], v);
    }
  }

  /** Stripping keeps everything between two characters that are not whitespace. */
  lemma {:induction false} StripSpans(x: string, u: nat, v: nat)
    requires u <= v < |x| && !IsSpace(x[u]) && !IsSpace(x[v])
    ensures |Strip(x)| >= v - u + 1
  {
    var n := Spaces(x);
    SkipSpacesStops(x, 0);
    RStripKeeps(LStrip(x), v - n);
  }

  /** A prefix of a text strips to less than `p` characters as long as it stops short of the `p`-th. */
  lemma {:induction false} StripStopsShort(s: string, m: nat, p: nat)
    requires m <= |s| && m < Spaces(s) + p && p > 0
    ensures |Strip(s[..m])| < p
  {
    var x := s[..m];
    SkipSpacesStops(s, 0);
    SkipSpacesStops(x, 0);
    RStripShape(LStrip(x));
    if m <= Spaces(s) {
      assert forall i :: 0 <= i < m ==> x[i] == s[i];
      assert Spaces(x) == m;
    } else {
      assert forall i :: 0 <= i < m ==> x[i] == s[i];
      assert Spaces(x) == Spaces(s);
    }
  }

  // ---- The cut of a single-model pass ----

  /** By the end of word `j`, at least `target` characters have been said. */
  predicate Enough(words: seq<Word>, j: nat, target: nat) {
    j < |words| && |Strip(Spoken(words[..j + 1]))| >= target
  }

  lemma {:induction false} BoundaryStep(words: seq<Word>, i: nat, target: nat)
    requires i < |words|
    ensures BoundaryFrom(words, i, Spoken(words[..i]), target) ==
              if Enough(words, i, target) then Some(words[i].end)
              else BoundaryFrom(words, i + 1, Spoken(words[..i + 1]), target)
  {
    SpokenSnoc(words, i);
  }

  /** The boundary is the first word by whose end enough has been said. */
  lemma {:induction false} BoundaryIsFirst(words: seq<Word>, i: nat, target: nat, k: nat) returns (j: nat)
    requires i <= k && Enough(words, k, target)
    ensures i <= j <= k && Enough(words, j, target)
    ensures BoundaryFrom(words, i, Spoken(words[..i]), target) == Some(words[j].end)
    decreases k - i
  {
    BoundaryStep(words, i, target);
    if Enough(words, i, target) {
      j := i;
    } else {
      j := BoundaryIsFirst(words, i + 1, target, k);
    }
  }

  /** Where the last character of `committed` is, in what the words of its hypothesis spell. */
  function LastCommittedAt(words: seq<Word>, committed: string): int {
    Spaces(Spoken(words)) + |Strip(committed)| - 1
  }

  lemma {:induction false} StrippedAt(s: string, p: nat)
    requires 0 < p <= |Strip(s)|
    ensures Spaces(s) + p - 1 < |s| && s[Spaces(s) + p - 1] == Strip(s)[p - 1]
    ensures Spaces(s) < |s| && s[Spaces(s)] == Strip(s)[0]
  {
    RStripShape(LStrip(s));
    assert Strip(s)[p - 1] == LStrip(s)[p - 1];
    assert Strip(s)[0] == LStrip(s)[0];
  }

  /**
   * Words that spell the hypothesis up to outer whitespace: the cut falls at the end of exactly the word
   * that holds the last committed character.
   */
  lemma {:induction false} CutEndsTheLastCommittedWord(words: seq<Word>, committed: string, k: nat)
    requires Strip(committed) != "" && Strip(committed) <= Strip(Spoken(words))
    requires Holds(words, k, LastCommittedAt(words, committed))
    ensures WordBoundary(words, committed) == Some(words[k].end)
  {
    var p := |Strip(committed)|;
    StripEnds(committed);
    StrippedAt(Spoken(words), p);
    EnoughIffReached(words, k, p);
    var j := BoundaryIsFirst(words, 0, p, k);
    assert words[..0] == [];
    if j < k {
      PrefixIsShort(words, j + 1, k);
      EnoughIffReached(words, j, p);
    }
  }

  /** Enough has been said by the end of a word exactly when the text up to there reaches the character. */
  lemma {:induction false} EnoughIffReached(words: seq<Word>, j: nat, p: nat)
    requires j < |words| && 0 < p <= |Strip(Spoken(words))| && !IsSpace(Strip(Spoken(words))[p - 1])
    ensures Enough(words, j, p) <==> |Spoken(words[..j + 1])| >= Spaces(Spoken(words)) + p
  {
    var s := Spoken(words);
    var m := |Spoken(words[..j + 1])|;
    var at := Spaces(s) + p - 1;
    SpokenSplit(words, j + 1);
    assert Spoken(words[..j + 1]) == s[..m];
    StrippedAt(s, p);
    StripEnds(s);
    if m > at {
      assert s[..m][at] == s[at] && s[..m][Spaces(s)] == s[Spaces(s)];
      StripSpans(s[..m], Spaces(s), at);
    } else {
      StripStopsShort(s, m, p);
    }
  }

  lemma {:induction false} PrefixIsShort(words: seq<Word>, j: nat, k: nat)
    requires j <= k <= |words|
    ensures |Spoken(words[..j])| <= |Spoken(words[..k])|
  {
    SpokenSplit(words[..k], j);
    assert words[..k][..j] == words[..j];
  }

  // ---- The same after a repeated prompt was removed ----

  lemma {:induction false} WordsAfterIsSuffix(words: seq<Word>, n: nat) returns (j: nat)
    ensures j <= |words| && WordsAfter(words, n) == words[j..]
    ensures |Spoken(words[..j])| <= n
  {
    if words == [] || |words[0].text| > n {
      j := 0;
      assert words[..0] == [] && words[0..] == words;
    } else {
      var i := WordsAfterIsSuffix(words[1..], n - |words[0].text|);
      j := i + 1;
      assert words[1..][i..] == words[j..];
      assert words[..j][1..] == words[1..][..i];
    }
  }

  lemma {:induction false} SpokenBetween(words: seq<Word>, j: nat, m: nat)
    requires j <= m <= |words|
    ensures |Spoken(words[..j])| <= |Spoken(words[..m])| <= |Spoken(words)|
    ensures Spoken(words[j..][..m - j]) == Spoken(words)[|Spoken(words[..j])|..|Spoken(words[..m])|]
  {
    SpokenSplit(words, m);
    SpokenSplit(words[..m], j);
    assert words[..m][..j] == words[..j] && words[..m][j..] == words[j..][..m - j];
  }

  /**
   * With the first `n` characters of the text and the words inside them gone, the words can cover more
   * than the text does: the cut falls at or before the end of the word holding the last committed character.
   */
  lemma {:induction false} CutIsNeverPast(words: seq<Word>, n: nat, u: nat, at: nat, committed: string, k: nat)
    requires InOrder(words) && Holds(words, k, at)
    requires n <= u <= at < |Spoken(words)|
    requires !IsSpace(Spoken(words)[u]) && !IsSpace(Spoken(words)[at])
    requires |Strip(committed)| == at - u + 1
    ensures var cut := WordBoundary(WordsAfter(words, n), committed);
            cut.Some? && cut.value <= words[k].end
  {
    var j := WordsAfterIsSuffix(words, n);
    HolderIsLeft(words, j, k, at);
    EnoughFromHere(words, j, u, at, k);
    BoundaryByThen(words, j, k, at - u + 1);
    assert Strip(committed) != "";
  }

  /** A word that reaches past a position is not among the words that end before it. */
  lemma {:induction false} HolderIsLeft(words: seq<Word>, j: nat, k: nat, at: nat)
    requires Holds(words, k, at) && j <= |words| && |Spoken(words[..j])| <= at
    ensures j <= k
  {
    if j > k {
      PrefixIsShort(words, k + 1, j);
      assert false;
    }
  }

  lemma {:induction false} BoundaryByThen(words: seq<Word>, j: nat, k: nat, target: nat)
    requires InOrder(words) && j <= k < |words| && Enough(words[j..], k - j, target)
    ensures var cut := BoundaryFrom(words[j..], 0, "", target);
            cut.Some? && cut.value <= words[k].end
  {
    var left := words[j..];
    var i := BoundaryIsFirst(left, 0, target, k - j);
    assert left[..0] == [];
    assert left[i] == words[j + i];
  }

  lemma {:induction false} EnoughFromHere(words: seq<Word>, j: nat, u: nat, at: nat, k: nat)
    requires j <= k && Holds(words, k, at)
    requires |Spoken(words[..j])| <= u <= at < |Spoken(words)|
    requires !IsSpace(Spoken(words)[u]) && !IsSpace(Spoken(words)[at])
    ensures Enough(words[j..], k - j, at - u + 1)
  {
    SpokenBetween(words, j, k + 1);
    StripOfMiddle(Spoken(words), |Spoken(words[..j])|, |Spoken(words[..k + 1])|, u, at);
    assert words[j..][..k - j + 1] == words[j..][..k + 1 - j];
  }

  lemma {:induction false} StripOfMiddle(s: string, from: nat, to: nat, u: nat, v: nat)
    requires from <= u <= v < to <= |s| && !IsSpace(s[u]) && !IsSpace(s[v])
    ensures |Strip(s[from..to])| >= v - u + 1
  {
    StripSpans(s[from..to], u - from, v - from);
  }

  /** Where the last character of `committed` is, when `said` is the end of what the words spell, stripped. */
  function CommittedAt(words: seq<Word>, said: string, committed: string): int {
    Spaces(Spoken(words)) + (|Strip(Spoken(words))| - |said|) + |Strip(committed)| - 1
  }

  /** What is left of a stripped text after a cut is its end. */
  lemma {:induction false} LeftAfterCut(text: string, n: nat)
    requires text == "" || !IsSpace(text[|text| - 1])
    requires n <= |text|
    ensures var left := LStrip(text[n..]);
            && n + |left| <= |text| && left == text[|text| - |left|..]
            && (left != "" ==> !IsSpace(left[0]) && !IsSpace(left[|left| - 1]))
  {
    var rest := text[n..];
    var m := Spaces(rest);
    SkipSpacesStops(rest, 0);
    assert rest[m..] == text[n + m..];
    assert m < |rest| ==> rest[m..][0] == rest[m] && text[n + m..][|rest| - m - 1] == text[|text| - 1];
  }

  lemma {:induction false} AlreadyStripped(s: string)
    requires s != "" ==> !IsSpace(s[0]) && !IsSpace(s[|s| - 1])
    ensures Strip(s) == s
  {
    if s == "" {
      StripBlank("");
    } else {
      StripUnique("", s, "");
      assert "" + s + "" == s;
    }
  }

  /** `left` is the end of `text`, with at least its first `n` characters gone. */
  predicate Remains(text: string, left: string, n: nat) {
    n + |left| <= |text| && IsSuffix(left, text)
  }

  /** What `_without_repeat_of` leaves of a stripped text and its words. */
  lemma {:induction false} WhatRemains(fold: Casefold, stitch: Stitcher, prompt: string, text: string, words: seq<Word>, reply: Reply)
    returns (n: nat)
    requires text != "" ==> !IsSpace(text[0]) && !IsSpace(text[|text| - 1])
    requires stitch(prompt, text) == Stitch.RepeatedPrefixOf(fold, prompt, text)
    requires reply == WithoutRepeatOf(stitch, prompt, text, words) && reply.Result?
    ensures Remains(text, reply.text, n) && Strip(reply.text) == reply.text
    ensures reply == Result(text, words) || reply.words == WordsAfter(words, n)
  {
    n := 0;
    AlreadyStripped(text);
    if reply != Result(text, words) {
      n := Stitch.RepeatedPrefixOf(fold, prompt, text).characters;
      Stitch.PositionsShape(text);
      assert reply == Result(LStrip(text[n..]), WordsAfter(words, n));
      CutLeaves(text, n, reply.text);
    } else {
      assert text[0..] == text;
    }
  }

  lemma {:induction false} CutLeaves(text: string, n: nat, left: string)
    requires text == "" || !IsSpace(text[|text| - 1])
    requires n <= |text| && left == LStrip(text[n..])
    ensures Remains(text, left, n) && Strip(left) == left
  {
    LeftAfterCut(text, n);
    AlreadyStripped(left);
  }

  /** How a reading spells the first `n` tokens. */
  function Spelling(said: string, n: nat): string {
    Concat(SliceTo(Tokenize(said), n))
  }

  lemma {:induction false} SpellingIsPrefix(said: string, n: nat)
    requires said != "" ==> !IsSpace(said[0])
    ensures Strip(Spelling(said, n)) <= said
  {
    var tokens := Tokenize(said);
    TokenizeRoundTrip(said);
    if n <= |tokens| {
      ConcatSplit(tokens, n);
    }
    StripOfPrefix(Spelling(said, n), said);
  }

  /** A reading that repeats what is committed spells the new commitment just as it is. */
  lemma {:induction false} RepeatingSpellsAlike(fold: Casefold, a: Agreement, said: string)
    requires StandingOf(fold, a.committed, Tokenize(said)) == Repeats
    ensures var a' := AfterUpdate(fold, a, said).0; Spelling(said, |a'.committed|) == a'.Committed()
  {
    WordsExtend(fold, a, Tokenize(said));
  }

  lemma {:induction false} StripOfPrefix(c: string, said: string)
    requires c <= said && (said != "" ==> !IsSpace(said[0]))
    ensures Strip(c) <= said
  {
    RStripShape(c);
    assert c != "" ==> c[0] == said[0];
    assert LStrip(c) == c;
  }

  lemma {:induction false} BoundaryAfterCut(words: seq<Word>, n: nat, left: string, c: string, k: nat)
    requires InOrder(words) && Remains(Strip(Spoken(words)), left, n)
    requires Strip(c) != "" && Strip(c) <= left
    requires Holds(words, k, CommittedAt(words, left, c))
    ensures var cut := WordBoundary(WordsAfter(words, n), c);
            cut.Some? && cut.value <= words[k].end
  {
    var s := Spoken(words);
    var u := CommittedAt(words, left, c) - |Strip(c)| + 1;
    CommittedEnds(s, Strip(s), left, c);
    CutIsNeverPast(words, n, u, CommittedAt(words, left, c), c, k);
  }

  /** Both ends of the committed text, found again in what the words spell. */
  lemma {:induction false} CommittedEnds(s: string, text: string, left: string, c: string)
    requires text == Strip(s) && IsSuffix(left, text)
    requires Strip(c) != "" && Strip(c) <= left
    ensures var u := Spaces(s) + (|text| - |left|);
            var at := u + |Strip(c)| - 1;
            at < |s| && !IsSpace(s[u]) && !IsSpace(s[at])
  {
    var first := |text| - |left|;
    StripEnds(c);
    StrippedAt(s, first + 1);
    StrippedAt(s, first + |Strip(c)|);
    assert text[first] == left[0];
    assert text[first + |Strip(c)| - 1] == left[|Strip(c)| - 1];
  }

  /** Whether or not a repeated prompt was removed: the boundary is never past the last committed word. */
  lemma {:induction false} BoundaryStaysBehindText(fold: Casefold, stitch: Stitcher, prompt: string,
                                                   words: seq<Word>, reply: Reply,
                                                   c: string, k: nat)
    requires InOrder(words)
    requires reply.Result?
    requires stitch(prompt, Strip(Spoken(words))) == Stitch.RepeatedPrefixOf(fold, prompt, Strip(Spoken(words)))
    requires reply == WithoutRepeatOf(stitch, prompt, Strip(Spoken(words)), words)
    requires Strip(c) != "" && Strip(c) <= Said(reply)
    requires Holds(words, k, CommittedAt(words, Said(reply), c))
    ensures var cut := WordBoundary(reply.words, c);
            cut.Some? && cut.value <= words[k].end
  {
    StripEnds(Spoken(words));
    var n := WhatRemains(fold, stitch, prompt, Strip(Spoken(words)), words, reply);
    if reply == Result(Strip(Spoken(words)), words) {
      CutEndsTheLastCommittedWord(words, c, k);
    } else {
      BoundaryAfterCut(words, n, reply.text, c, k);
    }
  }

  /** The less there is to cover, the earlier the boundary. */
  lemma {:induction false} BoundaryIsMonotone(words: seq<Word>, i: nat, consumed: string, near: nat, far: nat)
    requires InOrder(words) && i <= |words| && near <= far
    requires BoundaryFrom(words, i, consumed, far).Some?
    ensures var cut := BoundaryFrom(words, i, consumed, near);
            cut.Some? && cut.value <= BoundaryFrom(words, i, consumed, far).value
    decreases |words| - i
  {
    var now := consumed + words[i].text;
    if |Strip(now)| >= near {
      var j := BoundaryIsSomeWord(words, i, consumed, far);
    } else {
      BoundaryIsMonotone(words, i + 1, now, near, far);
    }
  }

  lemma {:induction false} BoundaryIsSomeWord(words: seq<Word>, i: nat, consumed: string, target: nat) returns (j: nat)
    requires i <= |words| && BoundaryFrom(words, i, consumed, target).Some?
    ensures i <= j < |words| && BoundaryFrom(words, i, consumed, target) == Some(words[j].end)
    decreases |words| - i
  {
    var now := consumed + words[i].text;
    if |Strip(now)| >= target {
      j := i;
    } else {
      j := BoundaryIsSomeWord(words, i + 1, now, target);
    }
  }

  lemma {:induction false} WordsAfterInOrder(words: seq<Word>, n: nat)
    requires InOrder(words)
    ensures InOrder(WordsAfter(words, n))
  {
    var j := WordsAfterIsSuffix(words, n);
  }

  lemma {:induction false} ReplyInOrder(stitch: Stitcher, prompt: string, text: string, words: seq<Word>)
    requires InOrder(words)
    ensures var reply := WithoutRepeatOf(stitch, prompt, text, words); reply.Result? ==> InOrder(reply.words)
  {
    if prompt != "" && text != "" && stitch(prompt, text).Cut? {
      WordsAfterInOrder(words, stitch(prompt, text).characters);
    }
  }

  /** Text no longer than what the reading spells has its boundary no later. */
  lemma {:induction false} ShorterStaysBehind(fold: Casefold, stitch: Stitcher, prompt: string, words: seq<Word>, reply: Reply,
                                              c: string, spelled: string, k: nat)
    requires InOrder(words) && reply.Result?
    requires stitch(prompt, Strip(Spoken(words))) == Stitch.RepeatedPrefixOf(fold, prompt, Strip(Spoken(words)))
    requires reply == WithoutRepeatOf(stitch, prompt, Strip(Spoken(words)), words)
    requires 0 < |Strip(c)| <= |Strip(spelled)| && Strip(spelled) <= Said(reply)
    requires Holds(words, k, CommittedAt(words, Said(reply), spelled))
    ensures var cut := WordBoundary(reply.words, c);
            cut.Some? && cut.value <= words[k].end
  {
    BoundaryStaysBehindText(fold, stitch, prompt, words, reply, spelled, k);
    ReplyInOrder(stitch, prompt, Strip(Spoken(words)), words);
    BoundaryIsMonotone(reply.words, 0, "", |Strip(c)|, |Strip(spelled)|);
  }

  /**
   * A whole single-model pass: the decoder's words spell its text up to outer whitespace and end in order.
   * Whether or not a repeated prompt was removed first, the audio that is dropped ends no later than the
   * word holding the last character of what the reading spells for the committed tokens, provided it spells
   * them no shorter than they are committed. A reading that repeats them does, by `RepeatingSpellsAlike`.
   */
  lemma {:induction false} TrimStaysBehindText(cfg: Settings, fold: Casefold, stitch: Stitcher, s: Session, prompt: string,
                                               words: seq<Word>, reply: Reply, shown: Session, k: nat)
    requires InOrder(words)
    requires reply.Result? && Said(reply) != ""
    requires stitch(prompt, Strip(Spoken(words))) == Stitch.RepeatedPrefixOf(fold, prompt, Strip(Spoken(words)))
    requires reply == WithoutRepeatOf(stitch, prompt, Strip(Spoken(words)), words)
    requires shown == s.(page := ReadingShown(fold, s.page, Said(reply)))
    requires var committed := shown.page.agreement.committed;
             && 0 < |Strip(Concat(committed))| <= |Strip(Spelling(Said(reply), |committed|))|
             && Holds(words, k, CommittedAt(words, Said(reply), Spelling(Said(reply), |committed|)))
    ensures var trimmed := Trimmed(cfg, shown, reply.words).buffer.data;
            && IsSuffix(trimmed, s.buffer.data)
            && |s.buffer.data| - |trimmed| <= BYTES_PER_SAMPLE * Clamped(words[k].end, |s.buffer.data|)
  {
    var committed := shown.page.agreement.committed;
    StripEnds(reply.text);
    SpellingIsPrefix(Said(reply), |committed|);
    ShorterStaysBehind(fold, stitch, prompt, words, reply, Concat(committed), Spelling(Said(reply), |committed|), k);
    TrimmedAtBoundary(cfg, shown, reply.words, words[k].end);
  }

  /** There is such a word for every pass, so no pass drops audio beyond it. */
  lemma {:induction false} EveryTrimStaysBehindText(cfg: Settings, fold: Casefold, stitch: Stitcher, s: Session, prompt: string,
                                                    words: seq<Word>, reply: Reply, shown: Session)
    returns (k: nat)
    requires InOrder(words)
    requires reply.Result? && Said(reply) != ""
    requires stitch(prompt, Strip(Spoken(words))) == Stitch.RepeatedPrefixOf(fold, prompt, Strip(Spoken(words)))
    requires reply == WithoutRepeatOf(stitch, prompt, Strip(Spoken(words)), words)
    requires shown == s.(page := ReadingShown(fold, s.page, Said(reply)))
    requires var committed := shown.page.agreement.committed;
             0 < |Strip(Concat(committed))| <= |Strip(Spelling(Said(reply), |committed|))|
    ensures Holds(words, k, CommittedAt(words, Said(reply), Spelling(Said(reply), |shown.page.agreement.committed|)))
    ensures var trimmed := Trimmed(cfg, shown, reply.words).buffer.data;
            && IsSuffix(trimmed, s.buffer.data)
            && |s.buffer.data| - |trimmed| <= BYTES_PER_SAMPLE * Clamped(words[k].end, |s.buffer.data|)
  {
    var spelled := Spelling(Said(reply), |shown.page.agreement.committed|);
    StripEnds(Spoken(words));
    StripEnds(reply.text);
    var n := WhatRemains(fold, stitch, prompt, Strip(Spoken(words)), words, reply);
    SpellingIsPrefix(Said(reply), |shown.page.agreement.committed|);
    CommittedEnds(Spoken(words), Strip(Spoken(words)), Said(reply), spelled);
    k := SomeWordHolds(words, CommittedAt(words, Said(reply), spelled));
    TrimStaysBehindText(cfg, fold, stitch, s, prompt, words, reply, shown, k);
  }

  /** A boundary no later than `limit` takes no more than that off the front. */
  lemma {:induction false} TrimmedAtBoundary(cfg: Settings, s: Session, words: seq<Word>, limit: int)
    requires var cut := WordBoundary(words, s.page.agreement.Committed()); cut.Some? && cut.value <= limit
    ensures var trimmed := Trimmed(cfg, s, words).buffer.data;
            && IsSuffix(trimmed, s.buffer.data)
            && |s.buffer.data| - |trimmed| <= BYTES_PER_SAMPLE * Clamped(limit, |s.buffer.data|)
  {
    assert s.buffer.data[0..] == s.buffer.data;
  }

  /**
   * Without that proviso it can run ahead: "ss" is committed where the reading, the same but for case, has a
   * sharp s, so the boundary lands on the next word. Nothing of that word is committed, and its audio goes.
   */
  lemma {:induction false} RecasingCanRunAhead(cfg: Settings, fold: Casefold, s: Session)
    requires fold('\U{DF}') == "ss" && fold('s') == "s"
    requires s.page.agreement == AfterUpdate(fold, AfterUpdate(fold, Fresh(2), "ss x").0, "ss y").0
    requires s.buffer.Samples() >= cfg.maxWindow && s.buffer.Samples() >= 14000
    ensures var words := [Word("\U{DF}", 0, 5000), Word(" c", 5000, 14000)];
            var said := Strip(Spoken(words));
            var shown := s.(page := ReadingShown(fold, s.page, said));
            && !Conflicts(fold, s.page, said)
            && shown.page.agreement.committed == ["ss "]
            && Holds(words, 0, CommittedAt(words, said, Spelling(said, 1)))
            && Trimmed(cfg, shown, words).buffer.data == s.buffer.data[BYTES_PER_SAMPLE * 14000..]
  {
    SampleCommitted(fold);
    SampleReading(cfg, fold, s);
    SampleBoundary(fold);
  }

  lemma {:induction false} SampleReading(cfg: Settings, fold: Casefold, s: Session)
    requires fold('\U{DF}') == "ss" && fold('s') == "s"
    requires s.page.agreement == Agreement(2, [["ss ", "y"]], ["ss "])
    ensures var shown := ReadingShown(fold, s.page, "\U{DF} c");
            !Conflicts(fold, s.page, "\U{DF} c") && shown.agreement.committed == ["ss "]
  {
    SampleWords();
    SampleStanding(fold);
    var recased := ["ss "] + SliceFrom(["\U{DF} ", "c"], 1);
    assert Recased(fold, ["ss "], ["\U{DF} ", "c"]) == recased == ["ss ", "c"];
    assert SliceTo(recased, 1) == ["ss "];
    assert CommonPrefixOf(["ss ", "c"], ["ss ", "y"]) == ["ss "];
    assert Agreed(["ss ", "c"], [["ss ", "y"]]) == ["ss "];
    assert FoldIn(fold, s.page.agreement, ["\U{DF} ", "c"]).committed == ["ss "];
  }

  /** Two readings commit what they agree on. */
  lemma {:induction false} SampleCommitted(fold: Casefold)
    ensures AfterUpdate(fold, AfterUpdate(fold, Fresh(2), "ss x").0, "ss y").0 == Agreement(2, [["ss ", "y"]], ["ss "])
  {
    assert "ss" + " " == "ss " && "ss" + " " + "x" == "ss x" && "ss" + " " + "y" == "ss y";
    TwoWords("ss", " ", "x");
    TwoWords("ss", " ", "y");
    SampleFirst(fold);
    SampleSecond(fold);
  }

  lemma {:induction false} SampleFirst(fold: Casefold)
    ensures FoldIn(fold, Fresh(2), ["ss ", "x"]) == Agreement(2, [["ss ", "x"]], [])
  {
    assert Words([]) == [];
  }

  lemma {:induction false} SampleSecond(fold: Casefold)
    ensures FoldIn(fold, Agreement(2, [["ss ", "x"]], []), ["ss ", "y"]) == Agreement(2, [["ss ", "y"]], ["ss "])
  {
    assert Words([]) == [];
    assert CommonPrefixOf(["ss ", "y"], ["ss ", "x"]) == ["ss "];
    assert Agreed(["ss ", "y"], [["ss ", "x"]]) == ["ss "];
    assert Settled(["ss "]) == ["ss "];
  }

  lemma {:induction false} SampleBoundary(fold: Casefold)
    requires fold('\U{DF}') == "ss" && fold('s') == "s"
    ensures var words := [Word("\U{DF}", 0, 5000), Word(" c", 5000, 14000)];
            var said := Strip(Spoken(words));
            && said == "\U{DF} c"
            && Strip(Concat(["ss "])) == "ss"
            && WordBoundary(words, Concat(["ss "])) == Some(14000)
            && Holds(words, 0, CommittedAt(words, said, Spelling(said, 1)))
  {
    var words := [Word("\U{DF}", 0, 5000), Word(" c", 5000, 14000)];
    SampleWords();
    SampleStrips();
    assert SliceTo(["\U{DF} ", "c"], 1) == ["\U{DF} "];
    assert "" + "\U{DF}" == "\U{DF}";
    assert BoundaryFrom(words, 1, "\U{DF}", 2) == Some(14000);
    SpokenByTwo(words[0], words[1]);
    assert words[..0] == [] && words[..1] == [words[0]];
  }

  lemma {:induction false} SampleStrips()
    ensures Concat(["ss "]) == "ss " && Strip("ss ") == "ss"
    ensures Concat(["\U{DF} "]) == "\U{DF} " && Strip("\U{DF} ") == "\U{DF}" && Strip("\U{DF}") == "\U{DF}"
  {
    assert "ss" + " " == "ss " && "\U{DF}" + " " == "\U{DF} ";
    OneSample("ss");
    OneSample("\U{DF}");
  }

  lemma {:induction false} OneSample(word: string)
    requires word != "" && !IsSpace(word[0]) && !IsSpace(word[|word| - 1])
    ensures Concat([word + " "]) == word + " " && Strip(word + " ") == word && Strip(word) == word
  {
    ConcatOne(word + " ");
    StripUnique("", word, " ");
    assert "" + word + " " == word + " ";
    AlreadyStripped(word);
  }

  lemma {:induction false} SampleWords()
    ensures Spoken([Word("\U{DF}", 0, 5000), Word(" c", 5000, 14000)]) == "\U{DF} c"
    ensures Strip("\U{DF} c") == "\U{DF} c" && Spaces("\U{DF} c") == 0
    ensures Tokenize("\U{DF} c") == ["\U{DF} ", "c"]
    ensures "\U{DF}" + " c" == "\U{DF} c"
  {
    var said := "\U{DF} c";
    SpokenByTwo(Word("\U{DF}", 0, 5000), Word(" c", 5000, 14000));
    assert "\U{DF}" + " c" == said;
    assert Strip(said) == said && Spaces(said) == 0 by {
      StripUnique("", said, "");
      assert "" + said + "" == said;
    }
    assert Tokenize(said) == ["\U{DF} ", "c"] by {
      TwoWords("\U{DF}", " ", "c");
      assert "\U{DF}" + " " == "\U{DF} ";
      assert "\U{DF}" + " " + "c" == said;
    }
  }

  lemma {:induction false} SpokenByTwo(a: Word, b: Word)
    ensures Spoken([a, b]) == a.text + b.text
    ensures Spoken([a]) == a.text && Spoken([]) == ""
  {
    assert Spoken([]) == "";
    assert [a][1..] == [] && a.text + "" == a.text;
    assert Spoken([b]) == b.text by {
      assert [b][1..] == [] && b.text + "" == b.text;
    }
    assert [a, b][1..] == [b];
  }

  lemma {:induction false} SampleStanding(fold: Casefold)
    requires fold('\U{DF}') == "ss" && fold('s') == "s"
    ensures StandingOf(fold, ["ss "], ["\U{DF} ", "c"]) == Recases
  {
    RStripUnique("ss", " ");
    RStripUnique("\U{DF}", " ");
    assert "ss" + " " == "ss " && "\U{DF}" + " " == "\U{DF} ";
    assert SliceTo(["\U{DF} ", "c"], 1) == ["\U{DF} "];
    assert Words(["\U{DF} "]) == ["\U{DF}"] && Words(["ss "]) == ["ss"];
    assert "ss"[1..] == "s" && "s"[1..] == "" && "\U{DF}"[1..] == "";
    assert Fold(fold, "s") == "s";
    assert Fold(fold, "ss") == "s" + Fold(fold, "s") == "ss";
    assert Fold(fold, "\U{DF}") == "ss";
  }

  // ---- Exactly when the cut is within a given word ----

  /** The last of the words that end when it does. */
  predicate LastToEnd(words: seq<Word>, k: nat) {
    k < |words| && forall j :: k < j < |words| ==> words[k].end < words[j].end
  }

  lemma {:induction false} StripGrows(s: string, m: nat)
    requires m <= |s|
    ensures |Strip(s[..m])| <= |Strip(s)|
  {
    var x := s[..m];
    var p := |Strip(x)|;
    if p > 0 {
      StripEnds(x);
      StrippedAt(x, p);
      assert x[Spaces(x)] == s[Spaces(x)] && x[Spaces(x) + p - 1] == s[Spaces(x) + p - 1];
      StripSpans(s, Spaces(x), Spaces(x) + p - 1);
    }
  }

  lemma {:induction false} EnoughLater(words: seq<Word>, j: nat, k: nat, target: nat)
    requires j <= k < |words| && Enough(words, j, target)
    ensures Enough(words, k, target)
  {
    SpokenSplit(words[..k + 1], j + 1);
    assert words[..k + 1][..j + 1] == words[..j + 1];
    var s := Spoken(words[..k + 1]);
    var m := |Spoken(words[..j + 1])|;
    assert s[..m] == Spoken(words[..j + 1]);
    StripGrows(s, m);
  }

  lemma {:induction false} BoundaryIsEnough(words: seq<Word>, i: nat, target: nat) returns (j: nat)
    requires i <= |words| && BoundaryFrom(words, i, Spoken(words[..i]), target).Some?
    ensures Enough(words, j, target)
    ensures BoundaryFrom(words, i, Spoken(words[..i]), target) == Some(words[j].end)
    decreases |words| - i
  {
    assert i < |words|;
    BoundaryStep(words, i, target);
    if Enough(words, i, target) {
      j := i;
    } else {
      j := BoundaryIsEnough(words, i + 1, target);
    }
  }

  /** The cut is within word `k` if and only if the words up to it spell as much as is committed. */
  lemma {:induction false} CutWithinIff(words: seq<Word>, committed: string, k: nat)
    requires InOrder(words) && LastToEnd(words, k) && Strip(committed) != ""
    ensures var cut := WordBoundary(words, committed);
            cut.Some? && cut.value <= words[k].end <==> |Strip(Spoken(words[..k + 1]))| >= |Strip(committed)|
  {
    var p := |Strip(committed)|;
    assert words[..0] == [];
    if Enough(words, k, p) {
      var j := BoundaryIsFirst(words, 0, p, k);
    } else if WordBoundary(words, committed).Some? {
      var j := BoundaryIsEnough(words, 0, p);
      if j <= k {
        EnoughLater(words, j, k, p);
      }
    }
  }

  /**
   * A pass drops audio past a word if and only if it trims, and the words up to that one spell less than is
   * committed. The words end inside the window.
   */
  lemma {:induction false} TrimRunsPastIff(cfg: Settings, s: Session, words: seq<Word>, k: nat)
    requires InOrder(words) && LastToEnd(words, k)
    requires forall i :: 0 <= i < |words| ==> 0 <= words[i].end <= s.buffer.Samples()
    ensures var c := s.page.agreement.Committed();
            var cut := WordBoundary(words, c);
            |s.buffer.data| - |Trimmed(cfg, s, words).buffer.data| > BYTES_PER_SAMPLE * words[k].end <==>
              && s.buffer.Samples() >= cfg.maxWindow && Strip(c) != ""
              && cut.Some? && cut.value > MIN_CUT
              && |Strip(Spoken(words[..k + 1]))| < |Strip(c)|
  {
    var c := s.page.agreement.Committed();
    if Strip(c) != "" {
      CutWithinIff(words, c, k);
      if WordBoundary(words, c).Some? {
        var j := BoundaryIsSomeWord(words, 0, "", |Strip(c)|);
      }
    }
  }

  // ---- Compacting a draft window ----

  lemma {:induction false} EndingByIsPrefix(words: seq<Word>, limit: int)
    requires InOrder(words)
    ensures var m := |EndingBy(words, limit)|;
            && m <= |words| && EndingBy(words, limit) == words[..m]
            && forall i :: 0 <= i < |words| ==> (words[i].end <= limit <==> i < m)
  {
    if words != [] {
      var n := |words| - 1;
      EndingByIsPrefix(words[..n], limit);
      if words[n].end <= limit {
        assert forall i :: 0 <= i < n ==> words[..n][i].end <= limit;
      }
    }
  }

  /**
   * The words whose audio is dropped are exactly the words committed, and the tail that more audio could
   * still revise is kept, together with whatever arrived during the decode.
   */
  lemma {:induction false} CompactionDropsWhatItCommits(s: Session, words: seq<Word>, limit: int, window: nat, tail: nat)
    requires InOrder(words) && s.buffer.Valid()
    requires limit == window - tail && window <= s.buffer.Samples()
    ensures var s' := Compacted(s, words, limit, window);
            var committed := EndingBy(words, limit);
            if committed == [] || Strip(Spoken(committed)) == "" then
              s'.buffer == s.buffer && s'.page == s.page
            else
              var cut := committed[|committed| - 1].end;
              && s'.page.committedPrefix == s.page.committedPrefix + Strip(Spoken(committed)) + " "
              && |committed| <= |words| && committed == words[..|committed|]
              && (forall i :: 0 <= i < |words| ==> (words[i].end <= cut <==> i < |committed|))
              && IsSuffix(s'.buffer.data, s.buffer.data)
              && s'.buffer.Samples() >= (if tail <= window then tail else window)
  {
    EndingByIsPrefix(words, limit);
    var committed := EndingBy(words, limit);
    var text := Strip(Spoken(committed));
    assert s.page.committedPrefix + (text + " ") == s.page.committedPrefix + text + " ";
  }
}
