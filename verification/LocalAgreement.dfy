/** LocalAgreement-n: commit only what the last n hypotheses agree on (server/app/streaming/local_agreement.py). */
module LocalAgreementPolicy {
  import opened Text
  import opened Tokens

  /** The constructor refuses a window below 2. */
  type Window = n: nat | n >= 2 witness 2

  datatype AgreementResult = AgreementResult(stable: string, partial: string, conflict: bool)

  /** `window` is n, `history` the previous hypotheses as token lists (at most n-1), oldest first. */
  datatype Agreement = Agreement(window: Window, history: seq<seq<string>>, committed: seq<string>) {
    function Committed(): string {
      Concat(committed)
    }
  }

  /** `committed` passed to `reset` defaults to the empty text. */
  function AfterReset(a: Agreement, committed: string): Agreement {
    a.(history := [], committed := Tokenize(committed))
  }

  function Fresh(window: Window): Agreement {
    Agreement(window, [], [])
  }

  function FoldAll(fold: Casefold, words: seq<string>): seq<string> {
    seq(|words|, i requires 0 <= i < |words| => Fold(fold, words[i]))
  }

  predicate SameWordsIgnoringCase(fold: Casefold, a: seq<string>, b: seq<string>) {
    |a| == |b| && FoldAll(fold, Words(a)) == FoldAll(fold, Words(b))
  }

  /** How a hypothesis stands to the text already committed. */
  datatype Standing = Repeats | Recases | Contradicts

  function StandingOf(fold: Casefold, committed: seq<string>, tokens: seq<string>): Standing {
    var head := SliceTo(tokens, |committed|);
    if Words(head) == Words(committed) then Repeats
    else if SameWordsIgnoringCase(fold, head, committed) then Recases
    else Contradicts
  }

  /** The hypothesis as it is folded in: with the casing already on screen. */
  function Recased(fold: Casefold, committed: seq<string>, tokens: seq<string>): seq<string> {
    if StandingOf(fold, committed, tokens) == Recases
    then committed + SliceFrom(tokens, |committed|)
    else tokens
  }

  /** `deque.append` on a deque with a maximum length. */
  function Push<T>(history: seq<T>, x: T, limit: nat): seq<T> {
    var all := history + [x];
    if |all| > limit then all[|all| - limit..] else all
  }

  /** What the hypothesis and everything remembered have in common. */
  function Agreed(tokens: seq<string>, history: seq<seq<string>>): (agreed: seq<string>)
    ensures agreed <= tokens
    decreases |history|
  {
    if history == [] then tokens
    else Agreed(CommonPrefixOf(tokens, history[0]), history[1..])
  }

  /** The last word of a hypothesis may still grow, so tokens without trailing whitespace are held back. */
  function Settled(tokens: seq<string>): (settled: seq<string>)
    ensures settled <= tokens
    ensures settled != [] ==> EndsInSpace(settled[|settled| - 1])
  {
    if tokens != [] && !EndsInSpace(tokens[|tokens| - 1]) then Settled(tokens[..|tokens| - 1]) else tokens
  }

  /** The commitment after a pass: the agreed tokens if they go beyond the `n` already committed. */
  function NewCommitted(window: Window, history: seq<seq<string>>, tokens: seq<string>, n: nat): (committed: seq<string>)
    ensures committed <= tokens
  {
    var agreed := if |history| >= window - 1 then Settled(Agreed(tokens, history)) else [];
    if |agreed| > n then agreed else SliceTo(tokens, n)
  }

  /** The state once a reading, as tokens, has been folded in. */
  function FoldIn(fold: Casefold, a: Agreement, tokens: seq<string>): Agreement {
    if StandingOf(fold, a.committed, tokens) == Contradicts then
      a.(history := Push([], tokens, a.window - 1))
    else
      var recased := Recased(fold, a.committed, tokens);
      Agreement(a.window, Push(a.history, recased, a.window - 1), NewCommitted(a.window, a.history, recased, |a.committed|))
  }

  function AfterUpdate(fold: Casefold, a: Agreement, hypothesis: string): (Agreement, AgreementResult) {
    var tokens := Tokenize(hypothesis);
    var a' := FoldIn(fold, a, tokens);
    var stable := a'.Committed();
    if StandingOf(fold, a.committed, tokens) == Contradicts
    then (a', AgreementResult(stable, "", true))
    else (a', AgreementResult(stable, SliceFrom(Concat(Recased(fold, a.committed, tokens)), |stable|), false))
  }

  function AfterCommitAll(fold: Casefold, a: Agreement, hypothesis: string): (Agreement, AgreementResult) {
    var tokens := Tokenize(hypothesis);
    if StandingOf(fold, a.committed, tokens) == Contradicts then
      (a, AgreementResult(a.Committed(), "", true))
    else
      var recased := Recased(fold, a.committed, tokens);
      (a.(history := [], committed := recased), AgreementResult(Concat(recased), "", false))
  }

  // ---- What one update commits ----

  predicate SharedBy(history: seq<seq<string>>, p: seq<string>) {
    forall k :: 0 <= k < |history| ==> p <= history[k]
  }

  lemma {:induction false} AgreedIsShared(tokens: seq<string>, history: seq<seq<string>>)
    ensures SharedBy(history, Agreed(tokens, history))
    decreases |history|
  {
    if history != [] {
      AgreedIsShared(CommonPrefixOf(tokens, history[0]), history[1..]);
      forall k | 0 <= k < |history|
        ensures Agreed(tokens, history) <= history[k]
      {
        assert k > 0 ==> history[k] == history[1..][k - 1];
      }
    }
  }

  lemma {:induction false} AgreedIsLongest(tokens: seq<string>, history: seq<seq<string>>, p: seq<string>)
    requires p <= tokens && SharedBy(history, p)
    ensures p <= Agreed(tokens, history)
    decreases |history|
  {
    if history != [] {
      CommonPrefixIsLongest(tokens, history[0], p);
      AgreedIsLongest(CommonPrefixOf(tokens, history[0]), history[1..], p);
    }
  }

  lemma {:induction false} SettledIsLongest(tokens: seq<string>, p: seq<string>)
    requires p <= tokens
    requires p != [] ==> EndsInSpace(p[|p| - 1])
    ensures p <= Settled(tokens)
  {
    if tokens != [] && !EndsInSpace(tokens[|tokens| - 1]) {
      SettledIsLongest(tokens[..|tokens| - 1], p);
    }
  }

  /** The hypothesis as folded in covers the committed words, with the committed casing. */
  lemma {:induction false} RecasedShape(fold: Casefold, committed: seq<string>, tokens: seq<string>)
    requires StandingOf(fold, committed, tokens) != Contradicts
    ensures var recased := Recased(fold, committed, tokens);
            && |committed| <= |recased| == |tokens|
            && Words(recased[..|committed|]) == Words(committed)
            && recased[|committed|..] == tokens[|committed|..]
            && SameWordsIgnoringCase(fold, recased, tokens)
  {
    var n := |committed|;
    var head := SliceTo(tokens, n);
    var recased := Recased(fold, committed, tokens);
    assert |Words(head)| == |Words(committed)|;
    assert |head| == n <= |tokens| && head == tokens[..n];
    if StandingOf(fold, committed, tokens) == Recases {
      assert recased[..n] == committed;
      forall i | 0 <= i < |tokens|
        ensures Fold(fold, Words(recased)[i]) == Fold(fold, Words(tokens)[i])
      {
        if i < n {
          assert FoldAll(fold, Words(head))[i] == FoldAll(fold, Words(committed))[i];
          assert Words(head)[i] == RStrip(tokens[i]) && Words(committed)[i] == RStrip(recased[i]);
        }
      }
      assert FoldAll(fold, Words(recased)) == FoldAll(fold, Words(tokens));
    }
  }

  /** Whether the first `m` tokens could all be committed: shared by all, and the last one settled. */
  predicate Committable(history: seq<seq<string>>, tokens: seq<string>, m: nat) {
    0 < m <= |tokens| && EndsInSpace(tokens[m - 1]) && SharedBy(history, tokens[..m])
  }

  /** The committed words only extend, over what the reading says. */
  lemma {:induction false} WordsExtend(fold: Casefold, a: Agreement, reading: seq<string>)
    requires StandingOf(fold, a.committed, reading) != Contradicts
    ensures var tokens := Recased(fold, a.committed, reading);
            var c := FoldIn(fold, a, reading).committed;
            && |a.committed| <= |c| <= |tokens|
            && c == tokens[..|c|]
            && Words(a.committed) <= Words(c)
  {
    hide StandingOf, Recased, Agreed, Settled;
    var tokens := Recased(fold, a.committed, reading);
    var n := |a.committed|;
    RecasedShape(fold, a.committed, reading);
    var c := NewCommitted(a.window, a.history, tokens, |a.committed|);
    assert c == tokens[..|c|] && |c| >= n;
    assert c[..n] == tokens[..n];
    assert Words(c)[..n] == Words(tokens[..n]);
  }

  /**
   * A token is newly committed only when the memory is full and it is shared, byte for byte and at the
   * same index, by everything remembered; and the longest such run ending in whitespace is taken.
   */
  lemma {:induction false} CommitsTheLongestAgreement(fold: Casefold, a: Agreement, reading: seq<string>)
    requires StandingOf(fold, a.committed, reading) != Contradicts
    ensures var tokens := Recased(fold, a.committed, reading);
            var m := |FoldIn(fold, a, reading).committed|;
            if |a.history| + 1 >= a.window then
              && (m > |a.committed| ==> Committable(a.history, tokens, m))
              && (forall k :: m < k ==> !Committable(a.history, tokens, k))
            else m == |a.committed|
  {
    var tokens := Recased(fold, a.committed, reading);
    RecasedShape(fold, a.committed, reading);
    SettledAgreementIsLongest(a.history, tokens);
  }

  lemma {:induction false} SettledAgreementIsLongest(history: seq<seq<string>>, tokens: seq<string>)
    ensures var m := |Settled(Agreed(tokens, history))|;
            && (m > 0 ==> Committable(history, tokens, m))
            && (forall k :: m < k ==> !Committable(history, tokens, k))
  {
    var best := Settled(Agreed(tokens, history));
    AgreedIsShared(tokens, history);
    assert tokens[..|best|] == best;
    forall k | |best| < k
      ensures !Committable(history, tokens, k)
    {
      if Committable(history, tokens, k) {
        CommittableIsTaken(history, tokens, k);
      }
    }
  }

  lemma {:induction false} CommittableIsTaken(history: seq<seq<string>>, tokens: seq<string>, k: nat)
    requires Committable(history, tokens, k)
    ensures k <= |Settled(Agreed(tokens, history))|
  {
    AgreedIsLongest(tokens, history, tokens[..k]);
    SettledIsLongest(Agreed(tokens, history), tokens[..k]);
  }

  /** `stable + partial` is the hypothesis, which differs from what the decoder said in case only. */
  lemma {:induction false} StablePlusPartial(fold: Casefold, a: Agreement, hypothesis: string)
    requires !AfterUpdate(fold, a, hypothesis).1.conflict
    ensures var said := Tokenize(hypothesis);
            var shown := Recased(fold, a.committed, said);
            var r := AfterUpdate(fold, a, hypothesis).1;
            && r.stable + r.partial == Concat(shown)
            && SameWordsIgnoringCase(fold, shown, said)
            && (StandingOf(fold, a.committed, said) == Repeats ==> r.stable + r.partial == hypothesis)
  {
    var said := Tokenize(hypothesis);
    var shown := Recased(fold, a.committed, said);
    RecasedShape(fold, a.committed, said);
    var k := |NewCommitted(a.window, a.history, shown, |a.committed|)|;
    ConcatSplit(shown, k);
    assert NewCommitted(a.window, a.history, shown, |a.committed|) == shown[..k];
    TokenizeRoundTrip(hypothesis);
  }

  /** A contradiction leaves the commitment alone, and starts the memory again from the new reading. */
  lemma {:induction false} ConflictKeepsCommitment(fold: Casefold, a: Agreement, hypothesis: string)
    requires AfterUpdate(fold, a, hypothesis).1.conflict
    ensures var (a', r) := AfterUpdate(fold, a, hypothesis);
            && a'.committed == a.committed && r.stable == a.Committed() && r.partial == ""
            && a'.history == [Tokenize(hypothesis)]
            && a.committed != []
            && AfterCommitAll(fold, a, hypothesis) == (a, r)
  {
    assert a.committed != [] by {
      assert Words(SliceTo(Tokenize(hypothesis), 0)) == Words([]);
    }
  }

  // ---- When the committed text grows literally ----

  /** Tokens that all open with their word. */
  predicate Plain(ts: seq<string>) {
    forall i :: 0 <= i < |ts| ==> IsToken(ts[i])
  }

  /** What a hypothesis has to do for the text on screen to be extended and not re-spaced. */
  predicate Extends(fold: Casefold, committed: seq<string>, hypothesis: string) {
    || StandingOf(fold, committed, Tokenize(hypothesis)) == Recases
    || Concat(committed) <= hypothesis
  }

  lemma {:induction false} SkipSpacesInPrefix(s: string, s': string, i: nat)
    requires i <= |s| && s <= s'
    ensures SkipSpaces(s, i) <= SkipSpaces(s', i)
    ensures SkipSpaces(s, i) < |s| ==> SkipSpaces(s, i) == SkipSpaces(s', i)
    decreases |s| - i
  {
    if i < |s| && IsSpace(s[i]) {
      SkipSpacesInPrefix(s, s', i + 1);
    }
  }

  lemma {:induction false} SkipGap(word: string, gap: string, more: string)
    requires Blank(gap)
    requires more == "" || !IsSpace(more[0])
    ensures SkipSpaces(word + gap + more, |word|) == |word| + |gap|
  {
    var s := word + gap + more;
    SkipSpacesStops(s, |word|);
    assert forall i :: 0 <= i < |gap| ==> s[|word| + i] == gap[i];
    assert more != "" ==> s[|word| + |gap|] == more[0];
  }

  /** Two texts that agree on a word and then on more than whitespace agree on the whitespace between. */
  lemma {:induction false} GapsAgree(word: string, gap: string, more: string, gap': string, more': string)
    requires Blank(gap) && Blank(gap')
    requires more == "" || !IsSpace(more[0])
    requires more' == "" || !IsSpace(more'[0])
    requires word + gap + more <= word + gap' + more'
    ensures gap <= gap'
    ensures more != "" ==> gap == gap' && more <= more'
  {
    var s, s' := word + gap + more, word + gap' + more';
    SkipGap(word, gap, more);
    SkipGap(word, gap', more');
    SkipSpacesInPrefix(s, s', |word|);
    assert gap == s[|word|..|word| + |gap|] == s'[|word|..|word| + |gap|] == gap'[..|gap|];
    if more != "" {
      assert gap' == gap;
      assert more == s[|word| + |gap|..] && more' == s'[|word| + |gap|..];
    }
  }

  lemma {:induction false} PlainOpens(ts: seq<string>)
    requires Plain(ts)
    ensures ts != [] ==> Concat(ts) != "" && !IsSpace(Concat(ts)[0])
  {
    if ts != [] {
      assert IsToken(ts[0]);
    }
  }

  /** Same words, and literally a prefix as text: then a prefix of the tokens at the same indices. */
  lemma {:induction false} PrefixStaysInTokens(c: seq<string>, ts: seq<string>)
    requires Plain(c) && WellFormed(ts) && |c| <= |ts|
    requires forall i :: 0 <= i < |c| ==> RStrip(c[i]) == RStrip(ts[i])
    requires Concat(c) <= Concat(ts)
    ensures Concat(c) <= Concat(ts[..|c|])
  {
    hide Plain, WellFormed;
    if c != [] {
      HeadsAgree(c, ts);
      if c[1..] != [] {
        TailsAgree(c, ts);
        PrefixStaysInTokens(c[1..], ts[1..]);
      }
      var rest := ts[1..][..|c| - 1];
      assert ts[..|c|] == [ts[0]] + rest;
      ConcatCons(ts[0], rest);
      HeadPutBack(Word(c[0]), Gap(c[0]), Gap(ts[0]), Concat(c[1..]), Concat(rest));
    }
  }

  lemma {:induction false} TailsAgree(c: seq<string>, ts: seq<string>)
    requires Plain(c) && WellFormed(ts) && 0 < |c| <= |ts|
    requires forall i :: 0 <= i < |c| ==> RStrip(c[i]) == RStrip(ts[i])
    ensures Plain(c[1..]) && WellFormed(ts[1..])
    ensures forall i :: 0 <= i < |c[1..]| ==> RStrip(c[1..][i]) == RStrip(ts[1..][i])
  {
  }

  lemma {:induction false} HeadPutBack(word: string, gap: string, gap': string, more: string, more': string)
    requires gap <= gap' && (more == "" || (gap == gap' && more <= more'))
    ensures word + gap + more <= word + gap' + more'
  {
  }

  lemma {:induction false} HeadsAgree(c: seq<string>, ts: seq<string>)
    requires Plain(c) && WellFormed(ts) && 0 < |c| <= |ts|
    requires RStrip(c[0]) == RStrip(ts[0])
    requires Concat(c) <= Concat(ts)
    ensures c[0] == Word(c[0]) + Gap(c[0]) && ts[0] == Word(c[0]) + Gap(ts[0])
    ensures Concat(c) == Word(c[0]) + Gap(c[0]) + Concat(c[1..])
    ensures Gap(c[0]) <= Gap(ts[0])
    ensures c[1..] != [] ==> Gap(c[0]) == Gap(ts[0]) && Concat(c[1..]) <= Concat(ts[1..])
  {
    TokenParts(c[0]);
    TokenParts(ts[0]);
    PlainOpens(c[1..]);
    PlainOpens(ts[1..]);
    assert Concat(ts) == Word(c[0]) + Gap(ts[0]) + Concat(ts[1..]);
    GapsAgree(Word(c[0]), Gap(c[0]), Concat(c[1..]), Gap(ts[0]), Concat(ts[1..]));
  }

  /** Re-anchoring keeps the text already shown exactly when the hypothesis extends it. */
  lemma {:induction false} GrowsIffExtends(fold: Casefold, a: Agreement, hypothesis: string)
    requires Plain(a.committed)
    requires hypothesis != "" ==> !IsSpace(hypothesis[0])
    requires !AfterUpdate(fold, a, hypothesis).1.conflict
    ensures a.Committed() <= AfterUpdate(fold, a, hypothesis).1.stable <==> Extends(fold, a.committed, hypothesis)
  {
    var tokens := Tokenize(hypothesis);
    TokenizeStripped(hypothesis);
    CommitmentGrows(fold, a, tokens);
  }

  lemma {:induction false} CommitmentGrows(fold: Casefold, a: Agreement, tokens: seq<string>)
    requires Plain(a.committed) && WellFormed(tokens)
    requires StandingOf(fold, a.committed, tokens) != Contradicts
    ensures Concat(a.committed) <= Concat(FoldIn(fold, a, tokens).committed) <==>
            StandingOf(fold, a.committed, tokens) == Recases || Concat(a.committed) <= Concat(tokens)
  {
    var n := |a.committed|;
    var recased := Recased(fold, a.committed, tokens);
    var c := FoldIn(fold, a, tokens).committed;
    RecasedShape(fold, a.committed, tokens);
    WordsExtend(fold, a, tokens);
    assert c[..n] == recased[..n];
    ConcatSplit(c, n);
    if StandingOf(fold, a.committed, tokens) == Recases {
      assert recased[..n] == a.committed;
    } else {
      PrefixAmong(a.committed, tokens, |c|);
    }
  }

  lemma {:induction false} PrefixAmong(c: seq<string>, tokens: seq<string>, m: nat)
    requires Plain(c) && WellFormed(tokens) && |c| <= m <= |tokens|
    requires Words(tokens[..|c|]) == Words(c)
    ensures Concat(c) <= Concat(tokens[..m]) <==> Concat(c) <= Concat(tokens)
  {
    assert tokens[..m][..|c|] == tokens[..|c|];
    RepeatsGrows(c, tokens);
    RepeatsGrows(c, tokens[..m]);
  }

  lemma {:induction false} RepeatsGrows(c: seq<string>, tokens: seq<string>)
    requires Plain(c) && WellFormed(tokens) && |c| <= |tokens|
    requires Words(tokens[..|c|]) == Words(c)
    ensures Concat(c) <= Concat(tokens[..|c|]) <==> Concat(c) <= Concat(tokens)
  {
    var head := tokens[..|c|];
    if Concat(c) <= Concat(tokens) {
      SameWordByWord(c, tokens);
      PrefixStaysInTokens(c, tokens);
    } else {
      ConcatSplit(tokens, |c|);
      PrefixOfMore(Concat(c), Concat(head), Concat(tokens[|c|..]));
    }
  }

  lemma {:induction false} PrefixOfMore(a: string, b: string, c: string)
    ensures a <= b ==> a <= b + c
  {
  }

  lemma {:induction false} SameWordByWord(c: seq<string>, tokens: seq<string>)
    requires |c| <= |tokens| && Words(tokens[..|c|]) == Words(c)
    ensures forall i :: 0 <= i < |c| ==> RStrip(c[i]) == RStrip(tokens[i])
  {
    assert forall i :: 0 <= i < |c| ==> Words(tokens[..|c|])[i] == Words(c)[i];
  }

  /** A step over stripped text keeps the committed tokens plain. */
  lemma {:induction false} StepStaysPlain(fold: Casefold, a: Agreement, tokens: seq<string>)
    requires Plain(a.committed) && Plain(tokens)
    ensures Plain(FoldIn(fold, a, tokens).committed)
  {
    if StandingOf(fold, a.committed, tokens) != Contradicts {
      WordsExtend(fold, a, tokens);
      RecasedShape(fold, a.committed, tokens);
      assert Plain(Recased(fold, a.committed, tokens));
    }
  }

  /** A hypothesis that was folded in without contradiction extends what is committed afterwards. */
  predicate Covers(fold: Casefold, committed: seq<string>, hypothesis: string) {
    StandingOf(fold, committed, Tokenize(hypothesis)) != Contradicts && Extends(fold, committed, hypothesis)
  }

  lemma {:induction false} FoldedInIsCovered(fold: Casefold, a: Agreement, hypothesis: string)
    requires !AfterUpdate(fold, a, hypothesis).1.conflict
    ensures Covers(fold, AfterUpdate(fold, a, hypothesis).0.committed, hypothesis)
  {
    var tokens := Tokenize(hypothesis);
    WordsExtend(fold, a, tokens);
    RecasedShape(fold, a.committed, tokens);
    TokenizeRoundTrip(hypothesis);
    StandingStays(fold, a.committed, tokens, FoldIn(fold, a, tokens).committed);
    ConcatSplit(tokens, |FoldIn(fold, a, tokens).committed|);
  }

  lemma {:induction false} StandingStays(fold: Casefold, c: seq<string>, tokens: seq<string>, c': seq<string>)
    requires StandingOf(fold, c, tokens) != Contradicts
    requires |c| <= |c'| <= |tokens| && |Recased(fold, c, tokens)| == |tokens|
    requires c' == Recased(fold, c, tokens)[..|c'|]
    ensures StandingOf(fold, c', tokens) == StandingOf(fold, c, tokens)
    ensures StandingOf(fold, c, tokens) == Repeats ==> c' == tokens[..|c'|]
  {
    var head, head' := SliceTo(tokens, |c|), SliceTo(tokens, |c'|);
    if StandingOf(fold, c, tokens) == Recases {
      assert c'[..|c|] == c && head'[..|c|] == head && c'[|c|..] == head'[|c|..];
      SameFoldsStay(fold, c, head, c', head');
      if Words(head') == Words(c') {
        SameWordsStay(c, head, c', head');
      }
    }
  }

  lemma {:induction false} SameWordsStay(c: seq<string>, head: seq<string>, c': seq<string>, head': seq<string>)
    requires |c| == |head| <= |c'| == |head'| && c'[..|c|] == c && head'[..|c|] == head
    requires Words(head') == Words(c')
    ensures Words(head) == Words(c)
  {
    forall i | 0 <= i < |c|
      ensures Words(head)[i] == Words(c)[i]
    {
      assert Words(head')[i] == Words(c')[i];
      assert head'[i] == head[i] && c'[i] == c[i];
    }
  }

  lemma {:induction false} SameFoldsStay(fold: Casefold, c: seq<string>, head: seq<string>, c': seq<string>, head': seq<string>)
    requires |c| == |head| <= |c'| == |head'| && c'[..|c|] == c && head'[..|c|] == head
    requires c'[|c|..] == head'[|c|..] && SameWordsIgnoringCase(fold, head, c)
    ensures SameWordsIgnoringCase(fold, head', c')
  {
    forall i | 0 <= i < |c'|
      ensures FoldAll(fold, Words(head'))[i] == FoldAll(fold, Words(c'))[i]
    {
      if i < |c| {
        assert FoldAll(fold, Words(head))[i] == FoldAll(fold, Words(c))[i];
        assert head'[i] == head[i] && c'[i] == c[i];
      } else {
        assert c'[i] == c'[|c|..][i - |c|] && head'[i] == head'[|c|..][i - |c|];
      }
    }
  }

  /** Sealing with the whole hypothesis grows the text shown exactly when it extends it. */
  lemma {:induction false} SealGrowsIffExtends(fold: Casefold, a: Agreement, hypothesis: string)
    requires !AfterCommitAll(fold, a, hypothesis).1.conflict
    ensures a.Committed() <= AfterCommitAll(fold, a, hypothesis).1.stable <==> Extends(fold, a.committed, hypothesis)
  {
    var tokens := Tokenize(hypothesis);
    RecasedShape(fold, a.committed, tokens);
    TokenizeRoundTrip(hypothesis);
    if StandingOf(fold, a.committed, tokens) == Recases {
      ConcatAppend(a.committed, SliceFrom(tokens, |a.committed|));
    }
  }

  /**
   * Sealing commits the whole hypothesis and forgets what was remembered: it seals again as it is, and no single
   * reading after it commits more.
   */
  lemma {:induction false} SealingStartsOver(fold: Casefold, a: Agreement, hypothesis: string, reading: seq<string>)
    requires !AfterCommitAll(fold, a, hypothesis).1.conflict
    ensures var (a', r) := AfterCommitAll(fold, a, hypothesis);
            && a'.Committed() == r.stable && |a'.committed| == |Tokenize(hypothesis)| && a'.history == [] && a'.window == a.window
            && Words(a.committed) <= Words(a'.committed)
            && |FoldIn(fold, a', reading).committed| == |a'.committed|
  {
    var tokens := Tokenize(hypothesis);
    var (a', r) := AfterCommitAll(fold, a, hypothesis);
    RecasedShape(fold, a.committed, tokens);
    assert Words(a'.committed)[..|a.committed|] == Words(a'.committed[..|a.committed|]);
    if StandingOf(fold, a'.committed, reading) != Contradicts {
      CommitsTheLongestAgreement(fold, a', reading);
    }
  }

  /**
   * The protocol calls `stable` append-only. It is not: two readings that agree on "ab " commit it, and a
   * third that ends right there takes the space back.
   */
  lemma {:induction false} StableCanShrink(fold: Casefold)
    ensures var a := AfterUpdate(fold, AfterUpdate(fold, Fresh(2), "ab" + " " + "cd").0, "ab" + " " + "ce").0;
            var r := AfterUpdate(fold, a, "ab").1;
            a.Committed() == "ab " && !r.conflict && r.stable == "ab" && !(a.Committed() <= r.stable)
  {
    SampleTokens();
    SampleRun(fold);
    ConcatOne("ab ");
    ConcatOne("ab");
  }

  lemma {:induction false} SampleRun(fold: Casefold)
    ensures FoldIn(fold, Fresh(2), ["ab ", "cd"]) == Agreement(2, [["ab ", "cd"]], [])
    ensures FoldIn(fold, Agreement(2, [["ab ", "cd"]], []), ["ab ", "ce"]) == Agreement(2, [["ab ", "ce"]], ["ab "])
    ensures StandingOf(fold, ["ab "], ["ab"]) == Repeats
    ensures FoldIn(fold, Agreement(2, [["ab ", "ce"]], ["ab "]), ["ab"]).committed == ["ab"]
  {
    assert Words([]) == [];
    SampleAgreement();
    RStripUnique("ab", " ");
    RStripUnique("ab", "");
    assert "ab" + " " == "ab " && "ab" + "" == "ab";
    assert Words(["ab"]) == ["ab"] == Words(["ab "]);
  }

  lemma {:induction false} SampleAgreement()
    ensures Settled(Agreed(["ab ", "ce"], [["ab ", "cd"]])) == ["ab "]
    ensures Settled(Agreed(["ab"], [["ab ", "ce"]])) == []
  {
    assert CommonPrefixOf(["ab ", "ce"], ["ab ", "cd"]) == ["ab "];
    assert Agreed(["ab ", "ce"], [["ab ", "cd"]]) == ["ab "];
    assert CommonPrefixOf(["ab"], ["ab ", "ce"]) == [];
    assert Agreed(["ab"], [["ab ", "ce"]]) == [];
  }

  lemma {:induction false} SampleTokens()
    ensures Tokenize("ab" + " " + "cd") == ["ab ", "cd"]
    ensures Tokenize("ab" + " " + "ce") == ["ab ", "ce"]
    ensures Tokenize("ab") == ["ab"]
  {
    assert "ab" + " " == "ab ";
    TwoWords("ab", " ", "cd");
    TwoWords("ab", " ", "ce");
    OneWord("ab");
  }

  lemma {:induction false} OneWord(word: string)
    requires word != "" && forall i :: 0 <= i < |word| ==> !IsSpace(word[i])
    ensures Tokenize(word) == [word]
  {
    SampleToken(word, "");
    assert word + "" == word;
    RetokenizeWellFormed([word]);
    ConcatOne(word);
  }

  lemma {:induction false} TwoWords(word: string, gap: string, last: string)
    requires word != "" && forall i :: 0 <= i < |word| ==> !IsSpace(word[i])
    requires last != "" && forall i :: 0 <= i < |last| ==> !IsSpace(last[i])
    requires gap != "" && Blank(gap)
    ensures Tokenize(word + gap + last) == [word + gap, last]
  {
    SampleToken(word, gap);
    SampleToken(last, "");
    assert last + "" == last;
    TwoTokens(word + gap, last);
  }

  lemma {:induction false} SampleToken(word: string, gap: string)
    requires word != "" && forall i :: 0 <= i < |word| ==> !IsSpace(word[i])
    requires Blank(gap)
    ensures IsToken(word + gap)
  {
    TokenEndUnique(word, gap, "");
    assert word + gap + "" == word + gap;
  }

  lemma {:induction false} TwoTokens(s: string, t: string)
    requires IsToken(s) && EndsInSpace(s) && IsToken(t)
    ensures Tokenize(s + t) == [s, t]
  {
    assert WellFormed([s, t]);
    assert [s, t][1..] == [t];
    ConcatOne(t);
    assert Concat([s, t]) == s + t;
    RetokenizeWellFormed([s, t]);
  }

  // ---- Runs of updates ----

  /** The state after a run of readings. */
  function FoldInAll(fold: Casefold, a: Agreement, readings: seq<seq<string>>): Agreement {
    if readings == [] then a
    else
      var n := |readings| - 1;
      FoldIn(fold, FoldInAll(fold, a, readings[..n]), readings[n])
  }

  /** The token list each step of a run remembers, oldest first. */
  function Remembered(fold: Casefold, a: Agreement, readings: seq<seq<string>>): (log: seq<seq<string>>)
    ensures |log| == |readings|
  {
    if readings == [] then []
    else
      var n := |readings| - 1;
      var before := FoldInAll(fold, a, readings[..n]);
      Remembered(fold, a, readings[..n]) + [Recased(fold, before.committed, readings[n])]
  }

  lemma {:induction false} StepExtends(fold: Casefold, a: Agreement, reading: seq<string>)
    ensures Words(a.committed) <= Words(FoldIn(fold, a, reading).committed)
  {
    if StandingOf(fold, a.committed, reading) != Contradicts {
      WordsExtend(fold, a, reading);
    }
  }

  /** Over any run, contradictions included, the committed word list only extends. */
  lemma {:induction false} CommittedWordsOnlyExtend(fold: Casefold, a: Agreement, readings: seq<seq<string>>, k: nat)
    requires k <= |readings|
    ensures Words(FoldInAll(fold, a, readings[..k]).committed) <= Words(FoldInAll(fold, a, readings).committed)
  {
    if k == |readings| {
      assert readings[..k] == readings;
    } else {
      var init := readings[..|readings| - 1];
      assert init[..k] == readings[..k];
      CommittedWordsOnlyExtend(fold, a, init, k);
      StepExtends(fold, FoldInAll(fold, a, init), readings[|init|]);
    }
  }

  /** `history` is the end of `log`. */
  predicate Recent(history: seq<seq<string>>, log: seq<seq<string>>, limit: nat) {
    |history| <= limit && |history| <= |log| && history == log[|log| - |history|..]
  }

  lemma {:induction false} PushStaysRecent(history: seq<seq<string>>, log: seq<seq<string>>, x: seq<string>, limit: nat)
    requires Recent(history, log, limit) && limit > 0
    ensures Recent(Push(history, x, limit), log + [x], limit)
    ensures Recent(Push([], x, limit), log + [x], limit)
  {
  }

  lemma {:induction false} StepStaysRecent(fold: Casefold, a: Agreement, reading: seq<string>, log: seq<seq<string>>)
    requires Recent(a.history, log, a.window - 1)
    ensures var a' := FoldIn(fold, a, reading);
            && a'.window == a.window
            && Recent(a'.history, log + [Recased(fold, a.committed, reading)], a.window - 1)
  {
    PushStaysRecent(a.history, log, Recased(fold, a.committed, reading), a.window - 1);
  }

  /** The memory holds the latest readings of the run, at most n-1 of them. */
  lemma {:induction false} MemoryIsRecent(fold: Casefold, window: Window, readings: seq<seq<string>>)
    ensures var a := FoldInAll(fold, Fresh(window), readings);
            && a.window == window
            && Recent(a.history, Remembered(fold, Fresh(window), readings), window - 1)
  {
    if readings != [] {
      var init, reading := readings[..|readings| - 1], readings[|readings| - 1];
      var before, log := FoldInAll(fold, Fresh(window), init), Remembered(fold, Fresh(window), init);
      MemoryIsRecent(fold, window, init);
      StepStaysRecent(fold, before, reading, log);
      RunSnoc(fold, Fresh(window), readings);
    }
  }

  /** The last `n` of what was remembered have the token at the index. */
  predicate AgreedAt(log: seq<seq<string>>, n: nat, i: nat, token: string) {
    n <= |log| && forall j :: |log| - n <= j < |log| ==> i < |log[j]| && log[j][i] == token
  }

  /** One step of a run, from the state and the memory before it. */
  lemma {:induction false} RunSnoc(fold: Casefold, a: Agreement, readings: seq<seq<string>>)
    requires readings != []
    ensures var init, reading := readings[..|readings| - 1], readings[|readings| - 1];
            var before := FoldInAll(fold, a, init);
            && FoldInAll(fold, a, readings) == FoldIn(fold, before, reading)
            && Remembered(fold, a, readings) == Remembered(fold, a, init) + [Recased(fold, before.committed, reading)]
  {
  }

  lemma {:induction false} StepAgrees(fold: Casefold, a: Agreement, log: seq<seq<string>>, reading: seq<string>, i: nat)
    requires Recent(a.history, log, a.window - 1)
    requires |a.committed| <= i < |FoldIn(fold, a, reading).committed|
    ensures AgreedAt(log + [Recased(fold, a.committed, reading)], a.window, i, FoldIn(fold, a, reading).committed[i])
  {
    NewTokenIsShared(fold, a, reading, i);
    RecentHolds(a.history, log, Recased(fold, a.committed, reading), a.window - 1, i);
  }

  /**
   * Over any run from a fresh start, a token that a step newly commits is byte for byte the token at
   * its index in n consecutive remembered readings, the latest of them this step's.
   */
  lemma {:induction false} CommitsOnlyWhatNAgreeOn(fold: Casefold, window: Window, readings: seq<seq<string>>, i: nat)
    requires readings != []
    requires |FoldInAll(fold, Fresh(window), readings[..|readings| - 1]).committed| <= i
    requires i < |FoldInAll(fold, Fresh(window), readings).committed|
    ensures AgreedAt(Remembered(fold, Fresh(window), readings), window, i, FoldInAll(fold, Fresh(window), readings).committed[i])
  {
    var init, reading := readings[..|readings| - 1], readings[|readings| - 1];
    RunSnoc(fold, Fresh(window), readings);
    MemoryIsRecent(fold, window, init);
    StepAgrees(fold, FoldInAll(fold, Fresh(window), init), Remembered(fold, Fresh(window), init), reading, i);
  }

  lemma {:induction false} NewTokenIsShared(fold: Casefold, a: Agreement, reading: seq<string>, i: nat)
    requires |a.committed| <= i < |FoldIn(fold, a, reading).committed|
    ensures |a.history| + 1 >= a.window
    ensures var tokens := Recased(fold, a.committed, reading);
            && i < |tokens| && FoldIn(fold, a, reading).committed[i] == tokens[i]
            && forall k :: 0 <= k < |a.history| ==> i < |a.history[k]| && a.history[k][i] == tokens[i]
  {
    NewTokensAreCommittable(fold, a, reading);
    SharedAtIndex(a.history, Recased(fold, a.committed, reading), |FoldIn(fold, a, reading).committed|, i);
  }

  lemma {:induction false} NewTokensAreCommittable(fold: Casefold, a: Agreement, reading: seq<string>)
    requires |a.committed| < |FoldIn(fold, a, reading).committed|
    ensures var tokens, committed := Recased(fold, a.committed, reading), FoldIn(fold, a, reading).committed;
            |a.history| + 1 >= a.window && committed <= tokens && Committable(a.history, tokens, |committed|)
  {
    WordsExtend(fold, a, reading);
    CommitsTheLongestAgreement(fold, a, reading);
  }

  lemma {:induction false} RecentHolds(history: seq<seq<string>>, log: seq<seq<string>>, tokens: seq<string>, limit: nat, i: nat)
    requires Recent(history, log, limit) && |history| == limit && i < |tokens|
    requires forall k :: 0 <= k < |history| ==> i < |history[k]| && history[k][i] == tokens[i]
    ensures AgreedAt(log + [tokens], limit + 1, i, tokens[i])
  {
    assert forall j :: |log| - limit <= j < |log| ==> log[j] == history[j - (|log| - limit)];
  }

  lemma {:induction false} SharedAtIndex(history: seq<seq<string>>, tokens: seq<string>, m: nat, i: nat)
    requires Committable(history, tokens, m) && i < m
    ensures forall k :: 0 <= k < |history| ==> i < |history[k]| && history[k][i] == tokens[i]
  {
    forall k | 0 <= k < |history|
      ensures i < |history[k]| && history[k][i] == tokens[i]
    {
      assert tokens[..m] <= history[k];
      assert tokens[..m][i] == tokens[i];
    }
  }

  /** What a reading that does not conflict comes to, from the tokens it is taken as. */
  lemma {:induction false} UpdateUnfolds(fold: Casefold, a: Agreement, hypothesis: string, tokens: seq<string>, shown: string,
                                         committed: seq<string>)
    requires StandingOf(fold, a.committed, Tokenize(hypothesis)) != Contradicts
    requires tokens == Recased(fold, a.committed, Tokenize(hypothesis)) && shown == Concat(tokens)
    requires committed == NewCommitted(a.window, a.history, tokens, |a.committed|)
    ensures AfterUpdate(fold, a, hypothesis) ==
              (Agreement(a.window, Push(a.history, tokens, a.window - 1), committed),
               AgreementResult(Concat(committed), SliceFrom(shown, |Concat(committed)|), false))
  {
  }

  lemma {:induction false} ConflictUnfolds(fold: Casefold, a: Agreement, hypothesis: string)
    requires StandingOf(fold, a.committed, Tokenize(hypothesis)) == Contradicts
    ensures AfterUpdate(fold, a, hypothesis) ==
              (a.(history := Push([], Tokenize(hypothesis), a.window - 1)), AgreementResult(Concat(a.committed), "", true))
  {
  }

  // ---- The policy as the object the session owns ----

  class LocalAgreement {
    const window: Window
    var history: seq<seq<string>>
    var committed: seq<string>

    ghost function Model(): Agreement
      reads this
    {
      Agreement(window, history, committed)
    }

    constructor (window: Window)
      ensures Model() == Fresh(window)
    {
      this.window := window;
      history := [];
      committed := [];
    }

    method Reset(text: string)
      modifies this
      ensures Model() == AfterReset(old(Model()), text)
    {
      history := [];
      committed := Tokenize(text);
    }

    method Update(fold: Casefold, hypothesis: string) returns (r: AgreementResult)
      modifies this
      ensures (Model(), r) == AfterUpdate(fold, old(Model()), hypothesis)
    {
      hide AfterUpdate, NewCommitted;
      var conflict, tokens, shown := Align(fold, committed, hypothesis);
      ghost var was := Model();
      if conflict {
        history := Push([], tokens, window - 1);
        ConflictUnfolds(fold, was, hypothesis);
        return AgreementResult(Concat(committed), "", true);
      }
      committed := AnchorAndExtend(window, history, tokens, |committed|);
      history := Push(history, tokens, window - 1);
      var stable := Concat(committed);
      UpdateUnfolds(fold, was, hypothesis, tokens, shown, committed);
      return AgreementResult(stable, SliceFrom(shown, |stable|), false);
    }

    method CommitAll(fold: Casefold, hypothesis: string) returns (r: AgreementResult)
      modifies this
      ensures (Model(), r) == AfterCommitAll(fold, old(Model()), hypothesis)
    {
      var tokens := Tokenize(hypothesis);
      var head := SliceTo(tokens, |committed|);
      if Words(head) != Words(committed) {
        if !SameWordsIgnoringCase(fold, head, committed) {
          return AgreementResult(Concat(committed), "", true);
        }
        tokens := committed + SliceFrom(tokens, |committed|);
      }
      committed := tokens;
      history := [];
      return AgreementResult(Concat(tokens), "", false);
    }
  }

  /** The first half of `update`: whether the hypothesis contradicts what is committed, and how it is taken if not. */
  method Align(fold: Casefold, committed: seq<string>, hypothesis: string)
    returns (conflict: bool, tokens: seq<string>, shown: string)
    ensures conflict <==> StandingOf(fold, committed, Tokenize(hypothesis)) == Contradicts
    ensures conflict ==> tokens == Tokenize(hypothesis)
    ensures !conflict ==> tokens == Recased(fold, committed, Tokenize(hypothesis)) && shown == Concat(tokens)
  {
    tokens := Tokenize(hypothesis);
    shown := hypothesis;
    var n := |committed|;
    var head := SliceTo(tokens, n);
    TokenizeRoundTrip(hypothesis);
    if Words(head) != Words(committed) {
      if !SameWordsIgnoringCase(fold, head, committed) {
        return true, tokens, shown;
      }
      tokens := committed + SliceFrom(tokens, n);
      shown := Concat(tokens);
    }
    return false, tokens, shown;
  }

  /** The second half of `update`: re-anchor the committed tokens, then commit what else is agreed. */
  method AnchorAndExtend(window: Window, history: seq<seq<string>>, tokens: seq<string>, n: nat)
    returns (committed: seq<string>)
    ensures committed == NewCommitted(window, history, tokens, n)
  {
    committed := SliceTo(tokens, n);
    if |history| >= window - 1 {
      var agreed := AgreedBeyond(tokens, history, n);
      while agreed != [] && !EndsInSpace(agreed[|agreed| - 1])
        invariant Settled(agreed) == Settled(AgreedBeyondOf(tokens, history, n))
      {
        agreed := agreed[..|agreed| - 1];
      }
      BreakingEarlyIsHarmless(tokens, history, n);
      if |agreed| > n {
        committed := agreed;
      }
    }
  }

  /** What the loop over the memory leaves, stopping once nothing new can come of it. */
  function AgreedBeyondOf(tokens: seq<string>, history: seq<seq<string>>, n: nat): (agreed: seq<string>)
    ensures agreed <= tokens
    decreases |history|
  {
    if history == [] then tokens
    else
      var shared := CommonPrefixOf(tokens, history[0]);
      if |shared| <= n then shared else AgreedBeyondOf(shared, history[1..], n)
  }

  method AgreedBeyond(tokens: seq<string>, history: seq<seq<string>>, n: nat) returns (agreed: seq<string>)
    ensures agreed == AgreedBeyondOf(tokens, history, n)
  {
    agreed := tokens;
    for i := 0 to |history|
      invariant AgreedBeyondOf(agreed, history[i..], n) == AgreedBeyondOf(tokens, history, n)
    {
      var rest := history[i..];
      assert rest[1..] == history[i + 1..];
      agreed := CommonPrefix(agreed, history[i]);
      if |agreed| <= n {
        break;
      }
    }
  }

  lemma {:induction false} BreakingEarlyIsHarmless(tokens: seq<string>, history: seq<seq<string>>, n: nat)
    ensures var early, full := AgreedBeyondOf(tokens, history, n), Agreed(tokens, history);
            early == full || (|early| <= n && |full| <= n)
    decreases |history|
  {
    if history != [] {
      BreakingEarlyIsHarmless(CommonPrefixOf(tokens, history[0]), history[1..], n);
    }
  }
}
