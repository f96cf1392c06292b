/** Whitespace-delimited tokens that keep their trailing whitespace (server/app/streaming/local_agreement.py). */
module Tokens {
  import opened Text

  /** Where the token that opens `s` ends: past its word and the whitespace after it. */
  function TokenEnd(s: string): (m: nat)
    ensures SkipWord(s, 0) <= m <= |s|
  {
    SkipSpaces(s, SkipWord(s, 0))
  }

  /** `_TOKEN.findall(text)` for the pattern `\S+\s*`, on text that opens with a word. */
  function FindAll(text: string): seq<string>
    decreases |text|
  {
    if SkipWord(text, 0) == 0 then []
    else
      var m := TokenEnd(text);
      [text[..m]] + FindAll(text[m..])
  }

  function Tokenize(text: string): seq<string> {
    var lead := Spaces(text);
    var tokens := FindAll(text[lead..]);
    if tokens == [] then
      if text != "" then [text] else []
    else if lead > 0 then
      tokens[0 := text[..lead] + tokens[0]]
    else
      tokens
  }

  /** One word and the whitespace after it. */
  predicate IsToken(t: string) {
    t != "" && !IsSpace(t[0]) && TokenEnd(t) == |t|
  }

  /** Tokens in which only the last word may lack trailing whitespace. */
  predicate WellFormed(ts: seq<string>) {
    && (forall i :: 0 <= i < |ts| ==> IsToken(ts[i]))
    && (forall i :: 0 <= i < |ts| - 1 ==> EndsInSpace(ts[i]))
  }

  /** Exactly the lists `Tokenize` can produce. */
  predicate Canonical(ts: seq<string>) {
    || WellFormed(ts)
    || (|ts| == 1 && ts[0] != "" && Blank(ts[0]))
    || (|ts| > 0 && WellFormed([LStrip(ts[0])] + ts[1..]))
  }

  /** A token is a word and then whitespace, and that decomposition is the only one. */
  lemma {:induction false} TokenEndUnique(word: string, space: string, rest: string)
    requires word != "" && forall i :: 0 <= i < |word| ==> !IsSpace(word[i])
    requires Blank(space)
    requires rest == "" || (!IsSpace(rest[0]) && space != "")
    ensures TokenEnd(word + space + rest) == |word| + |space|
  {
    var s := word + space + rest;
    assert forall i :: 0 <= i < |word| ==> s[i] == word[i];
    assert forall i :: |word| <= i < |word| + |space| ==> s[i] == space[i - |word|];
    SkipWordStops(s, 0);
    SkipSpacesStops(s, SkipWord(s, 0));
    assert rest != "" ==> s[|word| + |space|] == rest[0];
    assert space != "" ==> s[|word|] == space[0];
  }

  /** The word of a token. */
  function Word(t: string): string {
    t[..SkipWord(t, 0)]
  }

  /** The whitespace after the word of a token. */
  function Gap(t: string): string {
    t[SkipWord(t, 0)..]
  }

  lemma {:induction false} TokenParts(t: string)
    requires IsToken(t)
    ensures Word(t) + Gap(t) == t && Word(t) != "" && Blank(Gap(t))
    ensures forall i :: 0 <= i < |Word(t)| ==> !IsSpace(Word(t)[i])
    ensures RStrip(t) == Word(t)
    ensures EndsInSpace(t) <==> Gap(t) != ""
  {
    SkipWordStops(t, 0);
    SkipSpacesStops(t, SkipWord(t, 0));
    RStripUnique(Word(t), Gap(t));
  }

  /** The first word of a text, with the whitespace after it, is one token. */
  lemma {:induction false} TokenAtFront(text: string)
    requires text != "" && !IsSpace(text[0])
    ensures var m := TokenEnd(text);
            && IsToken(text[..m])
            && (m < |text| ==> !IsSpace(text[m]) && EndsInSpace(text[..m]))
  {
    var n := SkipWord(text, 0);
    var m := TokenEnd(text);
    SkipWordStops(text, 0);
    SkipSpacesStops(text, n);
    TokenEndUnique(text[..n], text[n..m], "");
    assert text[..n] + text[n..m] + "" == text[..m];
  }

  lemma {:induction false} WellFormedCons(t: string, ts: seq<string>)
    requires IsToken(t) && WellFormed(ts)
    requires ts != [] ==> EndsInSpace(t)
    ensures WellFormed([t] + ts)
    ensures Concat([t] + ts) == t + Concat(ts)
  {
    assert ([t] + ts)[1..] == ts;
  }

  lemma {:induction false} FindAllShape(text: string)
    requires text == "" || !IsSpace(text[0])
    ensures WellFormed(FindAll(text))
    ensures Concat(FindAll(text)) == text
    ensures text != "" ==> FindAll(text) != []
    decreases |text|
  {
    if text != "" {
      var m := TokenEnd(text);
      TokenAtFront(text);
      FindAllShape(text[m..]);
      WellFormedCons(text[..m], FindAll(text[m..]));
      assert text[..m] + text[m..] == text;
    }
  }

  /** A token followed by anything that opens with a word is found again as it was. */
  lemma {:induction false} TokenSplitsOff(t: string, rest: string)
    requires IsToken(t)
    requires rest == "" || (!IsSpace(rest[0]) && EndsInSpace(t))
    ensures FindAll(t + rest) == [t] + FindAll(rest)
  {
    TokenParts(t);
    TokenEndUnique(Word(t), Gap(t), rest);
    assert Word(t) + Gap(t) + rest == t + rest;
    assert (t + rest)[..|t|] == t && (t + rest)[|t|..] == rest;
  }

  lemma {:induction false} FindAllOfWellFormed(ts: seq<string>)
    requires WellFormed(ts)
    ensures Concat(ts) == "" || !IsSpace(Concat(ts)[0])
    ensures Concat(ts) == "" <==> ts == []
    ensures FindAll(Concat(ts)) == ts
  {
    if ts == [] {
    } else {
      assert WellFormed(ts[1..]);
      FindAllOfWellFormed(ts[1..]);
      assert |ts| > 1 ==> EndsInSpace(ts[0]);
      TokenSplitsOff(ts[0], Concat(ts[1..]));
      assert ts == [ts[0]] + ts[1..];
    }
  }

  /** Leading whitespace is folded into the first token. */
  lemma {:induction false} TokenizePastSpace(lead: string, rest: string)
    requires Blank(lead)
    requires rest != "" && !IsSpace(rest[0])
    ensures FindAll(rest) != []
    ensures Tokenize(lead + rest) == FindAll(rest)[0 := lead + FindAll(rest)[0]]
  {
    SpacesUnique(lead, rest);
    FindAllShape(rest);
    assert (lead + rest)[|lead|..] == rest && (lead + rest)[..|lead|] == lead;
    assert lead == "" ==> lead + FindAll(rest)[0] == FindAll(rest)[0];
  }

  lemma {:induction false} TokenizeBlank(text: string)
    requires Blank(text)
    ensures Tokenize(text) == if text == "" then [] else [text]
  {
    SpacesUnique(text, "");
    assert text + "" == text;
  }

  lemma {:induction false} ConcatOne(t: string)
    ensures Concat([t]) == t
  {
    assert Concat([t]) == t + Concat([]);
  }

  /** Joining the tokens gives the text back, whatever the text. */
  lemma {:induction false} TokenizeRoundTrip(text: string)
    ensures Concat(Tokenize(text)) == text
    ensures Canonical(Tokenize(text))
  {
    var lead, rest := text[..Spaces(text)], text[Spaces(text)..];
    assert lead + rest == text;
    SkipSpacesStops(text, 0);
    if rest == "" {
      assert lead == text;
      TokenizeBlank(text);
      ConcatOne(text);
    } else {
      FindAllShape(rest);
      TokenizePastSpace(lead, rest);
      var tokens, ts := FindAll(rest), Tokenize(text);
      assert ts[1..] == tokens[1..];
      assert Concat(ts) == (lead + tokens[0]) + Concat(tokens[1..]);
      SpacesUnique(lead, tokens[0]);
      assert [LStrip(ts[0])] + ts[1..] == tokens;
    }
  }

  /** A list is what its own join tokenizes to exactly when `Tokenize` could have produced it. */
  lemma {:induction false} RetokenizeIff(ts: seq<string>)
    ensures Tokenize(Concat(ts)) == ts <==> Canonical(ts)
  {
    TokenizeRoundTrip(Concat(ts));
    if WellFormed(ts) {
      RetokenizeWellFormed(ts);
    } else if |ts| == 1 && ts[0] != "" && Blank(ts[0]) {
      ConcatOne(ts[0]);
      assert ts == [ts[0]];
      TokenizeBlank(ts[0]);
    } else if |ts| > 0 && WellFormed([LStrip(ts[0])] + ts[1..]) {
      var k := Spaces(ts[0]);
      SkipSpacesStops(ts[0], 0);
      SplitFirst(ts, k);
      LeadJoins(ts, ts[0][..k], [LStrip(ts[0])] + ts[1..]);
    }
  }

  lemma {:induction false} SplitFirst(ts: seq<string>, k: nat)
    requires |ts| > 0 && k <= |ts[0]|
    ensures ts == [ts[0][..k] + ts[0][k..]] + ts[1..]
  {
    assert ts[0] == ts[0][..k] + ts[0][k..];
  }

  lemma {:induction false} LeadJoins(ts: seq<string>, lead: string, bare: seq<string>)
    requires Blank(lead) && WellFormed(bare) && bare != []
    requires ts == [lead + bare[0]] + bare[1..]
    ensures Tokenize(Concat(ts)) == ts
  {
    var text := lead + Concat(bare);
    assert Concat(ts) == text by {
      ConcatCons(lead + bare[0], bare[1..]);
    }
    assert Tokenize(text) == ts by {
      FindAllOfWellFormed(bare);
      TokenizePastSpace(lead, Concat(bare));
    }
  }

  lemma {:induction false} ConcatCons(t: string, ts: seq<string>)
    ensures Concat([t] + ts) == t + Concat(ts)
  {
    assert ([t] + ts)[1..] == ts;
  }

  lemma {:induction false} RetokenizeWellFormed(ts: seq<string>)
    requires WellFormed(ts)
    ensures Tokenize(Concat(ts)) == ts
    ensures Concat(ts) == "" <==> ts == []
    ensures ts != [] ==> !IsSpace(Concat(ts)[0])
  {
    FindAllOfWellFormed(ts);
    TokenizeStripped(Concat(ts));
  }

  /** Text that opens with a word tokenizes without any leading whitespace. */
  lemma {:induction false} TokenizeStripped(text: string)
    requires text != "" ==> !IsSpace(text[0])
    ensures Tokenize(text) == FindAll(text)
    ensures WellFormed(Tokenize(text))
    ensures Tokenize(text) == [] <==> text == ""
    ensures Concat(Tokenize(text)) == text
  {
    FindAllShape(text);
    assert Spaces(text) == 0;
    assert text[0..] == text;
  }

  /** Cutting a token list anywhere leaves two lists that both survive being joined and tokenized again. */
  lemma {:induction false} CutsRetokenize(text: string, k: nat)
    requires k <= |Tokenize(text)|
    ensures var ts := Tokenize(text);
            && Tokenize(Concat(ts[..k])) == ts[..k]
            && Tokenize(Concat(ts[k..])) == ts[k..]
  {
    var ts := Tokenize(text);
    TokenizeRoundTrip(text);
    CutsAreCanonical(ts, k);
    RetokenizeIff(ts[..k]);
    RetokenizeIff(ts[k..]);
  }

  lemma {:induction false} CutsAreCanonical(ts: seq<string>, k: nat)
    requires Canonical(ts) && k <= |ts|
    ensures Canonical(ts[..k]) && Canonical(ts[k..])
  {
    if k == 0 {
      assert ts[k..] == ts;
    } else if k == |ts| {
      assert ts[..k] == ts;
    } else if !WellFormed(ts) {
      var bare := [LStrip(ts[0])] + ts[1..];
      assert [LStrip(ts[..k][0])] + ts[..k][1..] == bare[..k];
      assert ts[k..] == bare[k..];
    }
  }

  /** The longest list both arguments open with. */
  function CommonPrefixOf<T(==)>(a: seq<T>, b: seq<T>): (p: seq<T>)
    ensures p <= a && p <= b
    ensures |p| < |a| && |p| < |b| ==> a[|p|] != b[|p|]
  {
    if a == [] || b == [] || a[0] != b[0] then []
    else [a[0]] + CommonPrefixOf(a[1..], b[1..])
  }

  lemma {:induction false} CommonPrefixIsLongest<T>(a: seq<T>, b: seq<T>, p: seq<T>)
    requires p <= a && p <= b
    ensures p <= CommonPrefixOf(a, b)
  {
    if p != [] {
      CommonPrefixIsLongest(a[1..], b[1..], p[1..]);
    }
  }

  method CommonPrefix<T(==)>(a: seq<T>, b: seq<T>) returns (p: seq<T>)
    ensures p == CommonPrefixOf(a, b)
  {
    var limit := if |a| <= |b| then |a| else |b|;
    var i := 0;
    while i < limit && a[i] == b[i]
      invariant 0 <= i <= limit
      invariant a[..i] == b[..i]
    {
      i := i + 1;
    }
    p := a[..i];
    CommonPrefixIsLongest(a, b, p);
  }

  /** `_words`: tokens without their trailing whitespace. */
  function Words(ts: seq<string>): (ws: seq<string>)
    ensures |ws| == |ts|
    ensures forall i :: 0 <= i < |ts| ==> ws[i] == RStrip(ts[i])
  {
    seq(|ts|, i requires 0 <= i < |ts| => RStrip(ts[i]))
  }

  /** The part of `hypothesis` beyond the tokens that `typed` already covers. */
  function RemainderAfter(typed: string, hypothesis: string): string {
    Concat(SliceFrom(Tokenize(hypothesis), |Tokenize(typed)|))
  }

  /**
   * What sealing `typed` and carrying the remainder delivers: from the sealed length on, every token
   * of the reading at its own index, none twice and none missing.
   */
  lemma {:induction false} RemainderDelivers(typed: string, hypothesis: string)
    ensures var sealed, reading := Tokenize(typed), Tokenize(hypothesis);
            var rest := Tokenize(RemainderAfter(typed, hypothesis));
            && rest == SliceFrom(reading, |sealed|)
            && (|sealed| <= |reading| ==>
                  hypothesis == Concat(reading[..|sealed|]) + RemainderAfter(typed, hypothesis))
  {
    var reading := Tokenize(hypothesis);
    var k := |Tokenize(typed)|;
    TokenizeRoundTrip(hypothesis);
    if k <= |reading| {
      CutsRetokenize(hypothesis, k);
      ConcatSplit(reading, k);
    }
  }
}
