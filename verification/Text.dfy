/** Strings as the server handles them: whitespace, stripping, joining and case folding. */
module Text {

  /** A Unicode case folding: Python's `str.casefold` maps each character to one or more characters. */
  type Casefold = char -> string

  /** Python's `str.isspace` for one character; `\s` in a `str` pattern matches the same set. */
  predicate IsSpace(c: char) {
    var u := c as int;
    || 0x09 <= u <= 0x0D || 0x1C <= u <= 0x20 || u == 0x85 || u == 0xA0 || u == 0x1680
    || 0x2000 <= u <= 0x200A || u == 0x2028 || u == 0x2029 || u == 0x202F || u == 0x205F || u == 0x3000
  }

  predicate Blank(s: string) {
    forall i :: 0 <= i < |s| ==> IsSpace(s[i])
  }

  predicate EndsInSpace(s: string) {
    s != "" && IsSpace(s[|s| - 1])
  }

  /** The first index from `i` on that does not hold whitespace. */
  function SkipSpaces(s: string, i: nat): (n: nat)
    requires i <= |s|
    ensures i <= n <= |s|
    decreases |s| - i
  {
    if i == |s| || !IsSpace(s[i]) then i else SkipSpaces(s, i + 1)
  }

  /** The first index from `i` on that holds whitespace. */
  function SkipWord(s: string, i: nat): (n: nat)
    requires i <= |s|
    ensures i <= n <= |s|
    decreases |s| - i
  {
    if i == |s| || IsSpace(s[i]) then i else SkipWord(s, i + 1)
  }

  lemma {:induction false} SkipSpacesStops(s: string, i: nat)
    requires i <= |s|
    ensures var n := SkipSpaces(s, i);
            (forall k :: i <= k < n ==> IsSpace(s[k])) && (n < |s| ==> !IsSpace(s[n]))
    decreases |s| - i
  {
    if i < |s| && IsSpace(s[i]) {
      SkipSpacesStops(s, i + 1);
    }
  }

  lemma {:induction false} SkipWordStops(s: string, i: nat)
    requires i <= |s|
    ensures var n := SkipWord(s, i);
            (forall k :: i <= k < n ==> !IsSpace(s[k])) && (n < |s| ==> IsSpace(s[n]))
    decreases |s| - i
  {
    if i < |s| && !IsSpace(s[i]) {
      SkipWordStops(s, i + 1);
    }
  }

  /** Length of the run of whitespace that `s` opens with. */
  function Spaces(s: string): nat {
    SkipSpaces(s, 0)
  }

  function LStrip(s: string): string {
    s[Spaces(s)..]
  }

  function RStrip(s: string): string {
    if EndsInSpace(s) then RStrip(s[..|s| - 1]) else s
  }

  function Strip(s: string): string {
    RStrip(LStrip(s))
  }

  /** `"".join(parts)`. */
  function Concat(parts: seq<string>): string {
    if parts == [] then "" else parts[0] + Concat(parts[1..])
  }

  /** `s[n:]`, which Python defines past the end as well. */
  function SliceFrom<T>(s: seq<T>, n: nat): seq<T> {
    if n <= |s| then s[n..] else []
  }

  /** `s[:n]`, which Python defines past the end as well. */
  function SliceTo<T>(s: seq<T>, n: nat): seq<T> {
    if n <= |s| then s[..n] else s
  }

  /** `s.casefold()`: character by character, without context. */
  function Fold(fold: Casefold, s: string): string {
    if s == "" then "" else fold(s[0]) + Fold(fold, s[1..])
  }

  lemma {:induction false} ConcatAppend(a: seq<string>, b: seq<string>)
    ensures Concat(a + b) == Concat(a) + Concat(b)
  {
    if a == [] {
      assert a + b == b;
    } else {
      assert (a + b)[1..] == a[1..] + b;
      ConcatAppend(a[1..], b);
    }
  }

  lemma {:induction false} ConcatSplit(ts: seq<string>, k: nat)
    requires k <= |ts|
    ensures Concat(ts) == Concat(ts[..k]) + Concat(ts[k..])
  {
    ConcatAppend(ts[..k], ts[k..]);
    assert ts[..k] + ts[k..] == ts;
  }

  /** The decomposition of a string into stripped text and the whitespace around it is unique. */
  lemma {:induction false} StripUnique(a: string, m: string, b: string)
    requires Blank(a) && Blank(b)
    requires m != "" && !IsSpace(m[0]) && !IsSpace(m[|m| - 1])
    ensures Spaces(a + m + b) == |a|
    ensures RStrip(m + b) == m
    ensures Strip(a + m + b) == m
  {
    SpacesUnique(a, m + b);
    assert a + m + b == a + (m + b);
    assert LStrip(a + m + b) == m + b;
    RStripUnique(m, b);
  }

  lemma {:induction false} SpacesUnique(a: string, rest: string)
    requires Blank(a)
    requires rest == "" || !IsSpace(rest[0])
    ensures Spaces(a + rest) == |a|
  {
    var s := a + rest;
    SkipSpacesStops(s, 0);
    assert forall i :: 0 <= i < |a| ==> s[i] == a[i];
    assert rest != "" ==> s[|a|] == rest[0];
  }

  lemma {:induction false} RStripUnique(m: string, b: string)
    requires Blank(b)
    requires m == "" || !IsSpace(m[|m| - 1])
    ensures RStrip(m + b) == m
  {
    if b == "" {
      assert m + b == m;
    } else {
      assert (m + b)[..|m + b| - 1] == m + b[..|b| - 1];
      RStripUnique(m, b[..|b| - 1]);
    }
  }

  lemma {:induction false} RStripShape(s: string)
    ensures RStrip(s) <= s
    ensures RStrip(s) != "" ==> !IsSpace(RStrip(s)[|RStrip(s)| - 1])
    ensures Blank(s[|RStrip(s)|..])
  {
    if EndsInSpace(s) {
      RStripShape(s[..|s| - 1]);
      assert s == s[..|s| - 1] + [s[|s| - 1]];
    }
  }

  /** Stripping yields nothing exactly when there is nothing but whitespace. */
  lemma {:induction false} StripBlank(s: string)
    ensures Strip(s) == "" <==> Blank(s)
  {
    var n := Spaces(s);
    SkipSpacesStops(s, 0);
    RStripShape(LStrip(s));
    assert n < |s| ==> LStrip(s)[0] == s[n];
    assert n == |s| ==> s[..n] == s;
  }

  /** What `strip` leaves neither opens nor closes with whitespace. */
  lemma {:induction false} StripEnds(s: string)
    ensures var r := Strip(s); r != "" ==> !IsSpace(r[0]) && !IsSpace(r[|r| - 1])
  {
    var l := LStrip(s);
    SkipSpacesStops(s, 0);
    RStripShape(l);
    if Strip(s) != "" {
      assert Strip(s)[0] == l[0];
    }
  }
}
