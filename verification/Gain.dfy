/** Fixed-point saturating gain over little-endian PCM (client/internal/audio/gain.go). */
module Gain {

  type Octet = b: int | 0 <= b < 256

  const MIN_GAIN: real := 0.5
  const MAX_GAIN: real := 8.0
  const GAIN_SCALE: int := 1024

  function ClampGain(multiplier: real): real {
    if multiplier < MIN_GAIN then MIN_GAIN else if multiplier > MAX_GAIN then MAX_GAIN else multiplier
  }

  /** What `set` stores: `int64` of a positive real drops the fraction. */
  function FixedOf(multiplier: real): int {
    (ClampGain(multiplier) * GAIN_SCALE as real).Floor
  }

  /** A multiplier that `set` can have stored. */
  predicate Settable(fixed: int) {
    512 <= fixed <= 8192
  }

  lemma {:induction false} SetIsSettable(multiplier: real)
    ensures Settable(FixedOf(multiplier))
    ensures MIN_GAIN <= multiplier <= MAX_GAIN ==>
              FixedOf(multiplier) as real <= multiplier * GAIN_SCALE as real < (FixedOf(multiplier) + 1) as real
  {
    var x := ClampGain(multiplier);
    assert 512.0 <= x * 1024.0 <= 8192.0;
  }

  // ---- One sample ----

  predicate IsInt16(x: int) {
    -32768 <= x <= 32767
  }

  /** The little-endian two's-complement sample in two octets. */
  function Sample(lo: Octet, hi: Octet): (x: int)
    ensures IsInt16(x)
  {
    var u := lo + 256 * hi;
    if u >= 32768 then u - 65536 else u
  }

  function Unsigned(x: int): (u: int)
    requires IsInt16(x)
    ensures 0 <= u < 65536
  {
    if x < 0 then x + 65536 else x
  }

  function Low(x: int): Octet
    requires IsInt16(x)
  {
    Unsigned(x) % 256
  }

  function High(x: int): Octet
    requires IsInt16(x)
  {
    Unsigned(x) / 256
  }

  lemma {:induction false} SampleRoundTrip(x: int, lo: Octet, hi: Octet)
    ensures IsInt16(x) ==> Sample(Low(x), High(x)) == x
    ensures Low(Sample(lo, hi)) == lo && High(Sample(lo, hi)) == hi
  {
  }

  /** Go's integer division truncates toward zero. */
  function Quotient(a: int, b: int): int
    requires b > 0
  {
    if a >= 0 then a / b else -((-a) / b)
  }

  /** Samples that would leave the 16-bit range are pinned to it. */
  function Pinned(x: int): (y: int)
    ensures IsInt16(y)
  {
    if x > 32767 then 32767 else if x < -32768 then -32768 else x
  }

  function Scaled(sample: int, fixed: int): (y: int)
    ensures IsInt16(y)
  {
    Pinned(Quotient(sample * fixed, GAIN_SCALE))
  }

  // ---- A frame ----

  /** What happens to the two octets of one sample at a given gain. */
  function Scaler(fixed: int): (Octet, Octet) -> (Octet, Octet) {
    (lo: Octet, hi: Octet) => var y := Scaled(Sample(lo, hi), fixed); (Low(y), High(y))
  }

  /** The frame with every whole sample replaced; a trailing odd octet is left alone. */
  function Mapped(pcm: seq<Octet>, f: (Octet, Octet) -> (Octet, Octet)): seq<Octet> {
    if |pcm| < 2 then pcm
    else
      var (lo, hi) := f(pcm[0], pcm[1]);
      [lo, hi] + Mapped(pcm[2..], f)
  }

  function Amplified(pcm: seq<Octet>, fixed: int): seq<Octet> {
    Mapped(pcm, Scaler(fixed))
  }

  /** `now` is `was` with everything before `index` rewritten and nothing after it. */
  predicate RewrittenTo(was: seq<Octet>, now: seq<Octet>, index: nat, f: (Octet, Octet) -> (Octet, Octet)) {
    index <= |was| == |now| == |Mapped(was, f)| && now == Mapped(was, f)[..index] + was[index..]
  }

  lemma {:induction false} MappedInTwo(pcm: seq<Octet>, f: (Octet, Octet) -> (Octet, Octet), index: nat)
    requires index % 2 == 0 && index <= |pcm|
    ensures |Mapped(pcm, f)| == |pcm|
    ensures Mapped(pcm, f)[index..] == Mapped(pcm[index..], f)
    decreases index
  {
    MappedKeepsLength(pcm, f);
    if index > 0 {
      MappedInTwo(pcm[2..], f, index - 2);
      assert pcm[2..][index - 2..] == pcm[index..];
    } else {
      assert pcm[0..] == pcm && Mapped(pcm, f)[0..] == Mapped(pcm, f);
    }
  }

  /** One step of the loop: the next two octets become final. */
  lemma {:induction false} RewriteStep(was: seq<Octet>, now: seq<Octet>, index: nat, f: (Octet, Octet) -> (Octet, Octet),
                                       lo: Octet, hi: Octet)
    requires index % 2 == 0 && index + 1 < |was| && RewrittenTo(was, now, index, f)
    requires (lo, hi) == f(was[index], was[index + 1])
    ensures RewrittenTo(was, now[index := lo][index + 1 := hi], index + 2, f)
  {
    MappedInTwo(was, f, index);
    var rest := was[index..];
    assert Mapped(rest, f)[..2] == [lo, hi];
    assert Mapped(was, f)[..index + 2] == Mapped(was, f)[..index] + Mapped(was, f)[index..][..2];
  }

  /** What is left at the end is at most an odd octet, which stays. */
  lemma {:induction false} RewrittenAll(was: seq<Octet>, now: seq<Octet>, index: nat, f: (Octet, Octet) -> (Octet, Octet))
    requires index % 2 == 0 && |was| <= index + 1 && RewrittenTo(was, now, index, f)
    ensures now == Mapped(was, f)
  {
    MappedInTwo(was, f, index);
    assert Mapped(was, f) == Mapped(was, f)[..index] + Mapped(was, f)[index..];
  }

  method Apply(pcm: array<Octet>, fixed: int)
    modifies pcm
    ensures pcm[..] == Amplified(old(pcm[..]), fixed)
  {
    ghost var was := pcm[..];
    if fixed == GAIN_SCALE {
      UnityIsIdentity(was);
      return;
    }
    ghost var f := Scaler(fixed);
    MappedKeepsLength(was, f);
    var index := 0;
    while index + 1 < pcm.Length
      invariant 0 <= index <= pcm.Length && index % 2 == 0
      invariant RewrittenTo(was, pcm[..], index, f)
    {
      RewriteOne(pcm, index, fixed, was);
      index := index + 2;
    }
    RewrittenAll(was, pcm[..], index, f);
  }

  /** The body of the loop. */
  method RewriteOne(pcm: array<Octet>, index: nat, fixed: int, ghost was: seq<Octet>)
    requires index % 2 == 0 && index + 1 < pcm.Length && RewrittenTo(was, pcm[..], index, Scaler(fixed))
    modifies pcm
    ensures RewrittenTo(was, pcm[..], index + 2, Scaler(fixed))
  {
    ghost var now := pcm[..];
    NotYetRewritten(was, now, index, Scaler(fixed));
    var lo, hi := ScaleOne(pcm[index], pcm[index + 1], fixed);
    RewriteStep(was, now, index, Scaler(fixed), lo, hi);
    pcm[index], pcm[index + 1] := lo, hi;
    assert pcm[..] == now[index := lo][index + 1 := hi];
  }

  lemma {:induction false} NotYetRewritten(was: seq<Octet>, now: seq<Octet>, index: nat, f: (Octet, Octet) -> (Octet, Octet))
    requires index + 1 < |was| && RewrittenTo(was, now, index, f)
    ensures now[index] == was[index] && now[index + 1] == was[index + 1]
  {
  }

  /** One sample out of its octets, scaled and pinned, and back into octets. */
  method ScaleOne(lo: Octet, hi: Octet, fixed: int) returns (lo': Octet, hi': Octet)
    ensures (lo', hi') == Scaler(fixed)(lo, hi)
  {
    var sample := Quotient(Sample(lo, hi) * fixed, GAIN_SCALE);
    if sample > 32767 {
      sample := 32767;
    } else if sample < -32768 {
      sample := -32768;
    }
    lo', hi' := Low(sample), High(sample);
  }

  // ---- What the gain promises ----

  lemma {:induction false} QuotientIsMonotone(a: int, b: int)
    requires a <= b
    ensures Quotient(a, GAIN_SCALE) <= Quotient(b, GAIN_SCALE)
  {
  }

  lemma {:induction false} ProductIsMonotone(x: int, y: int, fixed: int)
    requires x <= y && fixed > 0
    ensures x * fixed <= y * fixed
  {
    assert y * fixed - x * fixed == (y - x) * fixed;
  }

  /** A louder sample never comes out quieter than a softer one. */
  lemma {:induction false} ScalingIsMonotone(x: int, y: int, fixed: int)
    requires Settable(fixed) && x <= y
    ensures Scaled(x, fixed) <= Scaled(y, fixed)
  {
    ProductIsMonotone(x, y, fixed);
    QuotientIsMonotone(x * fixed, y * fixed);
  }

  /** Exact within one step, toward zero, unless pinned; and pinned only beyond the range, on its own side. */
  lemma {:induction false} ScalingIsExact(x: int, fixed: int)
    requires Settable(fixed) && IsInt16(x)
    ensures var y := Scaled(x, fixed);
            && (x >= 0 ==> 0 <= y && y * GAIN_SCALE <= x * fixed)
            && (x <= 0 ==> y <= 0 && x * fixed <= y * GAIN_SCALE)
            && (y == 32767 || x * fixed < (y + 1) * GAIN_SCALE)
            && (y == -32768 || (y - 1) * GAIN_SCALE < x * fixed)
  {
    ProductIsMonotone(if x >= 0 then 0 else x, if x >= 0 then x else 0, fixed);
  }

  lemma {:induction false} UnityKeepsSample(x: int)
    requires IsInt16(x)
    ensures Scaled(x, GAIN_SCALE) == x
  {
    assert Quotient(x * GAIN_SCALE, GAIN_SCALE) == x;
  }

  lemma {:induction false} IdentityMaps(pcm: seq<Octet>, f: (Octet, Octet) -> (Octet, Octet))
    requires forall lo: Octet, hi: Octet :: f(lo, hi) == (lo, hi)
    ensures Mapped(pcm, f) == pcm
  {
    if |pcm| >= 2 {
      IdentityMaps(pcm[2..], f);
      assert f(pcm[0], pcm[1]) == (pcm[0], pcm[1]);
      assert pcm == [pcm[0], pcm[1]] + pcm[2..];
    }
  }

  /** Which is why `apply` may return at once. */
  lemma {:induction false} UnityIsIdentity(pcm: seq<Octet>)
    ensures Amplified(pcm, GAIN_SCALE) == pcm
  {
    forall lo: Octet, hi: Octet
      ensures Scaler(GAIN_SCALE)(lo, hi) == (lo, hi)
    {
      UnityKeepsSample(Sample(lo, hi));
      SampleRoundTrip(0, lo, hi);
    }
    IdentityMaps(pcm, Scaler(GAIN_SCALE));
  }

  lemma {:induction false} MappedKeepsLength(pcm: seq<Octet>, f: (Octet, Octet) -> (Octet, Octet))
    ensures |Mapped(pcm, f)| == |pcm|
  {
    if |pcm| >= 2 {
      MappedKeepsLength(pcm[2..], f);
    }
  }

  lemma {:induction false} TrailingOctetStays(pcm: seq<Octet>, f: (Octet, Octet) -> (Octet, Octet), pairs: nat)
    requires |pcm| == 2 * pairs + 1 == |Mapped(pcm, f)|
    ensures Mapped(pcm, f)[2 * pairs] == pcm[2 * pairs]
    decreases pairs
  {
    if pairs > 0 {
      MappedKeepsLength(pcm[2..], f);
      TrailingOctetStays(pcm[2..], f, pairs - 1);
    }
  }

  lemma {:induction false} MappedAt(pcm: seq<Octet>, f: (Octet, Octet) -> (Octet, Octet), i: nat)
    requires i % 2 == 0 && i + 1 < |pcm| == |Mapped(pcm, f)|
    ensures (Mapped(pcm, f)[i], Mapped(pcm, f)[i + 1]) == f(pcm[i], pcm[i + 1])
  {
    if i > 0 {
      var rest := pcm[2..];
      MappedKeepsLength(rest, f);
      MappedAt(rest, f, i - 2);
      assert rest[i - 2] == pcm[i] && rest[i - 1] == pcm[i + 1];
    }
  }

  /** Sample by sample: each comes out scaled, in place, and a trailing odd octet is untouched. */
  lemma {:induction false} EverySampleIsScaled(pcm: seq<Octet>, fixed: int, i: nat)
    requires i % 2 == 0 && i + 1 < |pcm|
    ensures var out := Amplified(pcm, fixed);
            && |out| == |pcm|
            && Sample(out[i], out[i + 1]) == Scaled(Sample(pcm[i], pcm[i + 1]), fixed)
            && (|pcm| % 2 == 1 ==> out[|pcm| - 1] == pcm[|pcm| - 1])
  {
    MappedKeepsLength(pcm, Scaler(fixed));
    if |pcm| % 2 == 1 {
      TrailingOctetStays(pcm, Scaler(fixed), |pcm| / 2);
    }
    MappedAt(pcm, Scaler(fixed), i);
    SampleRoundTrip(Scaled(Sample(pcm[i], pcm[i + 1]), fixed), 0, 0);
  }
}
