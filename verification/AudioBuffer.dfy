/** The per-utterance audio buffer (server/app/streaming/buffer.py). Times are counted in samples. */
module Audio {

  type Byte = bv8

  const SAMPLE_RATE: nat := 16000
  const BYTES_PER_SAMPLE: nat := 2

  /** `decoded` counts the bytes at the front that a decode has already covered. */
  datatype Buffer = Buffer(data: seq<Byte>, decoded: nat, total: nat) {
    /** `duration_seconds`, in samples. */
    function Samples(): nat {
      |data| / BYTES_PER_SAMPLE
    }

    /** `undecoded_seconds`, in samples. */
    function Undecoded(): int {
      (|data| - decoded) / BYTES_PER_SAMPLE
    }

    /** Whole samples only, and never more decoded than is there. */
    predicate Valid() {
      |data| % BYTES_PER_SAMPLE == 0 && decoded <= |data| && decoded % BYTES_PER_SAMPLE == 0
    }
  }

  const EMPTY_BUFFER := Buffer([], 0, 0)

  function AfterAppend(b: Buffer, pcm: seq<Byte>): Buffer {
    if |pcm| % BYTES_PER_SAMPLE != 0 then b
    else b.(data := b.data + pcm, total := b.total + |pcm|)
  }

  function AfterMarkDecoded(b: Buffer): Buffer {
    b.(decoded := |b.data|)
  }

  function Clamped(x: int, limit: nat): nat {
    if x < 0 then 0 else if x > limit then limit else x
  }

  /** The bytes `trim_before` removes. */
  function Dropped(b: Buffer, samples: int): nat {
    Clamped(samples * BYTES_PER_SAMPLE, |b.data|)
  }

  function AfterTrimBefore(b: Buffer, samples: int): Buffer {
    var drop := Dropped(b, samples);
    b.(data := b.data[drop..], decoded := Clamped(b.decoded - drop, b.decoded))
  }

  function AfterKeepTail(b: Buffer, samples: nat): Buffer {
    var keep := samples * BYTES_PER_SAMPLE;
    var kept := if keep < |b.data| then b.data[|b.data| - keep..] else b.data;
    b.(data := kept, decoded := |kept|)
  }

  function AfterResetBuffer(b: Buffer): Buffer {
    b.(data := [], decoded := 0)
  }

  class AudioBuffer {
    var data: seq<Byte>
    var decoded: nat
    var total: nat

    ghost function Model(): Buffer
      reads this
    {
      Buffer(data, decoded, total)
    }

    constructor ()
      ensures Model() == EMPTY_BUFFER
    {
      data := [];
      decoded := 0;
      total := 0;
    }

    /** False stands for `AudioFormatError`: a payload that is not whole samples changes nothing. */
    method Append(pcm: seq<Byte>) returns (ok: bool)
      modifies this
      ensures ok == (|pcm| % BYTES_PER_SAMPLE == 0)
      ensures Model() == AfterAppend(old(Model()), pcm)
    {
      if |pcm| % BYTES_PER_SAMPLE != 0 {
        return false;
      }
      data := data + pcm;
      total := total + |pcm|;
      return true;
    }

    method MarkDecoded()
      modifies this
      ensures Model() == AfterMarkDecoded(old(Model()))
    {
      decoded := |data|;
    }

    method TrimBefore(samples: int) returns (removed: nat)
      modifies this
      ensures Model() == AfterTrimBefore(old(Model()), samples)
      ensures removed == Dropped(old(Model()), samples)
    {
      removed := Clamped(samples * BYTES_PER_SAMPLE, |data|);
      if removed == 0 {
        return;
      }
      data := data[removed..];
      decoded := if decoded < removed then 0 else decoded - removed;
    }

    method KeepTail(samples: nat)
      modifies this
      ensures Model() == AfterKeepTail(old(Model()), samples)
    {
      var keep := samples * BYTES_PER_SAMPLE;
      if keep < |data| {
        data := data[|data| - keep..];
      }
      decoded := |data|;
    }

    method Reset()
      modifies this
      ensures Model() == AfterResetBuffer(old(Model()))
    {
      data := [];
      decoded := 0;
    }
  }

  /** Every operation keeps whole samples, and leaves the newest audio it does not drop where it is. */
  lemma {:induction false} OperationsKeepValid(b: Buffer, pcm: seq<Byte>, samples: int, tail: nat)
    requires b.Valid()
    ensures AfterAppend(b, pcm).Valid() && AfterMarkDecoded(b).Valid() && AfterResetBuffer(b).Valid()
    ensures AfterTrimBefore(b, samples).Valid() && AfterKeepTail(b, tail).Valid()
    ensures IsSuffix(AfterTrimBefore(b, samples).data, b.data) && IsSuffix(AfterKeepTail(b, tail).data, b.data)
  {
    assert b.data[0..] == b.data;
  }

  predicate IsSuffix<T(==)>(s: seq<T>, t: seq<T>) {
    |s| <= |t| && t[|t| - |s|..] == s
  }

  /**
   * Audio that arrives while a decode runs does not move the window's start: a cut measured against the
   * snapshot takes the same bytes off the front, and what arrived is still all there and undecoded.
   */
  lemma {:induction false} CutSurvivesArrivals(b: Buffer, pcm: seq<Byte>, samples: int)
    requires b.Valid() && |pcm| % BYTES_PER_SAMPLE == 0
    requires samples * BYTES_PER_SAMPLE <= |b.data|
    ensures AfterTrimBefore(AfterAppend(AfterMarkDecoded(b), pcm), samples)
         == AfterAppend(AfterTrimBefore(AfterMarkDecoded(b), samples), pcm)
    ensures AfterTrimBefore(AfterAppend(AfterMarkDecoded(b), pcm), samples).Undecoded() == |pcm| / BYTES_PER_SAMPLE
  {
    var drop := Dropped(b, samples);
    assert (b.data + pcm)[drop..] == b.data[drop..] + pcm;
  }
}
