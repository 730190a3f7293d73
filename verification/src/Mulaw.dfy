/** The G.711 u-law codec: decoding by formula, encoding by a table that an
    exhaustive search fills in (ITU-T Recommendation G.711, Tables 2a and 2b). */
module Mulaw {
  import opened GoArith
  import opened Pcm16

  const SILENCE: byte := 0xFF
  const NEGATIVE_ZERO: byte := 0x7F

  /** One u-law byte to a sample: invert the bits, then split the sign, the
      segment and the quantization step. */
  function Decode(code: byte): (v: int16) {
    var inverted := 255 - code;
    var sign := inverted / 128;
    var segment := inverted / 16 % 8;
    var quant := inverted % 16;
    Pow2Values();
    var value14 := (2 * quant + 33) * Pow2(segment) - 33;
    var value := 4 * value14;
    if sign != 0 then -value else value
  }

  /** The magnitude, biased by 132, of the step `k == 16 * segment + quant`. */
  function Biased(k: nat): nat {
    (8 * (k % 16) + 132) * Pow2(k / 16)
  }

  lemma DecodeIsBiased(code: byte)
    ensures code >= 128 ==> Decode(code) == Biased(255 - code) - 132
    ensures code < 128 ==> Decode(code) == 132 - Biased(127 - code)
  {
    var inverted := 255 - code;
    var k := if code >= 128 then inverted else inverted - 128;
    SegmentAndStep(inverted, k);
    assert Biased(k) == (8 * (k % 16) + 132) * Pow2(k / 16);
    Rescale(k % 16, Pow2(k / 16));
  }

  lemma SegmentAndStep(inverted: nat, k: nat)
    requires k < 128 && (inverted == k || inverted == k + 128)
    ensures inverted / 16 % 8 == k / 16 && inverted % 16 == k % 16
  {
  }

  /** The source scales to 16 bits last, the biased view first. */
  lemma Rescale(q: int, scale: int)
    ensures 4 * ((2 * q + 33) * scale - 33) == (8 * q + 132) * scale - 132
  {
  }

  /** Neighbouring steps are 8 apart in a segment and 12 at its upper end, in
      units of the segment's scale. */
  lemma BiasedStep(k: nat)
    requires k < 127
    ensures k % 16 == 15 ==> Biased(k + 1) - Biased(k) == 12 * Pow2(k / 16)
    ensures k % 16 != 15 ==> Biased(k + 1) - Biased(k) == 8 * Pow2(k / 16)
  {
    var s := k / 16;
    if k % 16 == 15 {
      assert (k + 1) / 16 == s + 1 && (k + 1) % 16 == 0;
      assert Pow2(s + 1) == 2 * Pow2(s);
    } else {
      assert (k + 1) / 16 == s && (k + 1) % 16 == k % 16 + 1;
    }
  }

  lemma {:induction false} BiasedIncreases(j: nat, k: nat)
    requires j < k <= 127
    ensures Biased(j) < Biased(k)
    decreases k - j
  {
    BiasedStep(j);
    assert Pow2(j / 16) >= 1;
    if j + 1 < k {
      BiasedIncreases(j + 1, k);
    }
  }

  /** The ends of the decoder's range (Table 2a of Recommendation G.711, in 16-bit
      units): the sign bit of a positive code is set. */
  lemma DecodedRange()
    ensures Decode(0x80) == 32124 && Decode(0x00) == -32124
    ensures Decode(0xFE) == 8 && Decode(0x7E) == -8
    ensures Decode(SILENCE) == 0 == Decode(NEGATIVE_ZERO)
  {
    SmallestAndLargest();
    hide Biased, Decode;
    DecodeIsBiased(0x80);
    DecodeIsBiased(0x00);
    DecodeIsBiased(0xFE);
    DecodeIsBiased(0x7E);
    DecodeIsBiased(SILENCE);
    DecodeIsBiased(NEGATIVE_ZERO);
  }

  lemma SmallestAndLargest()
    ensures Biased(0) == 132 && Biased(1) == 140 && Biased(127) == 32256
  {
    Pow2Values();
  }

  /** Decoding is one-to-one except that both zeros decode to 0. */
  lemma DecodeInjective(a: byte, b: byte)
    requires Decode(a) == Decode(b)
    ensures a == b || (Decode(a) == 0 && {a, b} == {SILENCE, NEGATIVE_ZERO})
  {
    DecodeIsBiased(a);
    DecodeIsBiased(b);
    var j := if a >= 128 then 255 - a else 127 - a;
    var k := if b >= 128 then 255 - b else 127 - b;
    assert Biased(0) == 132 by { Pow2Values(); }
    if j < k {
      BiasedIncreases(j, k);
      if j > 0 { BiasedIncreases(0, j); }
    } else if k < j {
      BiasedIncreases(k, j);
      if k > 0 { BiasedIncreases(0, k); }
    } else if a != b && j > 0 {
      BiasedIncreases(0, j);
    }
  }

  function Distance(x: int, code: byte): nat {
    Gap(x, Decode(code))
  }

  /** No code decodes closer to `x`, and no smaller code as close. */
  ghost predicate FirstNearest(x: int, best: byte) {
    && (forall code: byte :: Distance(x, best) <= Distance(x, code))
    && (forall code: byte :: code < best ==> Distance(x, best) < Distance(x, code))
  }

  /** The search over codes `0..n-1`, keeping the first strictly best one. */
  function BestOf(x: int, n: nat): (best: byte)
    requires 1 <= n <= 256
    ensures best < n
    ensures forall code: byte :: code < n ==> Distance(x, best) <= Distance(x, code)
    ensures forall code: byte :: code < best ==> Distance(x, best) < Distance(x, code)
  {
    if n == 1 then 0
    else
      var before := BestOf(x, n - 1);
      if Distance(x, n - 1) < Distance(x, before) then n - 1 else before
  }

  /** The first of the nearest codes. */
  function Nearest(x: int): (best: byte)
    ensures FirstNearest(x, best)
  {
    BestOf(x, 256)
  }

  /** The reverse table: nearest code, with PCM zero moved to the standard
      silence code. */
  function Encode(x: int16): byte {
    if x == 0 then SILENCE else Nearest(x)
  }

  /** The table is a true nearest-neighbour encoder, zero included. */
  lemma EncodeIsNearest(x: int16, code: byte)
    ensures Distance(x, Encode(x)) <= Distance(x, code)
    ensures x != 0 ==> FirstNearest(x, Encode(x))
  {
    DecodeZeros();
  }

  lemma DecodeZeros()
    ensures forall code: byte :: Decode(code) == 0 <==> code == SILENCE || code == NEGATIVE_ZERO
  {
    assert Decode(SILENCE) == 0 && Decode(NEGATIVE_ZERO) == 0 by { Pow2Values(); }
    forall code: byte | Decode(code) == 0
      ensures code == SILENCE || code == NEGATIVE_ZERO
    {
      DecodeInjective(code, SILENCE);
      assert code in {code, SILENCE};
    }
  }

  /** A louder sample never decodes to a quieter value. */
  lemma EncodeMonotone(x: int16, y: int16)
    requires x <= y
    ensures Decode(Encode(x)) <= Decode(Encode(y))
  {
    hide Encode, Decode;
    EncodeIsNearest(x, Encode(y));
    EncodeIsNearest(y, Encode(x));
  }

  /** The silence code is kept for zero: next to it the other zero is as near and
      comes first. */
  lemma SilenceCodeExactly(x: int16)
    ensures Encode(x) == 0xFF <==> x == 0
  {
    DecodeZeros();
    assert Distance(x, SILENCE) == Distance(x, NEGATIVE_ZERO);
    if x != 0 {
      EncodeIsNearest(x, 0);
      hide Distance, Decode, Encode;
      assert NEGATIVE_ZERO < SILENCE;
    }
  }

  // ---------- Accuracy ----------

  /** Inside the segment of the given scale, the step nearest to a biased
      magnitude is within 1/34 of it. */
  lemma NearStepInSegment(mag: nat, scale: nat) returns (q: nat)
    requires scale >= 1
    requires 132 * scale <= mag <= 258 * scale
    ensures q <= 15
    ensures 34 * Abs(mag - (8 * q + 132) * scale) <= mag
  {
    q := StepBelow(scale, mag - 128 * scale);
    if q == 16 {
      q := 15;
      assert (8 * q + 132) * scale == 252 * scale;
    }
  }

  /** Quantize a height above a segment's base, in units of `8 * scale`. */
  lemma StepBelow(scale: nat, above: nat) returns (q: nat)
    requires scale >= 1 && above <= 130 * scale
    ensures q <= 16
    ensures (8 * q + 132) * scale - 132 * scale <= above < (8 * q + 132) * scale - 124 * scale
    ensures q == 0 ==> (8 * q + 132) * scale == 132 * scale
    ensures q >= 1 ==> (8 * q + 132) * scale >= 140 * scale
    ensures q == 16 ==> (8 * q + 132) * scale == 260 * scale
  {
    var unit := 8 * scale;
    q := 0;
    while q < 16 && (q + 1) * unit <= above
      invariant q <= 16
      invariant q * unit <= above
    {
      q := q + 1;
    }
    assert (q + 1) * unit == q * unit + unit;
    assert (8 * q + 132) * scale == q * unit + 132 * scale;
    if q >= 1 {
      assert (q - 1) * unit >= 0;
    }
  }

  /** Every biased magnitude a 16-bit sample can have is within 1/34 of a step. */
  lemma NearStep(mag: nat) returns (k: nat)
    requires 132 <= mag <= 32900
    ensures k <= 127
    ensures 34 * Abs(mag - Biased(k)) <= mag
  {
    Pow2Values();
    var s := 0;
    while s < 7 && mag >= 264 * Pow2(s)
      invariant s <= 7
      invariant mag >= 132 * Pow2(s)
    {
      assert Pow2(s + 1) == 2 * Pow2(s);
      s := s + 1;
    }
    var scale := Pow2(s);
    if mag <= 258 * scale {
      var q := NearStepInSegment(mag, scale);
      k := 16 * s + q;
      assert k / 16 == s && k % 16 == q;
    } else {
      assert s < 7;
      k := 16 * (s + 1);
      assert Biased(k) == 132 * Pow2(s + 1) == 264 * scale;
    }
  }

  /** A code within the guaranteed relative distance of any sample. */
  lemma CloseCode(x: int16) returns (code: byte)
    ensures 34 * Distance(x, code) <= Abs(x) + 132
  {
    var k := NearStep(Abs(x) + 132);
    code := if x >= 0 then 255 - k else 127 - k;
    DecodeIsBiased(code);
  }

  /** The error of the table encoder never exceeds (|x| + 132) / 34. */
  lemma EncodeAccuracy(x: int16)
    ensures 34 * Gap(Decode(Encode(x)), x) <= Abs(x) + 132
  {
    var code := CloseCode(x);
    EncodeIsNearest(x, code);
  }

  /** No larger divisor than 34 would do: the bound is met with equality. */
  lemma EncodeAccuracyIsTight()
    ensures 34 * Gap(Decode(Encode(4)), 4) == 4 + 132
  {
    EncodeAccuracy(4);
    NoStepBelowEight(Encode(4));
  }

  lemma NoStepBelowEight(code: byte)
    ensures Decode(code) == 0 || Abs(Decode(code)) >= 8
  {
    DecodeIsBiased(code);
    var k: nat := if code >= 128 then 255 - code else 127 - code;
    assert Biased(0) == 132 && Biased(1) == 140 by { Pow2Values(); }
    if k > 1 { BiasedIncreases(1, k); }
  }

  // ---------- Round trips ----------

  /** The standard form of a code: the two zeros become one. */
  function Canonical(code: byte): byte {
    if code == NEGATIVE_ZERO then SILENCE else code
  }

  lemma EncodeDecoded(code: byte)
    ensures Encode(Decode(code)) == Canonical(code)
  {
    var x := Decode(code);
    DecodeZeros();
    if x != 0 {
      EncodeIsNearest(x, code);
      DecodeInjective(Encode(x), code);
    }
  }

  /** A second pass through the codec changes nothing more. */
  lemma CodecIdempotent(x: int16)
    ensures Encode(Decode(Encode(x))) == Canonical(Encode(x))
    ensures Decode(Encode(Decode(Encode(x)))) == Decode(Encode(x))
  {
    EncodeDecoded(Encode(x));
    DecodeZeros();
  }

  // ---------- Whole buffers ----------

  function DecodeAll(codes: seq<byte>): (s: seq<int16>)
    ensures |s| == |codes|
  {
    seq(|codes|, i requires 0 <= i < |codes| => Decode(codes[i]))
  }

  function EncodeAll(samples: seq<int16>): (codes: seq<byte>)
    ensures |codes| == |samples|
  {
    seq(|samples|, i requires 0 <= i < |samples| => Encode(samples[i]))
  }

  /** u-law to PCM bytes and back returns the same codes, zeros canonical. */
  lemma BufferRoundTrip(codes: seq<byte>)
    ensures EncodeAll(Samples(Bytes(DecodeAll(codes))))
         == seq(|codes|, i requires 0 <= i < |codes| => Canonical(codes[i]))
  {
    SamplesOfBytes(DecodeAll(codes));
    forall i | 0 <= i < |codes|
      ensures EncodeAll(DecodeAll(codes))[i] == Canonical(codes[i])
    {
      EncodeDecoded(codes[i]);
    }
  }

  lemma BufferAccuracy(pcm: seq<byte>, i: nat)
    requires i < |pcm| / 2
    ensures 34 * Gap(DecodeAll(EncodeAll(Samples(pcm)))[i], Samples(pcm)[i]) <= Abs(Samples(pcm)[i]) + 132
  {
    EncodeAccuracy(Samples(pcm)[i]);
  }

  lemma EncodeAllConcat(a: seq<int16>, b: seq<int16>)
    ensures EncodeAll(a + b) == EncodeAll(a) + EncodeAll(b)
  {
  }

  /** The two package-level tables and the conversions that read them. */
  class Tables {
    const toPcm: array<int16>
    const toMulaw: array<byte>

    ghost predicate Valid()
      reads this, toPcm, toMulaw
    {
      && toPcm.Length == 256
      && toMulaw.Length == 65536
      && (forall code: byte :: toPcm[code] == Decode(code))
      && (forall x: int16 :: toMulaw[Uint16(x)] == Encode(x))
    }

    constructor ()
      ensures Valid() && fresh(toPcm) && fresh(toMulaw)
    {
      hide Decode, Nearest;
      var decode := new int16[256];
      for i := 0 to 256
        invariant forall code: byte :: code < i ==> decode[code] == Decode(code)
      {
        decode[i] := Decode(i);
      }
      var encode := new byte[65536];
      for i: int := -32768 to 32768
        invariant forall x: int16 :: x < i ==> encode[Uint16(x)] == Nearest(x)
        invariant forall code: byte :: decode[code] == Decode(code)
      {
        var bestCode := Search(decode, i);
        assert forall x: int16 :: x != i ==> Uint16(x) != Uint16(i);
        encode[Uint16(i)] := bestCode;
      }
      encode[Uint16(0)] := SILENCE;
      toPcm := decode;
      toMulaw := encode;
    }

    /** The inner loop of the table construction: an exhaustive search. */
    static method Search(decode: array<int16>, x: int) returns (bestCode: byte)
      requires -32768 <= x <= 32767
      requires decode.Length == 256 && forall code: byte :: decode[code] == Decode(code)
      ensures bestCode == Nearest(x)
    {
      hide Decode;
      bestCode := 0;
      var bestDiff: int := 0x7FFF_FFFF;
      for code := 0 to 256
        invariant code == 0 ==> bestDiff == 0x7FFF_FFFF
        invariant code > 0 ==> bestCode == BestOf(x, code) && bestDiff == Distance(x, bestCode)
      {
        var diff: int := x - decode[code];
        if diff < 0 {
          diff := -diff;
        }
        if diff < bestDiff {
          bestDiff := diff;
          bestCode := code;
        }
      }
    }

    method MulawToPcm16(mulaw: seq<byte>, pcm16: array<byte>)
      requires Valid() && pcm16 != toMulaw
      requires pcm16.Length >= 2 * |mulaw|
      modifies pcm16
      ensures Valid()
      ensures pcm16[..2 * |mulaw|] == Bytes(DecodeAll(mulaw))
      ensures pcm16[2 * |mulaw|..] == old(pcm16[2 * |mulaw|..])
    {
      hide Decode, Encode, Low, High;
      for i := 0 to |mulaw|
        invariant Valid()
        invariant forall k :: 0 <= k < 2 * i ==> pcm16[k] == Bytes(DecodeAll(mulaw))[k]
        invariant pcm16[2 * |mulaw|..] == old(pcm16[2 * |mulaw|..])
      {
        var sample := toPcm[mulaw[i]];
        Put(pcm16, i, sample);
        BytesAt(DecodeAll(mulaw), i);
      }
    }

    method Pcm16ToMulaw(pcm16: seq<byte>, mulaw: array<byte>)
      requires Valid() && mulaw != toMulaw
      requires |pcm16| % 2 == 0 && mulaw.Length >= |pcm16| / 2
      modifies mulaw
      ensures Valid()
      ensures mulaw[..|pcm16| / 2] == EncodeAll(Samples(pcm16))
      ensures mulaw[|pcm16| / 2..] == old(mulaw[|pcm16| / 2..])
    {
      hide Encode, Load;
      var i := 0;
      while i < |pcm16|
        invariant 0 <= i <= |pcm16| && i % 2 == 0
        invariant Valid()
        invariant forall k :: 0 <= k < i / 2 ==> mulaw[k] == EncodeAll(Samples(pcm16))[k]
        invariant mulaw[|pcm16| / 2..] == old(mulaw[|pcm16| / 2..])
      {
        var sample := Load(pcm16[i], pcm16[i + 1]);
        assert 2 * (i / 2) == i && sample == Samples(pcm16)[i / 2];
        mulaw[i / 2] := toMulaw[Uint16(sample)];
        assert (i + 2) / 2 == i / 2 + 1;
        i := i + 2;
      }
    }
  }
}
