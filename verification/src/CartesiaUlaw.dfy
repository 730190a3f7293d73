/** The second u-law encoder, the algorithmic one the Cartesia renderer keeps.
    It decodes back exactly like the table encoder but does not clip. */
module CartesiaUlaw {
  import opened GoArith
  import opened Pcm16
  import Mulaw

  /** The largest magnitude whose biased value still fits the eight segments. */
  const CLIP := 32635

  /** The first segment whose upper end lies above `mag`, 7 if none does. */
  function Exponent(mag: int, e: nat): (r: nat)
    requires e <= 7
    ensures r <= 7
    decreases 8 - e
  {
    if mag < 256 * Pow2(e) || e == 7 then e else Exponent(mag, e + 1)
  }

  /** Segment and quantization step of a biased magnitude, as one number. */
  function StepCode(mag: int): (k: nat)
    ensures k < 128
  {
    var exp := Exponent(mag, 0);
    16 * exp + mag / Pow2(exp + 3) % 16
  }

  /** The step code that a byte carries besides its sign. */
  function StepOf(code: byte): (k: nat)
    ensures k < 128
  {
    if code >= 128 then 255 - code else 127 - code
  }

  /** The biased magnitude the encoder works on. */
  function Magnitude(sample: int16): int {
    if sample < 0 then Negate16(sample) as int + 132 else sample as int + 132
  }

  /** The code of one sample. Negating -32768 wraps around, as in Go. */
  function Encode(sample: int16): byte {
    if sample < 0 then 127 - StepCode(Negate16(sample) as int + 132)
    else 255 - StepCode(sample as int + 132)
  }

  method EncodeUlau(sample: int16) returns (ulaw: byte)
    ensures ulaw == Encode(sample)
  {
    hide WrapInt16, Negate16, Encode, StepCode;
    var sign: byte := 0;
    var s := sample;
    if s < 0 {
      sign := 0x80;
      s := Negate16(s);
    }
    var mag := s as int + 132;
    var exp := 7;
    for e := 0 to 8
      invariant exp == 7
      invariant e <= 7 ==> Exponent(mag, 0) == Exponent(mag, e)
      invariant e == 8 ==> Exponent(mag, 0) == 7
    {
      if mag < 256 * Pow2(e) {
        exp := e;
        break;
      }
    }
    assert exp == Exponent(mag, 0);
    var mantissa := mag / Pow2(exp + 3) % 16;
    CodeFromParts(sample, exp, mantissa);
    ulaw := 255 - (16 * exp + mantissa);
    if sign != 0 {
      ulaw := ulaw % 128;
    }
  }

  lemma CodeFromParts(sample: int16, exp: nat, mantissa: nat)
    requires exp == Exponent(Magnitude(sample), 0) && mantissa == Magnitude(sample) / Pow2(exp + 3) % 16
    ensures 16 * exp + mantissa < 128
    ensures Encode(sample) ==
      if sample < 0 then (255 - (16 * exp + mantissa)) % 128 else 255 - (16 * exp + mantissa)
  {
    assert 16 * exp + mantissa == StepCode(Magnitude(sample));
  }

  lemma {:induction false} ExponentMeaning(mag: int, e: nat)
    requires e <= 7
    requires e > 0 ==> mag >= 128 * Pow2(e)
    ensures var r := Exponent(mag, e);
      && e <= r
      && (mag < 32768 ==> mag < 256 * Pow2(r))
      && (r > 0 ==> mag >= 128 * Pow2(r))
    decreases 8 - e
  {
    Pow2Values();
    if mag >= 256 * Pow2(e) && e < 7 {
      assert Pow2(e + 1) == 2 * Pow2(e);
      ExponentMeaning(mag, e + 1);
    }
  }

  /** In range, the step is the cell of width `8 * 2^exp` that holds the biased
      magnitude, and stands for the middle of that cell. */
  lemma CellOf(mag: nat) returns (exp: nat, low: nat)
    requires 132 <= mag < 32768
    ensures exp <= 7 && exp == Exponent(mag, 0)
    ensures 128 * Pow2(exp) <= low <= mag < low + 8 * Pow2(exp)
    ensures Mulaw.Biased(StepCode(mag)) == low + 4 * Pow2(exp)
  {
    hide StepCode, Mulaw.Biased;
    exp := Exponent(mag, 0);
    ExponentMeaning(mag, 0);
    ScaleIsPower(exp);
    var scale := Pow2(exp);
    var cells := mag / (8 * scale);
    CellBounds(mag, scale, cells);
    low := cells * (8 * scale);
    StepIs(mag, exp, cells);
    SplitStep(exp, cells - 16);
  }

  lemma ScaleIsPower(exp: nat)
    requires exp <= 7
    ensures Pow2(exp) in {1, 2, 4, 8, 16, 32, 64, 128}
    ensures Pow2(exp) == 1 <==> exp == 0
  {
    Pow2Values();
  }

  lemma StepIs(mag: nat, exp: nat, cells: nat)
    requires exp == Exponent(mag, 0) && cells == mag / (8 * Pow2(exp)) && 16 <= cells < 32
    ensures StepCode(mag) == 16 * exp + (cells - 16)
  {
    Pow2Plus3(exp);
    assert cells % 16 == cells - 16;
  }

  lemma SplitStep(exp: nat, q: nat)
    requires q < 16
    ensures Mulaw.Biased(16 * exp + q) == (8 * q + 132) * Pow2(exp)
  {
    assert (16 * exp + q) / 16 == exp && (16 * exp + q) % 16 == q;
  }

  lemma Pow2Plus3(e: nat)
    ensures Pow2(e + 3) == 8 * Pow2(e)
  {
    assert Pow2(e + 2) == 2 * Pow2(e + 1);
  }

  lemma CellBounds(mag: nat, scale: nat, cells: nat)
    requires scale in {1, 2, 4, 8, 16, 32, 64, 128}
    requires 128 * scale <= mag < 256 * scale || (scale == 1 && mag < 256 && mag >= 128)
    requires cells == mag / (8 * scale)
    ensures 16 <= cells < 32
    ensures 128 * scale <= cells * (8 * scale) <= mag < cells * (8 * scale) + 8 * scale
    ensures (8 * (cells - 16) + 132) * scale == cells * (8 * scale) + 4 * scale
  {
  }

  lemma DecodedStep(sample: int16)
    ensures var step := Mulaw.Biased(StepCode(Magnitude(sample))) - 132;
      Mulaw.Decode(Encode(sample)) == if sample < 0 then -step else step
  {
    hide StepCode, Mulaw.Decode, Mulaw.Biased;
    Mulaw.DecodeIsBiased(Encode(sample));
  }

  /** The error is at most (|x| + 132) / 32, for exactly the samples that need
      no clipping. */
  lemma Accuracy(sample: int16)
    ensures 32 * Gap(Mulaw.Decode(Encode(sample)), sample) <= Abs(sample) + 132 <==> Abs(sample) <= CLIP
  {
    hide StepCode, Encode, Mulaw.Decode, Mulaw.Biased;
    DecodedStep(sample);
    if Abs(sample) <= CLIP {
      var exp, low := CellOf(Abs(sample) + 132);
    } else {
      OverloadedStep(Magnitude(sample));
    }
  }

  /** Above the clipping level the code is wrong: the smallest step of the top
      segment, or plain zero for -32768. */
  lemma OverloadedStep(mag: int)
    requires 32768 <= mag <= 32899 || mag == -32636
    ensures Mulaw.Biased(StepCode(mag)) == if mag > 0 then 16896 else 132
  {
    Pow2Values();
    if mag > 0 {
      ExponentTop(mag, 0);
      assert Pow2(10) == 1024 by { Pow2Plus3(7); }
      assert mag / 1024 == 32;
      assert StepCode(mag) == 112;
    } else {
      assert Exponent(mag, 0) == 0;
      assert mag / 8 % 16 == 0;
      assert StepCode(mag) == 0;
    }
  }

  lemma {:induction false} ExponentTop(mag: int, e: nat)
    requires e <= 7 && mag >= 32768
    ensures Exponent(mag, e) == 7
    decreases 8 - e
  {
    Pow2Values();
    if e < 7 {
      ExponentTop(mag, e + 1);
    }
  }

  /** What becomes of the samples that need clipping: about half of full scale, and
      nothing at all of the smallest one, whose negation wraps around. */
  lemma OverloadExactly(sample: int16)
    requires Abs(sample) > 32635
    ensures Mulaw.Decode(Encode(sample)) == if sample == -32768 then 0 else if sample > 0 then 16764 else -16764
    ensures Encode(-32768) == 0x7F
  {
    MagnitudeExactly(sample);
    SmallestCode();
    hide StepCode, Encode, Mulaw.Decode, Magnitude, Mulaw.Biased;
    DecodedStep(sample);
    OverloadedStep(Magnitude(sample));
  }

  lemma MagnitudeExactly(sample: int16)
    ensures Magnitude(sample) == if sample == -32768 then -32636 else Abs(sample) + 132
  {
  }

  lemma SmallestCode()
    ensures Encode(-32768) == 0x7F
  {
    MagnitudeExactly(-32768);
    Pow2Values();
    assert Exponent(-32636, 0) == 0;
    assert StepCode(-32636) == 0;
  }

  /** No larger divisor than 32 would do. */
  lemma AccuracyIsTight()
    ensures 32 * Gap(Mulaw.Decode(Encode(124)), 124) == 124 + 132
  {
    Pow2Values();
    Pow2Plus3(1);
    Mulaw.DecodeIsBiased(Encode(124));
    assert Exponent(256, 0) == Exponent(256, 1) == 1;
    assert StepCode(256) == 16;
    assert Mulaw.Biased(16) == 264;
  }

  /** The two encoders agree on every value a decoder produces: each undoes
      `Decode` up to the two zeros. */
  lemma EncodeDecoded(code: byte)
    ensures Encode(Mulaw.Decode(code)) == Mulaw.Canonical(code)
    ensures Encode(Mulaw.Decode(code)) == Mulaw.Encode(Mulaw.Decode(code))
  {
    hide StepCode, Mulaw.Decode, Mulaw.Biased, Mulaw.Encode;
    Mulaw.EncodeDecoded(code);
    Mulaw.DecodeIsBiased(code);
    var k := StepOf(code);
    BiasedRange(k);
    StepOfBiased(k);
  }

  lemma BiasedRange(k: nat)
    requires k < 128
    ensures 132 <= Mulaw.Biased(k) <= 32256
    ensures Mulaw.Biased(k) == 132 <==> k == 0
  {
    Pow2Values();
    assert Mulaw.Biased(0) == 132 && Mulaw.Biased(127) == 32256;
    if k > 0 { Mulaw.BiasedIncreases(0, k); }
    if k < 127 { Mulaw.BiasedIncreases(k, 127); }
  }

  /** Different steps lie at least one cell of the lower segment apart. */
  lemma SpacingBelow(j: nat, k: nat)
    requires j < k < 128
    ensures Mulaw.Biased(k) - Mulaw.Biased(j) >= 8 * Pow2(j / 16)
  {
    hide Mulaw.Biased;
    Mulaw.BiasedStep(j);
    if j + 1 < k {
      Mulaw.BiasedIncreases(j + 1, k);
    }
  }

  /** And more than half a cell of the upper one. */
  lemma SpacingAbove(j: nat, k: nat)
    requires j < k < 128
    ensures Mulaw.Biased(k) - Mulaw.Biased(j) > 4 * Pow2(k / 16)
  {
    hide Mulaw.Biased;
    SpacingBelow(k - 1, k);
    if k % 16 == 0 {
      Mulaw.BiasedStep(k - 1);
      assert Pow2(k / 16) == 2 * Pow2((k - 1) / 16);
    } else {
      assert (k - 1) / 16 == k / 16;
    }
    if j < k - 1 {
      Mulaw.BiasedIncreases(j, k - 1);
    }
  }

  lemma StepOfBiased(k: nat)
    requires k < 128
    ensures StepCode(Mulaw.Biased(k)) == k
  {
    hide Mulaw.Biased;
    BiasedRange(k);
    var exp, low := CellOf(Mulaw.Biased(k));
    assert StepCode(Mulaw.Biased(k)) / 16 == exp;
    var j := StepCode(Mulaw.Biased(k));
    if j < k {
      SpacingBelow(j, k);
    } else if j > k {
      SpacingAbove(k, j);
    }
  }

  /** The table never does worse than the algorithm, at any sample. */
  lemma TableAtLeastAsClose(sample: int16)
    ensures Gap(sample, Mulaw.Decode(Mulaw.Encode(sample))) <= Gap(sample, Mulaw.Decode(Encode(sample)))
  {
    Mulaw.EncodeIsNearest(sample, Encode(sample));
  }

  /** The lowest eighth of a cell at the bottom of a segment, where the top step
      of the segment below is nearer. */
  predicate AtSeam(mag: nat) {
    var exp := Exponent(mag, 0);
    exp > 0 && mag < 129 * Pow2(exp)
  }

  /** The gap below the bottom step of a segment is three quarters of a cell. */
  lemma SeamGap(k: nat)
    requires 0 < k < 128
    ensures k % 16 == 0 ==> Mulaw.Biased(k) - Mulaw.Biased(k - 1) == 6 * Pow2(k / 16)
    ensures k % 16 != 0 ==> Mulaw.Biased(k) - Mulaw.Biased(k - 1) == 8 * Pow2(k / 16)
  {
    hide Mulaw.Biased;
    Mulaw.BiasedStep(k - 1);
    if k % 16 == 0 {
      assert Pow2(k / 16) == 2 * Pow2((k - 1) / 16);
    } else {
      assert (k - 1) / 16 == k / 16;
    }
  }

  lemma StepSegment(mag: nat) returns (exp: nat, low: nat)
    requires 132 <= mag < 32768
    ensures exp == Exponent(mag, 0) == StepCode(mag) / 16 && exp <= 7
    ensures low <= mag < low + 8 * Pow2(exp)
    ensures Mulaw.Biased(StepCode(mag)) == low + 4 * Pow2(exp)
    ensures StepCode(mag) % 16 == 0 <==> low == 128 * Pow2(exp)
  {
    hide Mulaw.Biased;
    exp, low := CellOf(mag);
    assert StepCode(mag) / 16 == exp;
    SplitStep(exp, StepCode(mag) % 16);
    assert StepCode(mag) == 16 * exp + StepCode(mag) % 16;
    ScaleIsPower(exp);
  }

  /** Away from the seams no step is nearer than the one chosen. */
  lemma NoNearerStep(mag: nat, j: nat)
    requires 132 <= mag < 32768 && !AtSeam(mag) && j < 128
    ensures Gap(mag, Mulaw.Biased(StepCode(mag))) <= Gap(mag, Mulaw.Biased(j))
  {
    hide Mulaw.Biased, StepCode;
    var k := StepCode(mag);
    var exp, low := StepSegment(mag);
    if k < j {
      SpacingBelow(k, j);
    } else if j < k {
      SeamGap(k);
      if j < k - 1 { Mulaw.BiasedIncreases(j, k - 1); }
    }
  }

  /** At a seam the step below is. */
  lemma NearerStepAtSeam(mag: nat)
    requires 132 <= mag < 32768 && AtSeam(mag)
    ensures StepCode(mag) > 0
    ensures Gap(mag, Mulaw.Biased(StepCode(mag) - 1)) < Gap(mag, Mulaw.Biased(StepCode(mag)))
  {
    hide Mulaw.Biased, StepCode;
    var exp, low := StepSegment(mag);
    LowestCell(mag, exp, low);
    SeamGap(StepCode(mag));
  }

  lemma LowestCell(mag: nat, exp: nat, low: nat)
    requires 132 <= mag < 32768 && exp == Exponent(mag, 0) && exp > 0 && mag < 129 * Pow2(exp)
    requires low <= mag < low + 8 * Pow2(exp)
    requires StepCode(mag) % 16 == 0 <==> low == 128 * Pow2(exp)
    ensures low == 128 * Pow2(exp) && StepCode(mag) % 16 == 0
  {
    hide StepCode;
    ExponentMeaning(mag, 0);
    ScaleIsPower(exp);
    LowestQuotient(mag, Pow2(exp));
    StepIs(mag, exp, 16);
  }

  lemma LowestQuotient(mag: nat, scale: nat)
    requires scale in {1, 2, 4, 8, 16, 32, 64, 128} && 128 * scale <= mag < 129 * scale
    ensures mag / (8 * scale) == 16
  {
  }

  /** In range, the algorithm finds a nearest code exactly off the seams. */
  lemma NearestExactly(sample: int16)
    requires Abs(sample) <= CLIP
    ensures !AtSeam(Abs(sample) + 132) <==>
      forall code: byte :: Gap(sample, Mulaw.Decode(Encode(sample))) <= Gap(sample, Mulaw.Decode(code))
  {
    hide Mulaw.Biased, Mulaw.Decode, Encode, StepCode, AtSeam;
    var mag := Abs(sample) + 132;
    var k := StepCode(mag);
    DecodedStep(sample);
    BiasedRange(k);
    if AtSeam(mag) {
      NearerStepAtSeam(mag);
      var better: byte := if sample < 0 then 127 - (k - 1) else 255 - (k - 1);
      Mulaw.DecodeIsBiased(better);
    } else {
      forall code: byte
        ensures Gap(sample, Mulaw.Decode(Encode(sample))) <= Gap(sample, Mulaw.Decode(code))
      {
        var j := StepOf(code);
        Mulaw.DecodeIsBiased(code);
        BiasedRange(j);
        BiasedRange(0);
        NoNearerStep(mag, j);
        NoNearerStep(mag, 0);
      }
    }
  }

  // ---------- The two encoders byte for byte ----------

  lemma OneFirstNearest(x: int, a: byte, b: byte)
    requires Mulaw.FirstNearest(x, a) && Mulaw.FirstNearest(x, b)
    ensures a == b
  {
    hide Mulaw.Distance;
    assert Mulaw.Distance(x, a) <= Mulaw.Distance(x, b) <= Mulaw.Distance(x, a);
  }

  /** A higher step is strictly farther, seam or not. */
  lemma HigherStepFarther(mag: nat, j: nat)
    requires 132 <= mag < 32768 && StepCode(mag) < j < 128
    ensures Gap(mag, Mulaw.Biased(StepCode(mag))) < Gap(mag, Mulaw.Biased(j))
  {
    hide Mulaw.Biased, StepCode;
    var exp, low := StepSegment(mag);
    SpacingBelow(StepCode(mag), j);
  }

  /** From 5 on a positive sample is nearer to its own step than to zero. */
  lemma NearerThanZero(x: nat)
    requires 5 <= x <= CLIP
    ensures 0 < Mulaw.Biased(StepCode(x + 132)) - 132 < 2 * x
  {
    hide Mulaw.Biased, StepCode;
    var exp, low := CellOf(x + 132);
    BiasedRange(StepCode(x + 132));
    ScaleIsPower(exp);
  }

  lemma OwnGap(sample: int16)
    ensures StepOf(Encode(sample)) == StepCode(Magnitude(sample)) && (Encode(sample) < 128 <==> sample < 0)
    ensures Abs(sample) <= CLIP ==> Magnitude(sample) == Abs(sample) + 132
    ensures Abs(sample) <= CLIP ==>
      Gap(sample, Mulaw.Decode(Encode(sample))) == Gap(Abs(sample) + 132, Mulaw.Biased(StepCode(Abs(sample) + 132)))
  {
    hide StepCode, Mulaw.Decode, Mulaw.Biased;
    DecodedStep(sample);
  }

  lemma OtherGap(sample: int16, code: byte)
    ensures (sample < 0) == (code < 128) ==>
      Gap(sample, Mulaw.Decode(code)) == Gap(Abs(sample) + 132, Mulaw.Biased(StepOf(code)))
    ensures sample >= 0 && code < 128 ==> Gap(sample, Mulaw.Decode(code)) >= sample
  {
    hide Mulaw.Decode, Mulaw.Biased;
    Mulaw.DecodeIsBiased(code);
    BiasedRange(StepOf(code));
  }

  lemma FirstAmongSmaller(sample: int16, code: byte)
    requires Abs(sample) <= CLIP && sample != 0 && !(1 <= sample <= 4)
    requires code < Encode(sample)
    ensures Gap(sample, Mulaw.Decode(Encode(sample))) < Gap(sample, Mulaw.Decode(code))
  {
    OwnGap(sample);
    OtherGap(sample, code);
    hide Mulaw.Biased, Mulaw.Decode, Encode, StepCode, Magnitude;
    if sample < 0 || code >= 128 {
      HigherStepFarther(Abs(sample) + 132, StepOf(code));
    } else {
      NearerThanZero(sample);
    }
  }

  lemma PositiveCodeFar(sample: int16, code: byte)
    requires 1 <= sample <= 4 && code >= 128
    ensures Mulaw.Distance(sample, code) >= sample
  {
    hide Mulaw.Biased;
    Mulaw.NoStepBelowEight(code);
    Mulaw.DecodeIsBiased(code);
    BiasedRange(255 - code);
  }

  /** Next to zero the table picks the negative zero, the algorithm never. */
  lemma SmallestSamples(sample: int16)
    requires 1 <= sample <= 4
    ensures Mulaw.Encode(sample) < 128 <= Encode(sample)
  {
    hide StepCode, Mulaw.Decode, Mulaw.Encode;
    Mulaw.EncodeIsNearest(sample, 0);
    Mulaw.DecodeZeros();
    assert Mulaw.Distance(sample, Mulaw.NEGATIVE_ZERO) == sample;
    if Mulaw.Encode(sample) >= 128 {
      PositiveCodeFar(sample, Mulaw.Encode(sample));
    }
  }

  /** Both give the same byte exactly in range, off the seams and off the four
      samples next to zero. */
  lemma SameByteExactly(sample: int16)
    ensures Encode(sample) == Mulaw.Encode(sample)
       <==> Abs(sample) <= CLIP && !AtSeam(Abs(sample) + 132) && !(1 <= sample <= 4)
  {
    hide Encode, Mulaw.Encode, Mulaw.Decode, AtSeam;
    if Abs(sample) > CLIP {
      Accuracy(sample);
      Mulaw.EncodeAccuracy(sample);
    } else if 1 <= sample <= 4 {
      SmallestSamples(sample);
    } else if sample == 0 {
      SameSilence();
    } else {
      NearestExactly(sample);
      SameByteInRange(sample);
    }
  }

  lemma SameSilence()
    ensures Encode(0) == Mulaw.Encode(0) && !AtSeam(132)
  {
    Pow2Values();
    assert Exponent(132, 0) == 0;
  }

  lemma SameByteInRange(sample: int16)
    requires Abs(sample) <= CLIP && sample != 0 && !(1 <= sample <= 4)
    ensures Encode(sample) == Mulaw.Encode(sample)
       <==> forall code: byte :: Gap(sample, Mulaw.Decode(Encode(sample))) <= Gap(sample, Mulaw.Decode(code))
  {
    hide Encode, Mulaw.Encode, Mulaw.Decode;
    forall code: byte
      ensures Gap(sample, Mulaw.Decode(Mulaw.Encode(sample))) <= Gap(sample, Mulaw.Decode(code))
    {
      Mulaw.EncodeIsNearest(sample, code);
    }
    if forall code: byte :: Gap(sample, Mulaw.Decode(Encode(sample))) <= Gap(sample, Mulaw.Decode(code)) {
      forall code: byte | code < Encode(sample)
        ensures Gap(sample, Mulaw.Decode(Encode(sample))) < Gap(sample, Mulaw.Decode(code))
      {
        FirstAmongSmaller(sample, code);
      }
      assert Mulaw.FirstNearest(sample, Encode(sample));
      Mulaw.EncodeIsNearest(sample, 0);
      OneFirstNearest(sample, Encode(sample), Mulaw.Encode(sample));
    }
  }

  function EncodeAll(samples: seq<int16>): (codes: seq<byte>)
    ensures |codes| == |samples|
  {
    seq(|samples|, i requires 0 <= i < |samples| => Encode(samples[i]))
  }

  /** u-law to PCM bytes and back through the algorithm, at any length. */
  lemma BufferRoundTrip(codes: seq<byte>)
    ensures EncodeAll(Samples(Bytes(Mulaw.DecodeAll(codes))))
         == seq(|codes|, i requires 0 <= i < |codes| => Mulaw.Canonical(codes[i]))
  {
    SamplesOfBytes(Mulaw.DecodeAll(codes));
    forall i | 0 <= i < |codes|
      ensures EncodeAll(Mulaw.DecodeAll(codes))[i] == Mulaw.Canonical(codes[i])
    {
      EncodeDecoded(codes[i]);
    }
  }

  /** The package-level table and the conversion that reads it. */
  class Table {
    const toUlaw: array<byte>

    ghost predicate Valid()
      reads this, toUlaw
    {
      toUlaw.Length == 65536 && forall x: int16 :: toUlaw[Uint16(x)] == Encode(x)
    }

    constructor ()
      ensures Valid() && fresh(toUlaw)
    {
      hide Encode;
      var table := new byte[65536];
      for i: int := -32768 to 32768
        invariant forall x: int16 :: x < i ==> table[Uint16(x)] == Encode(x)
      {
        var code := EncodeUlau(i);
        assert forall x: int16 :: x != i ==> Uint16(x) != Uint16(i);
        table[Uint16(i)] := code;
      }
      toUlaw := table;
    }

    method ConvertPcm16ToMulaw(pcm16: seq<byte>) returns (mulaw: array<byte>)
      requires Valid() && |pcm16| % 2 == 0
      ensures fresh(mulaw) && mulaw[..] == EncodeAll(Samples(pcm16))
    {
      hide Encode;
      mulaw := new byte[|pcm16| / 2];
      var i := 0;
      while i < |pcm16|
        invariant 0 <= i <= |pcm16| && i % 2 == 0
        invariant Valid()
        invariant forall k :: 0 <= k < i / 2 ==> mulaw[k] == EncodeAll(Samples(pcm16))[k]
      {
        var sample := Load(pcm16[i], pcm16[i + 1]);
        assert 2 * (i / 2) == i && sample == Samples(pcm16)[i / 2];
        mulaw[i / 2] := toUlaw[Uint16(sample)];
        assert (i + 2) / 2 == i / 2 + 1;
        i := i + 2;
      }
    }
  }
}
