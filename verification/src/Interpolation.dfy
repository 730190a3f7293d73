/** The integer 2:3 interpolator from 16 kHz to 24 kHz PCM. */
module Interpolation {
  import opened GoArith
  import opened Pcm16

  /** The number of outputs for `n` inputs; half a sample is lost when odd. */
  function OutSamples(n: nat): nat {
    n * 3 / 2
  }

  /** Output `m` lies at input position `2m / 3`; the last input is held. */
  function At(s: seq<int16>, m: nat): (v: int)
    requires m < OutSamples(|s|)
  {
    var srcIdx, frac := 2 * m / 3, 2 * m % 3;
    if frac == 0 || srcIdx + 1 >= |s| then s[srcIdx]
    else TruncDiv(s[srcIdx] as int * (3 - frac) + s[srcIdx + 1] as int * frac, 3)
  }

  function Min(a: int, b: int): int { if a < b then a else b }

  function Max(a: int, b: int): int { if a < b then b else a }

  /** The input following `i`, the last one being held. */
  function Next(s: seq<int16>, i: nat): int
    requires i < |s|
  {
    if i + 1 < |s| then s[i + 1] else s[i]
  }

  /** Indexes stay in range and every output lies between its two neighbours. */
  lemma Between(s: seq<int16>, m: nat)
    requires m < OutSamples(|s|)
    ensures var i := 2 * m / 3;
      && i < |s|
      && Min(s[i], Next(s, i)) <= At(s, m) <= Max(s[i], Next(s, i))
    ensures -32768 <= At(s, m) <= 32767
  {
    var i, frac := 2 * m / 3, 2 * m % 3;
    if frac != 0 && i + 1 < |s| {
      WeightedMean(s[i], s[i + 1], frac);
    }
  }

  lemma WeightedMean(a: int, b: int, frac: nat)
    requires frac == 1 || frac == 2
    ensures Min(a, b) <= TruncDiv(a * (3 - frac) + b * frac, 3) <= Max(a, b)
  {
  }

  /** Between two inputs the output is their mean, weighted by the distance, with
      the fraction cut off toward zero. */
  lemma TruncatedMean(s: seq<int16>, m: nat)
    requires m < OutSamples(|s|) && 2 * m / 3 + 1 < |s|
    ensures var i, frac := 2 * m / 3, 2 * m % 3;
      var mean3 := s[i] as int * (3 - frac) + s[i + 1] as int * frac;
      && (mean3 >= 0 ==> 3 * At(s, m) <= mean3 < 3 * At(s, m) + 3)
      && (mean3 <= 0 ==> 3 * At(s, m) - 3 < mean3 <= 3 * At(s, m))
  {
  }

  function Resampled(s: seq<int16>): (out: seq<int16>)
    ensures |out| == OutSamples(|s|)
  {
    seq(OutSamples(|s|), m requires 0 <= m < OutSamples(|s|) => Between(s, m); At(s, m))
  }

  /** A ramp stays a ramp, with two thirds of its slope per output: exactly so
      wherever a next input exists or none is needed. */
  lemma Ramp(s: seq<int16>, c: int, d: int, m: nat)
    requires forall i :: 0 <= i < |s| ==> s[i] == c + d * (3 * i)
    requires m < OutSamples(|s|)
    ensures Resampled(s)[m] == c + d * (2 * m)
       <==> d == 0 || 2 * m % 3 == 0 || 2 * m / 3 + 1 < |s|
  {
    hide TruncDiv;
    var i, frac := 2 * m / 3, 2 * m % 3;
    Between(s, m);
    assert d * (2 * m) == d * (3 * i) + d * frac by {
      assert 2 * m == 3 * i + frac;
    }
    if frac != 0 {
      if i + 1 < |s| {
        assert d * (3 * (i + 1)) == d * (3 * i) + 3 * d;
        RampStep(s[i], d, frac);
      }
      assert d * frac == 0 <==> d == 0;
    }
  }

  lemma RampStep(a: int, d: int, frac: nat)
    requires frac == 1 || frac == 2
    ensures TruncDiv(a * (3 - frac) + (a + 3 * d) * frac, 3) == a + d * frac
  {
  }

  /** Only an even number of inputs ends with a held sample, the last output. */
  lemma HeldSample(n: nat, m: nat)
    requires m < OutSamples(n)
    ensures 2 * m % 3 != 0 && 2 * m / 3 + 1 >= n <==> n % 2 == 0 && m == OutSamples(n) - 1
  {
    var h := n / 2;
    if n % 2 == 0 {
      assert n == 2 * h && OutSamples(n) == 3 * h;
    } else {
      assert n == 2 * h + 1 && OutSamples(n) == 3 * h + 1;
    }
  }

  /** Cutting a stream after an even number of samples leaves every output but
      the held one as it was. */
  lemma SplitKeepsOthers(a: seq<int16>, b: seq<int16>, m: nat)
    requires |a| % 2 == 0 && m < OutSamples(|a| + |b|) && m != OutSamples(|a|) - 1
    ensures OutSamples(|a| + |b|) == OutSamples(|a|) + OutSamples(|b|)
    ensures (Resampled(a) + Resampled(b))[m] == Resampled(a + b)[m]
  {
    var h := |a| / 2;
    assert |a| == 2 * h && OutSamples(|a|) == 3 * h;
    if m < 3 * h {
      HeldSample(|a|, m);
      Between(a, m);
      Between(a + b, m);
    } else {
      var k := m - 3 * h;
      assert 2 * m / 3 == |a| + 2 * k / 3 && 2 * m % 3 == 2 * k % 3;
      Between(b, k);
      Between(a + b, m);
    }
  }

  /** A step of less than 3 that leads away from zero, or any such step at zero. */
  predicate HiddenStep(last: int, step: int) {
    -3 < step < 3 && (last > 0 ==> step >= 0) && (last < 0 ==> step <= 0)
  }

  /** And the held one survives exactly when the next sample is near enough, on
      the side away from zero, for truncation to hide the difference. */
  lemma SplitAtHeldSample(a: seq<int16>, b: seq<int16>)
    requires |a| > 0 && |a| % 2 == 0 && |b| > 0
    ensures var m := OutSamples(|a|) - 1;
      var last, step := a[|a| - 1] as int, b[0] as int - a[|a| - 1] as int;
      && (Resampled(a) + Resampled(b))[m] == last
      && (Resampled(a + b)[m] == last <==> HiddenStep(last, step))
  {
    var h := |a| / 2;
    var m := OutSamples(|a|) - 1;
    assert |a| == 2 * h && OutSamples(|a|) == 3 * h;
    assert OutSamples(|a| + |b|) >= 3 * h;
    assert 2 * m / 3 == |a| - 1 && 2 * m % 3 == 1;
    Between(a, m);
    Between(a + b, m);
    TruncatedStep(a[|a| - 1], b[0]);
  }

  lemma TruncatedStep(last: int, next: int)
    ensures TruncDiv(2 * last + next, 3) == last <==> HiddenStep(last, next - last)
  {
  }

  /** Cutting between two odd-length halves loses one output sample. */
  lemma OddSplitLosesASample(n: nat, m: nat)
    requires n % 2 == 1
    ensures OutSamples(n) + OutSamples(m) == OutSamples(n + m) - (if m % 2 == 1 then 1 else 0)
  {
    var h, k := n / 2, m / 2;
    assert n == 2 * h + 1 && m == 2 * k + m % 2;
    assert OutSamples(n) == 3 * h + 1 && OutSamples(m) == 3 * k + m % 2;
    assert OutSamples(n + m) == 3 * h + 3 * k + 1 + (if m % 2 == 1 then 2 else 0);
  }

  method ResamplePcm16From16kTo24k(pcm16k: seq<byte>) returns (pcm24k: array<byte>)
    ensures fresh(pcm24k) && pcm24k[..] == Bytes(Resampled(Samples(pcm16k)))
  {
    hide Load, Low, High, TruncDiv, Bytes, Samples, Min, Max, Next;
    ghost var s, whole := Samples(pcm16k), Bytes(Resampled(Samples(pcm16k)));
    var inSamples := |pcm16k| / 2;
    if inSamples == 0 {
      pcm24k := new byte[0];
      return;
    }
    var outSamples := inSamples * 3 / 2;
    pcm24k := new byte[outSamples * 2];
    for outIdx := 0 to outSamples
      invariant forall k :: 0 <= k < 2 * outIdx ==> pcm24k[k] == whole[k]
    {
      Between(s, outIdx);
      BytesAt(Resampled(s), outIdx);
      var srcNum := outIdx * 2;
      var srcIdx := srcNum / 3;
      var frac := srcNum % 3;
      SamplesAt(pcm16k, srcIdx);
      var a := Load(pcm16k[srcIdx * 2], pcm16k[srcIdx * 2 + 1]);
      if frac == 0 || srcIdx + 1 >= inSamples {
        Put(pcm24k, outIdx, a);
      } else {
        SamplesAt(pcm16k, srcIdx + 1);
        var b := Load(pcm16k[(srcIdx + 1) * 2], pcm16k[(srcIdx + 1) * 2 + 1]);
        var interp := TruncDiv(a as int * (3 - frac) + b as int * frac, 3);
        assert interp == At(s, outIdx);
        Put(pcm24k, outIdx, interp);
      }
    }
  }
}
