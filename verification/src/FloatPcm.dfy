/** Sample conversions between 16-bit PCM and floating point. For floats that come
    from samples every product and quotient is exact in a float64, so reals
    describe them exactly; for other floats the model leaves rounding out. */
module FloatPcm {
  import opened GoArith
  import opened Pcm16

  function ToReal(x: int16): real {
    x as real / 32768.0
  }

  function Clip(f: real): (r: real)
    ensures -1.0 <= r <= 1.0
  {
    if f > 1.0 then 1.0 else if f < -1.0 then -1.0 else f
  }

  /** One sample back to 16 bits: clip, scale by 32767, round. */
  function FromReal(f: real): (x: int16)
    ensures -32767 <= x <= 32767
  {
    RoundInRange(Clip(f) * 32767.0);
    Round(Clip(f) * 32767.0)
  }

  lemma RoundInRange(v: real)
    requires -32767.0 <= v <= 32767.0
    ensures -32767 <= Round(v) <= 32767
  {
  }

  /** Out and back: exact up to half scale, else one step toward zero. The two
      directions use different scale factors. */
  lemma RoundTrip(x: int16)
    ensures FromReal(ToReal(x)) ==
      if Abs(x) <= 16384 then x else if x > 0 then x - 1 else x + 1
  {
    var scaled := ToReal(x) * 32767.0;
    assert scaled == x as real - x as real / 32768.0;
  }

  /** Clipping and rounding preserve order. */
  lemma FromRealMonotone(f: real, g: real)
    requires f <= g
    ensures FromReal(f) <= FromReal(g)
  {
    assert Clip(f) * 32767.0 <= Clip(g) * 32767.0;
  }

  /** The rounding error is at most half a step of the clipped value. */
  lemma FromRealAccuracy(f: real)
    ensures -0.5 <= FromReal(f) as real - Clip(f) * 32767.0 <= 0.5
  {
  }

  /** Rounding is symmetric, and a half goes away from zero. */
  lemma RoundAwayFromZero(n: nat, f: real)
    requires 0.0 <= f < 1.0
    ensures Round(n as real + f) == if f >= 0.5 then n + 1 else n
    ensures Round(-(n as real + f)) == -Round(n as real + f)
  {
  }

  function ToReals(s: seq<int16>): (r: seq<real>)
    ensures |r| == |s|
  {
    seq(|s|, i requires 0 <= i < |s| => ToReal(s[i]))
  }

  function FromReals(r: seq<real>): (s: seq<int16>)
    ensures |s| == |r|
  {
    seq(|r|, i requires 0 <= i < |r| => FromReal(r[i]))
  }

  /** The same, for a buffer of any length that travels through bytes. */
  lemma BufferRoundTrip(s: seq<int16>, i: nat)
    requires i < |s|
    ensures Samples(Bytes(FromReals(ToReals(s))))[i] ==
      if Abs(s[i]) <= 16384 then s[i] else if s[i] > 0 then s[i] - 1 else s[i] + 1
  {
    SamplesOfBytes(FromReals(ToReals(s)));
    RoundTrip(s[i]);
  }

  lemma ToRealsConcat(a: seq<int16>, b: seq<int16>)
    ensures ToReals(a + b) == ToReals(a) + ToReals(b)
  {
  }

  method Pcm16ToFloat64(pcm16: seq<byte>, floats: array<real>)
    requires 2 * floats.Length <= |pcm16|
    modifies floats
    ensures floats[..] == ToReals(Samples(pcm16))[..floats.Length]
  {
    hide Load;
    for i := 0 to floats.Length
      invariant forall k :: 0 <= k < i ==> floats[k] == ToReals(Samples(pcm16))[k]
    {
      var sample := Load(pcm16[2 * i], pcm16[2 * i + 1]);
      floats[i] := sample as real / 32768.0;
    }
  }

  method Float64ToPcm16(floats: seq<real>, pcm16: array<byte>)
    requires pcm16.Length >= 2 * |floats|
    modifies pcm16
    ensures pcm16[..2 * |floats|] == Bytes(FromReals(floats))
    ensures pcm16[2 * |floats|..] == old(pcm16[2 * |floats|..])
  {
    hide Low, High;
    for i := 0 to |floats|
      invariant forall k :: 0 <= k < 2 * i ==> pcm16[k] == Bytes(FromReals(floats))[k]
      invariant pcm16[2 * |floats|..] == old(pcm16[2 * |floats|..])
    {
      var f := floats[i];
      if f > 1.0 {
        f := 1.0;
      } else if f < -1.0 {
        f := -1.0;
      }
      RoundInRange(f * 32767.0);
      var sample := Round(f * 32767.0);
      assert sample == FromReals(floats)[i];
      Put(pcm16, i, sample);
      BytesAt(FromReals(floats), i);
    }
  }
}
