/** The polyphase resampler between 8 kHz and 24 kHz: a circular delay line and
    three 16-tap subfilters, proved against the plain filters of module Fir.
    The coefficients are arbitrary; samples are reals. */
module Resampler {
  import opened Fir
  import opened Seqs

  const TAPS := 48
  const SUBTAPS := 16
  /** `convolvePhase` reads the oldest entries of the delay line. */
  const OFFSET := 32

  /** What upsampling gives for a whole stream. */
  function Upsampled(taps: seq<real>, h: seq<real>): (up: seq<real>)
    requires |taps| == TAPS
    ensures |up| == 3 * |h|
  {
    seq(3 * |h|, k requires 0 <= k < 3 * |h| => UpsampledAt(taps, h, k))
  }

  function UpsampledAt(taps: seq<real>, h: seq<real>, k: nat): real
    requires |taps| == TAPS
  {
    Convolve(Subfilter(taps, 3, k % 3), h, k / 3 - OFFSET, SUBTAPS)
  }

  /** What one downsampling call gives for a block `x` received after `h`. */
  function DownsampledBlock(taps: seq<real>, h: seq<real>, x: seq<real>): (down: seq<real>)
    ensures |down| == |x| / 3
  {
    seq(|x| / 3, i requires 0 <= i < |x| / 3 => Filter(taps, h + x, |h| + 3 * i))
  }

  /** Every third output of the full filter over a whole stream. */
  function Decimated(taps: seq<real>, h: seq<real>): (down: seq<real>)
    ensures |down| == |h| / 3
  {
    seq(|h| / 3, k requires 0 <= k < |h| / 3 => Filter(taps, h, 3 * k))
  }

  // ---------- Upsampling ----------

  /** The polyphase ring buffer computes the 48-tap filter of the zero-stuffed
      stream, 96 output samples late. */
  lemma UpsampledIsNaiveFilter(taps: seq<real>, h: seq<real>, k: nat)
    requires |taps| == TAPS && k < 3 * |h|
    ensures Upsampled(taps, h)[k] == Filter(taps, ZeroStuffed(h), k - 96)
  {
    Polyphase(taps, h, k / 3 - OFFSET, k % 3, SUBTAPS);
    assert 3 * (k / 3 - OFFSET) + k % 3 == k - 96;
  }

  /** What the sample received at time `i` adds to output `k`: it is heard from 96
      outputs after its own place on. */
  function UpShare(taps: seq<real>, x: real, i: nat, k: int): real
    requires |taps| == TAPS
  {
    if 0 <= k - 96 - 3 * i < 48 then x * taps[k - 96 - 3 * i] else 0.0
  }

  function UpResponse(taps: seq<real>, h: seq<real>, k: int): real
    requires |taps| == TAPS
    decreases |h|
  {
    if h == [] then 0.0
    else UpResponse(taps, h[..|h| - 1], k) + UpShare(taps, h[|h| - 1], |h| - 1, k)
  }

  /** Upsampling sums each sample times the coefficient that its distance from the
      output selects. */
  lemma {:induction false} UpsampledIsConvolution(taps: seq<real>, h: seq<real>, k: nat)
    requires |taps| == TAPS
    ensures UpsampledAt(taps, h, k) == UpResponse(taps, h, k)
    ensures k < 3 * |h| ==> Upsampled(taps, h)[k] == UpResponse(taps, h, k)
    decreases |h|
  {
    var sub, t := Subfilter(taps, 3, k % 3), k / 3 - OFFSET;
    if h == [] {
      SilentWindow(sub, h, t, SUBTAPS);
    } else {
      var n := |h| - 1;
      assert h == h[..n] + [h[n]];
      UpsampledIsConvolution(taps, h[..n], k);
      Superposition(sub, h[..n], [h[n]], t - n, SUBTAPS);
      ImpulseResponse(sub, h[n], t - n, SUBTAPS);
      LoneShare(taps, h[n], n, k);
    }
  }

  lemma LoneShare(taps: seq<real>, x: real, i: nat, k: nat)
    requires |taps| == TAPS
    ensures var t := k / 3 - OFFSET - i;
      UpShare(taps, x, i, k) == if 0 <= t < SUBTAPS then Scaled(x, Subfilter(taps, 3, k % 3)[t]) else 0.0
  {
    var t := k / 3 - OFFSET - i;
    assert 3 * t + k % 3 == k - 96 - 3 * i;
  }

  /** Output already produced never changes when more input arrives. */
  lemma UpsampledPrefix(taps: seq<real>, h: seq<real>, x: seq<real>)
    requires |taps| == TAPS
    ensures Upsampled(taps, h + x)[..3 * |h|] == Upsampled(taps, h)
    ensures Upsampled(taps, h) + UpsampledBlock(taps, h, x) == Upsampled(taps, h + x)
  {
    forall k | 0 <= k < 3 * |h|
      ensures UpsampledAt(taps, h + x, k) == UpsampledAt(taps, h, k)
    {
      UpsampledAtPrefix(taps, h, x, k);
    }
  }

  lemma UpsampledAtPrefix(taps: seq<real>, h: seq<real>, x: seq<real>, k: nat)
    requires |taps| == TAPS && k < 3 * |h|
    ensures UpsampledAt(taps, h + x, k) == UpsampledAt(taps, h, k)
  {
    var t := k / 3 - OFFSET;
    SameWindow(Subfilter(taps, 3, k % 3), h + x, t, h, t, SUBTAPS);
  }

  /** The subfilter output right after a sample was pushed. */
  lemma PhaseOutput(taps: seq<real>, h: seq<real>, later: seq<real>, phase: nat, sum: real)
    requires |taps| == TAPS && phase < 3 && |h| > 0
    requires sum == Convolve(Subfilter(taps, 3, phase), h, |h| - 1 - OFFSET, SUBTAPS)
    ensures sum == UpsampledAt(taps, h + later, 3 * (|h| - 1) + phase)
  {
    var k := 3 * (|h| - 1) + phase;
    assert k % 3 == phase && k / 3 == |h| - 1;
    UpsampledAtPrefix(taps, h, later, k);
  }

  /** The output of one call for the block `x` received after `h`. */
  function UpsampledBlock(taps: seq<real>, h: seq<real>, x: seq<real>): seq<real>
    requires |taps| == TAPS
  {
    Upsampled(taps, h + x)[3 * |h|..]
  }

  function UpsampledCalls(taps: seq<real>, h: seq<real>, chunks: seq<seq<real>>): seq<real>
    requires |taps| == TAPS
    decreases |chunks|
  {
    if chunks == [] then []
    else UpsampledBlock(taps, h, chunks[0]) + UpsampledCalls(taps, h + chunks[0], chunks[1..])
  }

  /** However a stream is cut into calls, the outputs join up to the same signal. */
  lemma {:induction false} UpsamplingIgnoresChunking(taps: seq<real>, h: seq<real>, chunks: seq<seq<real>>)
    requires |taps| == TAPS
    ensures Upsampled(taps, h) + UpsampledCalls(taps, h, chunks) == Upsampled(taps, h + Concat(chunks))
    decreases |chunks|
  {
    hide Upsampled, UpsampledBlock;
    if chunks == [] {
      assert h + Concat(chunks) == h;
    } else {
      var x := chunks[0];
      UpsampledPrefix(taps, h, x);
      UpsamplingIgnoresChunking(taps, h + x, chunks[1..]);
      assert (h + x) + Concat(chunks[1..]) == h + Concat(chunks);
      var up, block, later := Upsampled(taps, h), UpsampledBlock(taps, h, x), UpsampledCalls(taps, h + x, chunks[1..]);
      assert up + (block + later) == (up + block) + later;
    }
  }

  // ---------- Downsampling ----------

  function DownsampledCalls(taps: seq<real>, h: seq<real>, chunks: seq<seq<real>>): seq<real>
    decreases |chunks|
  {
    if chunks == [] then []
    else DownsampledBlock(taps, h, chunks[0]) + DownsampledCalls(taps, h + chunks[0], chunks[1..])
  }

  /** A block whose length is a multiple of 3 continues the decimation grid. */
  lemma DecimatedAppend(taps: seq<real>, h: seq<real>, x: seq<real>)
    requires |h| % 3 == 0
    ensures Decimated(taps, h) + DownsampledBlock(taps, h, x) == Decimated(taps, h + x)
  {
    var left, right := Decimated(taps, h) + DownsampledBlock(taps, h, x), Decimated(taps, h + x);
    assert |left| == |right|;
    forall k | 0 <= k < |right|
      ensures left[k] == right[k]
    {
      if k < |h| / 3 {
        Causal(taps, h, x, 3 * k);
      } else {
        assert |h| + 3 * (k - |h| / 3) == 3 * k;
      }
    }
  }

  /** Consecutive blocks of multiples of 3 samples give the full filter over the
      whole history, sampled at every third index. */
  lemma {:induction false} DownsamplingIgnoresChunking(taps: seq<real>, h: seq<real>, chunks: seq<seq<real>>)
    requires |h| % 3 == 0
    requires forall i :: 0 <= i < |chunks| ==> |chunks[i]| % 3 == 0
    ensures Decimated(taps, h) + DownsampledCalls(taps, h, chunks) == Decimated(taps, h + Concat(chunks))
    decreases |chunks|
  {
    hide Decimated, DownsampledBlock;
    if chunks == [] {
      assert h + Concat(chunks) == h;
    } else {
      var x := chunks[0];
      DecimatedAppend(taps, h, x);
      DownsamplingIgnoresChunking(taps, h + x, chunks[1..]);
      assert (h + x) + Concat(chunks[1..]) == h + Concat(chunks);
      assert Decimated(taps, h) + DownsampledCalls(taps, h, chunks)
          == Decimated(taps, h + x) + DownsampledCalls(taps, h + x, chunks[1..]);
    }
  }

  /** A split of the filter into `m` subfilters. */
  method DecomposePolyphase(taps: seq<real>, m: nat) returns (phases: seq<seq<real>>)
    requires m > 0
    ensures |phases| == m
    ensures forall p: nat :: p < m ==> phases[p] == Subfilter(taps, m, p)
  {
    var subLen := |taps| / m;
    phases := [];
    for p := 0 to m
      invariant |phases| == p
      invariant forall q: nat :: q < p ==> phases[q] == Subfilter(taps, m, q)
    {
      var sub: seq<real> := [];
      for i := 0 to subLen
        invariant |sub| == i
        invariant forall k :: 0 <= k < i ==> sub[k] == Subfilter(taps, m, p)[k]
      {
        TapIndexInRange(|taps|, m, p, i);
        sub := sub + [taps[i * m + p]];
      }
      phases := phases + [sub];
    }
  }

  class Resampler {
    const taps: seq<real>
    const phases: seq<seq<real>>
    const delayLine: array<real>
    var delayIdx: nat
    /** Every sample pushed since the last reset, oldest first. */
    ghost var hist: seq<real>

    /** Slot `k` holds the newest sample whose time is `k` slots from the index. */
    ghost predicate Valid()
      reads this, delayLine
    {
      && |taps| == TAPS
      && phases == [Subfilter(taps, 3, 0), Subfilter(taps, 3, 1), Subfilter(taps, 3, 2)]
      && delayLine.Length == TAPS
      && delayIdx < TAPS
      && forall k :: 0 <= k < TAPS ==> delayLine[k] == At(hist, SlotTime(k))
    }

    ghost function SlotTime(k: nat): int
      reads this
    {
      |hist| - delayIdx + k - (if k < delayIdx then 0 else TAPS)
    }

    constructor (design: seq<real>)
      requires |design| == TAPS
      ensures Valid() && fresh(delayLine)
      ensures taps == design && hist == []
    {
      var split := DecomposePolyphase(design, 3);
      taps := design;
      phases := split;
      delayLine := new real[TAPS](_ => 0.0);
      delayIdx := 0;
      hist := [];
    }

    /** Clear the delay line: the stream starts anew. */
    method Reset()
      requires Valid()
      modifies this, delayLine
      ensures Valid() && hist == []
    {
      for i := 0 to delayLine.Length
        invariant forall k :: 0 <= k < i ==> delayLine[k] == 0.0
      {
        delayLine[i] := 0.0;
      }
      delayIdx := 0;
      hist := [];
    }

    /** Store one sample and advance the circular index. */
    method Push(sample: real)
      requires Valid()
      modifies this, delayLine
      ensures Valid() && hist == old(hist) + [sample]
    {
      delayLine[delayIdx] := sample;
      delayIdx := (delayIdx + 1) % delayLine.Length;
      hist := hist + [sample];
    }

    /** The circular index of the sample `back` steps before the newest one. */
    method Locate(back: nat) returns (idx: nat)
      requires Valid() && back < TAPS
      ensures idx < TAPS && delayLine[idx] == At(hist, |hist| - 1 - back)
    {
      var i := delayIdx - 1 - back;
      while i < 0
        invariant i == delayIdx - 1 - back || i == delayIdx - 1 - back + TAPS
        invariant i >= 0 || i == delayIdx - 1 - back
      {
        i := i + delayLine.Length;
      }
      idx := i % delayLine.Length;
      assert SlotTime(idx) == |hist| - 1 - back;
    }

    method ConvolvePhase(phase: nat) returns (sum: real)
      requires Valid() && phase < 3
      ensures sum == Convolve(Subfilter(taps, 3, phase), hist, |hist| - 1 - OFFSET, SUBTAPS)
    {
      var subfilter := phases[phase];
      var subLen := |subfilter|;
      var offset := delayLine.Length - subLen;
      sum := 0.0;
      for j := 0 to subLen
        invariant sum == Convolve(subfilter, hist, |hist| - 1 - OFFSET, j)
      {
        var idx := Locate(offset + j);
        sum := sum + Scaled(delayLine[idx], subfilter[j]);
      }
    }

    /** Three outputs per input; `out` may be longer than needed. */
    method Upsample8to24(input: seq<real>, out: array<real>)
      requires Valid() && out != delayLine
      requires out.Length >= 3 * |input|
      modifies this, delayLine, out
      ensures Valid() && hist == old(hist) + input
      ensures out[..3 * |input|] == UpsampledBlock(taps, old(hist), input)
      ensures out[3 * |input|..] == old(out[3 * |input|..])
    {
      ghost var start := 3 * |hist|;
      ghost var whole := old(hist) + input;
      var outIdx := 0;
      for i := 0 to |input|
        invariant Valid() && outIdx == 3 * i
        invariant hist == old(hist) + input[..i]
        invariant forall k :: 0 <= k < outIdx ==> out[k] == UpsampledAt(taps, whole, start + k)
        invariant out[3 * |input|..] == old(out[3 * |input|..])
      {
        Push(input[i]);
        assert hist == old(hist) + input[..i + 1];
        for phase := 0 to 3
          invariant Valid() && outIdx == 3 * i + phase
          invariant hist == old(hist) + input[..i + 1]
          invariant forall k :: 0 <= k < outIdx ==> out[k] == UpsampledAt(taps, whole, start + k)
          invariant out[3 * |input|..] == old(out[3 * |input|..])
        {
          var sum := ConvolvePhase(phase);
          PhaseOutput(taps, hist, input[i + 1..], phase, sum);
          assert hist + input[i + 1..] == whole;
          assert 3 * (|hist| - 1) + phase == start + outIdx;
          out[outIdx] := sum;
          outIdx := outIdx + 1;
        }
      }
    }

    /** Filter every input, keep every third result. */
    method Downsample24to8(input: seq<real>, out: array<real>)
      requires Valid() && out != delayLine
      requires out.Length > 0 ==> 3 * (out.Length - 1) < |input|
      modifies this, delayLine, out
      ensures Valid() && hist == old(hist) + input
      ensures forall i :: 0 <= i < out.Length ==> out[i] == Filter(taps, hist, |old(hist)| + 3 * i)
      ensures 3 * out.Length == |input| ==> out[..] == DownsampledBlock(taps, old(hist), input)
    {
      ghost var whole := old(hist) + input;
      var filtered := new real[|input|];
      for i := 0 to |input|
        invariant Valid() && hist == old(hist) + input[..i]
        invariant forall k :: 0 <= k < i ==> filtered[k] == Filter(taps, whole, |old(hist)| + k)
      {
        Push(input[i]);
        assert hist == old(hist) + input[..i + 1];
        var sum := 0.0;
        for j := 0 to |taps|
          modifies {}
          invariant sum == Convolve(taps, hist, |hist| - 1, j)
        {
          var idx := Locate(j);
          sum := sum + Scaled(delayLine[idx], taps[j]);
        }
        Causal(taps, hist, input[i + 1..], |hist| - 1);
        assert hist + input[i + 1..] == whole;
        filtered[i] := sum;
      }
      for i := 0 to out.Length
        invariant Valid() && hist == whole
        invariant forall k :: 0 <= k < |input| ==> filtered[k] == Filter(taps, whole, |old(hist)| + k)
        invariant forall k :: 0 <= k < i ==> out[k] == Filter(taps, whole, |old(hist)| + 3 * k)
      {
        out[i] := filtered[i * 3];
      }
    }
  }
}
