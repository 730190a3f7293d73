/** The audio pipeline of one call: outbound 24 kHz PCM to u-law frames, inbound
    8 kHz PCM to 24 kHz, both through one resampler. */
module Pipeline {
  import opened GoArith
  import opened Pcm16
  import opened Fir
  import opened Seqs
  import opened Resampler
  import Mulaw
  import FloatPcm
  import Framing

  const FRAME_PCM24K := 960
  const SAMPLES_24K := 480
  const SAMPLES_8K := 160

  /** Filtered samples as the codes sent on. */
  function Codes(down: seq<real>): (codes: seq<byte>)
    ensures |codes| == |down|
  {
    Mulaw.EncodeAll(FloatPcm.FromReals(down))
  }

  lemma CodesConcat(a: seq<real>, b: seq<real>)
    ensures Codes(a + b) == Codes(a) + Codes(b)
  {
    assert FloatPcm.FromReals(a + b) == FloatPcm.FromReals(a) + FloatPcm.FromReals(b);
    Mulaw.EncodeAllConcat(FloatPcm.FromReals(a), FloatPcm.FromReals(b));
  }

  /** One outbound frame: filter and decimate, convert, encode. */
  function CodedFrame(taps: seq<real>, h: seq<real>, frame: seq<byte>): seq<byte> {
    Codes(DownsampledBlock(taps, h, FloatPcm.ToReals(Samples(frame))))
  }

  /** The same as a step of a codec whose state is the history of the filter. */
  function OutboundStep(taps: seq<real>): (seq<real>, seq<byte>) -> (seq<real>, seq<byte>) {
    (h, frame) => (h + FloatPcm.ToReals(Samples(frame)), CodedFrame(taps, h, frame))
  }

  function Tripled(x: seq<real>): (r: seq<real>)
    ensures |r| == |x|
  {
    seq(|x|, i requires 0 <= i < |x| => x[i] * 3.0)
  }

  /** A stream filtered, decimated and encoded in one go. */
  function Coded(taps: seq<real>, x: seq<real>): (codes: seq<byte>)
    ensures |codes| == |x| / 3
  {
    Codes(Decimated(taps, x))
  }

  /** The samples of a byte stream as the filter sees them. */
  function Signal(buf: seq<byte>): (x: seq<real>)
    ensures |x| == |buf| / 2
  {
    FloatPcm.ToReals(Samples(buf))
  }

  lemma CodedAppend(taps: seq<real>, h: seq<real>, frame: seq<byte>)
    requires |h| % 3 == 0
    ensures Coded(taps, h) + CodedFrame(taps, h, frame) == Coded(taps, h + Signal(frame))
  {
    hide Decimated, DownsampledBlock, Codes;
    DecimatedAppend(taps, h, Signal(frame));
    CodesConcat(Decimated(taps, h), DownsampledBlock(taps, h, Signal(frame)));
  }

  lemma SignalAppend(a: seq<byte>, b: seq<byte>)
    requires |a| % 2 == 0
    ensures Signal(a + b) == Signal(a) + Signal(b)
  {
    SamplesOfConcat(a, b);
    FloatPcm.ToRealsConcat(Samples(a), Samples(b));
  }

  /** Frame by frame or in one go: the whole frames of a stream are the encoding
      of the decimated filter over everything received. */
  lemma {:induction false} FramesAreOneFilter(taps: seq<real>, h: seq<real>, buf: seq<byte>)
    requires |h| % 3 == 0
    ensures var step, whole := OutboundStep(taps), buf[..|buf| - |buf| % FRAME_PCM24K];
      && Framing.StateAfter(FRAME_PCM24K, step, h, buf) == h + Signal(whole)
      && Coded(taps, h) + Concat(Framing.Frames(FRAME_PCM24K, step, h, buf)) == Coded(taps, h + Signal(whole))
    decreases |buf|
  {
    hide Coded, CodedFrame, Signal;
    if |buf| < FRAME_PCM24K {
      assert h + Signal(buf[..0]) == h;
    } else {
      var frame, rest := buf[..FRAME_PCM24K], buf[FRAME_PCM24K..];
      var whole := rest[..|rest| - |rest| % FRAME_PCM24K];
      StepIs(taps, h, frame);
      var next := h + Signal(frame);
      FramesAreOneFilter(taps, next, rest);
      CodedAppend(taps, h, frame);
      SignalAppend(frame, whole);
      assert frame + whole == buf[..|buf| - |buf| % FRAME_PCM24K];
      assert next + Signal(whole) == h + Signal(frame + whole);
      var tail := Framing.Frames(FRAME_PCM24K, OutboundStep(taps), next, rest);
      assert Framing.Frames(FRAME_PCM24K, OutboundStep(taps), h, buf) == [CodedFrame(taps, h, frame)] + tail;
      assert Coded(taps, h) + (CodedFrame(taps, h, frame) + Concat(tail))
          == Coded(taps, next) + Concat(tail);
    }
  }

  lemma StepIs(taps: seq<real>, h: seq<real>, frame: seq<byte>)
    ensures OutboundStep(taps)(h, frame) == (h + Signal(frame), CodedFrame(taps, h, frame))
  {
  }

  /** A whole outbound call on an outbound-only pipeline, from reset to flush:
      the bytes sent are one filtering, decimation and encoding of the received
      stream padded to a whole frame, however it was cut into chunks. */
  lemma OutboundCall(taps: seq<real>, chunks: seq<seq<byte>>)
    ensures var n, step := FRAME_PCM24K, OutboundStep(taps);
      var end := Framing.CallEnd(n, step, [], [], chunks);
      var frames := Framing.CallFrames(n, step, [], [], chunks)
        + Framing.Frames(n, step, end.0, Framing.Padded(n, end.1));
      Concat(frames) == Coded(taps, Signal(Framing.PaddedStream(n, Concat(chunks))))
  {
    hide Signal, Coded, CodedFrame, OutboundStep, Framing.Residue, Framing.PaddedStream;
    var all := Framing.PaddedStream(FRAME_PCM24K, Concat(chunks));
    Framing.CallsThenFlush(FRAME_PCM24K, OutboundStep(taps), [], chunks);
    Framing.PaddedStreamIsWhole(FRAME_PCM24K, Concat(chunks));
    FramesAreOneFilter(taps, [], all);
    assert all[..|all| - |all| % FRAME_PCM24K] == all && [] + Signal(all) == Signal(all);
    assert Coded(taps, []) == [];
  }

  /** Upsampled samples as the bytes sent on. */
  function Widened(up: seq<real>): seq<byte> {
    Bytes(FloatPcm.FromReals(Tripled(up)))
  }

  lemma WidenedConcat(a: seq<real>, b: seq<real>)
    ensures Widened(a + b) == Widened(a) + Widened(b)
  {
    hide Low, High, FloatPcm.FromReal;
    assert Tripled(a + b) == Tripled(a) + Tripled(b);
    assert FloatPcm.FromReals(Tripled(a + b)) == FloatPcm.FromReals(Tripled(a)) + FloatPcm.FromReals(Tripled(b));
    BytesConcat(FloatPcm.FromReals(Tripled(a)), FloatPcm.FromReals(Tripled(b)));
  }

  /** Each sample sent on is three times the filter output, in steps of 1/32767, to
      the nearest; only what exceeds full scale is clipped. */
  lemma WidenedSample(up: seq<real>, k: nat)
    requires k < |up|
    ensures |Widened(up)| == 2 * |up|
    ensures var v := Samples(Widened(up))[k] as real;
      && (-1.0 <= 3.0 * up[k] <= 1.0 ==> -0.5 <= v - 98301.0 * up[k] <= 0.5)
      && (3.0 * up[k] > 1.0 ==> v == 32767.0)
      && (3.0 * up[k] < -1.0 ==> v == -32767.0)
  {
    hide Bytes, Samples;
    SamplesOfBytes(FloatPcm.FromReals(Tripled(up)));
    FloatPcm.FromRealAccuracy(up[k] * 3.0);
  }

  /** Each code sent decodes to the filter output, in steps of 1/32767, up to the
      rounding to a sample and the error of the u-law codec. */
  lemma CodeAccuracy(down: seq<real>, k: nat)
    requires k < |down| && -1.0 <= down[k] <= 1.0
    ensures var v := Mulaw.Decode(Codes(down)[k]) as real;
      var exact := 32767.0 * down[k];
      34.0 * AbsReal(v - exact) <= AbsReal(exact) + 150.0
  {
    var s := FloatPcm.FromReal(down[k]);
    FloatPcm.FromRealAccuracy(down[k]);
    Mulaw.EncodeAccuracy(s);
    assert Codes(down)[k] == Mulaw.Encode(s);
    hide FloatPcm.FromReal, Mulaw.Encode, Mulaw.Decode, Codes;
  }

  function AbsReal(x: real): real {
    if x < 0.0 then -x else x
  }

  /** What a series of inbound calls returns. */
  function InboundCalls(taps: seq<real>, h: seq<real>, chunks: seq<seq<byte>>): seq<byte>
    requires |taps| == TAPS
    decreases |chunks|
  {
    if chunks == [] then []
    else
      var x := Signal(chunks[0]);
      Widened(UpsampledBlock(taps, h, x)) + InboundCalls(taps, h + x, chunks[1..])
  }

  /** A whole inbound call on an inbound-only pipeline: the bytes returned are one
      upsampling of the stream received, however it was cut at sample bounds. */
  lemma {:induction false} InboundCall(taps: seq<real>, h: seq<real>, chunks: seq<seq<byte>>)
    requires |taps| == TAPS
    requires forall i :: 0 <= i < |chunks| ==> |chunks[i]| % 2 == 0
    ensures Widened(Upsampled(taps, h)) + InboundCalls(taps, h, chunks)
         == Widened(Upsampled(taps, h + Signal(Concat(chunks))))
    decreases |chunks|
  {
    hide Widened, Upsampled, UpsampledBlock, Signal;
    if chunks == [] {
      assert h + Signal([]) == h;
    } else {
      var x, rest := Signal(chunks[0]), chunks[1..];
      UpsampledPrefix(taps, h, x);
      WidenedConcat(Upsampled(taps, h), UpsampledBlock(taps, h, x));
      InboundCall(taps, h + x, rest);
      SignalAppend(chunks[0], Concat(rest));
      assert (h + x) + Signal(Concat(rest)) == h + (x + Signal(Concat(rest)));
      var a, b, c := Widened(Upsampled(taps, h)), Widened(UpsampledBlock(taps, h, x)), InboundCalls(taps, h + x, rest);
      assert a + (b + c) == (a + b) + c;
    }
  }

  /** Silence in, the standard silence code out, whatever the coefficients. */
  lemma SilenceIsSilenceCode(taps: seq<real>, n: nat, k: nat)
    requires k < |Coded(taps, Signal(Framing.Zeros(n)))|
    ensures Coded(taps, Signal(Framing.Zeros(n)))[k] == 0xFF
  {
    var x := Signal(Framing.Zeros(n));
    assert forall i :: 0 <= i < |x| ==> x[i] == 0.0;
    SilentWindow(taps, x, 3 * k, |taps|);
    assert FloatPcm.FromReal(0.0) == 0;
  }

  class Pipeline {
    const resampler: Resampler
    const tables: Mulaw.Tables
    var outBuf: seq<byte>

    ghost predicate Valid()
      reads this, resampler, resampler.delayLine, tables, tables.toPcm, tables.toMulaw
    {
      resampler.Valid() && tables.Valid() && |outBuf| < FRAME_PCM24K
    }

    constructor (taps: seq<real>)
      requires |taps| == TAPS
      ensures Valid() && fresh(resampler) && fresh(resampler.delayLine)
      ensures fresh(tables) && fresh(tables.toPcm) && fresh(tables.toMulaw)
      ensures resampler.taps == taps && resampler.hist == [] && outBuf == []
    {
      resampler := new Resampler(taps);
      tables := new Mulaw.Tables();
      outBuf := [];
    }

    method Reset()
      requires Valid()
      modifies this, resampler, resampler.delayLine
      ensures Valid() && resampler.hist == [] && outBuf == []
    {
      resampler.Reset();
      outBuf := [];
    }

    method CodeFrame(frame: seq<byte>) returns (mulaw: seq<byte>)
      requires resampler.Valid() && tables.Valid() && |frame| == FRAME_PCM24K
      modifies resampler, resampler.delayLine
      ensures resampler.Valid() && tables.Valid()
      ensures (resampler.hist, mulaw) == OutboundStep(resampler.taps)(old(resampler.hist), frame)
    {
      var floats24k := new real[SAMPLES_24K];
      FloatPcm.Pcm16ToFloat64(frame, floats24k);
      var floats8k := new real[SAMPLES_8K];
      ghost var x := FloatPcm.ToReals(Samples(frame));
      assert floats24k[..] == x;
      resampler.Downsample24to8(floats24k[..], floats8k);
      assert floats8k[..] == DownsampledBlock(resampler.taps, old(resampler.hist), x);
      var pcm8k := new byte[2 * SAMPLES_8K];
      FloatPcm.Float64ToPcm16(floats8k[..], pcm8k);
      var codes := new byte[SAMPLES_8K];
      assert pcm8k[..] == pcm8k[..2 * |floats8k[..]|];
      tables.Pcm16ToMulaw(pcm8k[..], codes);
      assert codes[..] == codes[..|pcm8k[..]| / 2];
      mulaw := codes[..];
      SamplesOfBytes(FloatPcm.FromReals(floats8k[..]));
    }

    method ProcessOutboundBytes(pcm24k: seq<byte>) returns (frames: seq<seq<byte>>)
      requires Valid()
      modifies this, resampler, resampler.delayLine
      ensures Valid()
      ensures var buf, step := old(outBuf) + pcm24k, OutboundStep(resampler.taps);
        && frames == Framing.Frames(FRAME_PCM24K, step, old(resampler.hist), buf)
        && resampler.hist == Framing.StateAfter(FRAME_PCM24K, step, old(resampler.hist), buf)
        && outBuf == Framing.Residue(FRAME_PCM24K, buf)
    {
      hide OutboundStep, Framing.Residue;
      ghost var step := OutboundStep(resampler.taps);
      outBuf := outBuf + pcm24k;
      frames := [];
      while |outBuf| >= FRAME_PCM24K
        invariant resampler.Valid() && tables.Valid()
        invariant frames + Framing.Frames(FRAME_PCM24K, step, resampler.hist, outBuf)
               == Framing.Frames(FRAME_PCM24K, step, old(resampler.hist), old(outBuf) + pcm24k)
        invariant Framing.StateAfter(FRAME_PCM24K, step, resampler.hist, outBuf)
               == Framing.StateAfter(FRAME_PCM24K, step, old(resampler.hist), old(outBuf) + pcm24k)
        invariant Framing.Residue(FRAME_PCM24K, outBuf) == Framing.Residue(FRAME_PCM24K, old(outBuf) + pcm24k)
        decreases |outBuf|
      {
        Framing.ResidueStep(FRAME_PCM24K, outBuf);
        var frame := outBuf[..FRAME_PCM24K];
        outBuf := outBuf[FRAME_PCM24K..];
        var mulaw := CodeFrame(frame);
        frames := frames + [mulaw];
      }
      Framing.ResidueStep(FRAME_PCM24K, outBuf);
    }

    /** Code what is left, padded with silence; empty when nothing is left. */
    method FlushOutbound() returns (mulaw: seq<byte>)
      requires Valid()
      modifies this, resampler, resampler.delayLine
      ensures Valid() && outBuf == []
      ensures old(outBuf) == [] ==> mulaw == [] && resampler.hist == old(resampler.hist)
      ensures old(outBuf) != [] ==>
        (resampler.hist, mulaw)
          == OutboundStep(resampler.taps)(old(resampler.hist), Framing.Padded(FRAME_PCM24K, old(outBuf)))
    {
      if outBuf == [] {
        return [];
      }
      ghost var rest := outBuf;
      while |outBuf| < FRAME_PCM24K
        invariant |rest| <= |outBuf| <= FRAME_PCM24K
        invariant outBuf == rest + Framing.Zeros(|outBuf| - |rest|)
        invariant resampler.Valid() && tables.Valid() && resampler.hist == old(resampler.hist)
        decreases FRAME_PCM24K - |outBuf|
      {
        outBuf := outBuf + [0];
      }
      var frame := outBuf[..FRAME_PCM24K];
      assert frame == Framing.Padded(FRAME_PCM24K, rest);
      outBuf := [];
      mulaw := CodeFrame(frame);
    }

    /** Make up for the two zeros stuffed after each sample. */
    static method Triple(x: array<real>)
      modifies x
      ensures x[..] == Tripled(old(x[..]))
    {
      for i := 0 to x.Length
        invariant forall k :: 0 <= k < i ==> x[k] == Tripled(old(x[..]))[k]
        invariant forall k :: i <= k < x.Length ==> x[k] == old(x[k])
      {
        x[i] := x[i] * 3.0;
      }
    }

    method ResamplePcm16From8kTo24k(pcm8k: seq<byte>) returns (pcm24k: seq<byte>)
      requires Valid()
      modifies resampler, resampler.delayLine
      ensures Valid()
      ensures resampler.hist == old(resampler.hist) + FloatPcm.ToReals(Samples(pcm8k))
      ensures pcm24k == Widened(UpsampledBlock(resampler.taps, old(resampler.hist), Signal(pcm8k)))
    {
      hide Tripled, UpsampledBlock, FloatPcm.ToReals, FloatPcm.FromReals, Samples, Bytes;
      ghost var x := FloatPcm.ToReals(Samples(pcm8k));
      ghost var up := UpsampledBlock(resampler.taps, resampler.hist, x);
      var samples8k := |pcm8k| / 2;
      var floats8k := new real[samples8k];
      FloatPcm.Pcm16ToFloat64(pcm8k, floats8k);
      assert floats8k[..] == x;
      var floats24k := new real[samples8k * 3];
      resampler.Upsample8to24(floats8k[..], floats24k);
      assert floats24k[..] == floats24k[..3 * |floats8k[..]|] == up;
      Triple(floats24k);
      var bytes := new byte[floats24k.Length * 2];
      FloatPcm.Float64ToPcm16(floats24k[..], bytes);
      pcm24k := bytes[..];
      assert pcm24k == bytes[..2 * |floats24k[..]|] == Bytes(FloatPcm.FromReals(Tripled(up)));
    }
  }
}
