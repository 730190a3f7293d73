/** The two other users of fixed-size framing: the G.722 encoder, which pads its
    last frame, and the Cartesia sender, which never flushes. */
module FrameSenders {
  import opened GoArith
  import opened Pcm16
  import opened Seqs
  import Framing

  datatype Result<T> = Ok(value: T) | Err(message: string)

  const FRAME_PCM16K := 640
  const SAMPLES_16K := 320
  const FRAME_MULAW := 160

  /** A codec frame as a step: unpack the samples, then code them. */
  function CodecStep<C>(codec: (C, seq<int16>) -> (C, seq<byte>)): (C, seq<byte>) -> (C, seq<byte>) {
    (c, frame) => codec(c, Samples(frame))
  }

  /** The buffer as a flush codes it: a short one is padded first. */
  function Tail(buf: seq<byte>): seq<byte> {
    if |buf| < FRAME_PCM16K then Framing.Padded(FRAME_PCM16K, buf) else buf
  }

  /** The G.722 encoder around a codec whose inside is not modelled. */
  class G722Encoder<C> {
    const codec: (C, seq<int16>) -> (C, seq<byte>)
    var enc: C
    var buf: seq<byte>

    constructor (codec: (C, seq<int16>) -> (C, seq<byte>), start: C)
      ensures this.codec == codec && enc == start && buf == []
    {
      this.codec := codec;
      enc := start;
      buf := [];
    }

    /** Only whole frames are accepted. */
    method EncodePcm16Frame(pcm16: seq<byte>) returns (r: Result<seq<byte>>)
      modifies this`enc
      ensures |pcm16| != 640 ==> r.Err? && enc == old(enc)
      ensures |pcm16| == 640 ==> r.Ok? && (enc, r.value) == codec(old(enc), Samples(pcm16))
    {
      if |pcm16| != FRAME_PCM16K {
        return Err("g722: expected 640 PCM16 bytes");
      }
      var samples := new int16[SAMPLES_16K];
      for i := 0 to SAMPLES_16K
        invariant forall k :: 0 <= k < i ==> samples[k] == Samples(pcm16)[k]
        invariant enc == old(enc)
      {
        samples[i] := Load(pcm16[i * 2], pcm16[i * 2 + 1]);
      }
      assert samples[..] == Samples(pcm16);
      var (next, out) := codec(enc, samples[..]);
      enc := next;
      r := Ok(out);
    }

    /** The frame check never fires here. */
    method ProcessPcm16Bytes(pcm16: seq<byte>) returns (r: Result<seq<seq<byte>>>)
      modifies this
      ensures r.Ok?
      ensures var all, step := old(buf) + pcm16, CodecStep(codec);
        && r.value == Framing.Frames(FRAME_PCM16K, step, old(enc), all)
        && enc == Framing.StateAfter(FRAME_PCM16K, step, old(enc), all)
        && buf == Framing.Residue(FRAME_PCM16K, all)
    {
      ghost var step := CodecStep(codec);
      buf := buf + pcm16;
      var frames: seq<seq<byte>> := [];
      while |buf| >= FRAME_PCM16K
        invariant frames + Framing.Frames(FRAME_PCM16K, step, enc, buf)
               == Framing.Frames(FRAME_PCM16K, step, old(enc), old(buf) + pcm16)
        invariant Framing.StateAfter(FRAME_PCM16K, step, enc, buf)
               == Framing.StateAfter(FRAME_PCM16K, step, old(enc), old(buf) + pcm16)
        invariant Framing.Residue(FRAME_PCM16K, buf) == Framing.Residue(FRAME_PCM16K, old(buf) + pcm16)
        decreases |buf|
      {
        Framing.ResidueStep(FRAME_PCM16K, buf);
        var encoded := EncodePcm16Frame(buf[..FRAME_PCM16K]);
        if encoded.Err? {
          assert false;
        } else {
          frames := frames + [encoded.value];
          buf := buf[FRAME_PCM16K..];
        }
      }
      Framing.ResidueStep(FRAME_PCM16K, buf);
      r := Ok(frames);
    }

    /** Pad what is left to one frame and code it; nothing left, no frame. */
    method Flush() returns (r: Result<seq<seq<byte>>>)
      modifies this
      ensures r.Ok?
      ensures var step, tail := CodecStep(codec), Tail(old(buf));
        && r.value == Framing.Frames(FRAME_PCM16K, step, old(enc), tail)
        && enc == Framing.StateAfter(FRAME_PCM16K, step, old(enc), tail)
        && buf == Framing.Residue(FRAME_PCM16K, tail)
      ensures old(buf) == [] ==> buf == [] && r.value == [] && enc == old(enc)
      ensures 0 < |old(buf)| < 640 ==>
        && buf == []
        && r.value == [codec(old(enc), Samples(old(buf) + Framing.Zeros(640 - |old(buf)|))).1]
    {
      if buf == [] {
        return Ok([]);
      }
      ghost var rest := buf;
      while |buf| < FRAME_PCM16K
        invariant |rest| <= |buf| && (|rest| < FRAME_PCM16K ==> |buf| <= FRAME_PCM16K)
        invariant buf == rest + Framing.Zeros(|buf| - |rest|)
        invariant |rest| >= FRAME_PCM16K ==> buf == rest
        invariant enc == old(enc)
        decreases FRAME_PCM16K - |buf|
      {
        buf := buf + [0];
      }
      assert buf + [] == buf == Tail(rest);
      r := ProcessPcm16Bytes([]);
    }
  }

  // ---------- The Cartesia sender ----------

  /** Framing with no codec at all. */
  function Verbatim(): ((), seq<byte>) -> ((), seq<byte>) {
    (u, frame) => (u, frame)
  }

  function Accepted(accepts: seq<byte> -> bool, frames: seq<seq<byte>>): seq<seq<byte>> {
    if frames == [] then []
    else (if accepts(frames[0]) then [frames[0]] else []) + Accepted(accepts, frames[1..])
  }

  /** The messages that a buffer gives. */
  function Messages(accepts: seq<byte> -> bool, buf: seq<byte>): seq<seq<byte>> {
    Accepted(accepts, Framing.Frames(FRAME_MULAW, Verbatim(), (), buf))
  }

  /** Accepted frames keep their order, and nothing else is sent. */
  lemma {:induction false} AcceptedAt(accepts: seq<byte> -> bool, frames: seq<seq<byte>>, i: nat)
    requires i < |frames|
    ensures var n := |Accepted(accepts, frames[..i])|;
      && |Accepted(accepts, frames[..i + 1])| == n + (if accepts(frames[i]) then 1 else 0)
      && (accepts(frames[i]) ==>
            n < |Accepted(accepts, frames)| && Accepted(accepts, frames)[n] == frames[i])
    decreases |frames|
  {
    if i == 0 {
      assert frames[..1] == [frames[0]];
      assert frames[..1][1..] == frames[..0];
    } else {
      AcceptedAt(accepts, frames[1..], i - 1);
      assert frames[..i][1..] == frames[1..][..i - 1];
      assert frames[..i + 1][1..] == frames[1..][..i];
    }
  }

  lemma FirstMessage(accepts: seq<byte> -> bool, buf: seq<byte>)
    ensures |buf| < FRAME_MULAW ==> Messages(accepts, buf) == []
    ensures |buf| >= FRAME_MULAW ==>
      Messages(accepts, buf)
        == (if accepts(buf[..FRAME_MULAW]) then [buf[..FRAME_MULAW]] else [])
         + Messages(accepts, buf[FRAME_MULAW..])
  {
    if |buf| >= FRAME_MULAW {
      var tail := Framing.Frames(FRAME_MULAW, Verbatim(), (), buf[FRAME_MULAW..]);
      assert Framing.Frames(FRAME_MULAW, Verbatim(), (), buf) == [buf[..FRAME_MULAW]] + tail;
      assert ([buf[..FRAME_MULAW]] + tail)[1..] == tail;
    }
  }

  /** Frames carry the received bytes unchanged and in order. */
  lemma {:induction false} FramesCarryTheBytes(buf: seq<byte>)
    ensures Concat(Framing.Frames(FRAME_MULAW, Verbatim(), (), buf)) + Framing.Residue(FRAME_MULAW, buf) == buf
    decreases |buf|
  {
    Framing.ResidueStep(FRAME_MULAW, buf);
    if |buf| >= FRAME_MULAW {
      FramesCarryTheBytes(buf[FRAME_MULAW..]);
      var tail := Framing.Frames(FRAME_MULAW, Verbatim(), (), buf[FRAME_MULAW..]);
      assert ([buf[..FRAME_MULAW]] + tail)[1..] == tail;
    }
  }

  lemma {:induction false} FramesAreWhole(buf: seq<byte>, i: nat)
    requires i < |buf| / 160
    ensures |Framing.Frames(FRAME_MULAW, Verbatim(), (), buf)[i]| == 160
    decreases |buf|
  {
    if i > 0 {
      FramesAreWhole(buf[FRAME_MULAW..], i - 1);
    }
  }

  /** Whatever residue a render finds, its frames carry that residue and then its
      own bytes, short of the last ones past a multiple of 160. */
  lemma RenderSentExactly(rest: seq<byte>, render: seq<seq<byte>>)
    requires |rest| < FRAME_MULAW
    ensures var all := rest + Concat(render);
      var sent := Framing.CallFrames(FRAME_MULAW, Verbatim(), (), rest, render);
      && Concat(sent) == all[..|all| - |all| % 160]
      && (Concat(sent) == all <==> |all| % 160 == 0)
  {
    hide Verbatim;
    var all := rest + Concat(render);
    var frames := Framing.Frames(FRAME_MULAW, Verbatim(), (), all);
    Framing.OneCallWouldDo(FRAME_MULAW, Verbatim(), (), rest, render);
    FramesCarryTheBytes(all);
    CutAt(Concat(frames), Framing.Residue(FRAME_MULAW, all), all);
  }

  /** The frames of a render that comes after `earlier`. */
  function SentFor(earlier: seq<seq<byte>>, render: seq<seq<byte>>): seq<seq<byte>> {
    Framing.CallFrames(FRAME_MULAW, Verbatim(), (), Framing.Residue(FRAME_MULAW, Concat(earlier)), render)
  }

  /** Nothing flushes the sender between two renders: a render starts its first
      frame with the last bytes of the session so far that filled no frame, and it
      is sent to its end exactly when all the bytes since the session began fill
      whole frames, whatever its own length. */
  lemma RendersRunTogether(earlier: seq<seq<byte>>, render: seq<seq<byte>>)
    ensures Framing.CallFrames(FRAME_MULAW, Verbatim(), (), [], earlier + render)
         == Framing.CallFrames(FRAME_MULAW, Verbatim(), (), [], earlier) + SentFor(earlier, render)
    ensures Concat(SentFor(earlier, render)) == Framing.Residue(FRAME_MULAW, Concat(earlier)) + Concat(render)
       <==> (|Concat(earlier)| + |Concat(render)|) % 160 == 0
  {
    hide Verbatim, Concat, Framing.CallFrames, Framing.CallEnd;
    var rest := Framing.Residue(FRAME_MULAW, Concat(earlier));
    RestOf(earlier);
    Framing.CallsContinue(FRAME_MULAW, Verbatim(), (), [], earlier, render);
    hide Framing.Residue;
    RenderSentExactly(rest, render);
    SameRest(|Concat(earlier)|, |Concat(render)|);
  }

  lemma RestOf(earlier: seq<seq<byte>>)
    ensures Framing.CallEnd(FRAME_MULAW, Verbatim(), (), [], earlier) == ((), Framing.Residue(FRAME_MULAW, Concat(earlier)))
  {
    hide Verbatim, Concat, Framing.Residue;
    Framing.OneCallWouldDo(FRAME_MULAW, Verbatim(), (), [], earlier);
    assert [] + Concat(earlier) == Concat(earlier);
    assert Framing.CallEnd(FRAME_MULAW, Verbatim(), (), [], earlier).0 == ();
  }

  lemma SameRest(a: nat, b: nat)
    ensures (a % FRAME_MULAW + b) % FRAME_MULAW == (a + b) % FRAME_MULAW
  {
  }

  lemma CutAt(a: seq<byte>, b: seq<byte>, whole: seq<byte>)
    requires a + b == whole
    ensures a == whole[..|whole| - |b|]
    ensures a == whole <==> b == []
  {
  }

  /** `accepts` says which frames the provider can wrap into a message. */
  class CartesiaSender {
    const accepts: seq<byte> -> bool
    var remain: seq<byte>
    var sent: seq<seq<byte>>

    constructor (accepts: seq<byte> -> bool)
      ensures this.accepts == accepts && remain == [] && sent == []
    {
      this.accepts := accepts;
      remain := [];
      sent := [];
    }

    method SendMulaw(mulaw: seq<byte>) returns (frameCount: nat)
      modifies this
      ensures var good := Messages(accepts, old(remain) + mulaw);
        sent == old(sent) + good && frameCount == |good|
      ensures remain == Framing.Residue(FRAME_MULAW, old(remain) + mulaw)
    {
      hide Messages, Framing.Residue;
      ghost var all := remain + mulaw;
      remain := remain + mulaw;
      frameCount := 0;
      while |remain| >= FRAME_MULAW
        invariant Framing.Residue(FRAME_MULAW, remain) == Framing.Residue(FRAME_MULAW, all)
        invariant sent + Messages(accepts, remain) == old(sent) + Messages(accepts, all)
        invariant frameCount + |Messages(accepts, remain)| == |Messages(accepts, all)|
        decreases |remain|
      {
        Framing.ResidueStep(FRAME_MULAW, remain);
        FirstMessage(accepts, remain);
        var frame := remain[..FRAME_MULAW];
        remain := remain[FRAME_MULAW..];
        if accepts(frame) {
          sent := sent + [frame];
          frameCount := frameCount + 1;
        }
      }
      Framing.ResidueStep(FRAME_MULAW, remain);
      FirstMessage(accepts, remain);
    }
  }
}
