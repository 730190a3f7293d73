/** One pipeline for two directions, in bytes: outbound chunks, flushes and inbound
    frames in any order, as a session sends them. */
module SharedPipeline {
  import opened GoArith
  import opened Pcm16
  import opened Fir
  import opened Resampler
  import opened Seqs
  import opened SharedLine
  import opened Pipeline
  import FloatPcm
  import Framing
  import Mulaw

  /** What a session does with its pipeline. */
  datatype Event = Outbound(chunk: seq<byte>) | Flush | Inbound(pcm8k: seq<byte>)

  /** The bytes that one event makes the pipeline cut into outbound frames. */
  function Buffered(rest: seq<byte>, e: Event): seq<byte>
    requires |rest| < FRAME_PCM24K
  {
    match e
    case Outbound(chunk) => rest + chunk
    case Flush => Framing.Padded(FRAME_PCM24K, rest)
    case Inbound(_) => []
  }

  function RestAfter(rest: seq<byte>, e: Event): (r: seq<byte>)
    requires |rest| < FRAME_PCM24K
    ensures |r| < FRAME_PCM24K
  {
    match e
    case Outbound(chunk) => Framing.Residue(FRAME_PCM24K, rest + chunk)
    case Flush => []
    case Inbound(_) => rest
  }

  /** The history of the shared filter after an event. */
  function LineAfter(taps: seq<real>, line: seq<real>, rest: seq<byte>, e: Event): seq<real>
    requires |rest| < FRAME_PCM24K
  {
    if e.Inbound? then line + Signal(e.pcm8k)
    else Framing.StateAfter(FRAME_PCM24K, OutboundStep(taps), line, Buffered(rest, e))
  }

  /** All bytes sent by a run that finds the line and the residue given. */
  function Sent(taps: seq<real>, line: seq<real>, rest: seq<byte>, es: seq<Event>): seq<byte>
    requires |rest| < FRAME_PCM24K
    decreases |es|
  {
    if es == [] then []
    else
      var e := es[0];
      Concat(Framing.Frames(FRAME_PCM24K, OutboundStep(taps), line, Buffered(rest, e)))
        + Sent(taps, LineAfter(taps, line, rest, e), RestAfter(rest, e), es[1..])
  }

  /** All bytes it returns for inbound frames. */
  function Returned(taps: seq<real>, line: seq<real>, rest: seq<byte>, es: seq<Event>): seq<byte>
    requires |taps| == TAPS && |rest| < FRAME_PCM24K
    decreases |es|
  {
    if es == [] then []
    else
      var e := es[0];
      (if e.Inbound? then Widened(UpsampledBlock(taps, line, Signal(e.pcm8k))) else [])
        + Returned(taps, LineAfter(taps, line, rest, e), RestAfter(rest, e), es[1..])
  }

  // ---------- A run as calls of the resampler ----------

  /** One call for each whole frame. */
  function FrameCalls(buf: seq<byte>): seq<Call>
    decreases |buf|
  {
    if |buf| < FRAME_PCM24K then []
    else [Down(Signal(buf[..FRAME_PCM24K]))] + FrameCalls(buf[FRAME_PCM24K..])
  }

  function CallsOf(rest: seq<byte>, e: Event): seq<Call>
    requires |rest| < FRAME_PCM24K
  {
    if e.Inbound? then [Up(Signal(e.pcm8k))] else FrameCalls(Buffered(rest, e))
  }

  function AllCalls(rest: seq<byte>, es: seq<Event>): seq<Call>
    requires |rest| < FRAME_PCM24K
    decreases |es|
  {
    if es == [] then [] else CallsOf(rest, es[0]) + AllCalls(RestAfter(rest, es[0]), es[1..])
  }

  lemma {:induction false} FramesAsCalls(taps: seq<real>, line: seq<real>, buf: seq<byte>, later: seq<Call>)
    ensures var after := Framing.StateAfter(FRAME_PCM24K, OutboundStep(taps), line, buf);
      && Codes(SharedDowns(taps, line, FrameCalls(buf) + later))
           == Concat(Framing.Frames(FRAME_PCM24K, OutboundStep(taps), line, buf)) + Codes(SharedDowns(taps, after, later))
      && (|taps| == TAPS ==>
            SharedUps(taps, line, FrameCalls(buf) + later) == SharedUps(taps, after, later))
    decreases |buf|
  {
    hide Codes, CodedFrame, Signal, SharedDowns, SharedUps, DownsampledBlock, OutboundStep;
    if |buf| < FRAME_PCM24K {
      assert FrameCalls(buf) + later == later;
    } else {
      var frame, rest := buf[..FRAME_PCM24K], buf[FRAME_PCM24K..];
      var next := line + Signal(frame);
      var calls := FrameCalls(rest) + later;
      assert FrameCalls(buf) + later == [Down(Signal(frame))] + calls;
      FrameAsCall(taps, line, frame, calls);
      FramesAsCalls(taps, next, rest, later);
      var tail := Framing.Frames(FRAME_PCM24K, OutboundStep(taps), next, rest);
      assert Framing.Frames(FRAME_PCM24K, OutboundStep(taps), line, buf) == [CodedFrame(taps, line, frame)] + tail;
      assert ([CodedFrame(taps, line, frame)] + tail)[1..] == tail;
    }
  }

  lemma FrameAsCall(taps: seq<real>, line: seq<real>, frame: seq<byte>, calls: seq<Call>)
    ensures OutboundStep(taps)(line, frame) == (line + Signal(frame), CodedFrame(taps, line, frame))
    ensures Codes(SharedDowns(taps, line, [Down(Signal(frame))] + calls))
         == CodedFrame(taps, line, frame) + Codes(SharedDowns(taps, line + Signal(frame), calls))
    ensures |taps| == TAPS ==>
      SharedUps(taps, line, [Down(Signal(frame))] + calls) == SharedUps(taps, line + Signal(frame), calls)
  {
    StepIs(taps, line, frame);
    assert CodedFrame(taps, line, frame) == Codes(DownsampledBlock(taps, line, Signal(frame)));
    hide Codes, CodedFrame, Signal, SharedDowns, SharedUps, DownsampledBlock, OutboundStep;
    SharedCalls(taps, line, Down(Signal(frame)), calls);
    CodesConcat(DownsampledBlock(taps, line, Signal(frame)), SharedDowns(taps, line + Signal(frame), calls));
  }

  /** The bytes of a run are the coded filter signals of its calls. */
  lemma {:induction false} RunIsCalls(taps: seq<real>, line: seq<real>, rest: seq<byte>, es: seq<Event>)
    requires |rest| < FRAME_PCM24K
    ensures Sent(taps, line, rest, es) == Codes(SharedDowns(taps, line, AllCalls(rest, es)))
    ensures |taps| == TAPS ==>
      Returned(taps, line, rest, es) == Widened(SharedUps(taps, line, AllCalls(rest, es)))
    decreases |es|
  {
    hide Codes, Widened, Signal, SharedDowns, SharedUps, OutboundStep, RestAfter, UpsampledBlock;
    if es == [] {
      NoCalls(taps, line);
    } else {
      var e := es[0];
      var after := LineAfter(taps, line, rest, e);
      var calls := AllCalls(RestAfter(rest, e), es[1..]);
      RunIsCalls(taps, after, RestAfter(rest, e), es[1..]);
      if e.Inbound? {
        InboundAsCall(taps, line, e.pcm8k, calls);
      } else {
        FramesAsCalls(taps, line, Buffered(rest, e), calls);
      }
    }
  }

  lemma NoCalls(taps: seq<real>, line: seq<real>)
    ensures Codes(SharedDowns(taps, line, [])) == []
    ensures |taps| == TAPS ==> Widened(SharedUps(taps, line, [])) == []
  {
  }

  lemma InboundAsCall(taps: seq<real>, line: seq<real>, pcm8k: seq<byte>, calls: seq<Call>)
    ensures SharedDowns(taps, line, [Up(Signal(pcm8k))] + calls) == SharedDowns(taps, line + Signal(pcm8k), calls)
    ensures |taps| == TAPS ==>
      (Widened(SharedUps(taps, line, [Up(Signal(pcm8k))] + calls))
       == Widened(UpsampledBlock(taps, line, Signal(pcm8k))) + Widened(SharedUps(taps, line + Signal(pcm8k), calls)))
  {
    hide Widened, Signal, SharedDowns, SharedUps, UpsampledBlock;
    SharedCalls(taps, line, Up(Signal(pcm8k)), calls);
    if |taps| == TAPS {
      WidenedConcat(UpsampledBlock(taps, line, Signal(pcm8k)), SharedUps(taps, line + Signal(pcm8k), calls));
    }
  }

  // ---------- When the bytes stay the same ----------

  /** The code sent for one filter output. */
  function CodeOf(y: real): byte {
    Mulaw.Encode(FloatPcm.FromReal(y))
  }

  /** The sample returned for one. */
  function SampleOf(y: real): int16 {
    FloatPcm.FromReal(y * 3.0)
  }

  lemma CodesEqual(a: seq<real>, b: seq<real>)
    requires |a| == |b|
    ensures Codes(a) == Codes(b) <==> forall i :: 0 <= i < |a| ==> CodeOf(a[i]) == CodeOf(b[i])
  {
    hide FloatPcm.FromReal, Mulaw.Encode;
    assert forall i :: 0 <= i < |a| ==> Codes(a)[i] == CodeOf(a[i]) && Codes(b)[i] == CodeOf(b[i]);
    hide Codes, CodeOf;
    if forall i :: 0 <= i < |a| ==> CodeOf(a[i]) == CodeOf(b[i]) {
      assert Codes(a) == Codes(b);
    }
  }

  function SamplesOf(up: seq<real>): (s: seq<int16>)
    ensures |s| == |up|
  {
    FloatPcm.FromReals(Tripled(up))
  }

  lemma SamplesEqual(a: seq<real>, b: seq<real>)
    requires |a| == |b|
    ensures Widened(a) == Widened(b) <==> forall i :: 0 <= i < |a| ==> SampleOf(a[i]) == SampleOf(b[i])
  {
    hide FloatPcm.FromReal, Bytes, Samples;
    assert Widened(a) == Bytes(SamplesOf(a)) && Widened(b) == Bytes(SamplesOf(b));
    assert forall i :: 0 <= i < |a| ==> SamplesOf(a)[i] == SampleOf(a[i]) && SamplesOf(b)[i] == SampleOf(b[i]);
    hide SamplesOf, SampleOf, Widened;
    SamplesOfBytes(SamplesOf(a));
    SamplesOfBytes(SamplesOf(b));
    if forall i :: 0 <= i < |a| ==> SampleOf(a[i]) == SampleOf(b[i]) {
      assert SamplesOf(a) == SamplesOf(b);
    }
  }

  /** The disturbance `d` of the filter output `y` does not reach the code. */
  predicate SameCode(y: real, d: real) {
    CodeOf(y + d) == CodeOf(y)
  }

  /** Nor the sample returned. */
  predicate SameSample(y: real, d: real) {
    SampleOf(y + d) == SampleOf(y)
  }

  /** Nowhere in the block does the difference in ringing reach a code. */
  predicate CodesKept(taps: seq<real>, line: seq<real>, own: seq<real>, x: seq<real>) {
    var clean, n := DownsampledBlock(taps, own, x), |x| / 3;
    forall i :: 0 <= i < n ==> SameCode(clean[i], DownRinging(taps, line, n)[i] - DownRinging(taps, own, n)[i])
  }

  predicate SamplesKept(taps: seq<real>, line: seq<real>, own: seq<real>, x: seq<real>)
    requires |taps| == TAPS
  {
    var clean, n := UpsampledBlock(taps, own, x), |x|;
    forall k :: 0 <= k < 3 * n ==> SameSample(clean[k], UpRinging(taps, line, n)[k] - UpRinging(taps, own, n)[k])
  }

  /** At every outbound call. */
  predicate SentUndisturbed(taps: seq<real>, line: seq<real>, own: seq<real>, calls: seq<Call>)
    decreases |calls|
  {
    calls == []
    || (var x := calls[0].x;
        if calls[0].Down? then
          CodesKept(taps, line, own, x) && SentUndisturbed(taps, line + x, own + x, calls[1..])
        else SentUndisturbed(taps, line + x, own, calls[1..]))
  }

  /** At every inbound call. */
  predicate ReturnedUndisturbed(taps: seq<real>, line: seq<real>, own: seq<real>, calls: seq<Call>)
    requires |taps| == TAPS
    decreases |calls|
  {
    calls == []
    || (var x := calls[0].x;
        if calls[0].Up? then
          SamplesKept(taps, line, own, x) && ReturnedUndisturbed(taps, line + x, own + x, calls[1..])
        else ReturnedUndisturbed(taps, line + x, own, calls[1..]))
  }

  lemma CodesAlike(a: seq<real>, b: seq<real>, c: seq<real>, d: seq<real>)
    requires |a| == |b| == |c| == |d|
    requires forall i :: 0 <= i < |a| ==> a[i] - b[i] == c[i] - d[i]
    ensures Codes(a) == Codes(b) <==> forall i :: 0 <= i < |a| ==> SameCode(b[i], c[i] - d[i])
  {
    hide Codes, CodeOf;
    CodesEqual(a, b);
    forall i | 0 <= i < |a|
      ensures a[i] == b[i] + (c[i] - d[i])
    {
    }
  }

  lemma SameCodesExactly(taps: seq<real>, line: seq<real>, own: seq<real>, x: seq<real>)
    ensures Codes(DownsampledBlock(taps, line, x)) == Codes(DownsampledBlock(taps, own, x))
       <==> CodesKept(taps, line, own, x)
  {
    hide DownsampledBlock, DownRinging, Codes, SameCode;
    var a, b, n := DownsampledBlock(taps, line, x), DownsampledBlock(taps, own, x), |x| / 3;
    forall i | 0 <= i < n
      ensures a[i] - b[i] == DownRinging(taps, line, n)[i] - DownRinging(taps, own, n)[i]
    {
      DownDifference(taps, line, own, x, i);
    }
    CodesAlike(a, b, DownRinging(taps, line, n), DownRinging(taps, own, n));
  }

  lemma SamplesAlike(a: seq<real>, b: seq<real>, c: seq<real>, d: seq<real>)
    requires |a| == |b| == |c| == |d|
    requires forall i :: 0 <= i < |a| ==> a[i] - b[i] == c[i] - d[i]
    ensures Widened(a) == Widened(b) <==> forall i :: 0 <= i < |a| ==> SameSample(b[i], c[i] - d[i])
  {
    hide Widened, SampleOf;
    SamplesEqual(a, b);
    forall i | 0 <= i < |a|
      ensures a[i] == b[i] + (c[i] - d[i])
    {
    }
  }

  lemma SameSamplesExactly(taps: seq<real>, line: seq<real>, own: seq<real>, x: seq<real>)
    requires |taps| == TAPS
    ensures Widened(UpsampledBlock(taps, line, x)) == Widened(UpsampledBlock(taps, own, x))
       <==> SamplesKept(taps, line, own, x)
  {
    var a, b, n := UpsampledBlock(taps, line, x), UpsampledBlock(taps, own, x), |x|;
    assert |a| == |b| == 3 * n;
    hide UpsampledBlock, UpRinging, Widened, SameSample;
    forall k | 0 <= k < 3 * n
      ensures a[k] - b[k] == UpRinging(taps, line, n)[k] - UpRinging(taps, own, n)[k]
    {
      UpDifference(taps, line, own, x, k);
    }
    SamplesAlike(a, b, UpRinging(taps, line, n), UpRinging(taps, own, n));
  }

  lemma {:induction false} MixedSentExactly(taps: seq<real>, line: seq<real>, own: seq<real>, calls: seq<Call>)
    ensures Codes(SharedDowns(taps, line, calls)) == Codes(DownsampledCalls(taps, own, Downs(calls)))
       <==> SentUndisturbed(taps, line, own, calls)
    decreases |calls|
  {
    if calls != [] {
      var x, rest := calls[0].x, calls[1..];
      var a, b := DownsampledBlock(taps, line, x), DownsampledBlock(taps, own, x);
      hide DownsampledBlock, CodesKept, SharedDowns, DownsampledCalls, Downs, Codes;
      assert calls == [calls[0]] + rest;
      SharedCalls(taps, line, calls[0], rest);
      OwnCalls(taps, own, calls[0], rest);
      if calls[0].Down? {
        SameCodesExactly(taps, line, own, x);
        MixedSentExactly(taps, line + x, own + x, rest);
        CodesConcat(a, SharedDowns(taps, line + x, rest));
        CodesConcat(b, DownsampledCalls(taps, own + x, Downs(rest)));
        SplitEqual(Codes(a), Codes(SharedDowns(taps, line + x, rest)),
                   Codes(b), Codes(DownsampledCalls(taps, own + x, Downs(rest))));
      } else {
        MixedSentExactly(taps, line + x, own, rest);
      }
    }
  }

  lemma {:induction false} MixedReturnedExactly(taps: seq<real>, line: seq<real>, own: seq<real>, calls: seq<Call>)
    requires |taps| == TAPS
    ensures Widened(SharedUps(taps, line, calls)) == Widened(UpsampledCalls(taps, own, Ups(calls)))
       <==> ReturnedUndisturbed(taps, line, own, calls)
    decreases |calls|
  {
    if calls != [] {
      var x, rest := calls[0].x, calls[1..];
      var a, b := UpsampledBlock(taps, line, x), UpsampledBlock(taps, own, x);
      assert |Widened(a)| == |Widened(b)|;
      hide UpsampledBlock, SamplesKept, SharedUps, UpsampledCalls, Ups, Widened;
      assert calls == [calls[0]] + rest;
      SharedCalls(taps, line, calls[0], rest);
      OwnCalls(taps, own, calls[0], rest);
      if calls[0].Up? {
        SameSamplesExactly(taps, line, own, x);
        MixedReturnedExactly(taps, line + x, own + x, rest);
        WidenedConcat(a, SharedUps(taps, line + x, rest));
        WidenedConcat(b, UpsampledCalls(taps, own + x, Ups(rest)));
        SplitEqual(Widened(a), Widened(SharedUps(taps, line + x, rest)),
                   Widened(b), Widened(UpsampledCalls(taps, own + x, Ups(rest))));
      } else {
        MixedReturnedExactly(taps, line + x, own, rest);
      }
    }
  }

  /** Calls that ring alike in the filter give the same bytes as well. */
  lemma SignalSuffices(taps: seq<real>, line: seq<real>, own: seq<real>, calls: seq<Call>)
    ensures DownsUndisturbed(taps, line, own, calls) ==> SentUndisturbed(taps, line, own, calls)
    ensures |taps| == TAPS ==>
      (UpsUndisturbed(taps, line, own, calls) ==> ReturnedUndisturbed(taps, line, own, calls))
  {
    if DownsUndisturbed(taps, line, own, calls) {
      MixedDownsExactly(taps, line, own, calls);
      MixedSentExactly(taps, line, own, calls);
    }
    if |taps| == TAPS && UpsUndisturbed(taps, line, own, calls) {
      MixedUpsExactly(taps, line, own, calls);
      MixedReturnedExactly(taps, line, own, calls);
    }
  }

  // ---------- One direction taken out ----------

  function OutboundOnly(es: seq<Event>): seq<Event>
    decreases |es|
  {
    if es == [] then []
    else if es[0].Inbound? then OutboundOnly(es[1..])
    else [es[0]] + OutboundOnly(es[1..])
  }

  function InboundOnly(es: seq<Event>): seq<Event>
    decreases |es|
  {
    if es == [] then []
    else if es[0].Inbound? then [es[0]] + InboundOnly(es[1..])
    else InboundOnly(es[1..])
  }

  lemma {:induction false} CallsJoin(a: seq<Call>, b: seq<Call>)
    ensures Downs(a + b) == Downs(a) + Downs(b)
    ensures Ups(a + b) == Ups(a) + Ups(b)
    decreases |a|
  {
    if a == [] {
      assert a + b == b;
    } else {
      assert (a + b)[0] == a[0] && (a + b)[1..] == a[1..] + b;
      CallsJoin(a[1..], b);
    }
  }

  lemma {:induction false} FramesGoDown(buf: seq<byte>)
    ensures Ups(FrameCalls(buf)) == []
    decreases |buf|
  {
    hide Signal;
    if |buf| >= FRAME_PCM24K {
      FramesGoDown(buf[FRAME_PCM24K..]);
      CallsJoin([Down(Signal(buf[..FRAME_PCM24K]))], FrameCalls(buf[FRAME_PCM24K..]));
    }
  }

  lemma FirstCalls(rest: seq<byte>, e: Event, es: seq<Event>)
    requires |rest| < FRAME_PCM24K
    ensures var later := AllCalls(RestAfter(rest, e), es);
      && AllCalls(rest, [e] + es) == CallsOf(rest, e) + later
      && Downs(AllCalls(rest, [e] + es)) == Downs(CallsOf(rest, e)) + Downs(later)
      && Ups(AllCalls(rest, [e] + es)) == Ups(CallsOf(rest, e)) + Ups(later)
  {
    hide CallsOf, RestAfter;
    assert ([e] + es)[1..] == es;
    CallsJoin(CallsOf(rest, e), AllCalls(RestAfter(rest, e), es));
  }

  lemma CallsOneWay(rest: seq<byte>, e: Event)
    requires |rest| < FRAME_PCM24K
    ensures e.Inbound? ==> Downs(CallsOf(rest, e)) == [] && Ups(CallsOf(rest, e)) == [Signal(e.pcm8k)]
    ensures !e.Inbound? ==> Ups(CallsOf(rest, e)) == []
  {
    hide Signal, Buffered;
    if e.Inbound? {
      CallsJoin([Up(Signal(e.pcm8k))], []);
    } else {
      FramesGoDown(Buffered(rest, e));
    }
  }

  lemma {:induction false} OutboundOnlyCalls(rest: seq<byte>, es: seq<Event>)
    requires |rest| < FRAME_PCM24K
    ensures Downs(AllCalls(rest, OutboundOnly(es))) == Downs(AllCalls(rest, es))
    ensures Ups(AllCalls(rest, OutboundOnly(es))) == []
    decreases |es|
  {
    if es != [] {
      var e, later := es[0], es[1..];
      assert es == [e] + later && (e.Inbound? ==> RestAfter(rest, e) == rest);
      hide AllCalls, CallsOf, RestAfter, Downs, Ups, Signal;
      OutboundOnlyCalls(RestAfter(rest, e), later);
      CallsOneWay(rest, e);
      FirstCalls(rest, e, later);
      if !e.Inbound? {
        FirstCalls(rest, e, OutboundOnly(later));
      }
    }
  }

  lemma {:induction false} InboundOnlyCalls(rest: seq<byte>, other: seq<byte>, es: seq<Event>)
    requires |rest| < FRAME_PCM24K && |other| < FRAME_PCM24K
    ensures Ups(AllCalls(other, InboundOnly(es))) == Ups(AllCalls(rest, es))
    ensures Downs(AllCalls(other, InboundOnly(es))) == []
    decreases |es|
  {
    if es != [] {
      var e, later := es[0], es[1..];
      assert es == [e] + later && (e.Inbound? ==> RestAfter(other, e) == other);
      hide AllCalls, CallsOf, RestAfter, Downs, Ups, Signal;
      InboundOnlyCalls(RestAfter(rest, e), other, later);
      CallsOneWay(rest, e);
      FirstCalls(rest, e, later);
      if e.Inbound? {
        CallsOneWay(other, e);
        FirstCalls(other, e, InboundOnly(later));
      }
    }
  }

  /** Without calls in the other direction nothing is disturbed. */
  lemma {:induction false} AloneUndisturbed(taps: seq<real>, own: seq<real>, calls: seq<Call>)
    ensures Ups(calls) == [] ==> DownsUndisturbed(taps, own, own, calls)
    ensures |taps| == TAPS && Downs(calls) == [] ==> UpsUndisturbed(taps, own, own, calls)
    decreases |calls|
  {
    hide DownRinging, UpRinging;
    if calls != [] {
      AloneUndisturbed(taps, own + calls[0].x, calls[1..]);
    }
  }

  /** The bytes sent are those of a pipeline that gets no inbound audio exactly when
      at every outbound frame the difference in ringing reaches no code. */
  lemma SentExactly(taps: seq<real>, line: seq<real>, rest: seq<byte>, es: seq<Event>)
    requires |rest| < FRAME_PCM24K
    ensures Sent(taps, line, rest, es) == Sent(taps, line, rest, OutboundOnly(es))
       <==> SentUndisturbed(taps, line, line, AllCalls(rest, es))
  {
    hide *;
    var calls, alone := AllCalls(rest, es), AllCalls(rest, OutboundOnly(es));
    RunIsCalls(taps, line, rest, es);
    RunIsCalls(taps, line, rest, OutboundOnly(es));
    OutboundOnlyCalls(rest, es);
    AloneUndisturbed(taps, line, alone);
    MixedDownsExactly(taps, line, line, alone);
    MixedSentExactly(taps, line, line, calls);
  }

  /** And the bytes returned those of one that gets no outbound audio. */
  lemma ReturnedExactly(taps: seq<real>, line: seq<real>, rest: seq<byte>, es: seq<Event>)
    requires |taps| == TAPS && |rest| < FRAME_PCM24K
    ensures Returned(taps, line, rest, es) == Returned(taps, line, rest, InboundOnly(es))
       <==> ReturnedUndisturbed(taps, line, line, AllCalls(rest, es))
  {
    hide *;
    var calls, alone := AllCalls(rest, es), AllCalls(rest, InboundOnly(es));
    RunIsCalls(taps, line, rest, es);
    RunIsCalls(taps, line, rest, InboundOnly(es));
    InboundOnlyCalls(rest, rest, es);
    AloneUndisturbed(taps, line, alone);
    MixedUpsExactly(taps, line, line, alone);
    MixedReturnedExactly(taps, line, line, calls);
  }

  // ---------- Whole calls ----------

  function OutboundEvents(chunks: seq<seq<byte>>): (es: seq<Event>)
    ensures |es| == |chunks|
  {
    seq(|chunks|, i requires 0 <= i < |chunks| => Outbound(chunks[i]))
  }

  /** The chunks of the inbound events, in order. */
  function InboundChunks(es: seq<Event>): seq<seq<byte>>
    decreases |es|
  {
    if es == [] then []
    else if es[0].Inbound? then [es[0].pcm8k] + InboundChunks(es[1..])
    else InboundChunks(es[1..])
  }

  lemma {:induction false} SentIsCallFrames(taps: seq<real>, line: seq<real>, rest: seq<byte>, chunks: seq<seq<byte>>)
    requires |rest| < FRAME_PCM24K
    ensures var step := OutboundStep(taps);
      var end := Framing.CallEnd(FRAME_PCM24K, step, line, rest, chunks);
      Sent(taps, line, rest, OutboundEvents(chunks) + [Flush])
        == Concat(Framing.CallFrames(FRAME_PCM24K, step, line, rest, chunks)
                  + Framing.Frames(FRAME_PCM24K, step, end.0, Framing.Padded(FRAME_PCM24K, end.1)))
    decreases |chunks|
  {
    hide OutboundStep, Framing.Residue, Framing.Padded, Framing.Frames, Framing.StateAfter;
    var es := OutboundEvents(chunks) + [Flush];
    if chunks == [] {
      var last := Framing.Frames(FRAME_PCM24K, OutboundStep(taps), line, Framing.Padded(FRAME_PCM24K, rest));
      assert es[0] == Flush && es[1..] == [];
      assert [] + last == last && Concat(last) + [] == Concat(last);
    } else {
      var buf := rest + chunks[0];
      var line', rest' := Framing.StateAfter(FRAME_PCM24K, OutboundStep(taps), line, buf), Framing.Residue(FRAME_PCM24K, buf);
      assert es[0] == Outbound(chunks[0]) && es[1..] == OutboundEvents(chunks[1..]) + [Flush];
      SentIsCallFrames(taps, line', rest', chunks[1..]);
      var end := Framing.CallEnd(FRAME_PCM24K, OutboundStep(taps), line, rest, chunks);
      var first := Framing.Frames(FRAME_PCM24K, OutboundStep(taps), line, buf);
      var later := Framing.CallFrames(FRAME_PCM24K, OutboundStep(taps), line', rest', chunks[1..]);
      var last := Framing.Frames(FRAME_PCM24K, OutboundStep(taps), end.0, Framing.Padded(FRAME_PCM24K, end.1));
      ConcatJoins(first, later + last);
      assert first + (later + last) == (first + later) + last;
    }
  }

  /** With inbound audio anywhere between the chunks and a flush at the end, the
      bytes sent are those of `OutboundCall` under exactly that condition. */
  lemma MixedOutboundCall(taps: seq<real>, es: seq<Event>, chunks: seq<seq<byte>>)
    requires OutboundOnly(es) == OutboundEvents(chunks) + [Flush]
    ensures Sent(taps, [], [], es) == Coded(taps, Signal(Framing.PaddedStream(FRAME_PCM24K, Concat(chunks))))
       <==> SentUndisturbed(taps, [], [], AllCalls([], es))
  {
    SentIsCallFrames(taps, [], [], chunks);
    hide *;
    SentExactly(taps, [], [], es);
    OutboundCall(taps, chunks);
  }

  lemma {:induction false} ReturnedIsInboundCalls(taps: seq<real>, line: seq<real>, es: seq<Event>)
    requires |taps| == TAPS
    ensures Returned(taps, line, [], InboundOnly(es)) == InboundCalls(taps, line, InboundChunks(es))
    decreases |es|
  {
    hide Widened, UpsampledBlock, Signal;
    if es != [] {
      var later := es[1..];
      if es[0].Inbound? {
        ReturnedIsInboundCalls(taps, line + Signal(es[0].pcm8k), later);
        assert ([es[0]] + InboundOnly(later))[1..] == InboundOnly(later);
        assert ([es[0].pcm8k] + InboundChunks(later))[1..] == InboundChunks(later);
      } else {
        ReturnedIsInboundCalls(taps, line, later);
      }
    }
  }

  /** With outbound audio anywhere between inbound chunks of whole samples, the
      bytes returned are those of `InboundCall` under exactly that condition. */
  lemma MixedInboundCall(taps: seq<real>, es: seq<Event>)
    requires |taps| == TAPS
    requires forall i :: 0 <= i < |InboundChunks(es)| ==> |InboundChunks(es)[i]| % 2 == 0
    ensures Returned(taps, [], [], es) == Widened(Upsampled(taps, Signal(Concat(InboundChunks(es)))))
       <==> ReturnedUndisturbed(taps, [], [], AllCalls([], es))
  {
    NothingUpsampled(taps);
    hide *;
    ReturnedExactly(taps, [], [], es);
    ReturnedIsInboundCalls(taps, [], es);
    InboundCall(taps, [], InboundChunks(es));
    var x := Signal(Concat(InboundChunks(es)));
    assert [] + x == x;
    assert [] + InboundCalls(taps, [], InboundChunks(es)) == InboundCalls(taps, [], InboundChunks(es));
  }

  lemma NothingUpsampled(taps: seq<real>)
    requires |taps| == TAPS
    ensures Widened(Upsampled(taps, [])) == []
  {
  }

  // ---------- One sample in the bytes ----------

  /** A frame of `n` samples that is silent but for its last one. */
  function LastOnly(n: nat, s: int16): (frame: seq<byte>)
    requires n > 0
    ensures |frame| == 2 * n
  {
    Bytes(seq(n - 1, _ => 0) + [s])
  }

  lemma SignalOfLast(n: nat, s: int16)
    requires n > 0
    ensures Signal(LastOnly(n, s)) == Silence(n - 1) + [FloatPcm.ToReal(s)]
  {
    SamplesOfBytes(seq(n - 1, _ => 0) + [s]);
    assert FloatPcm.ToReal(0) == 0.0;
  }

  lemma SignalOfZeros(n: nat)
    ensures Signal(Framing.Zeros(2 * n)) == Silence(n)
  {
    var z := Framing.Zeros(2 * n);
    assert FloatPcm.ToReal(0) == 0.0;
    forall i | 0 <= i < n
      ensures Samples(z)[i] == 0
    {
      SamplesAt(z, i);
    }
  }

  lemma ZeroOutput()
    ensures FloatPcm.FromReal(0.0) == 0 && SampleOf(0.0) == 0
    ensures forall y: real :: CodeOf(y) == CodeOf(0.0) <==> FloatPcm.FromReal(y) == 0
  {
    assert FloatPcm.FromReal(0.0) == 0;
    assert 0.0 * 3.0 == 0.0;
    hide FloatPcm.FromReal, Mulaw.Encode;
    forall y: real
      ensures CodeOf(y) == CodeOf(0.0) <==> FloatPcm.FromReal(y) == 0
    {
      Mulaw.SilenceCodeExactly(FloatPcm.FromReal(y));
      Mulaw.SilenceCodeExactly(0);
    }
  }

  lemma OutboundEchoCodes(taps: seq<real>, v: real)
    requires |taps| == TAPS
    ensures Codes(OutboundEcho(taps, v, 160)) == Codes(Silence(160)) <==>
      (forall i :: 0 <= i < 16 ==> FloatPcm.FromReal(Scaled(v, taps[3 * i + 1])) == 0)
  {
    var echo := OutboundEcho(taps, v, 160);
    ZeroOutput();
    CodesEqual(echo, Silence(160));
    hide Codes, CodeOf, FloatPcm.FromReal, Scaled;
    if Codes(echo) == Codes(Silence(160)) {
      forall i | 0 <= i < 16
        ensures FloatPcm.FromReal(Scaled(v, taps[3 * i + 1])) == 0
      {
        assert echo[i] == Scaled(v, taps[3 * i + 1]) && Silence(160)[i] == 0.0;
        assert CodeOf(echo[i]) == CodeOf(0.0);
      }
    }
    if forall i :: 0 <= i < 16 ==> FloatPcm.FromReal(Scaled(v, taps[3 * i + 1])) == 0 {
      forall i | 0 <= i < 160
        ensures CodeOf(echo[i]) == CodeOf(Silence(160)[i])
      {
        if i < 16 { assert echo[i] == Scaled(v, taps[3 * i + 1]); }
      }
    }
  }

  lemma InboundEchoSamples(taps: seq<real>, v: real)
    requires |taps| == TAPS
    ensures Widened(InboundEcho(taps, v, 160)) == Widened(Silence(480)) <==>
      (forall j :: 0 <= j < TAPS ==> SampleOf(Scaled(v, taps[j])) == 0)
  {
    var echo := InboundEcho(taps, v, 160);
    ZeroOutput();
    SamplesEqual(echo, Silence(480));
    hide Widened, SampleOf, CodeOf, FloatPcm.FromReal, Scaled;
    if Widened(echo) == Widened(Silence(480)) {
      forall j | 0 <= j < TAPS
        ensures SampleOf(Scaled(v, taps[j])) == 0
      {
        assert echo[j + 93] == Scaled(v, taps[j]) && Silence(480)[j + 93] == 0.0;
        assert SampleOf(echo[j + 93]) == SampleOf(Silence(480)[j + 93]);
      }
    }
    if forall j :: 0 <= j < TAPS ==> SampleOf(Scaled(v, taps[j])) == 0 {
      forall k | 0 <= k < 480
        ensures SampleOf(echo[k]) == SampleOf(Silence(480)[k])
      {
        if 93 <= k < 141 { assert echo[k] == Scaled(v, taps[k - 93]); }
      }
    }
  }

  /** The disturbance of `OneSampleHeardOutbound` reaches the codes exactly when one
      of the 16 products rounds to a sample other than zero. */
  lemma OneSampleInCodes(taps: seq<real>, v: real)
    requires |taps| == TAPS
    ensures Codes(SharedDowns(taps, [], [Up(Silence(159) + [v]), Down(Silence(480))])) == Coded(taps, Silence(480))
       <==> forall i :: 0 <= i < 16 ==> FloatPcm.FromReal(Scaled(v, taps[3 * i + 1])) == 0
  {
    assert Coded(taps, Silence(480)) == Codes(Decimated(taps, Silence(480)));
    hide Codes, Coded, SharedDowns, Decimated, FloatPcm.FromReal, Scaled, OutboundEcho;
    OutboundAfterInbound(taps, v);
    OutboundEchoCodes(taps, v);
  }

  /** And that of `OneSampleHeardInbound` the samples returned, when one of the 48
      tripled products does. */
  lemma OneSampleInSamples(taps: seq<real>, v: real)
    requires |taps| == TAPS
    ensures Widened(SharedUps(taps, [], [Down(Silence(479) + [v]), Up(Silence(160))])) == Widened(Upsampled(taps, Silence(160)))
       <==> forall j :: 0 <= j < TAPS ==> SampleOf(Scaled(v, taps[j])) == 0
  {
    hide Widened, SharedUps, Upsampled, SampleOf, Scaled, InboundEcho;
    InboundAfterOutbound(taps, v);
    InboundEchoSamples(taps, v);
  }

  lemma OneFrameCalls(chunk: seq<byte>)
    requires |chunk| == FRAME_PCM24K
    ensures CallsOf([], Outbound(chunk)) == [Down(Signal(chunk))]
    ensures RestAfter([], Outbound(chunk)) == []
  {
    hide Signal;
    assert [] + chunk == chunk && chunk[..FRAME_PCM24K] == chunk;
    assert FrameCalls(chunk[FRAME_PCM24K..]) == [];
    assert FrameCalls(chunk) == [Down(Signal(chunk))] + [];
  }

  lemma TwoEvents(a: Event, b: Event)
    requires RestAfter([], a) == []
    ensures AllCalls([], [a, b]) == CallsOf([], a) + CallsOf([], b)
    ensures AllCalls([], [b]) == CallsOf([], b)
  {
    hide CallsOf, RestAfter;
    assert [a, b][1..] == [b] && [b][1..] == [];
    assert CallsOf([], b) + AllCalls(RestAfter([], b), []) == CallsOf([], b);
  }

  lemma FirstBlock(taps: seq<real>, x: seq<real>)
    ensures SharedDowns(taps, [], [Down(x)]) == Decimated(taps, x)
    ensures |taps| == TAPS ==> SharedUps(taps, [], [Up(x)]) == Upsampled(taps, x)
  {
    OneCall(taps, [], x);
    hide SharedDowns, SharedUps;
    assert [] + x == x;
  }

  /** An outbound frame of silence after an inbound frame: the last sample of the
      inbound one changes the bytes sent exactly when one of its 16 products with
      the filter rounds to a sample other than zero. */
  lemma OneSampleSent(taps: seq<real>, s: int16)
    requires |taps| == TAPS
    ensures var quiet := Outbound(Framing.Zeros(960));
      Sent(taps, [], [], [Inbound(LastOnly(160, s)), quiet]) == Sent(taps, [], [], [quiet]) <==>
        (forall i :: 0 <= i < 16 ==> FloatPcm.FromReal(Scaled(FloatPcm.ToReal(s), taps[3 * i + 1])) == 0)
  {
    var quiet, loud, x := Outbound(Framing.Zeros(960)), Inbound(LastOnly(160, s)), Silence(480);
    SilentFrame(s);
    assert Codes(Decimated(taps, x)) == Coded(taps, x);
    hide *;
    RunIsCalls(taps, [], [], [loud, quiet]);
    RunIsCalls(taps, [], [], [quiet]);
    FirstBlock(taps, x);
    OneSampleInCodes(taps, FloatPcm.ToReal(s));
  }

  lemma SilentFrame(s: int16)
    ensures var quiet := Outbound(Framing.Zeros(960));
      && AllCalls([], [quiet]) == [Down(Silence(480))]
      && AllCalls([], [Inbound(LastOnly(160, s)), quiet])
           == [Up(Silence(159) + [FloatPcm.ToReal(s)]), Down(Silence(480))]
  {
    hide LastOnly, Signal, AllCalls, FloatPcm.ToReal, Framing.Zeros;
    var quiet, loud := Outbound(Framing.Zeros(960)), Inbound(LastOnly(160, s));
    SignalOfZeros(480);
    SignalOfLast(160, s);
    OneFrameCalls(Framing.Zeros(960));
    TwoEvents(loud, quiet);
  }

  /** An inbound frame of silence after an outbound frame: the last sample of the
      outbound one changes the bytes returned exactly when one of its 48 tripled
      products with the filter does. */
  lemma OneSampleReturned(taps: seq<real>, s: int16)
    requires |taps| == TAPS
    ensures var quiet := Inbound(Framing.Zeros(320));
      Returned(taps, [], [], [Outbound(LastOnly(480, s)), quiet]) == Returned(taps, [], [], [quiet]) <==>
        (forall j :: 0 <= j < TAPS ==> SampleOf(Scaled(FloatPcm.ToReal(s), taps[j])) == 0)
  {
    var quiet, loud, x := Inbound(Framing.Zeros(320)), Outbound(LastOnly(480, s)), Silence(160);
    SilentCall(s);
    hide *;
    RunIsCalls(taps, [], [], [loud, quiet]);
    RunIsCalls(taps, [], [], [quiet]);
    FirstBlock(taps, x);
    OneSampleInSamples(taps, FloatPcm.ToReal(s));
  }

  lemma SilentCall(s: int16)
    ensures var quiet := Inbound(Framing.Zeros(320));
      && AllCalls([], [quiet]) == [Up(Silence(160))]
      && AllCalls([], [Outbound(LastOnly(480, s)), quiet])
           == [Down(Silence(479) + [FloatPcm.ToReal(s)]), Up(Silence(160))]
  {
    hide LastOnly, Signal, AllCalls, FloatPcm.ToReal, Framing.Zeros;
    var quiet, loud := Inbound(Framing.Zeros(320)), Outbound(LastOnly(480, s));
    SignalOfZeros(160);
    SignalOfLast(480, s);
    OneFrameCalls(LastOnly(480, s));
    TwoEvents(loud, quiet);
    assert CallsOf([], quiet) == [Up(Silence(160))];
  }
}
