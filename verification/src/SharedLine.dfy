/** One delay line for two directions: the session downsamples outbound and
    upsamples inbound audio through the same resampler, in any order of calls. */
module SharedLine {
  import opened Fir
  import opened Resampler
  import opened Seqs

  // ---------- Ringing ----------

  /** What `n` downsampled outputs after the history `h` would be in silence. */
  function DownRinging(taps: seq<real>, h: seq<real>, n: nat): (r: seq<real>)
    ensures |r| == n
  {
    seq(n, i requires 0 <= i < n => Filter(taps, h, |h| + 3 * i))
  }

  /** What the upsampled outputs for `n` samples after `h` would be in silence. */
  function UpRinging(taps: seq<real>, h: seq<real>, n: nat): (r: seq<real>)
    requires |taps| == TAPS
    ensures |r| == 3 * n
  {
    seq(3 * n, k requires 0 <= k < 3 * n =>
      Convolve(Subfilter(taps, 3, k % 3), h, |h| + k / 3 - OFFSET, SUBTAPS))
  }

  /** Two histories give a block outputs that differ by their ringing. */
  lemma DownDifference(taps: seq<real>, g: seq<real>, h: seq<real>, x: seq<real>, i: nat)
    requires i < |x| / 3
    ensures DownsampledBlock(taps, g, x)[i] - DownsampledBlock(taps, h, x)[i]
         == DownRinging(taps, g, |x| / 3)[i] - DownRinging(taps, h, |x| / 3)[i]
  {
    Superposition(taps, g, x, 3 * i, |taps|);
    Superposition(taps, h, x, 3 * i, |taps|);
  }

  lemma UpBlockIndex(taps: seq<real>, h: seq<real>, x: seq<real>, k: nat)
    requires |taps| == TAPS && k < 3 * |x|
    ensures |UpsampledBlock(taps, h, x)| == 3 * |x|
    ensures UpsampledBlock(taps, h, x)[k]
         == Convolve(Subfilter(taps, 3, k % 3), h + x, |h| + (k / 3 - OFFSET), SUBTAPS)
  {
    hide Convolve;
    var at := 3 * |h| + k;
    assert at % 3 == k % 3 && at / 3 == |h| + k / 3;
  }

  lemma UpBlockAt(taps: seq<real>, h: seq<real>, x: seq<real>, k: nat)
    requires |taps| == TAPS && k < 3 * |x|
    ensures |UpsampledBlock(taps, h, x)| == 3 * |x|
    ensures UpsampledBlock(taps, h, x)[k]
         == Convolve(Subfilter(taps, 3, k % 3), x, k / 3 - OFFSET, SUBTAPS) + UpRinging(taps, h, |x|)[k]
  {
    hide Convolve, UpsampledBlock;
    UpBlockIndex(taps, h, x, k);
    Superposition(Subfilter(taps, 3, k % 3), h, x, k / 3 - OFFSET, SUBTAPS);
  }

  lemma UpDifference(taps: seq<real>, g: seq<real>, h: seq<real>, x: seq<real>, k: nat)
    requires |taps| == TAPS && k < 3 * |x|
    ensures |UpsampledBlock(taps, g, x)| == |UpsampledBlock(taps, h, x)| == 3 * |x|
    ensures UpsampledBlock(taps, g, x)[k] - UpsampledBlock(taps, h, x)[k]
         == UpRinging(taps, g, |x|)[k] - UpRinging(taps, h, |x|)[k]
  {
    UpBlockAt(taps, g, x, k);
    UpBlockAt(taps, h, x, k);
  }

  lemma SameExactlyWhere(a: seq<real>, b: seq<real>, c: seq<real>, d: seq<real>)
    requires |a| == |b| == |c| == |d|
    requires forall i :: 0 <= i < |a| ==> a[i] - b[i] == c[i] - d[i]
    ensures a == b <==> c == d
  {
    if a == b {
      forall i | 0 <= i < |c|
        ensures c[i] == d[i]
      {
        assert a[i] - b[i] == 0.0;
      }
    }
    if c == d {
      forall i | 0 <= i < |a|
        ensures a[i] == b[i]
      {
        assert c[i] - d[i] == 0.0;
      }
    }
  }

  /** A block comes out the same after two histories exactly when they ring alike
      at its output instants, whatever the block. */
  lemma SameDownBlockExactly(taps: seq<real>, g: seq<real>, h: seq<real>, x: seq<real>)
    ensures DownsampledBlock(taps, g, x) == DownsampledBlock(taps, h, x)
       <==> DownRinging(taps, g, |x| / 3) == DownRinging(taps, h, |x| / 3)
  {
    hide DownsampledBlock, DownRinging;
    forall i | 0 <= i < |x| / 3
      ensures DownsampledBlock(taps, g, x)[i] - DownsampledBlock(taps, h, x)[i]
           == DownRinging(taps, g, |x| / 3)[i] - DownRinging(taps, h, |x| / 3)[i]
    {
      DownDifference(taps, g, h, x, i);
    }
    SameExactlyWhere(DownsampledBlock(taps, g, x), DownsampledBlock(taps, h, x),
                     DownRinging(taps, g, |x| / 3), DownRinging(taps, h, |x| / 3));
  }

  lemma SameUpBlockExactly(taps: seq<real>, g: seq<real>, h: seq<real>, x: seq<real>)
    requires |taps| == TAPS
    ensures UpsampledBlock(taps, g, x) == UpsampledBlock(taps, h, x)
       <==> UpRinging(taps, g, |x|) == UpRinging(taps, h, |x|)
  {
    var a, b := UpsampledBlock(taps, g, x), UpsampledBlock(taps, h, x);
    var c, d := UpRinging(taps, g, |x|), UpRinging(taps, h, |x|);
    assert |a| == |b| == 3 * |x|;
    hide UpsampledBlock, UpRinging;
    forall k | 0 <= k < 3 * |x|
      ensures a[k] - b[k] == c[k] - d[k]
    {
      UpDifference(taps, g, h, x, k);
    }
    SameExactlyWhere(a, b, c, d);
  }

  // ---------- Interleaved calls ----------

  datatype Call = Down(x: seq<real>) | Up(x: seq<real>)

  function Downs(calls: seq<Call>): seq<seq<real>>
    decreases |calls|
  {
    if calls == [] then []
    else if calls[0].Down? then [calls[0].x] + Downs(calls[1..])
    else Downs(calls[1..])
  }

  function Ups(calls: seq<Call>): seq<seq<real>>
    decreases |calls|
  {
    if calls == [] then []
    else if calls[0].Up? then [calls[0].x] + Ups(calls[1..])
    else Ups(calls[1..])
  }

  /** The outbound outputs of calls that share a line holding `line`. */
  function SharedDowns(taps: seq<real>, line: seq<real>, calls: seq<Call>): seq<real>
    decreases |calls|
  {
    if calls == [] then []
    else
      var x, later := calls[0].x, SharedDowns(taps, line + calls[0].x, calls[1..]);
      if calls[0].Down? then DownsampledBlock(taps, line, x) + later else later
  }

  /** And the inbound outputs. */
  function SharedUps(taps: seq<real>, line: seq<real>, calls: seq<Call>): seq<real>
    requires |taps| == TAPS
    decreases |calls|
  {
    if calls == [] then []
    else
      var x, later := calls[0].x, SharedUps(taps, line + calls[0].x, calls[1..]);
      if calls[0].Up? then UpsampledBlock(taps, line, x) + later else later
  }

  /** At every outbound call the shared line rings like a line of the direction's
      own samples would. */
  predicate DownsUndisturbed(taps: seq<real>, line: seq<real>, own: seq<real>, calls: seq<Call>)
    decreases |calls|
  {
    calls == []
    || (var x := calls[0].x;
        if calls[0].Down? then
          DownRinging(taps, line, |x| / 3) == DownRinging(taps, own, |x| / 3)
          && DownsUndisturbed(taps, line + x, own + x, calls[1..])
        else DownsUndisturbed(taps, line + x, own, calls[1..]))
  }

  predicate UpsUndisturbed(taps: seq<real>, line: seq<real>, own: seq<real>, calls: seq<Call>)
    requires |taps| == TAPS
    decreases |calls|
  {
    calls == []
    || (var x := calls[0].x;
        if calls[0].Up? then
          UpRinging(taps, line, |x|) == UpRinging(taps, own, |x|)
          && UpsUndisturbed(taps, line + x, own + x, calls[1..])
        else UpsUndisturbed(taps, line + x, own, calls[1..]))
  }

  lemma SplitEqual<T>(a: seq<T>, b: seq<T>, c: seq<T>, d: seq<T>)
    requires |a| == |c|
    ensures a + b == c + d <==> a == c && b == d
  {
    if a + b == c + d {
      assert a == (a + b)[..|a|] && c == (c + d)[..|c|];
      assert b == (a + b)[|a|..] && d == (c + d)[|c|..];
    }
  }

  lemma SharedCalls(taps: seq<real>, line: seq<real>, call: Call, rest: seq<Call>)
    ensures SharedDowns(taps, line, [call] + rest)
         == (if call.Down? then DownsampledBlock(taps, line, call.x) else []) + SharedDowns(taps, line + call.x, rest)
    ensures |taps| == TAPS ==>
      (SharedUps(taps, line, [call] + rest)
       == (if call.Up? then UpsampledBlock(taps, line, call.x) else []) + SharedUps(taps, line + call.x, rest))
  {
    hide DownsampledBlock, UpsampledBlock;
    assert ([call] + rest)[1..] == rest;
  }

  lemma OwnCalls(taps: seq<real>, own: seq<real>, call: Call, rest: seq<Call>)
    ensures DownsampledCalls(taps, own, Downs([call] + rest))
         == (if call.Down? then DownsampledBlock(taps, own, call.x) + DownsampledCalls(taps, own + call.x, Downs(rest))
             else DownsampledCalls(taps, own, Downs(rest)))
    ensures |taps| == TAPS ==>
      (UpsampledCalls(taps, own, Ups([call] + rest))
       == (if call.Up? then UpsampledBlock(taps, own, call.x) + UpsampledCalls(taps, own + call.x, Ups(rest))
           else UpsampledCalls(taps, own, Ups(rest))))
  {
    hide DownsampledBlock, UpsampledBlock;
    assert ([call] + rest)[1..] == rest;
    assert ([call.x] + Downs(rest))[1..] == Downs(rest);
    assert ([call.x] + Ups(rest))[1..] == Ups(rest);
  }

  /** The outbound signal of an interleaved series of calls is that of the outbound
      calls on a line of their own exactly when no outbound call finds the line
      ringing differently. */
  lemma {:induction false} MixedDownsExactly(taps: seq<real>, line: seq<real>, own: seq<real>, calls: seq<Call>)
    ensures SharedDowns(taps, line, calls) == DownsampledCalls(taps, own, Downs(calls))
       <==> DownsUndisturbed(taps, line, own, calls)
    decreases |calls|
  {
    if calls != [] {
      var x, rest := calls[0].x, calls[1..];
      assert |DownsampledBlock(taps, line, x)| == |DownsampledBlock(taps, own, x)|;
      hide DownsampledBlock, DownRinging, SharedDowns, DownsampledCalls, Downs;
      assert calls == [calls[0]] + rest;
      SharedCalls(taps, line, calls[0], rest);
      OwnCalls(taps, own, calls[0], rest);
      if calls[0].Down? {
        SameDownBlockExactly(taps, line, own, x);
        MixedDownsExactly(taps, line + x, own + x, rest);
        SplitEqual(DownsampledBlock(taps, line, x), SharedDowns(taps, line + x, rest),
                   DownsampledBlock(taps, own, x), DownsampledCalls(taps, own + x, Downs(rest)));
      } else {
        MixedDownsExactly(taps, line + x, own, rest);
      }
    }
  }

  lemma {:induction false} MixedUpsExactly(taps: seq<real>, line: seq<real>, own: seq<real>, calls: seq<Call>)
    requires |taps| == TAPS
    ensures SharedUps(taps, line, calls) == UpsampledCalls(taps, own, Ups(calls))
       <==> UpsUndisturbed(taps, line, own, calls)
    decreases |calls|
  {
    if calls != [] {
      var x, rest := calls[0].x, calls[1..];
      assert |UpsampledBlock(taps, line, x)| == |UpsampledBlock(taps, own, x)|;
      hide UpsampledBlock, UpRinging, SharedUps, UpsampledCalls, Ups;
      assert calls == [calls[0]] + rest;
      SharedCalls(taps, line, calls[0], rest);
      OwnCalls(taps, own, calls[0], rest);
      if calls[0].Up? {
        SameUpBlockExactly(taps, line, own, x);
        MixedUpsExactly(taps, line + x, own + x, rest);
        SplitEqual(UpsampledBlock(taps, line, x), SharedUps(taps, line + x, rest),
                   UpsampledBlock(taps, own, x), UpsampledCalls(taps, own + x, Ups(rest)));
      } else {
        MixedUpsExactly(taps, line + x, own, rest);
      }
    }
  }

  /** From a reset: the outbound signal is the decimated filter of the outbound
      stream, as if the inbound calls had not been, under just that condition. */
  lemma OutboundCleanExactly(taps: seq<real>, calls: seq<Call>)
    requires forall i :: 0 <= i < |Downs(calls)| ==> |Downs(calls)[i]| % 3 == 0
    ensures SharedDowns(taps, [], calls) == Decimated(taps, Concat(Downs(calls)))
       <==> DownsUndisturbed(taps, [], [], calls)
  {
    MixedDownsExactly(taps, [], [], calls);
    DownsamplingIgnoresChunking(taps, [], Downs(calls));
    assert [] + Concat(Downs(calls)) == Concat(Downs(calls));
    assert Decimated(taps, []) == [];
    assert [] + DownsampledCalls(taps, [], Downs(calls)) == DownsampledCalls(taps, [], Downs(calls));
  }

  /** And the inbound signal the upsampling of the inbound stream. */
  lemma InboundCleanExactly(taps: seq<real>, calls: seq<Call>)
    requires |taps| == TAPS
    ensures SharedUps(taps, [], calls) == Upsampled(taps, Concat(Ups(calls)))
       <==> UpsUndisturbed(taps, [], [], calls)
  {
    MixedUpsExactly(taps, [], [], calls);
    UpsamplingIgnoresChunking(taps, [], Ups(calls));
    assert [] + Concat(Ups(calls)) == Concat(Ups(calls));
    assert Upsampled(taps, []) == [];
    assert [] + UpsampledCalls(taps, [], Ups(calls)) == UpsampledCalls(taps, [], Ups(calls));
  }

  // ---------- How much survives ----------

  /** A full frame of the other direction replaces the whole line: of the samples
      before its last 47 nothing is heard any more. */
  lemma FullFrameReplacesLine(taps: seq<real>, before: seq<real>, frame: seq<real>, n: nat)
    requires |taps| == TAPS && |frame| >= TAPS - 1
    ensures DownRinging(taps, before + frame, n) == DownRinging(taps, frame, n)
    ensures UpRinging(taps, before + frame, n) == UpRinging(taps, frame, n)
  {
    var h := before + frame;
    forall i | 0 <= i < n
      ensures Filter(taps, h, |h| + 3 * i) == Filter(taps, frame, |frame| + 3 * i)
    {
      SameWindow(taps, h, |h| + 3 * i, frame, |frame| + 3 * i, TAPS);
    }
    forall k | 0 <= k < 3 * n
      ensures UpRinging(taps, h, n)[k] == UpRinging(taps, frame, n)[k]
    {
      var sub, d := Subfilter(taps, 3, k % 3), k / 3 - OFFSET;
      SameWindow(sub, h, |h| + d, frame, |frame| + d, SUBTAPS);
    }
  }

  /** So after such a frame a block is clean exactly when the frame happens to ring
      like the direction's own samples, which the line holds no more. */
  lemma CleanAfterFullFrame(taps: seq<real>, own: seq<real>, frame: seq<real>, x: seq<real>)
    requires |taps| == TAPS && |frame| >= TAPS - 1
    ensures DownsampledBlock(taps, own + frame, x) == DownsampledBlock(taps, own, x)
       <==> DownRinging(taps, frame, |x| / 3) == DownRinging(taps, own, |x| / 3)
    ensures UpsampledBlock(taps, own + frame, x) == UpsampledBlock(taps, own, x)
       <==> UpRinging(taps, frame, |x|) == UpRinging(taps, own, |x|)
  {
    hide DownsampledBlock, DownRinging, UpsampledBlock, UpRinging;
    SameDownBlockExactly(taps, own + frame, own, x);
    SameUpBlockExactly(taps, own + frame, own, x);
    FullFrameReplacesLine(taps, own, frame, |x| / 3);
    FullFrameReplacesLine(taps, own, frame, |x|);
  }

  /** The disturbance of a block ends with its 16th output, or with its 47th input
      when upsampling. */
  lemma SharedDelayLineRecovers(taps: seq<real>, g: seq<real>, h: seq<real>, x: seq<real>, i: nat)
    requires |taps| == TAPS
    ensures 16 <= i < |x| / 3 ==> DownsampledBlock(taps, g, x)[i] == DownsampledBlock(taps, h, x)[i]
    ensures 141 <= i < 3 * |x| ==>
      |UpsampledBlock(taps, g, x)| == |UpsampledBlock(taps, h, x)| == 3 * |x|
      && UpsampledBlock(taps, g, x)[i] == UpsampledBlock(taps, h, x)[i]
  {
    if 16 <= i < |x| / 3 {
      DownDifference(taps, g, h, x, i);
      RingingEnds(taps, g, |g| + 3 * i, TAPS);
      RingingEnds(taps, h, |h| + 3 * i, TAPS);
    }
    if 141 <= i < 3 * |x| {
      var sub, d := Subfilter(taps, 3, i % 3), i / 3 - OFFSET;
      UpDifference(taps, g, h, x, i);
      RingingEnds(sub, g, |g| + d, SUBTAPS);
      RingingEnds(sub, h, |h| + d, SUBTAPS);
    }
  }

  // ---------- One sample is heard ----------

  function Silence(n: nat): (z: seq<real>)
    ensures |z| == n
  {
    seq(n, _ => 0.0)
  }

  /** What silence turns into is the ringing of the line. */
  lemma SilentDownBlock(taps: seq<real>, h: seq<real>, n: nat)
    ensures DownsampledBlock(taps, h, Silence(3 * n)) == DownRinging(taps, h, n)
  {
    var x := Silence(3 * n);
    forall i | 0 <= i < n
      ensures DownsampledBlock(taps, h, x)[i] == DownRinging(taps, h, n)[i]
    {
      Superposition(taps, h, x, 3 * i, |taps|);
      SilentWindow(taps, x, 3 * i, |taps|);
    }
  }

  lemma SilentUpBlock(taps: seq<real>, h: seq<real>, n: nat)
    requires |taps| == TAPS
    ensures UpsampledBlock(taps, h, Silence(n)) == UpRinging(taps, h, n)
  {
    var x := Silence(n);
    assert |UpsampledBlock(taps, h, x)| == 3 * n;
    hide UpsampledBlock, UpRinging;
    forall k | 0 <= k < 3 * n
      ensures UpsampledBlock(taps, h, x)[k] == UpRinging(taps, h, n)[k]
    {
      UpBlockAt(taps, h, x, k);
      SilentWindow(Subfilter(taps, 3, k % 3), x, k / 3 - OFFSET, SUBTAPS);
    }
  }

  /** How a last sample `v` after silence rings on in the outbound direction. */
  function OutboundEcho(taps: seq<real>, v: real, n: nat): (echo: seq<real>)
    requires |taps| == TAPS
    ensures |echo| == n
  {
    seq(n, i requires 0 <= i < n => if i < 16 then Scaled(v, taps[3 * i + 1]) else 0.0)
  }

  /** And in the inbound direction, 31 samples later. */
  function InboundEcho(taps: seq<real>, v: real, n: nat): (echo: seq<real>)
    requires |taps| == TAPS
    ensures |echo| == 3 * n
  {
    seq(3 * n, k requires 0 <= k < 3 * n => if 93 <= k < 141 then Scaled(v, taps[k - 93]) else 0.0)
  }

  lemma LastSampleWindow(taps: seq<real>, before: nat, v: real, d: int, n: nat)
    requires n <= |taps|
    ensures Convolve(taps, Silence(before) + [v], before + d, n)
         == if 0 <= d < n then Scaled(v, taps[d]) else 0.0
  {
    SameWindow(taps, Silence(before) + [v], before + d, [v], d, n);
    ImpulseResponse(taps, v, d, n);
  }

  lemma DownRingingOfLast(taps: seq<real>, before: nat, v: real, n: nat)
    requires |taps| == TAPS
    ensures DownRinging(taps, Silence(before) + [v], n) == OutboundEcho(taps, v, n)
  {
    forall i | 0 <= i < n
      ensures DownRinging(taps, Silence(before) + [v], n)[i] == OutboundEcho(taps, v, n)[i]
    {
      LastSampleWindow(taps, before, v, 3 * i + 1, TAPS);
    }
  }

  lemma UpRingingOfLast(taps: seq<real>, before: nat, v: real, n: nat)
    requires |taps| == TAPS
    ensures UpRinging(taps, Silence(before) + [v], n) == InboundEcho(taps, v, n)
  {
    forall k | 0 <= k < 3 * n
      ensures UpRinging(taps, Silence(before) + [v], n)[k] == InboundEcho(taps, v, n)[k]
    {
      UpRingingOfLastAt(taps, before, v, n, k);
    }
  }

  lemma UpRingingOfLastAt(taps: seq<real>, before: nat, v: real, n: nat, k: nat)
    requires |taps| == TAPS && k < 3 * n
    ensures UpRinging(taps, Silence(before) + [v], n)[k] == InboundEcho(taps, v, n)[k]
  {
    var sub, d := Subfilter(taps, 3, k % 3), k / 3 - OFFSET + 1;
    LastSampleWindow(sub, before, v, d, SUBTAPS);
    assert 93 <= k < 141 <==> 0 <= d < SUBTAPS;
    assert 3 * d + k % 3 == k - 93;
  }

  lemma OneCall(taps: seq<real>, line: seq<real>, x: seq<real>)
    ensures SharedDowns(taps, line, [Down(x)]) == DownsampledBlock(taps, line, x)
    ensures |taps| == TAPS ==> SharedUps(taps, line, [Up(x)]) == UpsampledBlock(taps, line, x)
  {
    hide DownsampledBlock, UpsampledBlock;
    assert [Down(x)] == [Down(x)] + [] && [Up(x)] == [Up(x)] + [];
    SharedCalls(taps, line, Down(x), []);
    SharedCalls(taps, line, Up(x), []);
  }

  lemma TwoCalls(taps: seq<real>, h: seq<real>, x: seq<real>)
    ensures SharedDowns(taps, [], [Up(h), Down(x)]) == DownsampledBlock(taps, h, x)
    ensures |taps| == TAPS ==> SharedUps(taps, [], [Down(h), Up(x)]) == UpsampledBlock(taps, h, x)
  {
    hide DownsampledBlock, UpsampledBlock, SharedDowns, SharedUps;
    assert [] + h == h;
    assert [Up(h), Down(x)] == [Up(h)] + [Down(x)];
    assert [Down(h), Up(x)] == [Down(h)] + [Up(x)];
    SharedCalls(taps, [], Up(h), [Down(x)]);
    SharedCalls(taps, [], Down(h), [Up(x)]);
    OneCall(taps, h, x);
  }

  /** A frame of outbound silence after an inbound frame that is silent but for its
      last sample: what is heard is the echo of that sample. */
  lemma OutboundAfterInbound(taps: seq<real>, v: real)
    requires |taps| == TAPS
    ensures SharedDowns(taps, [], [Up(Silence(159) + [v]), Down(Silence(480))]) == OutboundEcho(taps, v, 160)
    ensures Decimated(taps, Silence(480)) == Silence(160)
  {
    hide SharedDowns, DownRinging, OutboundEcho;
    var h := Silence(159) + [v];
    TwoCalls(taps, h, Silence(480));
    SilentDownBlock(taps, h, 160);
    DownRingingOfLast(taps, 159, v, 160);
    forall i | 0 <= i < 160
      ensures Decimated(taps, Silence(480))[i] == 0.0
    {
      SilentWindow(taps, Silence(480), 3 * i, TAPS);
    }
  }

  lemma InboundAfterOutbound(taps: seq<real>, v: real)
    requires |taps| == TAPS
    ensures SharedUps(taps, [], [Down(Silence(479) + [v]), Up(Silence(160))]) == InboundEcho(taps, v, 160)
    ensures Upsampled(taps, Silence(160)) == Silence(480)
  {
    hide SharedUps, UpRinging, UpsampledBlock, InboundEcho;
    var h := Silence(479) + [v];
    TwoCalls(taps, h, Silence(160));
    SilentUpBlock(taps, h, 160);
    UpRingingOfLast(taps, 479, v, 160);
    forall k | 0 <= k < 480
      ensures Upsampled(taps, Silence(160))[k] == 0.0
    {
      SilentWindow(Subfilter(taps, 3, k % 3), Silence(160), k / 3 - OFFSET, SUBTAPS);
    }
  }

  /** In the filter signal, the last sample of an inbound frame, of any value but
      zero, disturbs the outbound silence after it unless every third coefficient
      from the second on is zero. */
  lemma OneSampleHeardOutbound(taps: seq<real>, v: real)
    requires |taps| == TAPS && v != 0.0
    ensures SharedDowns(taps, [], [Up(Silence(159) + [v]), Down(Silence(480))]) == Decimated(taps, Silence(480))
       <==> forall i :: 0 <= i < 16 ==> taps[3 * i + 1] == 0.0
  {
    OutboundAfterInbound(taps, v);
    hide SharedDowns, Decimated;
    var echo := OutboundEcho(taps, v, 160);
    forall i | 0 <= i < 16
      ensures echo[i] == 0.0 <==> taps[3 * i + 1] == 0.0
    {
      ScaledNonzero(v, taps[3 * i + 1]);
    }
    hide Scaled;
    if echo == Silence(160) {
      forall i | 0 <= i < 16
        ensures taps[3 * i + 1] == 0.0
      {
        assert echo[i] == Silence(160)[i];
      }
    }
  }

  /** The last sample of an outbound frame disturbs the inbound silence after it
      unless the filter is zero throughout. */
  lemma OneSampleHeardInbound(taps: seq<real>, v: real)
    requires |taps| == TAPS && v != 0.0
    ensures SharedUps(taps, [], [Down(Silence(479) + [v]), Up(Silence(160))]) == Upsampled(taps, Silence(160))
       <==> forall j :: 0 <= j < TAPS ==> taps[j] == 0.0
  {
    InboundAfterOutbound(taps, v);
    hide SharedUps, Upsampled;
    var echo := InboundEcho(taps, v, 160);
    forall j | 0 <= j < TAPS
      ensures echo[j + 93] == 0.0 <==> taps[j] == 0.0
    {
      ScaledNonzero(v, taps[j]);
    }
    if echo == Silence(480) {
      forall j | 0 <= j < TAPS
        ensures taps[j] == 0.0
      {
        assert echo[j + 93] == Silence(480)[j + 93];
      }
    }
    if forall j :: 0 <= j < TAPS ==> taps[j] == 0.0 {
      forall k | 0 <= k < 480
        ensures echo[k] == 0.0
      {
        if 93 <= k < 141 { assert echo[k] == 0.0 <==> taps[k - 93] == 0.0; }
      }
      assert echo == Silence(480);
    }
  }
}
