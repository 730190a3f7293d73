/** Reference definitions for the resampler: a plain FIR filter over a signal
    that is zero before its first sample. */
module Fir {

  /** The signal at time `t`, zero outside the samples received. */
  function At(h: seq<real>, t: int): real {
    if 0 <= t < |h| then h[t] else 0.0
  }

  function Scaled(x: real, c: real): real {
    x * c
  }

  lemma ScaledZero(c: real)
    ensures Scaled(0.0, c) == 0.0
  {
  }

  lemma ScaledNonzero(x: real, c: real)
    requires x != 0.0
    ensures Scaled(x, c) == 0.0 <==> c == 0.0
  {
    if c != 0.0 {
      assert x * c / c == x;
    }
  }

  lemma ScaledSum(x: real, y: real, c: real)
    ensures Scaled(x + y, c) == Scaled(x, c) + Scaled(y, c)
  {
  }

  /** The first `n` products of the filter, for the output at time `t`. */
  function Convolve(taps: seq<real>, h: seq<real>, t: int, n: nat): real
    requires n <= |taps|
  {
    if n == 0 then 0.0 else Convolve(taps, h, t, n - 1) + Scaled(At(h, t - (n - 1)), taps[n - 1])
  }

  /** The whole filter at time `t`. */
  function Filter(taps: seq<real>, h: seq<real>, t: int): real {
    Convolve(taps, h, t, |taps|)
  }

  /** The signal with two zeros after every sample. */
  function ZeroStuffed(h: seq<real>): (z: seq<real>)
    ensures |z| == 3 * |h|
  {
    seq(3 * |h|, i requires 0 <= i < 3 * |h| => if i % 3 == 0 then h[i / 3] else 0.0)
  }

  /** Every `m`-th coefficient, starting at `p`. */
  function Subfilter(taps: seq<real>, m: nat, p: nat): (sub: seq<real>)
    requires p < m
    ensures |sub| == |taps| / m
  {
    seq(|taps| / m, i requires 0 <= i < |taps| / m => TapIndexInRange(|taps|, m, p, i); taps[i * m + p])
  }

  lemma TapIndexInRange(n: nat, m: nat, p: nat, i: nat)
    requires p < m && i < n / m
    ensures i * m + p < n
  {
    assert (i + 1) * m <= n / m * m;
  }

  ghost predicate SameAt(g: seq<real>, u: int, h: seq<real>, t: int, j: nat) {
    At(g, u - j) == At(h, t - j)
  }

  /** A filter output depends only on the samples under its window. */
  lemma {:induction false} SameWindow(taps: seq<real>, g: seq<real>, u: int, h: seq<real>, t: int, n: nat)
    requires n <= |taps|
    requires forall j :: 0 <= j < n ==> SameAt(g, u, h, t, j)
    ensures Convolve(taps, g, u, n) == Convolve(taps, h, t, n)
  {
    if n > 0 {
      SameWindow(taps, g, u, h, t, n - 1);
      assert SameAt(g, u, h, t, n - 1);
    }
  }

  /** Later samples do not change earlier outputs. */
  lemma Causal(taps: seq<real>, h: seq<real>, later: seq<real>, t: int)
    requires t < |h|
    ensures Filter(taps, h + later, t) == Filter(taps, h, t)
  {
    SameWindow(taps, h + later, t, h, t, |taps|);
  }

  /** An output is the sum of what the new samples give on their own and of the
      ringing the earlier samples leave behind. */
  lemma {:induction false} Superposition(taps: seq<real>, before: seq<real>, x: seq<real>, t: int, n: nat)
    requires n <= |taps|
    ensures Convolve(taps, before + x, |before| + t, n)
         == Convolve(taps, x, t, n) + Convolve(taps, before, |before| + t, n)
  {
    if n > 0 {
      Superposition(taps, before, x, t, n - 1);
      var j := n - 1;
      assert At(before + x, |before| + t - j) == At(x, t - j) + At(before, |before| + t - j);
      ScaledSum(At(x, t - j), At(before, |before| + t - j), taps[j]);
    }
  }

  /** The ringing ends once the window has moved past the earlier samples. */
  lemma {:induction false} RingingEnds(taps: seq<real>, before: seq<real>, t: int, n: nat)
    requires n <= |taps| && t >= |before| + n - 1
    ensures Convolve(taps, before, t, n) == 0.0
  {
    if n > 0 {
      RingingEnds(taps, before, t, n - 1);
      assert At(before, t - (n - 1)) == 0.0;
      ScaledZero(taps[n - 1]);
    }
  }

  /** Polyphase identity: a subfilter on the signal is the whole filter on the
      zero-stuffed signal. */
  lemma {:induction false} Polyphase(taps: seq<real>, h: seq<real>, t: int, p: nat, m: nat)
    requires p < 3 && 3 * m <= |taps|
    ensures Convolve(Subfilter(taps, 3, p), h, t, m)
         == Convolve(taps, ZeroStuffed(h), 3 * t + p, 3 * m)
  {
    hide Scaled, At, ZeroStuffed, Subfilter;
    if m > 0 {
      Polyphase(taps, h, t, p, m - 1);
      ThreeMore(taps, ZeroStuffed(h), 3 * t + p, 3 * (m - 1));
      OneOfThree(taps, h, t, p, m - 1);
    }
  }

  /** Of three neighbouring products on the zero-stuffed signal one counts. */
  lemma OneOfThree(taps: seq<real>, h: seq<real>, t: int, p: nat, j: nat)
    requires p < 3 && 3 * j + 2 < |taps|
    ensures var z, u := ZeroStuffed(h), 3 * t + p;
      Scaled(At(z, u - 3 * j), taps[3 * j]) + Scaled(At(z, u - 3 * j - 1), taps[3 * j + 1])
      + Scaled(At(z, u - 3 * j - 2), taps[3 * j + 2])
      == Scaled(At(h, t - j), Subfilter(taps, 3, p)[j])
  {
    hide Scaled, At, ZeroStuffed;
    StuffedAt(h, t - j, p);
    StuffedAt(h, t - j, p - 1);
    StuffedAt(h, t - j, p - 2);
    ScaledZero(taps[3 * j]);
    ScaledZero(taps[3 * j + 1]);
    ScaledZero(taps[3 * j + 2]);
    assert Subfilter(taps, 3, p)[j] == taps[3 * j + p];
  }

  lemma ThreeMore(taps: seq<real>, h: seq<real>, t: int, n: nat)
    requires n + 3 <= |taps|
    ensures Convolve(taps, h, t, n + 3) == Convolve(taps, h, t, n)
      + Scaled(At(h, t - n), taps[n]) + Scaled(At(h, t - n - 1), taps[n + 1]) + Scaled(At(h, t - n - 2), taps[n + 2])
  {
    hide Scaled, At;
    assert Convolve(taps, h, t, n + 1) == Convolve(taps, h, t, n) + Scaled(At(h, t - n), taps[n]);
    assert Convolve(taps, h, t, n + 2) == Convolve(taps, h, t, n + 1) + Scaled(At(h, t - n - 1), taps[n + 1]);
  }

  lemma StuffedAt(h: seq<real>, t: int, d: int)
    requires -2 <= d <= 2
    ensures At(ZeroStuffed(h), 3 * t + d) == if d == 0 then At(h, t) else 0.0
  {
    assert (3 * t + d) % 3 == 0 <==> d == 0;
    assert d == 0 ==> (3 * t + d) / 3 == t;
  }

  /** A silent window filters to silence. */
  lemma {:induction false} SilentWindow(taps: seq<real>, h: seq<real>, t: int, n: nat)
    requires n <= |taps|
    requires forall k :: 0 <= k < |h| ==> h[k] == 0.0
    ensures Convolve(taps, h, t, n) == 0.0
  {
    if n > 0 {
      SilentWindow(taps, h, t, n - 1);
      ScaledZero(taps[n - 1]);
    }
  }

  /** A lone sample reads the coefficients off one by one. */
  lemma {:induction false} ImpulseResponse(taps: seq<real>, v: real, t: int, n: nat)
    requires n <= |taps|
    ensures Convolve(taps, [v], t, n) == if 0 <= t < n then Scaled(v, taps[t]) else 0.0
  {
    if n > 0 {
      ImpulseResponse(taps, v, t, n - 1);
      assert At([v], t - (n - 1)) == if t == n - 1 then v else 0.0;
      ScaledZero(taps[n - 1]);
    }
  }

  /** What the sample received at time `i` adds to the output at time `t`. */
  function Share(taps: seq<real>, x: real, i: nat, t: int): real {
    if 0 <= t - i < |taps| then x * taps[t - i] else 0.0
  }

  /** The convolution sum, sample by sample. */
  function Response(taps: seq<real>, h: seq<real>, t: int): real
    decreases |h|
  {
    if h == [] then 0.0
    else Response(taps, h[..|h| - 1], t) + Share(taps, h[|h| - 1], |h| - 1, t)
  }

  /** The loop over the coefficients computes the convolution of the samples with
      the coefficients: every sample counts once, times the coefficient that its
      age selects. */
  lemma {:induction false} FilterIsConvolution(taps: seq<real>, h: seq<real>, t: int)
    ensures Filter(taps, h, t) == Response(taps, h, t)
    decreases |h|
  {
    if h == [] {
      SilentWindow(taps, h, t, |taps|);
    } else {
      var n := |h| - 1;
      assert h == h[..n] + [h[n]];
      FilterIsConvolution(taps, h[..n], t);
      Superposition(taps, h[..n], [h[n]], t - n, |taps|);
      ImpulseResponse(taps, h[n], t - n, |taps|);
    }
  }
}
