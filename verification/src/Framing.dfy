/** Fixed-size framing of a byte stream through a codec with state: what the
    outbound pipeline, the G.722 encoder and the Cartesia sender share. */
module Framing {
  import opened GoArith
  import opened Seqs

  /** The frames cut from `buf`, each coded in turn. */
  function Frames<S, O>(n: nat, step: (S, seq<byte>) -> (S, O), s: S, buf: seq<byte>): (out: seq<O>)
    requires n > 0
    ensures |out| == |buf| / n
    decreases |buf|
  {
    if |buf| < n then []
    else
      ModLess(|buf|, n);
      var (next, frame) := step(s, buf[..n]);
      [frame] + Frames(n, step, next, buf[n..])
  }

  /** The codec state after those frames. */
  function StateAfter<S, O>(n: nat, step: (S, seq<byte>) -> (S, O), s: S, buf: seq<byte>): S
    requires n > 0
    decreases |buf|
  {
    if |buf| < n then s else StateAfter(n, step, step(s, buf[..n]).0, buf[n..])
  }

  /** The bytes too few for another frame. */
  function Residue(n: nat, buf: seq<byte>): (rest: seq<byte>)
    requires n > 0
    ensures |rest| == |buf| % n < n
  {
    buf[|buf| - |buf| % n..]
  }

  lemma ResidueStep(n: nat, buf: seq<byte>)
    requires n > 0
    ensures |buf| < n ==> Residue(n, buf) == buf
    ensures |buf| >= n ==> Residue(n, buf) == Residue(n, buf[n..])
  {
    if |buf| >= n {
      ModLess(|buf|, n);
    }
  }

  lemma ModLess(a: nat, n: nat)
    requires 0 < n <= a
    ensures (a - n) % n == a % n
    ensures (a - n) / n == a / n - 1
  {
    var q, r := a / n, a % n;
    assert n * (q - 1) == n * q - n;
    DivisionUnique(a - n, n, q - 1, r);
  }

  lemma DivisionUnique(x: int, n: nat, q: int, r: nat)
    requires n > 0 && x == n * q + r && r < n
    ensures x / n == q && x % n == r
  {
    var d := q - x / n;
    assert n * d == x % n - r by {
      assert n * d == n * q - n * (x / n);
    }
    assert d >= 1 ==> n * d >= n;
    assert d <= -1 ==> -(n * d) >= n;
  }

  /** Receiving `more` later is the same as having it from the start. */
  lemma {:induction false} Resume<S, O>(n: nat, step: (S, seq<byte>) -> (S, O), s: S, buf: seq<byte>, more: seq<byte>)
    requires n > 0
    ensures Frames(n, step, s, buf + more)
         == Frames(n, step, s, buf) + Frames(n, step, StateAfter(n, step, s, buf), Residue(n, buf) + more)
    ensures StateAfter(n, step, s, buf + more)
         == StateAfter(n, step, StateAfter(n, step, s, buf), Residue(n, buf) + more)
    ensures Residue(n, buf + more) == Residue(n, Residue(n, buf) + more)
    decreases |buf|
  {
    ResidueStep(n, buf);
    if |buf| >= n {
      ResidueStep(n, buf + more);
      assert (buf + more)[..n] == buf[..n] && (buf + more)[n..] == buf[n..] + more;
      Resume(n, step, step(s, buf[..n]).0, buf[n..], more);
    }
  }

  /** All frames from a series of calls, each starting with the residue and the
      codec state that the one before it left. */
  function CallFrames<S, O>(n: nat, step: (S, seq<byte>) -> (S, O), s: S, rest: seq<byte>, chunks: seq<seq<byte>>): seq<O>
    requires n > 0
    decreases |chunks|
  {
    if chunks == [] then []
    else
      var buf := rest + chunks[0];
      Frames(n, step, s, buf) + CallFrames(n, step, StateAfter(n, step, s, buf), Residue(n, buf), chunks[1..])
  }

  /** The codec state and the residue that the series of calls ends with. */
  function CallEnd<S, O>(n: nat, step: (S, seq<byte>) -> (S, O), s: S, rest: seq<byte>, chunks: seq<seq<byte>>): (end: (S, seq<byte>))
    requires n > 0
    ensures |rest| < n ==> |end.1| < n
    decreases |chunks|
  {
    if chunks == [] then (s, rest)
    else
      var buf := rest + chunks[0];
      CallEnd(n, step, StateAfter(n, step, s, buf), Residue(n, buf), chunks[1..])
  }

  /** Later calls go on from where the earlier ones ended. */
  lemma {:induction false} CallsContinue<S, O>(n: nat, step: (S, seq<byte>) -> (S, O), s: S, rest: seq<byte>,
                                               a: seq<seq<byte>>, b: seq<seq<byte>>)
    requires n > 0
    ensures var end := CallEnd(n, step, s, rest, a);
      CallFrames(n, step, s, rest, a + b)
        == CallFrames(n, step, s, rest, a) + CallFrames(n, step, end.0, end.1, b)
    decreases |a|
  {
    hide Frames, Residue, StateAfter;
    if a == [] {
      assert a + b == b;
    } else {
      var buf := rest + a[0];
      assert (a + b)[0] == a[0] && (a + b)[1..] == a[1..] + b;
      CallsContinue(n, step, StateAfter(n, step, s, buf), Residue(n, buf), a[1..], b);
    }
  }

  /** A series of calls gives what one call with all their bytes gives. */
  lemma {:induction false} OneCallWouldDo<S, O>(n: nat, step: (S, seq<byte>) -> (S, O), s: S, rest: seq<byte>, chunks: seq<seq<byte>>)
    requires n > 0 && |rest| < n
    ensures CallFrames(n, step, s, rest, chunks) == Frames(n, step, s, rest + Concat(chunks))
    ensures CallEnd(n, step, s, rest, chunks)
         == (StateAfter(n, step, s, rest + Concat(chunks)), Residue(n, rest + Concat(chunks)))
    decreases |chunks|
  {
    hide Residue;
    if chunks == [] {
      assert rest + Concat(chunks) == rest;
      ResidueStep(n, rest);
    } else {
      var buf := rest + chunks[0];
      OneCallWouldDo(n, step, StateAfter(n, step, s, buf), Residue(n, buf), chunks[1..]);
      Resume(n, step, s, buf, Concat(chunks[1..]));
      assert buf + Concat(chunks[1..]) == rest + Concat(chunks);
    }
  }

  /** How the stream is cut into calls cannot be seen in the frames, in the
      residue or in the codec state. */
  lemma ChunkingInvisible<S, O>(n: nat, step: (S, seq<byte>) -> (S, O), s: S, rest: seq<byte>,
                                these: seq<seq<byte>>, those: seq<seq<byte>>)
    requires n > 0 && |rest| < n
    requires Concat(these) == Concat(those)
    ensures CallFrames(n, step, s, rest, these) == CallFrames(n, step, s, rest, those)
    ensures CallEnd(n, step, s, rest, these) == CallEnd(n, step, s, rest, those)
  {
    OneCallWouldDo(n, step, s, rest, these);
    OneCallWouldDo(n, step, s, rest, those);
  }

  // ---------- Padding the last frame ----------

  function Zeros(k: nat): (z: seq<byte>)
    ensures |z| == k
  {
    seq(k, _ => 0)
  }

  /** What a flush codes: nothing, or the residue padded with zeros. */
  function Padded(n: nat, rest: seq<byte>): (frame: seq<byte>)
    requires |rest| <= n
    ensures rest == [] ==> frame == []
    ensures rest != [] ==> |frame| == n
  {
    if rest == [] then [] else rest + Zeros(n - |rest|)
  }

  /** A stream padded to a whole number of frames. */
  function PaddedStream(n: nat, buf: seq<byte>): seq<byte>
    requires n > 0
  {
    buf + if |buf| % n == 0 then [] else Zeros(n - |buf| % n)
  }

  lemma PaddedStreamIsWhole(n: nat, buf: seq<byte>)
    requires n > 0
    ensures |PaddedStream(n, buf)| % n == 0
    ensures |PaddedStream(n, buf)| / n == |buf| / n + (if |buf| % n == 0 then 0 else 1)
  {
    var q, r := |buf| / n, |buf| % n;
    assert |buf| == n * q + r;
    if r != 0 {
      assert n * (q + 1) == n * q + n;
      DivisionUnique(|buf| + n - r, n, q + 1, 0);
    }
  }

  /** A flush after a series of calls completes the framing of the padded stream:
      one frame more exactly when bytes were left over. */
  lemma CallsThenFlush<S, O>(n: nat, step: (S, seq<byte>) -> (S, O), s: S, chunks: seq<seq<byte>>)
    requires n > 0
    ensures var all, end := Concat(chunks), CallEnd(n, step, s, [], chunks);
      && CallFrames(n, step, s, [], chunks) + Frames(n, step, end.0, Padded(n, end.1))
           == Frames(n, step, s, PaddedStream(n, all))
      && |Frames(n, step, end.0, Padded(n, end.1))| == (if |all| % n == 0 then 0 else 1)
  {
    var all := Concat(chunks);
    var rest := Residue(n, all);
    var pad := if |all| % n == 0 then [] else Zeros(n - |all| % n);
    OneCallWouldDo(n, step, s, [], chunks);
    assert [] + all == all;
    Resume(n, step, s, all, pad);
    assert rest + pad == Padded(n, rest);
    PaddedStreamIsWhole(n, rest);
    PaddedStreamIsWhole(n, all);
  }
}
