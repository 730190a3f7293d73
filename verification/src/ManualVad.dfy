/** The fallback turn detector: when the caller has spoken and gone quiet and the
    speech service has not noticed, the session commits the audio itself. */
module ManualVad {
  import opened GoArith
  import opened Pcm16
  import Mulaw

  const SPEECH_THRESHOLD := 1500
  const START_FRAMES := 3
  const STOP_FRAMES := 35

  /** A point in time in milliseconds, or Go's zero time. */
  datatype Stamp = Never | Ms(ms: int)

  predicate Over(now: int, since: Stamp, wait: int) {
    since.Never? || now - since.ms > wait
  }

  /** What the decision reads besides the detector's own fields. */
  datatype Context = Context(pendingFrames: nat, responseActive: bool, cartesiaActive: bool)

  datatype Event = Frame(now: int, loud: bool, ctx: Context) | ServerSpeech(now: int)

  datatype State = State(active: bool, voiced: nat, silent: nat, serverSeen: bool, serverLast: Stamp, lastCommit: Stamp)

  const START := State(false, 0, 0, false, Never, Never)

  predicate Commits(v: State, e: Event) {
    && e.Frame? && !e.loud && v.active && v.silent + 1 >= STOP_FRAMES
    && v.voiced >= START_FRAMES && !v.serverSeen
    && Over(e.now, v.serverLast, 3000) && Over(e.now, v.lastCommit, 1000)
    && e.ctx.pendingFrames >= 5 && !e.ctx.responseActive && !e.ctx.cartesiaActive
  }

  function Step(v: State, e: Event): State {
    match e
    case ServerSpeech(now) => v.(serverLast := Ms(now), serverSeen := v.serverSeen || v.active)
    case Frame(now, loud, ctx) =>
      if loud then
        if v.active then v.(voiced := v.voiced + 1, silent := 0)
        else v.(active := true, voiced := 1, silent := 0, serverSeen := false)
      else if !v.active then v
      else if v.silent + 1 < STOP_FRAMES then v.(silent := v.silent + 1)
      else State(false, 0, 0, false, v.serverLast, if Commits(v, e) then Ms(now) else v.lastCommit)
  }

  function Run(es: seq<Event>): State
    decreases |es|
  {
    if es == [] then START else Step(Run(es[..|es| - 1]), es[|es| - 1])
  }

  /** The run commits at its event `i`. */
  predicate CommitsAt(es: seq<Event>, i: nat)
    requires i < |es|
  {
    Commits(Run(es[..i]), es[i])
  }

  // ---------- Turns, read off the history ----------

  predicate IsLoud(e: Event) {
    e.Frame? && e.loud
  }

  predicate IsQuiet(e: Event) {
    e.Frame? && !e.loud
  }

  /** Quiet frames since the last loud one; service events do not interrupt. */
  function TrailingQuiet(es: seq<Event>): nat
    decreases |es|
  {
    if es == [] then 0
    else
      var e, before := es[|es| - 1], TrailingQuiet(es[..|es| - 1]);
      if IsLoud(e) then 0 else if IsQuiet(e) then before + 1 else before
  }

  function LoudCount(es: seq<Event>): nat
    decreases |es|
  {
    if es == [] then 0
    else LoudCount(es[..|es| - 1]) + if IsLoud(es[|es| - 1]) then 1 else 0
  }

  /** Somebody spoke, and fewer than 35 quiet frames ago. */
  predicate TurnOpen(es: seq<Event>) {
    LoudCount(es) > 0 && TrailingQuiet(es) < STOP_FRAMES
  }

  /** The events of the open turn: from the first loud frame after a time when no
      turn was open. */
  function Turn(es: seq<Event>): (t: seq<Event>)
    ensures |t| <= |es| && es[|es| - |t|..] == t
    ensures t != [] <==> TurnOpen(es)
    decreases |es|
  {
    if !TurnOpen(es) then []
    else
      var before := es[..|es| - 1];
      assert es == before + [es[|es| - 1]];
      if TurnOpen(before) then Turn(before) + [es[|es| - 1]] else [es[|es| - 1]]
  }

  predicate HasServer(es: seq<Event>) {
    exists i :: 0 <= i < |es| && es[i].ServerSpeech?
  }

  /** When the service was last heard to report speech. */
  function LastServer(es: seq<Event>): Stamp
    decreases |es|
  {
    if es == [] then Never
    else if es[|es| - 1].ServerSpeech? then Ms(es[|es| - 1].now)
    else LastServer(es[..|es| - 1])
  }

  lemma Snoc(es: seq<Event>, e: Event)
    ensures LoudCount(es + [e]) == LoudCount(es) + (if IsLoud(e) then 1 else 0)
    ensures TrailingQuiet(es + [e]) == if IsLoud(e) then 0 else TrailingQuiet(es) + if IsQuiet(e) then 1 else 0
    ensures LastServer(es + [e]) == if e.ServerSpeech? then Ms(e.now) else LastServer(es)
  {
    assert (es + [e])[..|es + [e]| - 1] == es;
  }

  lemma ServerSnoc(es: seq<Event>, e: Event)
    ensures HasServer(es + [e]) <==> HasServer(es) || e.ServerSpeech?
  {
    var both := es + [e];
    if HasServer(es) {
      var i :| 0 <= i < |es| && es[i].ServerSpeech?;
      assert both[i].ServerSpeech?;
    }
    if e.ServerSpeech? {
      assert both[|es|].ServerSpeech?;
    }
  }

  /** How one event opens, extends or closes a turn. */
  lemma OpenSnoc(es: seq<Event>, e: Event)
    ensures TurnOpen(es + [e]) <==>
      IsLoud(e) || (TurnOpen(es) && (IsQuiet(e) ==> TrailingQuiet(es) + 1 < STOP_FRAMES))
  {
    Snoc(es, e);
  }

  lemma TurnSnoc(es: seq<Event>, e: Event)
    ensures Turn(es + [e]) == if TurnOpen(es + [e]) then Turn(es) + [e] else []
  {
    assert (es + [e])[..|es + [e]| - 1] == es;
    hide TurnOpen;
  }

  /** A turn opens with a loud frame that came when no turn was open. */
  lemma {:induction false} TurnStart(es: seq<Event>)
    requires TurnOpen(es)
    ensures IsLoud(Turn(es)[0])
    ensures !TurnOpen(es[..|es| - |Turn(es)|])
    decreases |es|
  {
    var before, e := es[..|es| - 1], es[|es| - 1];
    assert es == before + [e];
    TurnSnoc(before, e);
    OpenSnoc(before, e);
    if TurnOpen(before) {
      TurnStart(before);
      assert es[..|es| - |Turn(es)|] == before[..|before| - |Turn(before)|];
    } else {
      assert es[..|es| - |Turn(es)|] == before;
    }
  }

  /** Its quiet tail is that of the whole history. */
  lemma {:induction false} TurnQuiet(es: seq<Event>)
    requires TurnOpen(es)
    ensures TrailingQuiet(Turn(es)) == TrailingQuiet(es)
    decreases |es|
  {
    var before, e := es[..|es| - 1], es[|es| - 1];
    assert es == before + [e];
    TurnSnoc(before, e);
    OpenSnoc(before, e);
    Snoc(before, e);
    Snoc(Turn(before), e);
    if TurnOpen(before) {
      TurnQuiet(before);
    }
  }

  /** The facts about the open turn that the detector's fields stand for. */
  ghost predicate Tracks(v: State, es: seq<Event>) {
    && (v.active <==> TurnOpen(es))
    && v.voiced == LoudCount(Turn(es))
    && v.silent == TrailingQuiet(Turn(es))
    && (v.serverSeen <==> HasServer(Turn(es)))
    && v.serverLast == LastServer(es)
  }

  lemma TracksStep(v: State, es: seq<Event>, e: Event)
    requires Tracks(v, es)
    ensures Tracks(Step(v, e), es + [e])
  {
    hide Commits, TurnOpen, HasServer, LoudCount, TrailingQuiet, LastServer, Turn;
    var t := Turn(es);
    NoEvents();
    TurnSnoc(es, e);
    OpenSnoc(es, e);
    Snoc(es, e);
    Snoc(t, e);
    ServerSnoc(t, e);
    if TurnOpen(es) { TurnQuiet(es); }
  }

  lemma NoEvents()
    ensures LoudCount([]) == 0 && TrailingQuiet([]) == 0 && !HasServer([])
  {
  }

  /** In every run the detector's fields are exactly the loud count, the quiet
      tail and the service reports of the turn that the history has open. */
  lemma {:induction false} FieldsTrackTurn(es: seq<Event>)
    ensures Tracks(Run(es), es)
    decreases |es|
  {
    if es != [] {
      hide Step, Tracks;
      var last := |es| - 1;
      FieldsTrackTurn(es[..last]);
      TracksStep(Run(es[..last]), es[..last], es[last]);
      assert es == es[..last] + [es[last]];
    } else {
      assert Tracks(START, []);
    }
  }

  // ---------- Commits ----------

  /** When the detector last decided to commit. */
  function LastCommit(es: seq<Event>): Stamp
    decreases |es|
  {
    if es == [] then Never
    else if CommitsAt(es, |es| - 1) then Ms(es[|es| - 1].now)
    else LastCommit(es[..|es| - 1])
  }

  lemma {:induction false} LastCommitField(es: seq<Event>)
    ensures Run(es).lastCommit == LastCommit(es)
    decreases |es|
  {
    if es != [] {
      LastCommitField(es[..|es| - 1]);
    }
  }

  /** Exactly when an event commits, in terms of the history: it is the 35th quiet
      frame in a row of a turn with at least 3 loud frames and no service report,
      over 3 seconds after the last report, if there was any, and over one second
      after the last commit, if there was any. */
  lemma CommitExactly(es: seq<Event>, e: Event)
    ensures Commits(Run(es), e) <==>
      && IsQuiet(e) && TurnOpen(es)
      && TrailingQuiet(Turn(es) + [e]) == 35
      && LoudCount(Turn(es) + [e]) >= 3
      && !HasServer(Turn(es) + [e])
      && (LastServer(es).Ms? ==> e.now - LastServer(es).ms > 3000)
      && (LastCommit(es).Ms? ==> e.now - LastCommit(es).ms > 1000)
      && e.ctx.pendingFrames >= 5 && !e.ctx.responseActive && !e.ctx.cartesiaActive
  {
    hide LoudCount, TrailingQuiet, LastServer, LastCommit, Turn, Run, HasServer;
    FieldsTrackTurn(es);
    LastCommitField(es);
    Snoc(Turn(es), e);
    ServerSnoc(Turn(es), e);
    if TurnOpen(es) { TurnQuiet(es); }
  }

  lemma RunSnoc(es: seq<Event>, e: Event)
    ensures Run(es + [e]) == Step(Run(es), e)
  {
    assert (es + [e])[..|es|] == es;
  }

  lemma {:induction false} AfterLoud(es: seq<Event>, loud: seq<Event>)
    requires !Run(es).active && loud != []
    requires forall i :: 0 <= i < |loud| ==> IsLoud(loud[i])
    ensures Run(es + loud) == State(true, |loud|, 0, false, Run(es).serverLast, Run(es).lastCommit)
    decreases |loud|
  {
    hide Run;
    var n := |loud| - 1;
    assert es + loud == (es + loud[..n]) + [loud[n]];
    RunSnoc(es + loud[..n], loud[n]);
    if n > 0 {
      AfterLoud(es, loud[..n]);
    } else {
      assert es + loud[..n] == es;
    }
  }

  lemma {:induction false} AfterQuiet(es: seq<Event>, quiet: seq<Event>)
    requires Run(es).active && Run(es).silent == 0 && |quiet| < STOP_FRAMES
    requires forall i :: 0 <= i < |quiet| ==> IsQuiet(quiet[i])
    ensures Run(es + quiet) == Run(es).(silent := |quiet|)
    decreases |quiet|
  {
    hide Run;
    if quiet == [] {
      assert es + quiet == es;
    } else {
      var n := |quiet| - 1;
      assert es + quiet == (es + quiet[..n]) + [quiet[n]];
      RunSnoc(es + quiet[..n], quiet[n]);
      AfterQuiet(es, quiet[..n]);
    }
  }

  /** The detector does fire: after any history that has no turn open, loud frames
      and 34 quiet ones, the next quiet frame commits exactly when at least 3 were
      loud, the waits since the last report and commit are over, where there were
      any, and the audio is pending and nobody else is speaking. */
  lemma CompleteTurnCommits(es: seq<Event>, loud: seq<Event>, quiet: seq<Event>, e: Event)
    requires !TurnOpen(es) && loud != [] && |quiet| == 34 && IsQuiet(e)
    requires forall i :: 0 <= i < |loud| ==> IsLoud(loud[i])
    requires forall i :: 0 <= i < |quiet| ==> IsQuiet(quiet[i])
    ensures Commits(Run(es + loud + quiet), e) <==>
      && |loud| >= 3
      && (LastServer(es).Ms? ==> e.now - LastServer(es).ms > 3000)
      && (LastCommit(es).Ms? ==> e.now - LastCommit(es).ms > 1000)
      && e.ctx.pendingFrames >= 5 && !e.ctx.responseActive && !e.ctx.cartesiaActive
  {
    hide Run, TurnOpen, LastServer, LastCommit;
    FieldsTrackTurn(es);
    LastCommitField(es);
    AfterLoud(es, loud);
    AfterQuiet(es + loud, quiet);
  }

  /** In particular the very first turn of a session can commit. */
  lemma FirstTurnCommits(loud: seq<Event>, quiet: seq<Event>, e: Event)
    requires |loud| == 3 && |quiet| == 34 && IsQuiet(e)
    requires forall i :: 0 <= i < |loud| ==> IsLoud(loud[i])
    requires forall i :: 0 <= i < |quiet| ==> IsQuiet(quiet[i])
    requires e.ctx.pendingFrames >= 5 && !e.ctx.responseActive && !e.ctx.cartesiaActive
    ensures Commits(Run(loud + quiet), e)
  {
    hide Run, Commits;
    assert [] + loud == loud;
    CompleteTurnCommits([], loud, quiet, e);
  }

  lemma {:induction false} QuietTail(t: seq<Event>)
    requires !HasServer(t)
    ensures LoudCount(t) + TrailingQuiet(t) <= |t|
    ensures forall i :: |t| - TrailingQuiet(t) <= i < |t| ==> IsQuiet(t[i])
    ensures LoudCount(t) > 0 ==> IsLoud(t[|t| - 1 - TrailingQuiet(t)])
    decreases |t|
  {
    if t != [] {
      var before, e := t[..|t| - 1], t[|t| - 1];
      assert t == before + [e];
      ServerSnoc(before, e);
      Snoc(before, e);
      QuietTail(before);
    }
  }

  lemma NoServerMeansFrames(t: seq<Event>, i: nat)
    requires !HasServer(t) && i < |t|
    ensures t[i].Frame?
  {
  }

  /** What a commit at event `i` says about the events before it. */
  lemma CommitShape(es: seq<Event>, i: nat) returns (start: nat)
    requires i < |es| && CommitsAt(es, i)
    ensures start == i - |Turn(es[..i])|
    ensures start + 37 <= i
    ensures forall k :: start <= k <= i ==> es[k].Frame?
    ensures IsLoud(es[start]) && !TurnOpen(es[..start])
    ensures forall k :: i - STOP_FRAMES < k <= i ==> IsQuiet(es[k])
    ensures IsLoud(es[i - STOP_FRAMES])
    ensures LoudCount(es[start..i + 1]) >= START_FRAMES
    ensures !TurnOpen(es[..i + 1])
  {
    hide LoudCount, TrailingQuiet, HasServer, CommitsAt, Turn;
    var before, e := es[..i], es[i];
    var t := Turn(before) + [e];
    CommitTurn(before, e, i, es);
    start := i - |Turn(before)|;
    assert before[..start] == es[..start];
    assert t == es[start..i + 1];
    assert forall k :: start <= k <= i ==> t[k - start] == es[k];
    assert forall k :: start <= k <= i ==> es[k].Frame? by {
      forall k | start <= k <= i
        ensures es[k].Frame?
      {
        assert t[k - start].Frame?;
      }
    }
    forall k | i - STOP_FRAMES < k <= i
      ensures IsQuiet(es[k])
    {
      assert IsQuiet(t[k - start]);
    }
    assert t[|t| - 1 - STOP_FRAMES] == es[i - STOP_FRAMES];
  }

  lemma CommitTurn(before: seq<Event>, e: Event, i: nat, es: seq<Event>)
    requires i < |es| && before == es[..i] && e == es[i] && CommitsAt(es, i)
    ensures var t := Turn(before) + [e];
      && |t| >= 38 && |Turn(before)| <= i
      && (forall k :: 0 <= k < |t| ==> t[k].Frame?)
      && (forall k :: |t| - STOP_FRAMES <= k < |t| ==> IsQuiet(t[k]))
      && IsLoud(t[|t| - 1 - STOP_FRAMES])
      && LoudCount(t) >= START_FRAMES
      && IsLoud(t[0])
    ensures !TurnOpen(before[..i - |Turn(before)|])
    ensures !TurnOpen(es[..i + 1])
  {
    hide LoudCount, TrailingQuiet, LastServer, LastCommit, Run, HasServer, Commits, Turn, TurnOpen;
    var t := Turn(before) + [e];
    CommitExactly(before, e);
    QuietTail(t);
    TurnStart(before);
    TurnQuiet(before);
    Snoc(Turn(before), e);
    OpenSnoc(before, e);
    assert es[..i + 1] == before + [e];
    forall k | 0 <= k < |t|
      ensures t[k].Frame?
    {
      NoServerMeansFrames(t, k);
    }
  }

  /** A turn lies after every point at which none was open. */
  lemma {:induction false} TurnLiesAfter(es: seq<Event>, m: nat)
    requires m <= |es| && !TurnOpen(es[..m])
    ensures |Turn(es)| <= |es| - m
    decreases |es|
  {
    if m == |es| {
      assert es[..m] == es;
    } else {
      var before, e := es[..|es| - 1], es[|es| - 1];
      assert es == before + [e] && before[..m] == es[..m];
      TurnLiesAfter(before, m);
      TurnSnoc(before, e);
    }
  }

  /** Two commits are at least 38 frames apart. */
  lemma CommitsApart(es: seq<Event>, i: nat, j: nat)
    requires i < j < |es| && CommitsAt(es, i) && CommitsAt(es, j)
    ensures i + 38 <= j
    ensures forall k :: j - 38 < k <= j ==> es[k].Frame?
  {
    hide CommitsAt, TurnOpen, Turn;
    var first := CommitShape(es, i);
    var second := CommitShape(es, j);
    assert es[..j][..i + 1] == es[..i + 1];
    TurnLiesAfter(es[..j], i + 1);
  }

  lemma {:induction false} LastCommitSince(es: seq<Event>, i: nat)
    requires i < |es| && CommitsAt(es, i)
    requires forall k :: i < k < |es| ==> !CommitsAt(es, k)
    ensures LastCommit(es) == Ms(es[i].now)
    decreases |es|
  {
    if i < |es| - 1 {
      var before := es[..|es| - 1];
      forall k | 0 <= k < |before|
        ensures CommitsAt(before, k) == CommitsAt(es, k)
      {
        assert before[..k] == es[..k];
      }
      LastCommitSince(before, i);
    }
  }

  /** And more than a second, for a commit and the next one. */
  lemma NextCommitLater(es: seq<Event>, i: nat, j: nat)
    requires i < j < |es| && CommitsAt(es, i) && CommitsAt(es, j)
    requires forall k :: i < k < j ==> !CommitsAt(es, k)
    ensures es[j].now - es[i].now > 1000
  {
    var before := es[..j];
    forall k | 0 <= k < j
      ensures CommitsAt(before, k) == CommitsAt(es, k)
    {
      assert before[..k] == es[..k];
    }
    LastCommitSince(before, i);
    CommitExactly(before, es[j]);
  }

  // ---------- Loudness of a frame ----------

  function SumAbs(codes: seq<byte>): nat
    decreases |codes|
  {
    if codes == [] then 0 else SumAbs(codes[..|codes| - 1]) + Abs(Mulaw.Decode(codes[|codes| - 1]))
  }

  /** `averageAbsMulaw`; an empty frame is silent. */
  function AverageAbs(codes: seq<byte>): int {
    if codes == [] then 0 else SumAbs(codes) / |codes|
  }

  lemma EmptySum()
    ensures SumAbs([]) == 0
  {
  }

  lemma SumStep(codes: seq<byte>, i: nat)
    requires i < |codes|
    ensures SumAbs(codes[..i + 1]) == SumAbs(codes[..i]) + Abs(Mulaw.Decode(codes[i]))
  {
    hide Mulaw.Decode;
    assert codes[..i + 1][..i] == codes[..i];
  }

  lemma ProductOrder(x: int, y: int, n: nat)
    ensures x <= y ==> x * n <= y * n
  {
    if x <= y {
      assert (y - x) * n >= 0;
      assert y * n == x * n + (y - x) * n;
    }
  }

  lemma ProductStep(k: nat, n: int)
    ensures k * (n + 1) == k * n + k
  {
  }

  lemma {:induction false} SumBounds(codes: seq<byte>, low: nat, high: nat)
    requires forall i :: 0 <= i < |codes| ==> low <= Abs(Mulaw.Decode(codes[i])) <= high
    ensures low * |codes| <= SumAbs(codes) <= high * |codes|
    decreases |codes|
  {
    if codes != [] {
      hide Mulaw.Decode, Abs;
      var n := |codes| - 1;
      SumBounds(codes[..n], low, high);
      ProductStep(low, n);
      ProductStep(high, n);
    }
  }

  /** The sum counts each sample once, with its sign dropped. */
  lemma {:induction false} SumJoins(a: seq<byte>, b: seq<byte>)
    ensures SumAbs(a + b) == SumAbs(a) + SumAbs(b)
    decreases |b|
  {
    hide Mulaw.Decode;
    if b == [] {
      assert a + b == a;
    } else {
      var n := |b| - 1;
      assert (a + b)[..|a + b| - 1] == a + b[..n];
      SumJoins(a, b[..n]);
    }
  }

  lemma SumOfOne(code: byte)
    ensures Mulaw.Decode(code) >= 0 ==> SumAbs([code]) == Mulaw.Decode(code)
    ensures Mulaw.Decode(code) < 0 ==> SumAbs([code]) + Mulaw.Decode(code) == 0
  {
    hide Mulaw.Decode;
    assert [code][..0] == [];
  }

  /** A frame counts as loud exactly when its magnitudes sum to at least 1501 for
      each of its samples; an empty one never does. */
  lemma LoudExactly(codes: seq<byte>)
    ensures AverageAbs(codes) > SPEECH_THRESHOLD <==> codes != [] && SumAbs(codes) >= 1501 * |codes|
  {
    hide SumAbs;
    if codes != [] {
      MeanAtLeast(SumAbs(codes), |codes|, 1501);
    }
  }

  /** The average is the mean magnitude without its fraction, 0 for an empty frame. */
  lemma AverageIsMean(codes: seq<byte>)
    ensures codes == [] ==> AverageAbs(codes) == 0
    ensures codes != [] ==> AverageAbs(codes) * |codes| <= SumAbs(codes) < (AverageAbs(codes) + 1) * |codes|
  {
    hide SumAbs;
    if codes != [] {
      MeanAtLeast(SumAbs(codes), |codes|, SumAbs(codes) / |codes|);
      MeanAtLeast(SumAbs(codes), |codes|, SumAbs(codes) / |codes| + 1);
    }
  }

  lemma MeanAtLeast(a: nat, n: nat, low: nat)
    requires n > 0
    ensures a / n >= low <==> a >= low * n
  {
    var q := a / n;
    assert a == q * n + a % n;
    ProductOrder(low, q, n);
    ProductOrder(q + 1, low, n);
    assert (q + 1) * n == q * n + n;
  }

  /** A frame whose samples all lie on one side of the threshold is classified by
      that side. */
  lemma UniformFrame(codes: seq<byte>)
    requires codes != []
    ensures (forall i :: 0 <= i < |codes| ==> Abs(Mulaw.Decode(codes[i])) > 1500) ==> AverageAbs(codes) > SPEECH_THRESHOLD
    ensures (forall i :: 0 <= i < |codes| ==> Abs(Mulaw.Decode(codes[i])) <= 1500) ==> AverageAbs(codes) <= SPEECH_THRESHOLD
  {
    hide Mulaw.Decode, SumAbs, AverageAbs;
    LoudExactly(codes);
    if forall i :: 0 <= i < |codes| ==> Abs(Mulaw.Decode(codes[i])) > 1500 {
      SumBounds(codes, 1501, 32768);
    }
    if forall i :: 0 <= i < |codes| ==> Abs(Mulaw.Decode(codes[i])) <= 1500 {
      SumBounds(codes, 0, 1500);
      ProductOrder(1500, 1501, |codes|);
    }
  }

  // ---------- The session's detector ----------

  class Detector {
    const tables: Mulaw.Tables
    var active: bool
    var voiced: nat
    var silent: nat
    var serverSeen: bool
    var serverLast: Stamp
    var lastCommit: Stamp
    var fallbackFired: nat
    var commitAttempts: nat

    ghost function Fields(): State
      reads this
    {
      State(active, voiced, silent, serverSeen, serverLast, lastCommit)
    }

    constructor (tables: Mulaw.Tables)
      ensures this.tables == tables && Fields() == START && fallbackFired == commitAttempts == 0
    {
      this.tables := tables;
      active, voiced, silent, serverSeen := false, 0, 0, false;
      serverLast, lastCommit := Never, Never;
      fallbackFired, commitAttempts := 0, 0;
    }

    static method Average(tables: Mulaw.Tables, mulaw: seq<byte>) returns (avg: int)
      requires tables.Valid()
      ensures avg == AverageAbs(mulaw)
    {
      hide Mulaw.Decode, Low, High, Load, SumAbs;
      if mulaw == [] {
        return 0;
      }
      assert SumAbs(mulaw[..0]) == 0 by { EmptySum(); }
      var pcm := new byte[2 * |mulaw|];
      tables.MulawToPcm16(mulaw, pcm);
      ghost var s := Mulaw.DecodeAll(mulaw);
      var total := 0;
      var i := 0;
      while i < |mulaw|
        modifies {}
        invariant 0 <= i <= |mulaw|
        invariant total == SumAbs(mulaw[..i])
      {
        BytesAt(s, i);
        LoadStored(s[i]);
        assert pcm[2 * i] == pcm[..2 * |mulaw|][2 * i] && pcm[2 * i + 1] == pcm[..2 * |mulaw|][2 * i + 1];
        var v: int := Load(pcm[2 * i], pcm[2 * i + 1]);
        if v < 0 {
          v := -v;
        }
        SumStep(mulaw, i);
        total := total + v;
        i := i + 1;
      }
      assert mulaw[..i] == mulaw;
      avg := total / |mulaw|;
    }

    method NoteServerSpeech(now: int)
      modifies this
      ensures Fields() == Step(old(Fields()), ServerSpeech(now))
      ensures fallbackFired == old(fallbackFired) && commitAttempts == old(commitAttempts)
    {
      serverLast := Ms(now);
      if active {
        serverSeen := true;
      }
    }

    /** `open` says whether the speech service can take a commit. */
    method Observe(mulaw: seq<byte>, now: int, ctx: Context, open: bool) returns (attempted: bool)
      requires tables.Valid()
      modifies this
      ensures var e := Frame(now, AverageAbs(mulaw) > SPEECH_THRESHOLD, ctx);
        && Fields() == Step(old(Fields()), e)
        && attempted == (Commits(old(Fields()), e) && open)
      ensures fallbackFired == old(fallbackFired) + (if attempted then 1 else 0)
      ensures commitAttempts == old(commitAttempts) + (if attempted then 1 else 0)
    {
      attempted := false;
      var avg := Average(tables, mulaw);
      hide AverageAbs;
      if avg > SPEECH_THRESHOLD {
        if !active {
          active, voiced, silent, serverSeen := true, 0, 0, false;
        }
        voiced, silent := voiced + 1, 0;
        return;
      }
      if !active {
        return;
      }
      silent := silent + 1;
      if silent < STOP_FRAMES {
        return;
      }
      var shouldCommit := voiced >= START_FRAMES && !serverSeen
        && Over(now, serverLast, 3000) && Over(now, lastCommit, 1000)
        && ctx.pendingFrames >= 5 && !ctx.responseActive && !ctx.cartesiaActive;
      if shouldCommit {
        lastCommit := Ms(now);
      }
      active, voiced, silent, serverSeen := false, 0, 0, false;
      if !shouldCommit || !open {
        return;
      }
      fallbackFired, commitAttempts := fallbackFired + 1, commitAttempts + 1;
      attempted := true;
    }
  }
}
