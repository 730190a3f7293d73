/** Assistant text on its way to the voice renderer: deltas are buffered, cut into
    pieces at sentence boundaries and queued; a full transcript is the fallback. */
module Speech {
  import opened Seqs

  const QUEUE_CAPACITY := 32
  const BOUNDARY_MIN := 20
  const PIECE_MAX := 100

  /** `unicode.IsSpace`. */
  predicate IsSpace(c: char) {
    var u := c as int;
    || 9 <= u <= 13 || u == 0x20 || u == 0x85 || u == 0xA0 || u == 0x1680
    || 0x2000 <= u <= 0x200A || u == 0x2028 || u == 0x2029 || u == 0x202F || u == 0x205F || u == 0x3000
  }

  predicate Blank(s: string) {
    forall i :: 0 <= i < |s| ==> IsSpace(s[i])
  }

  /** `strings.TrimSpace`. */
  function Trim(s: string): string
    decreases |s|
  {
    if s == "" then s
    else if IsSpace(s[0]) then Trim(s[1..])
    else if IsSpace(s[|s| - 1]) then Trim(s[..|s| - 1])
    else s
  }

  /** The text without any white space. */
  function Squeeze(s: string): string
    decreases |s|
  {
    if s == "" then "" else (if IsSpace(s[0]) then "" else [s[0]]) + Squeeze(s[1..])
  }

  /** The length of the UTF-8 encoding, which is what Go's `len` counts. */
  function ByteLen(s: string): (n: nat)
    ensures n >= |s|
    decreases |s|
  {
    if s == "" then 0
    else
      var u := s[|s| - 1] as int;
      ByteLen(s[..|s| - 1]) + if u < 0x80 then 1 else if u < 0x800 then 2 else if u < 0x1_0000 then 3 else 4
  }

  predicate HasBoundary(s: string) {
    exists i :: 0 <= i < |s| && s[i] in ".!?;:\n"
  }

  // ---------- Laws of trimming ----------

  /** The characters with the White_Space property of Unicode, one by one. */
  lemma SpacesListed(c: char)
    ensures IsSpace(c) <==>
      || c in {'\t', '\n', '\U{000B}', '\U{000C}', '\r', ' ', '\U{0085}', '\U{00A0}', '\U{1680}'}
      || c in {'\U{2000}', '\U{2001}', '\U{2002}', '\U{2003}', '\U{2004}', '\U{2005}', '\U{2006}', '\U{2007}'}
      || c in {'\U{2008}', '\U{2009}', '\U{200A}', '\U{2028}', '\U{2029}', '\U{202F}', '\U{205F}', '\U{3000}'}
  {
  }

  /** Trimming removes white space from the two ends and nothing else. */
  lemma {:induction false} TrimMeaning(s: string) returns (left: string, right: string)
    ensures s == left + Trim(s) + right && Blank(left) && Blank(right)
    ensures Trim(s) != "" ==> !IsSpace(Trim(s)[0]) && !IsSpace(Trim(s)[|Trim(s)| - 1])
    decreases |s|
  {
    hide IsSpace, Blank;
    left, right := "", "";
    BlankSpaces("", "");
    if s != "" {
      if IsSpace(s[0]) {
        left, right := TrimMeaning(s[1..]);
        assert s == [s[0]] + s[1..];
        BlankSpaces([s[0]], left);
        left := [s[0]] + left;
      } else if IsSpace(s[|s| - 1]) {
        var n := |s| - 1;
        left, right := TrimMeaning(s[..n]);
        assert s == s[..n] + [s[n]];
        BlankSpaces(right, [s[n]]);
        right := right + [s[n]];
      }
    }
  }

  lemma BlankSpaces(a: string, b: string)
    ensures Blank("")
    ensures |a| == 1 && IsSpace(a[0]) ==> Blank(a)
    ensures |b| == 1 && IsSpace(b[0]) ==> Blank(b)
    ensures Blank(a) && Blank(b) ==> Blank(a + b)
  {
    hide IsSpace;
  }

  lemma {:induction false} SqueezeConcat(a: string, b: string)
    ensures Squeeze(a + b) == Squeeze(a) + Squeeze(b)
    decreases |a|
  {
    if a == "" {
      assert a + b == b;
    } else {
      assert (a + b)[1..] == a[1..] + b;
      SqueezeConcat(a[1..], b);
    }
  }

  lemma {:induction false} SqueezeBlank(s: string)
    requires Blank(s)
    ensures Squeeze(s) == ""
    decreases |s|
  {
    if s != "" {
      SqueezeBlank(s[1..]);
    }
  }

  lemma SqueezeTrim(s: string)
    ensures Squeeze(Trim(s)) == Squeeze(s)
  {
    hide Blank, Trim;
    var left, right := TrimMeaning(s);
    SqueezeConcat(left + Trim(s), right);
    SqueezeConcat(left, Trim(s));
    SqueezeBlank(left);
    SqueezeBlank(right);
  }

  /** Bytes add up, and a character takes the fewest bytes whose free bits hold it:
      7 bits in one byte, 11 in two, 16 in three. */
  lemma {:induction false} ByteLenJoins(a: string, b: string)
    ensures ByteLen(a + b) == ByteLen(a) + ByteLen(b)
    decreases |b|
  {
    if b == "" {
      assert a + b == a;
    } else {
      var n := |b| - 1;
      assert (a + b)[..|a + b| - 1] == a + b[..n];
      ByteLenJoins(a, b[..n]);
    }
  }

  lemma ByteLenOfOne(c: char)
    ensures ByteLen([c]) <= 1 <==> c as int < 128
    ensures ByteLen([c]) <= 2 <==> c as int < 2048
    ensures ByteLen([c]) <= 3 <==> c as int < 65536
    ensures 1 <= ByteLen([c]) <= 4
  {
    assert [c][..0] == "";
  }

  lemma TrimTwice(s: string)
    ensures Trim(Trim(s)) == Trim(s)
  {
    var left, right := TrimMeaning(s);
  }

  // ---------- The handlers as functions ----------

  /** A text offered to the render queue: how many were queued then, whether the
      stopping session was preferred, and whether the queue took it. */
  datatype Offer = Offer(text: string, streamed: bool, queued: nat, stopped: bool, taken: bool)

  /** `cut` records the raw pieces taken out of the delta buffer. */
  datatype State = State(pending: string, seen: bool, queue: seq<string>, rendered: seq<string>,
                         cut: seq<string>, offers: seq<Offer>)

  const START := State("", false, [], [], [], [])

  /** What the non-blocking send finds: when both sending and stopping are
      possible either may happen. */
  datatype Choice = Choice(stopping: bool, preferStop: bool)

  predicate Takes(s: State, c: Choice) {
    |s.queue| < QUEUE_CAPACITY && !(c.stopping && c.preferStop)
  }

  function OfferOf(s: State, t: string, streamed: bool, c: Choice): Offer {
    Offer(t, streamed, |s.queue|, c.stopping && c.preferStop, Takes(s, c))
  }

  /** `enqueueCartesiaText`. */
  function Enqueue(s: State, text: string, streamed: bool, c: Choice): State {
    var t := Trim(text);
    if t == "" then s
    else s.(queue := if Takes(s, c) then s.queue + [t] else s.queue,
            offers := s.offers + [OfferOf(s, t, streamed, c)])
  }

  /** Take the buffer out as one piece and queue it. */
  function Cut(s: State, c: Choice): State {
    Enqueue(s.(pending := "", cut := s.cut + [s.pending]), s.pending, true, c)
  }

  predicate Flushes(text: string, delta: string) {
    (HasBoundary(delta) && ByteLen(text) >= BOUNDARY_MIN) || ByteLen(text) >= PIECE_MAX
  }

  /** `bufferCartesiaTranscript`. */
  function Buffer(s: State, delta: string, c: Choice): State {
    if delta == "" then s
    else
      var b := s.(seen := true, pending := s.pending + delta);
      if Flushes(b.pending, delta) then Cut(b, c) else b
  }

  /** `response.done`: flush the buffer, or fall back on the full transcript. */
  function Done(s: State, full: string, suppressed: bool, skipped: bool, c: Choice): State {
    if suppressed || skipped then s
    else
      var flushed := Cut(s, c);
      if Trim(s.pending) != "" || s.seen || full == "" then flushed else Enqueue(flushed, full, false, c)
  }

  datatype Event =
    | Delta(text: string, suppressed: bool, c: Choice)
    | ResponseDone(full: string, suppressed: bool, skipped: bool, c: Choice)
    | Say(text: string, c: Choice)
    | Render

  function Step(s: State, e: Event): State {
    match e
    case Delta(text, suppressed, c) => if suppressed then s else Buffer(s, text, c)
    case ResponseDone(full, suppressed, skipped, c) => Done(s, full, suppressed, skipped, c)
    case Say(text, c) => Enqueue(s, text, false, c)
    case Render => if s.queue == [] then s else s.(queue := s.queue[1..], rendered := s.rendered + [s.queue[0]])
  }

  function Run(s: State, es: seq<Event>): State
    decreases |es|
  {
    if es == [] then s else Step(Run(s, es[..|es| - 1]), es[|es| - 1])
  }

  function Gained(e: Event): string {
    if e.Delta? && !e.suppressed then e.text else ""
  }

  /** The delta text that reached the buffer. */
  function Streamed(es: seq<Event>): string
    decreases |es|
  {
    if es == [] then ""
    else
      var e := es[|es| - 1];
      Streamed(es[..|es| - 1]) + Gained(e)
  }

  // ---------- What every run keeps ----------

  function StreamedTexts(offers: seq<Offer>): seq<string>
    decreases |offers|
  {
    if offers == [] then []
    else
      var o := offers[|offers| - 1];
      StreamedTexts(offers[..|offers| - 1]) + if o.streamed then [o.text] else []
  }

  function TakenTexts(offers: seq<Offer>): seq<string>
    decreases |offers|
  {
    if offers == [] then []
    else
      var o := offers[|offers| - 1];
      TakenTexts(offers[..|offers| - 1]) + if o.taken then [o.text] else []
  }

  /** The pieces that are not blank, trimmed. */
  function Spoken(cut: seq<string>): seq<string>
    decreases |cut|
  {
    if cut == [] then []
    else
      var t := Trim(cut[|cut| - 1]);
      Spoken(cut[..|cut| - 1]) + if t == "" then [] else [t]
  }

  lemma SnocTexts(offers: seq<Offer>, o: Offer)
    ensures StreamedTexts(offers + [o]) == StreamedTexts(offers) + if o.streamed then [o.text] else []
    ensures TakenTexts(offers + [o]) == TakenTexts(offers) + if o.taken then [o.text] else []
  {
    assert (offers + [o])[..|offers|] == offers;
  }

  lemma SnocPieces(cut: seq<string>, piece: string)
    ensures Concat(cut + [piece]) == Concat(cut) + piece
    ensures Spoken(cut + [piece]) == Spoken(cut) + if Trim(piece) == "" then [] else [Trim(piece)]
  {
    ConcatLast(cut, piece);
    assert (cut + [piece])[..|cut|] == cut;
  }

  /** Each text was taken exactly if fewer than 32 were queued then and the session
      was not seen stopping. */
  predicate RefusedExactly(offers: seq<Offer>) {
    forall i :: 0 <= i < |offers| ==> (offers[i].taken <==> offers[i].queued < 32 && !offers[i].stopped)
  }

  ghost predicate Invariant(s: State, streamed: string) {
    && Concat(s.cut) + s.pending == streamed
    && StreamedTexts(s.offers) == Spoken(s.cut)
    && s.rendered + s.queue == TakenTexts(s.offers)
    && |s.queue| <= QUEUE_CAPACITY
    && RefusedExactly(s.offers)
    && ByteLen(s.pending) < PIECE_MAX
    && (streamed != "" <==> s.seen)
  }

  lemma EnqueueKeeps(s: State, text: string, streamed: bool, c: Choice)
    requires s.rendered + s.queue == TakenTexts(s.offers) && |s.queue| <= QUEUE_CAPACITY && RefusedExactly(s.offers)
    ensures var r := Enqueue(s, text, streamed, c);
      && r.rendered + r.queue == TakenTexts(r.offers) && |r.queue| <= QUEUE_CAPACITY && RefusedExactly(r.offers)
      && StreamedTexts(r.offers)
           == StreamedTexts(s.offers) + (if streamed && Trim(text) != "" then [Trim(text)] else [])
      && r.pending == s.pending && r.seen == s.seen && r.cut == s.cut
  {
    hide Trim;
    SnocTexts(s.offers, OfferOf(s, Trim(text), streamed, c));
  }

  lemma CutKeeps(s: State, streamed: string, c: Choice)
    requires Concat(s.cut) + s.pending == streamed && StreamedTexts(s.offers) == Spoken(s.cut)
    requires s.rendered + s.queue == TakenTexts(s.offers) && |s.queue| <= QUEUE_CAPACITY && RefusedExactly(s.offers)
    requires streamed != "" <==> s.seen
    ensures Invariant(Cut(s, c), streamed) && Cut(s, c).pending == "" && Cut(s, c).seen == s.seen
  {
    hide Trim, Enqueue;
    SnocPieces(s.cut, s.pending);
    EnqueueKeeps(s.(pending := "", cut := s.cut + [s.pending]), s.pending, true, c);
  }

  lemma BufferKeeps(s: State, delta: string, streamed: string, c: Choice)
    requires Invariant(s, streamed)
    ensures Invariant(Buffer(s, delta, c), streamed + delta)
  {
    hide Trim, Enqueue, Cut, HasBoundary;
    if delta != "" {
      var b := s.(seen := true, pending := s.pending + delta);
      assert Concat(b.cut) + b.pending == streamed + delta;
      if Flushes(b.pending, delta) { CutKeeps(b, streamed + delta, c); }
    } else {
      assert streamed + delta == streamed;
    }
  }

  lemma DoneKeeps(s: State, full: string, suppressed: bool, skipped: bool, c: Choice, streamed: string)
    requires Invariant(s, streamed)
    ensures Invariant(Done(s, full, suppressed, skipped, c), streamed)
  {
    hide Trim, Enqueue, Cut;
    if !suppressed && !skipped {
      CutKeeps(s, streamed, c);
      EnqueueKeeps(Cut(s, c), full, false, c);
    }
  }

  lemma StepKeeps(s: State, e: Event, streamed: string)
    requires Invariant(s, streamed)
    ensures Invariant(Step(s, e), streamed + Gained(e))
  {
    hide Trim, Enqueue, Cut, Buffer, Done;
    assert streamed + "" == streamed;
    match e
    case Delta(text, suppressed, c) =>
      BufferKeeps(s, text, streamed, c);
    case ResponseDone(full, suppressed, skipped, c) =>
      DoneKeeps(s, full, suppressed, skipped, c, streamed);
    case Say(text, c) =>
      EnqueueKeeps(s, text, false, c);
    case Render =>
  }

  lemma {:induction false} InvariantAlways(es: seq<Event>)
    ensures Invariant(Run(START, es), Streamed(es))
    decreases |es|
  {
    if es != [] {
      hide Step, Invariant;
      InvariantAlways(es[..|es| - 1]);
      StepKeeps(Run(START, es[..|es| - 1]), es[|es| - 1], Streamed(es[..|es| - 1]));
    }
  }

  /** The delta stream is cut into consecutive pieces, and what is offered to the
      renderer from it are those pieces that are not blank, trimmed, in order. */
  lemma StreamIsCut(es: seq<Event>)
    ensures var s := Run(START, es);
      && Concat(s.cut) + s.pending == Streamed(es)
      && StreamedTexts(s.offers) == Spoken(s.cut)
      && ByteLen(s.pending) < PIECE_MAX
  {
    InvariantAlways(es);
  }

  lemma {:induction false} SpokenSqueezed(cut: seq<string>)
    ensures Squeeze(Concat(Spoken(cut))) == Squeeze(Concat(cut))
    decreases |cut|
  {
    if cut != [] {
      hide Trim;
      var n := |cut| - 1;
      var before, t := Spoken(cut[..n]), Trim(cut[n]);
      SpokenSqueezed(cut[..n]);
      assert cut == cut[..n] + [cut[n]];
      SnocPieces(cut[..n], cut[n]);
      SqueezeTrim(cut[n]);
      SqueezeConcat(Concat(cut[..n]), cut[n]);
      if t != "" {
        SnocPieces(before, t);
        SqueezeConcat(Concat(before), t);
      } else {
        assert Spoken(cut) == before;
      }
    }
  }

  /** An offer makes the queue one longer, by the trimmed text at its end, exactly
      when the text is not blank, fewer than 32 are queued and the session is not
      seen stopping; otherwise the queue stays as it is. */
  lemma EnqueueExactly(s: State, text: string, streamed: bool, c: Choice)
    ensures var r := Enqueue(s, text, streamed, c);
      if !Blank(text) && |s.queue| < 32 && !(c.stopping && c.preferStop)
      then |r.queue| == |s.queue| + 1 && r.queue[..|s.queue|] == s.queue && r.queue[|s.queue|] == Trim(text)
      else r.queue == s.queue
    ensures var r := Enqueue(s, text, streamed, c);
      !Blank(text) ==> |r.offers| == |s.offers| + 1 && r.offers[|s.offers|].queued == |s.queue|
  {
    hide Trim, Blank;
    TrimBlank(text);
  }

  lemma TrimBlank(s: string)
    ensures Trim(s) == "" <==> Blank(s)
  {
    var left, right := TrimMeaning(s);
    if Trim(s) == "" {
      forall i | 0 <= i < |s|
        ensures IsSpace(s[i])
      {
        assert s[i] == if i < |left| then left[i] else right[i - |left|];
      }
    } else {
      assert s[|left|] == Trim(s)[0];
    }
  }

  // ---------- What the renderer receives ----------

  /** `a` without some of the texts of `b`, in the same order. */
  predicate Subsequence(a: seq<string>, b: seq<string>)
    decreases |b|
  {
    a == []
    || (b != []
        && (Subsequence(a, b[..|b| - 1])
            || (a[|a| - 1] == b[|b| - 1] && Subsequence(a[..|a| - 1], b[..|b| - 1]))))
  }

  lemma SubsequenceGrows(a: seq<string>, b: seq<string>, x: string)
    requires Subsequence(a, b)
    ensures Subsequence(a, b + [x]) && Subsequence(a + [x], b + [x])
  {
    assert (b + [x])[..|b|] == b && (a + [x])[..|a|] == a;
  }

  lemma {:induction false} StreamedAmongTaken(offers: seq<Offer>)
    requires forall i :: 0 <= i < |offers| && offers[i].streamed ==> offers[i].taken
    ensures Subsequence(StreamedTexts(offers), TakenTexts(offers))
    decreases |offers|
  {
    hide Subsequence;
    if offers != [] {
      var front, o := offers[..|offers| - 1], offers[|offers| - 1];
      StreamedAmongTaken(front);
      SubsequenceGrows(StreamedTexts(front), TakenTexts(front), o.text);
      assert offers == front + [o];
      SnocTexts(front, o);
      assert StreamedTexts(front) + [] == StreamedTexts(front) && TakenTexts(front) + [] == TakenTexts(front);
    } else {
      SubsequenceOfNone();
    }
  }

  lemma {:induction false} SubsequenceCounts(a: seq<string>, b: seq<string>)
    requires Subsequence(a, b)
    ensures |a| <= |b| && multiset(a) <= multiset(b)
    decreases |b|
  {
    if a != [] {
      var a', b' := a[..|a| - 1], b[..|b| - 1];
      assert a == a' + [a[|a| - 1]] && b == b' + [b[|b| - 1]];
      if Subsequence(a, b') {
        SubsequenceCounts(a, b');
      } else {
        SubsequenceCounts(a', b');
      }
    }
  }

  lemma SubsequenceOfNone()
    ensures Subsequence([], [])
  {
  }

  predicate FlushesAtEnd(e: Event) {
    e.ResponseDone? && !e.suppressed && !e.skipped
  }

  /** Once a response has ended unsuppressed, the texts offered from the stream are
      the streamed deltas up to white space; and if the queue never refused one of
      them, the renderer has received or still holds each of them, in order, among
      whatever else was said. */
  lemma RendererGetsTheStream(es: seq<Event>)
    requires es != [] && FlushesAtEnd(es[|es| - 1])
    ensures var s := Run(START, es);
      Squeeze(Concat(StreamedTexts(s.offers))) == Squeeze(Streamed(es))
    ensures var s := Run(START, es);
      (forall i :: 0 <= i < |s.offers| && s.offers[i].streamed ==> s.offers[i].queued < 32 && !s.offers[i].stopped)
      ==> Subsequence(StreamedTexts(s.offers), s.rendered + s.queue)
          && multiset(StreamedTexts(s.offers)) <= multiset(s.rendered + s.queue)
  {
    hide Streamed, Done;
    var s := Run(START, es);
    var before, e := Run(START, es[..|es| - 1]), es[|es| - 1];
    assert s == Done(before, e.full, false, false, e.c);
    hide Run;
    DoneEmptiesBuffer(before, e.full, e.c);
    InvariantAlways(es);
    SpokenSqueezed(s.cut);
    assert Concat(s.cut) + "" == Concat(s.cut);
    if forall i :: 0 <= i < |s.offers| && s.offers[i].streamed ==> s.offers[i].queued < 32 && !s.offers[i].stopped {
      StreamedAmongTaken(s.offers);
      SubsequenceCounts(StreamedTexts(s.offers), TakenTexts(s.offers));
    }
  }

  /** A response that ends unsuppressed leaves the buffer empty. */
  lemma DoneEmptiesBuffer(s: State, full: string, c: Choice)
    ensures Done(s, full, false, false, c).pending == ""
  {
    hide Trim;
  }

  // ---------- Which event cuts which piece ----------

  /** One event adds at most one piece, and what was pending is in it or still
      pending. */
  lemma StepCuts(s: State, e: Event)
    ensures var r := Step(s, e);
      if |r.cut| > |s.cut| then r.cut == s.cut + [s.pending + Gained(e)] && r.pending == ""
      else r.cut == s.cut && r.pending == s.pending + Gained(e)
  {
    hide Trim, Flushes;
    assert s.pending + "" == s.pending;
  }

  /** The only events that cut: a delta that fills a sentence or the buffer, and
      the unsuppressed end of a response. */
  lemma CuttingEvent(s: State, e: Event)
    requires |Step(s, e).cut| > |s.cut|
    ensures if e.Delta? then !e.suppressed && Flushes(s.pending + e.text, e.text)
            else FlushesAtEnd(e)
  {
    hide Trim, Flushes;
  }

  /** An unsuppressed delta cuts at once exactly when it holds the end of a sentence
      and at least 20 bytes are then pending, or 100 in any case. */
  lemma DeltaCutsExactly(s: State, text: string, c: Choice)
    ensures |Step(s, Delta(text, false, c)).cut| > |s.cut| <==>
      text != ""
      && (((exists i :: 0 <= i < |text| && text[i] in {'.', '!', '?', ';', ':', '\n'}) && ByteLen(s.pending + text) >= 20)
          || ByteLen(s.pending + text) >= 100)
    ensures Step(s, Delta(text, true, c)) == s
  {
    hide Trim, ByteLen;
    BoundaryChars(text);
  }

  lemma BoundaryChars(text: string)
    ensures HasBoundary(text) <==> exists i :: 0 <= i < |text| && text[i] in {'.', '!', '?', ';', ':', '\n'}
  {
    assert forall c: char :: c in ".!?;:\n" <==> c in {'.', '!', '?', ';', ':', '\n'};
  }

  /** Every piece was cut by one event of the run, out of what was pending then.
      A piece under 20 bytes was cut by the end of a response; any other end of a
      sentence, or 100 bytes, had to fill it. */
  lemma {:induction false} EveryPieceHasItsEvent(es: seq<Event>, k: nat) returns (i: nat)
    requires k < |Run(START, es).cut|
    ensures i < |es| && |Run(START, es[..i]).cut| == k
    ensures Run(START, es).cut[k] == Run(START, es[..i]).pending + Gained(es[i])
    ensures if es[i].Delta? then !es[i].suppressed && Flushes(Run(START, es).cut[k], es[i].text)
            else FlushesAtEnd(es[i])
    ensures ByteLen(Run(START, es).cut[k]) < BOUNDARY_MIN ==> FlushesAtEnd(es[i])
    decreases |es|
  {
    hide Step, ByteLen, HasBoundary;
    var n := |es| - 1;
    var before := Run(START, es[..n]);
    StepCuts(before, es[n]);
    if k < |before.cut| {
      i := EveryPieceHasItsEvent(es[..n], k);
      assert es[..n][..i] == es[..i];
    } else {
      i := n;
      CuttingEvent(before, es[n]);
    }
  }

  lemma {:induction false} RunSplits(s: State, a: seq<Event>, b: seq<Event>)
    ensures Run(s, a + b) == Run(Run(s, a), b)
    decreases |b|
  {
    hide Step;
    if b == [] {
      assert a + b == a;
    } else {
      var n := |b| - 1;
      assert (a + b)[..|a + b| - 1] == a + b[..n];
      RunSplits(s, a, b[..n]);
    }
  }

  /** `r` comes from `s` by deltas of the text `text`: the pieces added and what is
      left pending join up to what was pending at first and that text; and the first
      piece added, if there is one, begins with what was pending. */
  ghost predicate Follows(s: State, r: State, text: string) {
    && s.cut <= r.cut
    && Concat(r.cut[|s.cut|..]) + r.pending == s.pending + text
    && (if r.cut == s.cut then s.pending <= r.pending else s.pending <= r.cut[|s.cut|])
  }

  lemma FollowsStep(s: State, mid: State, text: string, e: Event)
    requires Follows(s, mid, text)
    ensures Follows(s, Step(mid, e), text + Gained(e))
  {
    var r, gained := Step(mid, e), Gained(e);
    StepCuts(mid, e);
    hide Step, Gained;
    var added, later := mid.cut[|s.cut|..], mid.pending + gained;
    assert Concat(added) + later == (Concat(added) + mid.pending) + gained;
    assert Concat(added) + later == s.pending + (text + gained);
    if |r.cut| > |mid.cut| {
      assert r.cut[|s.cut|..] == added + [later];
      hide Concat;
      ConcatLast(added, later);
      assert Concat(added + [later]) + "" == Concat(added) + later;
    }
  }

  lemma {:induction false} PendingGoesFirst(s: State, more: seq<Event>)
    ensures Follows(s, Run(s, more), Streamed(more))
    decreases |more|
  {
    if more == [] {
      assert s.pending + "" == s.pending;
      assert Concat(s.cut[|s.cut|..]) + s.pending == s.pending;
    } else {
      hide Step, Follows, Gained;
      var n := |more| - 1;
      PendingGoesFirst(s, more[..n]);
      FollowsStep(s, Run(s, more[..n]), Streamed(more[..n]), more[n]);
    }
  }

  /** The text pending when a response ends survives exactly if that end is
      suppressed or skipped. Then, whatever follows, the first piece cut begins
      with it; otherwise it is the next piece, whole and alone. */
  lemma HeldTextIsSpokenFirst(s: State, done: Event, more: seq<Event>)
    requires done.ResponseDone?
    ensures Step(s, done).pending != "" <==> s.pending != "" && (done.suppressed || done.skipped)
    ensures var r := Run(s, [done] + more);
      if done.suppressed || done.skipped then
        r == Run(s, more) && (|r.cut| > |s.cut| ==> s.pending <= r.cut[|s.cut|])
      else |r.cut| > |s.cut| && r.cut[|s.cut|] == s.pending
  {
    RunSplits(s, [done], more);
    OneEvent(s, done);
    hide Run, Trim;
    PendingGoesFirst(Step(s, done), more);
  }

  lemma OneEvent(s: State, e: Event)
    ensures Run(s, [e]) == Step(s, e)
  {
    hide Step;
    assert [e][..0] == [];
  }

  /** With the first cut at event `i`, the piece is what was pending and all the
      deltas up to there. */
  lemma FirstPiece(s: State, more: seq<Event>, i: nat)
    requires i < |more| && |Run(s, more[..i]).cut| == |s.cut| < |Run(s, more[..i + 1]).cut|
    ensures |Run(s, more).cut| > |s.cut|
    ensures Run(s, more).cut[|s.cut|] == s.pending + Streamed(more[..i + 1])
  {
    var before, e, rest := Run(s, more[..i]), more[i], more[i + 1..];
    assert more[..i + 1][..i] == more[..i] && more == more[..i + 1] + rest;
    assert Run(s, more[..i + 1]) == Step(before, e);
    assert Streamed(more[..i + 1]) == Streamed(more[..i]) + Gained(e);
    hide Run, Step, Gained, Streamed, Follows;
    PendingGoesFirst(s, more[..i]);
    RunSplits(s, more[..i + 1], rest);
    PendingGoesFirst(Step(before, e), rest);
    PieceCut(s, before, Streamed(more[..i]), e, Run(s, more), Streamed(rest));
  }

  lemma PieceCut(s: State, before: State, text: string, e: Event, r: State, later: string)
    requires Follows(s, before, text) && Follows(Step(before, e), r, later)
    requires |before.cut| == |s.cut| < |Step(before, e).cut|
    ensures |r.cut| > |s.cut| && r.cut[|s.cut|] == s.pending + (text + Gained(e))
  {
    StepCuts(before, e);
    hide Step, Gained;
    assert before.cut[|s.cut|..] == [];
    assert "" + before.pending == before.pending;
    assert s.pending + (text + Gained(e)) == (s.pending + text) + Gained(e);
  }

  predicate SaysMore(before: seq<Offer>, after: seq<Offer>) {
    exists i :: |before| <= i < |after| && !after[i].streamed
  }

  /** An unsuppressed response end falls back on the full transcript exactly when
      that is not blank and no delta text ever reached the buffer in the whole
      session: the flag is never cleared. */
  lemma FallbackExactly(es: seq<Event>, full: string, c: Choice)
    ensures var s := Run(START, es);
      SaysMore(s.offers, Done(s, full, false, false, c).offers) <==> Streamed(es) == "" && Trim(full) != ""
    ensures var s := Run(START, es);
      Streamed(es) == "" && Trim(full) != ""
      ==> Done(s, full, false, false, c).offers == s.offers + [OfferOf(s, Trim(full), false, c)]
  {
    hide Run, Streamed;
    InvariantAlways(es);
    var s := Run(START, es);
    assert Trim("") == "";
    hide Trim, Invariant;
    assert Concat(s.cut) + s.pending == Streamed(es) && (Streamed(es) != "" <==> s.seen);
    var r := Done(s, full, false, false, c);
    if Streamed(es) == "" {
      assert s.pending == "";
      if Trim(full) != "" { assert !r.offers[|s.offers|].streamed; }
    }
  }

  // ---------- The session's speech buffer ----------

  class SpeechBuffer {
    var pending: string
    var seen: bool
    var queue: seq<string>
    ghost var rendered: seq<string>
    ghost var cut: seq<string>
    ghost var offers: seq<Offer>

    ghost function Now(): State
      reads this
    {
      State(pending, seen, queue, rendered, cut, offers)
    }

    constructor ()
      ensures Now() == START
    {
      pending, seen, queue := "", false, [];
      rendered, cut, offers := [], [], [];
    }

    method EnqueueText(text: string, ghost streamed: bool, c: Choice)
      modifies this
      ensures Now() == Enqueue(old(Now()), text, streamed, c)
    {
      var t := Trim(text);
      if t == "" {
        return;
      }
      ghost var queued := |queue|;
      var taken := |queue| < QUEUE_CAPACITY && !(c.stopping && c.preferStop);
      if taken {
        queue := queue + [t];
      }
      offers := offers + [Offer(t, streamed, queued, c.stopping && c.preferStop, taken)];
    }

    method BufferTranscript(delta: string, c: Choice)
      modifies this
      ensures Now() == Buffer(old(Now()), delta, c)
    {
      if delta == "" {
        return;
      }
      seen := true;
      pending := pending + delta;
      var text := pending;
      var shouldFlush := (HasBoundary(delta) && ByteLen(text) >= BOUNDARY_MIN) || ByteLen(text) >= PIECE_MAX;
      if !shouldFlush {
        return;
      }
      cut := cut + [pending];
      pending := "";
      TrimTwice(text);
      text := Trim(text);
      if text != "" {
        EnqueueText(text, true, c);
      }
    }

    /** Says whether the response has been spoken already. */
    method FlushTranscript(c: Choice) returns (spoken: bool)
      modifies this
      ensures Now() == Cut(old(Now()), c)
      ensures spoken == (Trim(old(pending)) != "" || old(seen))
    {
      var text := Trim(pending);
      TrimTwice(pending);
      cut := cut + [pending];
      pending := "";
      if text != "" {
        EnqueueText(text, true, c);
        return true;
      }
      spoken := seen;
    }

    method ResponseDone(full: string, suppressed: bool, skipped: bool, c: Choice)
      modifies this
      ensures Now() == Done(old(Now()), full, suppressed, skipped, c)
    {
      if suppressed || skipped {
        return;
      }
      var spoken := FlushTranscript(c);
      if !spoken && full != "" {
        EnqueueText(full, false, c);
      }
    }
  }
}
