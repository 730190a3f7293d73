/** The booking dialogue of a session: caller transcripts and assistant questions
    arrive one after another and update shared state. */
module Dialogue {
  import opened Booking
  import opened QuestionText

  /** What a caller transcript amounts to. `update` is what the parsers made of
      it, possibly depending on the booking so far. */
  datatype Transcript = Transcript(blank: bool, intent: bool, correction: bool, update: Update) {
    predicate Parsed() {
      update.Parsed() && (blank ==> !update.HasAny())
    }
  }

  datatype State = State(booking: BookingData, live: bool, asked: string, clarifyField: string, clarifyCount: nat)

  const START := State(EMPTY, false, "", "", 0)

  // ---------- The handlers as functions ----------

  function SetAsked(d: State, field: string): State {
    d.(asked := field, booking := Mark(d.booking, field))
  }

  /** The assistant said `text`. */
  function Note(d: State, text: string): State {
    var field := ExpectedField(text);
    if field == "" then d else SetAsked(d, field)
  }

  predicate Ignored(d: State, t: Transcript) {
    t.blank || (!(d.live || t.intent) && !t.update.HasAny())
  }

  /** The caller is in a booking but the answer to the question asked is missing. */
  predicate NeedsClarification(d: State, t: Transcript) {
    var missing := FirstMissing(Merge(d.booking, t.update, t.correction));
    d.live && !t.update.HasAny() && missing != "" && missing == d.asked
  }

  /** The state after a transcript, before any question is forced. */
  function Hear(d: State, t: Transcript): State {
    if Ignored(d, t) then d
    else
      var b := Merge(d.booking, t.update, t.correction);
      var missing := FirstMissing(b);
      var (field, count) :=
        if NeedsClarification(d, t) then (missing, if d.clarifyField == missing then d.clarifyCount + 1 else 1)
        else if t.update.HasAny() then ("", 0)
        else (d.clarifyField, d.clarifyCount);
      State(b, true, d.asked, field, count)
  }

  /** The question the session then asks by itself, if any. */
  function Reply(d: State, t: Transcript): string {
    var after := Hear(d, t);
    if Ignored(d, t) then ""
    else if FirstMissing(after.booking) == "" then COMPLETION
    else if NeedsClarification(d, t) then ClarificationQuestion(FirstMissing(after.booking), after.clarifyCount)
    else ""
  }

  /** The whole handler: a forced question is noted like any other. */
  function OnTranscript(d: State, t: Transcript): State {
    if Reply(d, t) == "" then Hear(d, t) else Note(Hear(d, t), Reply(d, t))
  }

  /** `shouldSkipOpenAICartesiaEnqueue`: the slot skipped, or nothing. */
  function SkippedSlot(d: State, text: string): string {
    var field, missing := ExpectedField(text), FirstMissing(d.booking);
    if d.live && field != "" && missing != "" && field == missing && field != d.asked then field else ""
  }

  datatype Event = Caller(t: Transcript) | Assistant(text: string)

  function Step(d: State, e: Event): State {
    match e
    case Caller(t) => OnTranscript(d, t)
    case Assistant(text) => Note(d, text)
  }

  function Run(d: State, es: seq<Event>): State
    decreases |es|
  {
    if es == [] then d else Step(Run(d, es[..|es| - 1]), es[|es| - 1])
  }

  ghost predicate Parsed(es: seq<Event>) {
    forall i :: 0 <= i < |es| && es[i].Caller? ==> es[i].t.Parsed()
  }

  // ---------- Single steps ----------

  lemma DetectedFieldOnly(text: string)
    ensures ExpectedField(text) == "" || IsField(ExpectedField(text))
  {
  }

  /** A clarification is recognised as asking for its own slot or for none. */
  lemma ClarificationField(field: string, attempt: int)
    requires IsField(field)
    ensures ExpectedField(ClarificationQuestion(field, attempt)) in {"", field}
  {
    hide ExpectedField;
    UndetectedClarifications();
    NumberClarification();
    GuestsClarification();
  }

  /** Asking for the first missing slot implies nothing new. */
  lemma MarkFirstMissing(b: BookingData)
    ensures Mark(b, FirstMissing(b)) == b
  {
  }

  /** A question the session forces never changes the dialogue state: it repeats
      the slot already asked for, or names none. */
  lemma ForcedQuestionChangesNothing(d: State, t: Transcript)
    ensures OnTranscript(d, t) == Hear(d, t)
  {
    hide ExpectedField, Merge, Mark;
    CompletionNamesNoField();
    var after := Hear(d, t);
    if NeedsClarification(d, t) && !Ignored(d, t) {
      FirstMissingSlot(after.booking, Date);
      ClarificationField(FirstMissing(after.booking), after.clarifyCount);
      MarkFirstMissing(after.booking);
    }
  }

  /** Every clarification question differs from the completion line. */
  lemma CompletionIsDistinct(field: string, attempt: int)
    ensures ClarificationQuestion(field, attempt) != COMPLETION && ClarificationQuestion(field, attempt) != ""
  {
    assert COMPLETION[0] == 'O';
    assert ClarificationQuestion(field, attempt)[0] == 'S';
  }

  /** A transcript changes a slot only by an answer for it: the first one, or a
      later one that corrects. */
  lemma HeardSlot(d: State, t: Transcript, slot: Slot)
    requires t.Parsed()
    ensures Held(OnTranscript(d, t).booking, slot) ==
      if Offers(t.update, slot) && (t.correction || RankIn(d.booking, slot) != Given) then Offered(t.update, slot)
      else Held(d.booking, slot)
  {
    hide ExpectedField, Merge, Mark;
    ForcedQuestionChangesNothing(d, t);
    MergeSlot(d.booking, t.update, t.correction, slot);
  }

  lemma NotedSlot(d: State, text: string, slot: Slot)
    ensures var field := ExpectedField(text);
      Held(Note(d, text).booking, slot) ==
        if IsField(field) && Order(slot) < FieldOrder(field) && RankIn(d.booking, slot) == Missing then Placeholder(slot)
        else Held(d.booking, slot)
  {
    hide ExpectedField, Mark;
    MarkSlot(d.booking, ExpectedField(text), slot);
  }

  lemma OfferedRank(u: Update, slot: Slot)
    requires u.Parsed() && Offers(u, slot)
    ensures RankOf(slot, Offered(u, slot)) == Given
  {
  }

  /** No event lowers the rank of a slot, and only a correcting transcript changes
      a value the caller has given. */
  lemma StepKeepsRank(d: State, e: Event, slot: Slot)
    requires e.Caller? ==> e.t.Parsed()
    ensures RankNumber(RankIn(Step(d, e).booking, slot)) >= RankNumber(RankIn(d.booking, slot))
    ensures RankIn(d.booking, slot) == Given && Held(Step(d, e).booking, slot) != Held(d.booking, slot)
      ==> e.Caller? && e.t.correction && Offers(e.t.update, slot)
  {
    hide ExpectedField, Merge, Mark, OnTranscript, Note;
    match e
    case Caller(t) =>
      HeardSlot(d, t, slot);
      if Offers(t.update, slot) { OfferedRank(t.update, slot); }
    case Assistant(text) =>
      NotedSlot(d, text, slot);
  }

  // ---------- Whole runs ----------

  /** Ranks only rise along a run. */
  lemma {:induction false} RankNeverDrops(d: State, es: seq<Event>, slot: Slot)
    requires Parsed(es)
    ensures RankNumber(RankIn(Run(d, es).booking, slot)) >= RankNumber(RankIn(d.booking, slot))
    decreases |es|
  {
    if es != [] {
      hide Step, RankIn;
      RankNeverDrops(d, es[..|es| - 1], slot);
      StepKeepsRank(Run(d, es[..|es| - 1]), es[|es| - 1], slot);
    }
  }

  predicate Corrects(e: Event, slot: Slot) {
    e.Caller? && e.t.correction && Offers(e.t.update, slot)
  }

  /** A value the caller has given changes along a run only if some event of it
      was a correcting answer for that slot. */
  lemma {:induction false} GivenChangesOnlyByCorrection(d: State, es: seq<Event>, slot: Slot)
    requires Parsed(es) && RankIn(d.booking, slot) == Given
    requires forall i :: 0 <= i < |es| ==> !Corrects(es[i], slot)
    ensures Held(Run(d, es).booking, slot) == Held(d.booking, slot)
    decreases |es|
  {
    if es != [] {
      hide Step, RankOf, Held;
      GivenChangesOnlyByCorrection(d, es[..|es| - 1], slot);
      StepKeepsRank(Run(d, es[..|es| - 1]), es[|es| - 1], slot);
    }
  }

  /** So the first missing slot never moves backward. */
  lemma FirstMissingNeverRetreats(d: State, es: seq<Event>)
    requires Parsed(es)
    ensures FieldOrder(FirstMissing(d.booking)) <= FieldOrder(FirstMissing(Run(d, es).booking))
  {
    RankNeverDrops(d, es, Date);
    RankNeverDrops(d, es, Time);
    RankNeverDrops(d, es, Guests);
    RankNeverDrops(d, es, Name);
    RankNeverDrops(d, es, Phone);
  }

  /** The value a caller ends up having given for a slot: the first answer, or
      the last correction. */
  function CallerValue(es: seq<Event>, slot: Slot): seq<Value>
    ensures |CallerValue(es, slot)| <= 1
    decreases |es|
  {
    if es == [] then []
    else
      var before, last := CallerValue(es[..|es| - 1], slot), es[|es| - 1];
      if last.Caller? && Offers(last.t.update, slot) && (last.t.correction || before == []) then [Offered(last.t.update, slot)]
      else before
  }

  /** Provenance: a slot counts as caller-given in a run exactly when a caller
      answered for it, and then holds that answer. */
  lemma {:induction false} GivenComesFromCaller(es: seq<Event>, slot: Slot)
    requires Parsed(es)
    ensures RankIn(Run(START, es).booking, slot) == Given <==> CallerValue(es, slot) != []
    ensures CallerValue(es, slot) != [] ==> Held(Run(START, es).booking, slot) == CallerValue(es, slot)[0]
    decreases |es|
  {
    if es != [] {
      hide ExpectedField, Merge, Mark, OnTranscript, Note;
      var d, e := Run(START, es[..|es| - 1]), es[|es| - 1];
      GivenComesFromCaller(es[..|es| - 1], slot);
      match e
      case Caller(t) =>
        HeardSlot(d, t, slot);
        if Offers(t.update, slot) { OfferedRank(t.update, slot); }
      case Assistant(text) =>
        NotedSlot(d, text, slot);
    }
  }

  // ---------- Confluence of the dialogue ----------

  /** A run as changes to the booking alone. */
  function Changes(es: seq<Event>): (cs: seq<Change>)
    ensures |cs| == |es|
  {
    seq(|es|, i requires 0 <= i < |es| => ChangeOf(es[i]))
  }

  function ChangeOf(e: Event): Change {
    match e
    case Caller(t) => Answer(t.update, t.correction)
    case Assistant(text) => Question(ExpectedField(text))
  }

  lemma {:induction false} ApplyAllLast(b: BookingData, cs: seq<Change>)
    requires cs != []
    ensures ApplyAll(b, cs) == Apply(ApplyAll(b, cs[..|cs| - 1]), cs[|cs| - 1])
    decreases |cs|
  {
    hide Apply;
    if |cs| > 1 {
      ApplyAllLast(Apply(b, cs[0]), cs[1..]);
      assert cs[1..][..|cs| - 2] == cs[..|cs| - 1][1..];
    }
  }

  lemma StepIsChange(d: State, e: Event)
    requires e.Caller? ==> e.t.Parsed()
    ensures Step(d, e).booking == Apply(d.booking, ChangeOf(e))
  {
    hide ExpectedField;
    if e.Caller? {
      ForcedQuestionChangesNothing(d, e.t);
      if Ignored(d, e.t) {
        NothingToMerge(d.booking, e.t.update, e.t.correction);
      }
    }
  }

  /** The dialogue changes the booking by answers and questions and nothing else. */
  lemma {:induction false} RunIsChanges(d: State, es: seq<Event>)
    requires Parsed(es)
    ensures Run(d, es).booking == ApplyAll(d.booking, Changes(es))
    decreases |es|
  {
    hide Step, Apply;
    if es != [] {
      var last := |es| - 1;
      RunIsChanges(d, es[..last]);
      StepIsChange(Run(d, es[..last]), es[last]);
      ApplyAllLast(d.booking, Changes(es));
      assert Changes(es)[..last] == Changes(es[..last]);
    }
  }

  /** Two runs with the same answers in the same order, whose questions ask for
      the same slots, end with the same booking, however the two kinds of event
      were interleaved. */
  lemma ArrivalOrderInvisible(d: State, these: seq<Event>, those: seq<Event>)
    requires Parsed(these) && Parsed(those)
    requires Answers(Changes(these)) == Answers(Changes(those))
    requires Asked(Changes(these)) == Asked(Changes(those))
    ensures Run(d, these).booking == Run(d, those).booking
  {
    RunIsChanges(d, these);
    RunIsChanges(d, those);
    InterleavingInvisible(d.booking, Changes(these), Changes(those));
  }

  // ---------- What every run keeps ----------

  ghost predicate Invariant(d: State) {
    && (forall slot: Slot :: RankIn(d.booking, slot) == Given ==> d.live)
    && (d.asked != "" ==> IsField(d.asked) && FieldOrder(d.asked) <= FieldOrder(FirstMissing(d.booking)))
    && (d.clarifyField == "" <==> d.clarifyCount == 0)
    && (d.clarifyField != "" ==>
          d.live && IsField(d.clarifyField) && FieldOrder(d.clarifyField) <= FieldOrder(FirstMissing(d.booking)))
  }

  lemma GivenMeansLive(d: State, e: Event, slot: Slot)
    requires Invariant(d) && (e.Caller? ==> e.t.Parsed())
    ensures RankIn(Step(d, e).booking, slot) == Given ==> Step(d, e).live
  {
    hide ExpectedField, Merge, Mark, RankOf;
    match e
    case Caller(t) =>
      ForcedQuestionChangesNothing(d, t);
    case Assistant(text) =>
      NotedSlot(d, text, slot);
      PlaceholderRank(slot);
      assert RankIn(d.booking, slot) == Given ==> d.live;
      assert Note(d, text).live == d.live;
  }

  lemma PlaceholderRank(slot: Slot)
    ensures slot != Phone ==> RankOf(slot, Placeholder(slot)) == Inferred
  {
  }

  lemma AskedIsReached(d: State, text: string)
    requires ExpectedField(text) != ""
    ensures FieldOrder(ExpectedField(text)) <= FieldOrder(FirstMissing(Note(d, text).booking))
  {
    hide ExpectedField;
    DetectedFieldOnly(text);
  }

  lemma StepNeverRetreats(d: State, e: Event)
    requires e.Caller? ==> e.t.Parsed()
    ensures FieldOrder(FirstMissing(d.booking)) <= FieldOrder(FirstMissing(Step(d, e).booking))
  {
    hide Step;
    FirstMissingNeverRetreats(d, [e]);
    assert Run(d, [e]) == Step(d, e) by {
      assert [e][..0] == [];
      assert Run(d, []) == d;
    }
  }

  /** Every event keeps the invariant. */
  lemma InvariantKept(d: State, e: Event)
    requires Invariant(d) && (e.Caller? ==> e.t.Parsed())
    ensures Invariant(Step(d, e))
  {
    hide ExpectedField, Merge, Mark, FirstMissing, FieldOrder, RankIn;
    forall slot: Slot
      ensures RankIn(Step(d, e).booking, slot) == Given ==> Step(d, e).live
    {
      GivenMeansLive(d, e, slot);
    }
    StepNeverRetreats(d, e);
    match e
    case Caller(t) =>
      ForcedQuestionChangesNothing(d, t);
      FirstMissingSlot(Merge(d.booking, t.update, t.correction), Date);
    case Assistant(text) =>
      DetectedFieldOnly(text);
      if ExpectedField(text) != "" { AskedIsReached(d, text); }
  }

  lemma StartInvariant()
    ensures Invariant(START)
  {
  }

  lemma {:induction false} InvariantAlways(es: seq<Event>)
    requires Parsed(es)
    ensures Invariant(Run(START, es))
    decreases |es|
  {
    if es == [] {
      StartInvariant();
    } else {
      InvariantAlways(es[..|es| - 1]);
      InvariantKept(Run(START, es[..|es| - 1]), es[|es| - 1]);
    }
  }

  /** A complete booking has a phone number that a caller spoke. */
  lemma CompleteMeansPhoneSpoken(es: seq<Event>)
    requires Parsed(es) && IsComplete(Run(START, es).booking)
    ensures CallerValue(es, Phone) == [Text(Run(START, es).booking.phone)]
    ensures Run(START, es).live
  {
    GivenComesFromCaller(es, Phone);
    InvariantAlways(es);
    assert RankIn(Run(START, es).booking, Phone) == Given;
  }

  /** In a run, a transcript that is not blank triggers the completion line exactly
      when the booking with its answers merged in is complete. */
  lemma CompletionExactlyWhenComplete(es: seq<Event>, t: Transcript)
    requires Parsed(es) && t.Parsed() && !t.blank
    ensures var d := Run(START, es);
      Reply(d, t) == COMPLETION <==> IsComplete(Merge(d.booking, t.update, t.correction))
  {
    var d := Run(START, es);
    hide ExpectedField, Merge, Run, Invariant;
    InvariantAlways(es);
    var merged := Merge(d.booking, t.update, t.correction);
    FirstMissingIsHead(merged);
    if Ignored(d, t) {
      NothingGivenYet(d, t);
    } else if NeedsClarification(d, t) {
      CompletionIsDistinct(FirstMissing(merged), Hear(d, t).clarifyCount);
    }
  }

  /** In a run, a question is forced exactly by a non-blank transcript after which
      the booking is complete, or which answers nothing in a live booking whose next
      missing slot is the one asked for. Any other answer forces none. */
  lemma ReplyExactly(es: seq<Event>, t: Transcript)
    requires Parsed(es) && t.Parsed()
    ensures var d := Run(START, es);
      var b := Merge(d.booking, t.update, t.correction);
      Reply(d, t) != "" <==>
        !t.blank && (IsComplete(b) || (d.live && !t.update.HasAny() && d.asked == FirstMissing(b)))
  {
    var d := Run(START, es);
    hide ExpectedField, Merge, Run, Invariant;
    InvariantAlways(es);
    var b := Merge(d.booking, t.update, t.correction);
    FirstMissingIsHead(b);
    assert COMPLETION != "";
    if Ignored(d, t) && !t.blank {
      NothingGivenYet(d, t);
    } else if NeedsClarification(d, t) {
      CompletionIsDistinct(FirstMissing(b), Hear(d, t).clarifyCount);
    }
  }

  /** A transcript that speaks of a booking at all. */
  predicate Starts(e: Event) {
    e.Caller? && !e.t.blank && (e.t.intent || e.t.update.HasAny())
  }

  /** The booking is live exactly when the run has such a transcript. */
  lemma {:induction false} LiveExactly(es: seq<Event>)
    requires Parsed(es)
    ensures Run(START, es).live <==> exists i :: 0 <= i < |es| && Starts(es[i])
    decreases |es|
  {
    if es != [] {
      var n := |es| - 1;
      var d, e := Run(START, es[..n]), es[n];
      LiveExactly(es[..n]);
      hide ExpectedField, Merge, Mark;
      if e.Caller? { ForcedQuestionChangesNothing(d, e.t); }
      assert Run(START, es).live <==> d.live || Starts(e);
      hide Run, Starts;
      assert forall i :: 0 <= i < n ==> es[..n][i] == es[i];
      if i :| 0 <= i < |es| && Starts(es[i]) {
        assert i == n || Starts(es[..n][i]);
      }
    }
  }

  /** The slot of the last assistant text that asks for one. */
  function LastAsked(es: seq<Event>): string
    decreases |es|
  {
    if es == [] then ""
    else
      var e := es[|es| - 1];
      if e.Assistant? && ExpectedField(e.text) != "" then ExpectedField(e.text) else LastAsked(es[..|es| - 1])
  }

  /** The slot on record as asked is that one. */
  lemma {:induction false} AskedExactly(es: seq<Event>)
    ensures Run(START, es).asked == LastAsked(es)
    decreases |es|
  {
    if es != [] {
      var d, e := Run(START, es[..|es| - 1]), es[|es| - 1];
      hide ExpectedField, Merge, Mark;
      AskedExactly(es[..|es| - 1]);
      if e.Caller? { ForcedQuestionChangesNothing(d, e.t); }
    }
  }

  lemma NothingGivenYet(d: State, t: Transcript)
    requires Invariant(d) && Ignored(d, t) && !t.blank
    ensures !IsComplete(Merge(d.booking, t.update, t.correction))
    ensures Reply(d, t) != COMPLETION
  {
    assert RankIn(d.booking, Phone) != Given;
    assert COMPLETION != "";
  }

  /** A clarification, once another one starts, is never for an earlier slot. */
  lemma {:induction false} ClarificationNeverRetreats(d: State, es: seq<Event>, low: nat)
    requires Invariant(d) && Parsed(es)
    requires low <= FieldOrder(FirstMissing(d.booking))
    requires d.clarifyField != "" ==> low <= FieldOrder(d.clarifyField)
    ensures var r := Run(d, es);
      && Invariant(r)
      && low <= FieldOrder(FirstMissing(r.booking))
      && (r.clarifyField != "" ==> low <= FieldOrder(r.clarifyField))
    decreases |es|
  {
    if es != [] {
      hide Step, Invariant, FirstMissing, FieldOrder;
      var before, e := Run(d, es[..|es| - 1]), es[|es| - 1];
      ClarificationNeverRetreats(d, es[..|es| - 1], low);
      InvariantKept(before, e);
      StepNeverRetreats(before, e);
      ClarifyFieldStep(before, e);
    }
  }

  lemma ClarifyFieldStep(d: State, e: Event)
    ensures Step(d, e).clarifyField in {"", d.clarifyField, FirstMissing(Step(d, e).booking)}
  {
    hide ExpectedField, Merge, Mark, FirstMissing;
    if e.Caller? {
      ForcedQuestionChangesNothing(d, e.t);
    }
  }

  // ---------- Counting clarifications ----------

  /** The slot that the last event of a run clarified, empty for none. */
  function Clarified(es: seq<Event>): string
    requires es != []
  {
    var d, e := Run(START, es[..|es| - 1]), es[|es| - 1];
    if e.Caller? && !Ignored(d, e.t) && NeedsClarification(d, e.t) then d.asked else ""
  }

  /** The last event was an answer of some kind. */
  predicate Answered(es: seq<Event>)
    requires es != []
  {
    var e := es[|es| - 1];
    e.Caller? && e.t.update.HasAny()
  }

  /** The slot clarified last since the last answer, empty for none. */
  function LastClarified(es: seq<Event>): string
    decreases |es|
  {
    if es == [] || Answered(es) then ""
    else if Clarified(es) != "" then Clarified(es)
    else LastClarified(es[..|es| - 1])
  }

  /** How often `field` was clarified since the last answer or the last
      clarification of another slot. */
  function Streak(es: seq<Event>, field: string): nat
    decreases |es|
  {
    if es == [] || Answered(es) || Clarified(es) !in {"", field} then 0
    else Streak(es[..|es| - 1], field) + if Clarified(es) == field then 1 else 0
  }

  lemma {:induction false} OnlyLastHasStreak(es: seq<Event>, field: string)
    requires field != "" && LastClarified(es) != field
    ensures Streak(es, field) == 0
    decreases |es|
  {
    hide Clarified, Answered;
    if es != [] && !Answered(es) && Clarified(es) == "" {
      OnlyLastHasStreak(es[..|es| - 1], field);
    }
  }

  /** The counter and its slot are what the history of the run says, however long
      ago the last clarification was. */
  lemma {:induction false} CounterIsStreak(es: seq<Event>)
    requires Parsed(es)
    ensures var r, field := Run(START, es), LastClarified(es);
      r.clarifyField == field && r.clarifyCount == (if field == "" then 0 else Streak(es, field))
    decreases |es|
  {
    if es != [] {
      var d, e := Run(START, es[..|es| - 1]), es[|es| - 1];
      CounterIsStreak(es[..|es| - 1]);
      InvariantAlways(es[..|es| - 1]);
      CounterStep(d, e);
      if Clarified(es) != "" && d.clarifyField != Clarified(es) {
        OnlyLastHasStreak(es[..|es| - 1], Clarified(es));
      }
    }
  }

  /** One event counts a clarification, clears the count or leaves it alone. */
  lemma CounterStep(d: State, e: Event)
    requires Invariant(d) && (e.Caller? ==> e.t.Parsed())
    ensures var r := Step(d, e);
      if e.Caller? && e.t.update.HasAny() then r.clarifyField == "" && r.clarifyCount == 0
      else if e.Caller? && !Ignored(d, e.t) && NeedsClarification(d, e.t) then
        && r.clarifyField == d.asked == FirstMissing(d.booking) != ""
        && r.clarifyCount == (if d.clarifyField == d.asked then d.clarifyCount else 0) + 1
      else r.clarifyField == d.clarifyField && r.clarifyCount == d.clarifyCount
  {
    hide ExpectedField, Mark;
    if e.Caller? {
      ForcedQuestionChangesNothing(d, e.t);
      if !e.t.update.HasAny() { NothingToMerge(d.booking, e.t.update, e.t.correction); }
    }
  }

  /** The question forced in a run is worded by that history: a clarification is
      for the first missing slot and carries the number of times it was clarified
      since the last answer, itself included. */
  lemma ClarificationWording(es: seq<Event>, t: Transcript)
    requires Parsed(es) && t.Parsed() && Clarified(es + [Caller(t)]) != ""
    ensures var d, now := Run(START, es), es + [Caller(t)];
      && Clarified(now) == FirstMissing(d.booking)
      && Streak(now, Clarified(now)) == Streak(es, Clarified(now)) + 1
      && Reply(d, t) == ClarificationQuestion(Clarified(now), Streak(now, Clarified(now)))
  {
    var d, now := Run(START, es), es + [Caller(t)];
    assert now[..|now| - 1] == es;
    CounterIsStreak(now);
    NoAnswerWhenClarified(d, t);
    hide ExpectedField, Merge, Mark;
    ForcedQuestionChangesNothing(d, t);
    assert !Answered(now) && LastClarified(now) == Clarified(now);
    assert Run(START, now) == Hear(d, t);
  }

  lemma NoAnswerWhenClarified(d: State, t: Transcript)
    requires NeedsClarification(d, t)
    ensures !t.update.HasAny() && d.asked == FirstMissing(d.booking) != ""
    ensures Merge(d.booking, t.update, t.correction) == d.booking
  {
    NothingToMerge(d.booking, t.update, t.correction);
  }

  lemma NothingToMerge(b: BookingData, u: Update, overwrite: bool)
    requires !u.HasAny()
    ensures Merge(b, u, overwrite) == b
  {
  }

  // ---------- The skip gate ----------

  /** At its call site the gate follows `Note` on the same text and can therefore
      never skip: the slot it would skip has just been recorded as asked. */
  lemma SkipGateIsInert(d: State, text: string)
    ensures SkippedSlot(Note(d, text), text) == ""
  {
    hide ExpectedField, Mark;
  }

  /** Before that, it would skip exactly a question for the first missing slot of
      a live, incomplete booking that was not asked yet, and noting such a question
      changes the slot asked and nothing else. */
  lemma SkipGateBeforeNoting(d: State, text: string)
    ensures SkippedSlot(d, text) != "" <==>
      d.live && !IsComplete(d.booking) && ExpectedField(text) == FirstMissing(d.booking) != d.asked
    ensures SkippedSlot(d, text) != "" ==>
      SkippedSlot(d, text) == FirstMissing(d.booking) && Note(d, text) == d.(asked := ExpectedField(text))
  {
    hide ExpectedField;
    FirstMissingIsHead(d.booking);
    MarkFirstMissing(d.booking);
  }

  // ---------- The session ----------

  class Session {
    var booking: BookingData
    var bookingLive: bool
    var bookingAsked: string
    var bookingClarifyField: string
    var bookingClarifyCount: nat

    ghost function Dialogue(): State
      reads this
    {
      State(booking, bookingLive, bookingAsked, bookingClarifyField, bookingClarifyCount)
    }

    constructor ()
      ensures Dialogue() == START
    {
      booking := EMPTY;
      bookingLive := false;
      bookingAsked := "";
      bookingClarifyField := "";
      bookingClarifyCount := 0;
    }

    method SetBookingAsked(field: string)
      modifies this
      ensures Dialogue() == SetAsked(old(Dialogue()), field)
    {
      bookingAsked := field;
      booking := Mark(booking, field);
    }

    method NoteAssistantBookingQuestion(text: string)
      modifies this
      ensures Dialogue() == Note(old(Dialogue()), text)
    {
      var field := ExpectedField(text);
      if field == "" {
        return;
      }
      SetBookingAsked(field);
    }

    /** Cancelling the response and rendering the question are not modelled. */
    method ForceBookingQuestion(question: string)
      modifies this
      ensures Dialogue() == if question == "" then old(Dialogue()) else Note(old(Dialogue()), question)
    {
      if question == "" {
        return;
      }
      var field := ExpectedField(question);
      if field != "" {
        SetBookingAsked(field);
      }
    }

    /** Returns the question that was forced, empty when none was. */
    method HandleCallerTranscript(t: Transcript) returns (forced: string)
      modifies this
      ensures forced == Reply(old(Dialogue()), t)
      ensures Dialogue() == OnTranscript(old(Dialogue()), t)
    {
      hide ExpectedField, Merge, Mark, FirstMissing;
      forced := "";
      if t.blank {
        return;
      }
      var wasLive := bookingLive;
      var active := bookingLive || t.intent;
      if !active && !t.update.HasAny() {
        return;
      }
      bookingLive := true;
      booking := Merge(booking, t.update, t.correction);
      var missing := FirstMissing(booking);
      var clarifyCount := 0;
      var needsClarification := wasLive && !t.update.HasAny() && missing != "" && missing == bookingAsked;
      if needsClarification {
        if bookingClarifyField == missing {
          bookingClarifyCount := bookingClarifyCount + 1;
        } else {
          bookingClarifyField := missing;
          bookingClarifyCount := 1;
        }
        clarifyCount := bookingClarifyCount;
      } else if t.update.HasAny() {
        bookingClarifyField := "";
        bookingClarifyCount := 0;
      }
      if missing == "" {
        forced := COMPLETION;
        ForceBookingQuestion(forced);
      } else if needsClarification {
        forced := ClarificationQuestion(missing, clarifyCount);
        CompletionIsDistinct(missing, clarifyCount);
        ForceBookingQuestion(forced);
      }
    }

    method ShouldSkipCartesiaEnqueue(text: string) returns (skip: bool, slot: string)
      ensures slot == SkippedSlot(Dialogue(), text)
      ensures skip <==> slot != ""
    {
      skip, slot := false, "";
      if !bookingLive {
        return;
      }
      var field := ExpectedField(text);
      if field == "" {
        return;
      }
      var missing := FirstMissing(booking);
      if missing == "" || field != missing || field == bookingAsked {
        return;
      }
      skip, slot := true, field;
    }
  }
}
