/** The conversation state machine: valid transitions, the FAQ detour and the
    tools each state offers. */
module ConversationMachine {

  /** `Unknown` stands for any string that names no state. */
  datatype State =
    | None | Greeting | Faq | CollectBooking | CheckAvail | Confirm | ModifyRes | CancelRes
    | HumanTransfer | Unavailable | Closing | Unknown(name: string)

  /** `isValidTransition`'s table. */
  function Successors(from: State): seq<State> {
    match from
    case Greeting => [Faq, CollectBooking, HumanTransfer, Closing]
    case CollectBooking => [CheckAvail, HumanTransfer, ModifyRes, CancelRes, Faq]
    case CheckAvail => [Confirm, Unavailable, CollectBooking]
    case Confirm => [Closing, CollectBooking]
    case ModifyRes => [CheckAvail, Confirm, Closing]
    case CancelRes => [Closing, Greeting]
    case HumanTransfer => [Closing]
    case Unavailable => [CollectBooking, Closing]
    case _ => []
  }

  predicate IsValidTransition(from: State, to: State) {
    to in Successors(from)
  }

  /** `AvailableTools`. */
  function Tools(s: State): seq<string> {
    match s
    case Faq => ["get_faq"]
    case CheckAvail => ["check_availability"]
    case Confirm => ["create_booking"]
    case ModifyRes => ["lookup_reservation", "modify_booking", "cancel_booking"]
    case CancelRes => ["lookup_reservation", "cancel_booking"]
    case HumanTransfer => ["transfer_call"]
    case Unavailable => ["check_availability"]
    case _ => []
  }

  datatype Conversation = Conversation(current: State, previous: State, faqReturn: State)

  const START := Conversation(Greeting, None, None)

  datatype Move = Go(to: State) | Resume

  predicate Accepted(c: Conversation, m: Move) {
    match m
    case Go(to) => IsValidTransition(c.current, to)
    case Resume => c.current == Faq
  }

  /** A refused move changes nothing. */
  function Step(c: Conversation, m: Move): Conversation {
    if !Accepted(c, m) then c
    else
      match m
      case Go(to) => Conversation(to, c.current, if to == Faq then c.current else c.faqReturn)
      case Resume => Conversation(c.faqReturn, c.current, c.faqReturn)
  }

  function Run(c: Conversation, ms: seq<Move>): Conversation
    decreases |ms|
  {
    if ms == [] then c else Step(Run(c, ms[..|ms| - 1]), ms[|ms| - 1])
  }

  /** The run is in state `s` after some of its moves. */
  ghost predicate Visited(ms: seq<Move>, s: State) {
    exists i: nat :: i <= |ms| && At(ms, i).current == s
  }

  function At(ms: seq<Move>, i: nat): Conversation
    requires i <= |ms|
  {
    Run(START, ms[..i])
  }

  predicate IsState(s: State) {
    !s.Unknown? && !s.None?
  }

  /** In FAQ, the state to return to is the one it was entered from, and that is
      where questions are allowed. */
  predicate Invariant(c: Conversation) {
    && IsState(c.current)
    && (c.current == Faq ==> c.faqReturn == c.previous && c.faqReturn in {Greeting, CollectBooking})
  }

  lemma InvariantStep(c: Conversation, m: Move)
    requires Invariant(c)
    ensures Invariant(Step(c, m))
  {
  }

  lemma {:induction false} InvariantRun(ms: seq<Move>)
    ensures Invariant(Run(START, ms))
    decreases |ms|
  {
    if ms != [] {
      InvariantRun(ms[..|ms| - 1]);
      InvariantStep(Run(START, ms[..|ms| - 1]), ms[|ms| - 1]);
    }
  }

  /** Inside FAQ every move but the return is refused. */
  lemma FaqOnlyReturns(c: Conversation, m: Move)
    requires c.current == Faq
    ensures Step(c, m) == if m == Resume then Conversation(c.faqReturn, Faq, c.faqReturn) else c
  {
  }

  /** The FAQ detour is a call and a return: whatever is tried in between, the
      return leads back to the state the question came from. */
  lemma {:induction false} FaqDetour(c: Conversation, inside: seq<Move>)
    requires IsValidTransition(c.current, Faq)
    requires forall i :: 0 <= i < |inside| ==> inside[i] != Resume
    ensures var asked := Run(Step(c, Go(Faq)), inside);
      && asked == Conversation(Faq, c.current, c.current)
      && Step(asked, Resume) == Conversation(c.current, Faq, c.current)
    decreases |inside|
  {
    if inside != [] {
      FaqDetour(c, inside[..|inside| - 1]);
      FaqOnlyReturns(Run(Step(c, Go(Faq)), inside[..|inside| - 1]), inside[|inside| - 1]);
    }
  }

  lemma {:induction false} RunSplits(c: Conversation, before: seq<Move>, after: seq<Move>)
    ensures Run(c, before + after) == Run(Run(c, before), after)
    decreases |after|
  {
    if after == [] {
      assert before + after == before;
    } else {
      var last := |after| - 1;
      assert (before + after)[..|before + after| - 1] == before + after[..last];
      RunSplits(c, before, after[..last]);
    }
  }

  /** The states that lie behind COLLECT_BOOKING_DETAILS. */
  predicate NeedsCollecting(s: State) {
    s in {CollectBooking, CheckAvail, Confirm, ModifyRes, CancelRes, Unavailable}
  }

  lemma {:induction false} CollectingComesFirst(ms: seq<Move>)
    requires NeedsCollecting(Run(START, ms).current)
    ensures Visited(ms, CollectBooking)
    decreases |ms|
  {
    var n := |ms|;
    assert ms[..n] == ms;
    if Run(START, ms).current == CollectBooking {
      assert At(ms, n).current == CollectBooking;
    } else {
      var before := ms[..n - 1];
      InvariantRun(before);
      CollectingComesFirst(before);
      var i: nat :| i <= |before| && At(before, i).current == CollectBooking;
      assert before[..i] == ms[..i];
      assert At(ms, i).current == CollectBooking;
    }
  }

  /** A booking can be created only while confirming, and only in a conversation
      that has collected details. */
  lemma CreateBookingNeedsCollecting(ms: seq<Move>)
    ensures "create_booking" in Tools(Run(START, ms).current) <==> Run(START, ms).current == Confirm
    ensures "create_booking" in Tools(Run(START, ms).current) ==> Visited(ms, CollectBooking)
  {
    assert "create_booking"[1] == 'r';
    ToolNames(Run(START, ms).current);
    if Run(START, ms).current == Confirm {
      CollectingComesFirst(ms);
    }
  }

  lemma ToolNames(s: State)
    ensures "create_booking" in Tools(s) <==> s == Confirm
  {
    assert "create_booking"[1] == 'r' && "check_availability"[1] == 'h' && "cancel_booking"[1] == 'a';
    assert "get_faq"[0] == 'g' && "transfer_call"[0] == 't';
    assert "lookup_reservation"[0] == 'l' && "modify_booking"[0] == 'm';
  }

  datatype Result = Success | Failure(error: string)

  datatype ToolResult = NoResult | ToolResult(name: string, success: bool)

  /** The guardrail: a confirmation needs a booking that was really created. */
  predicate Passes(c: Conversation, last: ToolResult) {
    c.current == Confirm ==> last == ToolResult("create_booking", true)
  }

  /** The guardrail and the tool table agree: where a booking can be created, a
      response passes exactly after the success of a tool offered there, and
      anywhere else it always passes. A response is refused only in a conversation
      that has collected details. */
  lemma GuardMatchesTools(ms: seq<Move>, last: ToolResult)
    ensures var c := Run(START, ms);
      && (Passes(c, last) <==>
            ("create_booking" in Tools(c.current) ==>
               last.ToolResult? && last.success && last.name in Tools(c.current)))
      && (!Passes(c, last) ==> Visited(ms, CollectBooking))
  {
    CreateBookingNeedsCollecting(ms);
  }

  /** The table read backward: from where each state is entered. */
  function EnteredFrom(to: State): set<State> {
    match to
    case Greeting => {CancelRes}
    case Faq => {Greeting, CollectBooking}
    case CollectBooking => {Greeting, CheckAvail, Confirm, Unavailable}
    case CheckAvail => {CollectBooking, ModifyRes}
    case Confirm => {CheckAvail, ModifyRes}
    case ModifyRes => {CollectBooking}
    case CancelRes => {CollectBooking}
    case HumanTransfer => {Greeting, CollectBooking}
    case Unavailable => {CheckAvail}
    case Closing => {Greeting, Confirm, ModifyRes, CancelRes, HumanTransfer, Unavailable}
    case _ => {}
  }

  lemma EnteredExactly(from: State, to: State)
    ensures IsValidTransition(from, to) <==> from in EnteredFrom(to)
  {
  }

  /** The states that offer a tool. */
  function OfferedIn(tool: string): set<State> {
    match tool
    case "get_faq" => {Faq}
    case "check_availability" => {CheckAvail, Unavailable}
    case "create_booking" => {Confirm}
    case "lookup_reservation" => {ModifyRes, CancelRes}
    case "modify_booking" => {ModifyRes}
    case "cancel_booking" => {ModifyRes, CancelRes}
    case "transfer_call" => {HumanTransfer}
    case _ => {}
  }

  lemma OfferedExactly(s: State, tool: string)
    ensures tool in Tools(s) <==> s in OfferedIn(tool)
  {
    assert "create_booking"[1] == 'r' && "check_availability"[1] == 'h' && "cancel_booking"[1] == 'a';
    assert "get_faq"[0] == 'g' && "transfer_call"[0] == 't';
    assert "lookup_reservation"[0] == 'l' && "modify_booking"[0] == 'm';
  }

  // ---------- The two remembered states ----------

  /** The state that the last accepted move of a run left, if there was one. */
  function LeftLast(ms: seq<Move>): State
    decreases |ms|
  {
    if ms == [] then None
    else
      var before := Run(START, ms[..|ms| - 1]);
      if Accepted(before, ms[|ms| - 1]) then before.current else LeftLast(ms[..|ms| - 1])
  }

  /** The state that the last move into FAQ left. */
  function LeftForFaq(ms: seq<Move>): State
    decreases |ms|
  {
    if ms == [] then None
    else
      var before := Run(START, ms[..|ms| - 1]);
      if ms[|ms| - 1] == Go(Faq) && Accepted(before, ms[|ms| - 1]) then before.current
      else LeftForFaq(ms[..|ms| - 1])
  }

  /** In every run the two remembered states are those. */
  lemma {:induction false} RememberedExactly(ms: seq<Move>)
    ensures Run(START, ms).previous == LeftLast(ms)
    ensures Run(START, ms).faqReturn == LeftForFaq(ms)
    decreases |ms|
  {
    if ms != [] {
      hide Successors;
      RememberedExactly(ms[..|ms| - 1]);
    }
  }

  // ---------- Reaching a state ----------

  /** How many moves a state is from the greeting. */
  function Depth(s: State): nat {
    match s
    case Greeting => 0
    case Faq => 1
    case CollectBooking => 1
    case HumanTransfer => 1
    case Closing => 1
    case CheckAvail => 2
    case ModifyRes => 2
    case CancelRes => 2
    case _ => 3
  }

  lemma StepBack(s: State) returns (from: State)
    requires IsState(s) && s != Greeting
    ensures IsState(from) && IsValidTransition(from, s) && Depth(from) == Depth(s) - 1
  {
    from := match s
      case CheckAvail => CollectBooking
      case ModifyRes => CollectBooking
      case CancelRes => CollectBooking
      case Confirm => CheckAvail
      case Unavailable => CheckAvail
      case _ => Greeting;
  }

  lemma {:induction false} WayTo(s: State) returns (ms: seq<Move>)
    requires IsState(s)
    ensures |ms| == Depth(s) && Run(START, ms).current == s
    decreases Depth(s)
  {
    if s == Greeting {
      ms := [];
    } else {
      var from := StepBack(s);
      var way := WayTo(from);
      ms := way + [Go(s)];
      assert ms[..|ms| - 1] == way;
    }
  }

  lemma {:induction false} NoSooner(ms: seq<Move>)
    ensures Depth(Run(START, ms).current) <= |ms|
    decreases |ms|
  {
    if ms != [] {
      var before := Run(START, ms[..|ms| - 1]);
      NoSooner(ms[..|ms| - 1]);
      InvariantRun(ms[..|ms| - 1]);
      assert Depth(Step(before, ms[|ms| - 1]).current) <= Depth(before.current) + 1;
    }
  }

  /** Every state can be reached, in at most three moves from the greeting, and in
      no fewer than the run given. */
  lemma EveryStateReachable(s: State) returns (ms: seq<Move>)
    requires IsState(s)
    ensures Run(START, ms).current == s && |ms| <= 3
    ensures forall other :: Run(START, other).current == s ==> |ms| <= |other|
  {
    ms := WayTo(s);
    forall other | Run(START, other).current == s
      ensures |ms| <= |other|
    {
      NoSooner(other);
    }
  }

  /** CLOSING is final. */
  lemma {:induction false} ClosingIsFinal(c: Conversation, ms: seq<Move>)
    requires c.current == Closing
    ensures Run(c, ms) == c
    decreases |ms|
  {
    if ms != [] {
      ClosingIsFinal(c, ms[..|ms| - 1]);
    }
  }

  /** The number of moves that separate a conversation from its end. */
  function Distance(c: Conversation): nat {
    match c.current
    case Closing => 0
    case Faq => if c.faqReturn == Greeting then 2 else 3
    case CollectBooking => 2
    case CheckAvail => 2
    case _ => 1
  }

  lemma StepTowardsClosing(c: Conversation) returns (m: Move)
    requires Invariant(c) && c.current != Closing
    ensures Distance(Step(c, m)) == Distance(c) - 1
  {
    m := match c.current
      case Faq => Resume
      case CollectBooking => Go(HumanTransfer)
      case CheckAvail => Go(Confirm)
      case _ => Go(Closing);
  }

  lemma {:induction false} WayToClosing(c: Conversation) returns (ms: seq<Move>)
    requires Invariant(c)
    ensures |ms| == Distance(c) && Run(c, ms).current == Closing
    decreases Distance(c)
  {
    if c.current == Closing {
      ms := [];
    } else {
      var m := StepTowardsClosing(c);
      InvariantStep(c, m);
      var rest := WayToClosing(Step(c, m));
      ms := [m] + rest;
      RunSplits(c, [m], rest);
      assert [m][..0] == [];
      assert Run(c, []) == c;
      assert Run(c, [m]) == Step(c, m);
    }
  }

  lemma StepIsNoShortcut(c: Conversation, m: Move)
    requires Invariant(c)
    ensures Distance(c) <= Distance(Step(c, m)) + 1
  {
  }

  lemma {:induction false} NoShortcut(c: Conversation, ms: seq<Move>)
    requires Invariant(c)
    ensures Invariant(Run(c, ms)) && Distance(c) <= Distance(Run(c, ms)) + |ms|
    decreases |ms|
  {
    if ms != [] {
      NoShortcut(c, ms[..|ms| - 1]);
      InvariantStep(Run(c, ms[..|ms| - 1]), ms[|ms| - 1]);
      StepIsNoShortcut(Run(c, ms[..|ms| - 1]), ms[|ms| - 1]);
    }
  }

  /** From wherever a conversation has got to, CLOSING is at most three moves
      away, and `Distance` moves is the least that will do. */
  lemma ClosingWithinThreeMoves(ms: seq<Move>) returns (way: seq<Move>)
    ensures |way| == Distance(Run(START, ms)) <= 3
    ensures Run(START, ms + way).current == Closing
    ensures forall other :: Run(Run(START, ms), other).current == Closing ==> |way| <= |other|
  {
    InvariantRun(ms);
    way := WayToClosing(Run(START, ms));
    RunSplits(START, ms, way);
    forall other | Run(Run(START, ms), other).current == Closing
      ensures |way| <= |other|
    {
      NoShortcut(Run(START, ms), other);
    }
  }

  class Machine {
    var current: State
    var previous: State
    var faqReturnState: State

    ghost function Now(): Conversation
      reads this
    {
      Conversation(current, previous, faqReturnState)
    }

    constructor ()
      ensures Now() == START
    {
      current, previous, faqReturnState := Greeting, None, None;
    }

    method Transition(newState: State) returns (r: Result)
      modifies this
      ensures r.Success? <==> Accepted(old(Now()), Go(newState))
      ensures Now() == Step(old(Now()), Go(newState))
    {
      if !IsValidTransition(current, newState) {
        return Failure("invalid state transition");
      }
      previous := current;
      current := newState;
      if newState == Faq {
        faqReturnState := previous;
      }
      r := Success;
    }

    method ReturnFromFaq() returns (r: Result)
      modifies this
      ensures r.Success? <==> old(current) == Faq
      ensures Now() == Step(old(Now()), Resume)
    {
      if current != Faq {
        return Failure("not in FAQ state");
      }
      previous := current;
      current := faqReturnState;
      r := Success;
    }

    method IsToolAllowed(toolName: string) returns (allowed: bool)
      ensures allowed <==> toolName in Tools(current)
    {
      var tools := Tools(current);
      for i := 0 to |tools|
        invariant toolName !in tools[..i]
      {
        if tools[i] == toolName {
          return true;
        }
      }
      allowed := false;
    }

    method ValidateResponse(last: ToolResult) returns (r: Result)
      ensures r.Success? <==> Passes(Now(), last)
    {
      if current == Confirm {
        if last.NoResult? || last.name != "create_booking" || !last.success {
          return Failure("guardrail: cannot confirm booking without successful create_booking");
        }
      }
      r := Success;
    }
  }
}
