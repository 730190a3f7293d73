/** The channel protocol between a provider's read loop and the session: the loop
    parses messages into frames and events, the session selects among them. Each
    channel operation is one atomic step; every interleaving is a run. */
module ProviderChannels {

  const FRAME_CAPACITY := 8
  const EVENT_CAPACITY := 16

  datatype Option<T> = None | Some(value: T)

  datatype AudioFrame = AudioFrame(direction: string, payload: seq<int>)

  datatype Event = Connected | Started | Stopped | Disconnected | Mark | Error

  predicate EndsCall(e: Event) {
    e.Stopped? || e.Disconnected?
  }

  /** Where the read loop stands; `last` marks the event after which it returns. */
  datatype Producer = Reading | Sending(e: Event, last: bool) | ClosingFrames | ClosingEvents | Finished

  datatype Consumer = Selecting | LeftByStop | LeftByDisconnect | LeftByClosedEvents

  /** A parsed frame, how many were queued then, and whether it was queued too. */
  datatype Arrival = Arrival(frame: AudioFrame, queued: nat, kept: bool)

  datatype State = State(
    producer: Producer, consumer: Consumer, stopRequested: bool,
    frames: seq<AudioFrame>, framesClosed: bool, events: seq<Event>, eventsClosed: bool,
    doneCloses: nat,
    arrivals: seq<Arrival>, produced: seq<Event>,
    receivedFrames: seq<AudioFrame>, receivedEvents: seq<Event>)

  /** Twilio's loop starts reading at once; Telnyx's first announces itself. */
  function Start(telnyx: bool): State {
    State(if telnyx then Sending(Connected, false) else Reading, Selecting, false,
          [], false, [], false, 0, [], if telnyx then [Connected] else [], [], [])
  }

  datatype Action =
    | Receive(frame: Option<AudioFrame>, event: Option<Event>)
    | ReadError
    | SendEvent
    | CloseFrames
    | CloseEvents
    | RequestStop
    | TakeStop
    | TakeFrame
    | TakeEvent

  predicate Enabled(s: State, a: Action) {
    match a
    case Receive(frame, event) => s.producer.Reading? && event != Some(Disconnected)
    case ReadError => s.producer.Reading?
    case SendEvent => s.producer.Sending? && |s.events| < EVENT_CAPACITY
    case CloseFrames => s.producer.ClosingFrames?
    case CloseEvents => s.producer.ClosingEvents?
    case RequestStop => true
    case TakeStop => s.consumer.Selecting? && s.stopRequested
    case TakeFrame => s.consumer.Selecting? && (s.frames != [] || s.framesClosed)
    case TakeEvent => s.consumer.Selecting? && (s.events != [] || s.eventsClosed)
  }

  /** A frame is dropped rather than waited for. */
  function Offer(s: State, frame: Option<AudioFrame>): State {
    match frame
    case None => s
    case Some(f) =>
      var room := |s.frames| < FRAME_CAPACITY;
      s.(frames := if room then s.frames + [f] else s.frames,
         arrivals := s.arrivals + [Arrival(f, |s.frames|, room)])
  }

  function Produce(s: State, e: Event, last: bool): State {
    s.(producer := Sending(e, last), produced := s.produced + [e])
  }

  /** `handleProviderDisconnect` ends by closing the done channel. */
  function Disconnect(s: State): State {
    s.(consumer := LeftByDisconnect, doneCloses := s.doneCloses + 1)
  }

  function Next(s: State, a: Action): State
    requires Enabled(s, a)
  {
    match a
    case Receive(frame, event) =>
      var s := Offer(s, frame);
      if event.Some? then Produce(s, event.value, false) else s
    case ReadError => Produce(s, Disconnected, true)
    case SendEvent =>
      s.(events := s.events + [s.producer.e], producer := if s.producer.last then ClosingFrames else Reading)
    case CloseFrames => s.(framesClosed := true, producer := ClosingEvents)
    case CloseEvents => s.(eventsClosed := true, producer := Finished)
    case RequestStop => s.(stopRequested := true)
    case TakeStop => s.(consumer := LeftByStop)
    case TakeFrame =>
      if s.frames == [] then Disconnect(s)
      else s.(frames := s.frames[1..], receivedFrames := s.receivedFrames + [s.frames[0]])
    case TakeEvent =>
      if s.events == [] then s.(consumer := LeftByClosedEvents)
      else
        var s' := s.(events := s.events[1..], receivedEvents := s.receivedEvents + [s.events[0]]);
        if EndsCall(s.events[0]) then Disconnect(s') else s'
  }

  predicate IsRun(s: State, acts: seq<Action>)
    decreases |acts|
  {
    acts == [] || (Enabled(s, acts[0]) && IsRun(Next(s, acts[0]), acts[1..]))
  }

  function After(s: State, acts: seq<Action>): State
    requires IsRun(s, acts)
    decreases |acts|
  {
    if acts == [] then s else After(Next(s, acts[0]), acts[1..])
  }

  // ---------- Single operations ----------

  /** A parsed frame is queued exactly if fewer than 8 are waiting. */
  lemma FrameQueuedExactly(s: State, f: AudioFrame, event: Option<Event>)
    requires Enabled(s, Receive(Some(f), event))
    ensures var r := Next(s, Receive(Some(f), event));
      && r.frames == (if |s.frames| < 8 then s.frames + [f] else s.frames)
      && r.arrivals == s.arrivals + [Arrival(f, |s.frames|, |s.frames| < 8)]
  {
  }

  /** A selecting session leaves its loop exactly when it takes the stop signal, an
      event that ends the call, or the closing of a channel it has emptied; it
      closes the done channel unless it was stopped or the event channel closed. */
  lemma LeaveStep(s: State, a: Action)
    requires s.consumer.Selecting? && Enabled(s, a)
    ensures var r := Next(s, a);
      && (r.consumer != Selecting <==>
            || a.TakeStop?
            || (a.TakeFrame? && s.frames == [])
            || (a.TakeEvent? && (s.events == [] || s.events[0] in {Stopped, Disconnected})))
      && (r.doneCloses == s.doneCloses + 1 <==>
            || (a.TakeFrame? && s.frames == [])
            || (a.TakeEvent? && s.events != [] && s.events[0] in {Stopped, Disconnected}))
  {
  }

  /** The events that the loop's reads give, in order. */
  function EventsOf(acts: seq<Action>): seq<Event>
    decreases |acts|
  {
    if acts == [] then []
    else
      var rest := EventsOf(acts[1..]);
      match acts[0]
      case Receive(_, event) => (if event.Some? then [event.value] else []) + rest
      case ReadError => [Disconnected] + rest
      case _ => rest
  }

  function FramesOf(acts: seq<Action>): seq<AudioFrame>
    decreases |acts|
  {
    if acts == [] then []
    else (if acts[0].Receive? && acts[0].frame.Some? then [acts[0].frame.value] else []) + FramesOf(acts[1..])
  }

  function ArrivedFrames(arrivals: seq<Arrival>): (frames: seq<AudioFrame>)
    ensures |frames| == |arrivals|
  {
    seq(|arrivals|, i requires 0 <= i < |arrivals| => arrivals[i].frame)
  }

  lemma ParsedStep(s: State, a: Action)
    requires Enabled(s, a)
    ensures var r := Next(s, a);
      && r.produced == s.produced + EventsOf([a])
      && (r.stopRequested <==> s.stopRequested || a.RequestStop?)
  {
    assert EventsOf([a][1..]) == [];
  }

  lemma ArrivedStep(s: State, a: Action)
    requires Enabled(s, a)
    ensures ArrivedFrames(Next(s, a).arrivals) == ArrivedFrames(s.arrivals) + FramesOf([a])
  {
    assert FramesOf([a][1..]) == [];
  }

  /** In every run, all that was read is offered or produced, in order, and nothing
      else; a stop is pending exactly if it was requested. */
  lemma {:induction false} ParsedExactly(s: State, acts: seq<Action>)
    requires IsRun(s, acts)
    ensures var r := After(s, acts);
      && r.produced == s.produced + EventsOf(acts)
      && ArrivedFrames(r.arrivals) == ArrivedFrames(s.arrivals) + FramesOf(acts)
      && (r.stopRequested <==> s.stopRequested || RequestStop in acts)
    decreases |acts|
  {
    hide Next, Enabled, ArrivedFrames;
    if acts != [] {
      hide EventsOf, FramesOf;
      var a, rest := acts[0], acts[1..];
      assert acts == [a] + rest && (RequestStop in acts <==> a == RequestStop || RequestStop in rest);
      var mid, r := Next(s, a), After(s, acts);
      assert r == After(mid, rest);
      hide After;
      ParsedStep(s, a);
      ArrivedStep(s, a);
      ParsedExactly(mid, rest);
      FirstParsed(a, rest);
      JoinedLater(s.produced, EventsOf([a]), EventsOf(rest));
      JoinedLater(ArrivedFrames(s.arrivals), FramesOf([a]), FramesOf(rest));
    }
  }

  lemma ParsedFromStart(telnyx: bool, acts: seq<Action>)
    requires IsRun(Start(telnyx), acts)
    ensures var r := After(Start(telnyx), acts);
      && r.produced == (if telnyx then [Connected] else []) + EventsOf(acts)
      && ArrivedFrames(r.arrivals) == FramesOf(acts)
      && (r.stopRequested <==> RequestStop in acts)
  {
    ParsedExactly(Start(telnyx), acts);
    assert ArrivedFrames([]) + FramesOf(acts) == FramesOf(acts);
  }

  /** A selecting session is blocked exactly while no stop is pending and both
      channels are open and empty; the loop is while it has an event to send and 16
      are waiting, or when it has returned. */
  lemma BlockedExactly(s: State)
    requires s.consumer.Selecting?
    ensures !Enabled(s, TakeStop) && !Enabled(s, TakeFrame) && !Enabled(s, TakeEvent) <==>
      !s.stopRequested && s.frames == [] && !s.framesClosed && s.events == [] && !s.eventsClosed
    ensures Enabled(s, TakeFrame) <==> s.frames != [] || s.framesClosed
    ensures Enabled(s, TakeEvent) <==> s.events != [] || s.eventsClosed
    ensures !Enabled(s, ReadError) && !Enabled(s, SendEvent) && !Enabled(s, CloseFrames) && !Enabled(s, CloseEvents)
       <==> s.producer.Finished? || (s.producer.Sending? && |s.events| >= 16)
  {
  }

  lemma JoinedLater<T>(a: seq<T>, b: seq<T>, c: seq<T>)
    ensures (a + b) + c == a + (b + c)
  {
  }

  lemma FirstParsed(a: Action, rest: seq<Action>)
    ensures EventsOf([a] + rest) == EventsOf([a]) + EventsOf(rest)
    ensures FramesOf([a] + rest) == FramesOf([a]) + FramesOf(rest)
  {
    assert ([a] + rest)[1..] == rest && [a][1..] == [];
  }

  // ---------- What every run keeps ----------

  function Kept(arrivals: seq<Arrival>): seq<AudioFrame>
    decreases |arrivals|
  {
    if arrivals == [] then []
    else
      var a := arrivals[|arrivals| - 1];
      Kept(arrivals[..|arrivals| - 1]) + if a.kept then [a.frame] else []
  }

  function InFlight(p: Producer): seq<Event> {
    if p.Sending? then [p.e] else []
  }

  predicate Returning(p: Producer) {
    p.ClosingFrames? || p.ClosingEvents? || p.Finished? || (p.Sending? && p.last)
  }

  /** Frames: the session received a prefix of the queued ones, in order; a frame
      was left out exactly when the queue was full. */
  ghost predicate FramesKept(frames: seq<AudioFrame>, received: seq<AudioFrame>, arrivals: seq<Arrival>) {
    && |frames| <= FRAME_CAPACITY
    && received + frames == Kept(arrivals)
    && forall i :: 0 <= i < |arrivals| ==>
         arrivals[i].queued <= FRAME_CAPACITY && (arrivals[i].kept <==> arrivals[i].queued < FRAME_CAPACITY)
  }

  /** Events: received, queued and in flight make up all that were produced. */
  ghost predicate EventsKept(events: seq<Event>, received: seq<Event>, p: Producer, produced: seq<Event>) {
    && |events| <= EVENT_CAPACITY
    && received + events + InFlight(p) == produced
  }

  /** Closing: the disconnect comes before either close, and each channel is
      closed by the returning loop only, frames first. */
  ghost predicate ClosingOrder(s: State) {
    && (Returning(s.producer) ==> s.produced != [] && s.produced[|s.produced| - 1] == Disconnected)
    && (s.framesClosed <==> s.producer.ClosingEvents? || s.producer.Finished?)
    && (s.eventsClosed <==> s.producer.Finished?)
  }

  /** The session keeps selecting only while no received event ended the call,
      and signals the end once, if it handled a disconnect. */
  ghost predicate SessionEnd(s: State) {
    && (s.consumer.Selecting? ==> Stopped !in s.receivedEvents && Disconnected !in s.receivedEvents)
    && s.doneCloses == (if s.consumer.LeftByDisconnect? then 1 else 0)
    && !s.consumer.LeftByClosedEvents?
    && (s.consumer.LeftByStop? ==> s.stopRequested)
  }

  /** It handles a disconnect only after one of the two events that end a call, or
      when the closed frame channel is empty. */
  ghost predicate DisconnectReason(s: State) {
    s.consumer.LeftByDisconnect? ==>
      Stopped in s.receivedEvents || Disconnected in s.receivedEvents || (s.framesClosed && s.frames == [])
  }

  ghost predicate Invariant(s: State) {
    && FramesKept(s.frames, s.receivedFrames, s.arrivals)
    && EventsKept(s.events, s.receivedEvents, s.producer, s.produced)
    && ClosingOrder(s)
    && SessionEnd(s)
    && DisconnectReason(s)
  }

  lemma KeptSnoc(arrivals: seq<Arrival>, a: Arrival)
    ensures Kept(arrivals + [a]) == Kept(arrivals) + if a.kept then [a.frame] else []
  {
    assert (arrivals + [a])[..|arrivals|] == arrivals;
  }

  lemma FrameOffered(frames: seq<AudioFrame>, received: seq<AudioFrame>, arrivals: seq<Arrival>, f: AudioFrame)
    requires FramesKept(frames, received, arrivals)
    ensures var room := |frames| < FRAME_CAPACITY;
      FramesKept(if room then frames + [f] else frames, received, arrivals + [Arrival(f, |frames|, room)])
  {
    KeptSnoc(arrivals, Arrival(f, |frames|, |frames| < FRAME_CAPACITY));
  }

  lemma FrameReceived(frames: seq<AudioFrame>, received: seq<AudioFrame>, arrivals: seq<Arrival>)
    requires FramesKept(frames, received, arrivals) && frames != []
    ensures FramesKept(frames[1..], received + [frames[0]], arrivals)
  {
    assert received + frames == (received + [frames[0]]) + frames[1..];
  }

  lemma FramesStep(s: State, a: Action)
    requires FramesKept(s.frames, s.receivedFrames, s.arrivals) && Enabled(s, a)
    ensures var r := Next(s, a); FramesKept(r.frames, r.receivedFrames, r.arrivals)
  {
    hide FramesKept;
    if a.Receive? && a.frame.Some? {
      FrameOffered(s.frames, s.receivedFrames, s.arrivals, a.frame.value);
    }
    if a.TakeFrame? && s.frames != [] {
      FrameReceived(s.frames, s.receivedFrames, s.arrivals);
    }
  }

  lemma EventProduced(events: seq<Event>, received: seq<Event>, produced: seq<Event>, e: Event, last: bool)
    requires EventsKept(events, received, Reading, produced)
    ensures EventsKept(events, received, Sending(e, last), produced + [e])
  {
  }

  lemma EventSent(events: seq<Event>, received: seq<Event>, produced: seq<Event>, e: Event, last: bool)
    requires EventsKept(events, received, Sending(e, last), produced) && |events| < EVENT_CAPACITY
    ensures EventsKept(events + [e], received, if last then ClosingFrames else Reading, produced)
  {
  }

  lemma EventReceived(events: seq<Event>, received: seq<Event>, p: Producer, produced: seq<Event>)
    requires EventsKept(events, received, p, produced) && events != []
    ensures EventsKept(events[1..], received + [events[0]], p, produced)
  {
    assert received + events == (received + [events[0]]) + events[1..];
  }

  lemma LoopMovedOn(events: seq<Event>, received: seq<Event>, p: Producer, q: Producer, produced: seq<Event>)
    requires EventsKept(events, received, p, produced) && !p.Sending? && !q.Sending?
    ensures EventsKept(events, received, q, produced)
  {
  }

  lemma EventsStep(s: State, a: Action)
    requires EventsKept(s.events, s.receivedEvents, s.producer, s.produced) && Enabled(s, a)
    ensures var r := Next(s, a); EventsKept(r.events, r.receivedEvents, r.producer, r.produced)
  {
    hide EventsKept;
    match a
    case Receive(_, event) =>
      if event.Some? { EventProduced(s.events, s.receivedEvents, s.produced, event.value, false); }
    case ReadError => EventProduced(s.events, s.receivedEvents, s.produced, Disconnected, true);
    case SendEvent => EventSent(s.events, s.receivedEvents, s.produced, s.producer.e, s.producer.last);
    case CloseFrames => LoopMovedOn(s.events, s.receivedEvents, s.producer, ClosingEvents, s.produced);
    case CloseEvents => LoopMovedOn(s.events, s.receivedEvents, s.producer, Finished, s.produced);
    case TakeEvent =>
      if s.events != [] { EventReceived(s.events, s.receivedEvents, s.producer, s.produced); }
    case _ =>
  }

  lemma ClosingStep(s: State, a: Action)
    requires ClosingOrder(s) && Enabled(s, a)
    ensures ClosingOrder(Next(s, a))
  {
  }

  /** By the time the event channel is closed and empty, the disconnect sent
      before the close has been received. */
  lemma DisconnectReceived(s: State)
    requires EventsKept(s.events, s.receivedEvents, s.producer, s.produced) && ClosingOrder(s)
    requires s.eventsClosed && s.events == []
    ensures Disconnected in s.receivedEvents
  {
    assert s.receivedEvents == s.produced;
  }

  /** So the session, which would have left its loop then, never gets to see it. */
  lemma ClosedEventsUnseen(s: State)
    requires Invariant(s) && s.consumer.Selecting? && s.eventsClosed
    ensures s.events != []
  {
    if s.events == [] {
      DisconnectReceived(s);
    }
  }

  lemma SessionStep(s: State, a: Action)
    requires Invariant(s) && Enabled(s, a)
    ensures SessionEnd(Next(s, a))
  {
    hide FramesKept, EventsKept, ClosingOrder;
    if a.TakeEvent? && s.eventsClosed {
      ClosedEventsUnseen(s);
    }
  }

  lemma ReasonStep(s: State, a: Action)
    requires ClosingOrder(s) && DisconnectReason(s) && Enabled(s, a)
    ensures DisconnectReason(Next(s, a))
  {
    var r := Next(s, a);
    if a.TakeEvent? && s.events != [] {
      assert forall e :: e in s.receivedEvents ==> e in r.receivedEvents;
      assert r.receivedEvents[|s.receivedEvents|] == s.events[0];
    }
  }

  lemma InvariantStep(s: State, a: Action)
    requires Invariant(s) && Enabled(s, a)
    ensures Invariant(Next(s, a))
  {
    hide FramesKept, EventsKept, ClosingOrder, SessionEnd, DisconnectReason, Next, Enabled;
    FramesStep(s, a);
    EventsStep(s, a);
    ClosingStep(s, a);
    SessionStep(s, a);
    ReasonStep(s, a);
  }

  lemma {:induction false} InvariantRun(s: State, acts: seq<Action>)
    requires Invariant(s) && IsRun(s, acts)
    ensures Invariant(After(s, acts))
    decreases |acts|
  {
    hide Invariant, Next;
    if acts != [] {
      InvariantStep(s, acts[0]);
      InvariantRun(Next(s, acts[0]), acts[1..]);
    }
  }

  lemma StartInvariant(telnyx: bool)
    ensures Invariant(Start(telnyx))
  {
  }

  /** In every interleaving, with either provider. */
  lemma Safety(telnyx: bool, acts: seq<Action>)
    requires IsRun(Start(telnyx), acts)
    ensures var s := After(Start(telnyx), acts);
      && s.receivedFrames <= Kept(s.arrivals)
      && s.receivedEvents <= s.produced
      && |s.frames| <= 8 && |s.events| <= 16
      && (forall i :: 0 <= i < |s.arrivals| ==> (s.arrivals[i].kept <==> s.arrivals[i].queued < 8))
      && s.doneCloses == (if s.consumer.LeftByDisconnect? then 1 else 0)
      && (s.consumer.Selecting? || (s.consumer.LeftByStop? && s.stopRequested) || s.consumer.LeftByDisconnect?)
  {
    StartInvariant(telnyx);
    InvariantRun(Start(telnyx), acts);
  }

  /** A session is out by disconnect once it has received either of the two events
      that end a call, and otherwise only after it took all frames of a closed frame
      channel. */
  lemma LeavesExactly(telnyx: bool, acts: seq<Action>)
    requires IsRun(Start(telnyx), acts)
    ensures var s := After(Start(telnyx), acts);
      && (Stopped in s.receivedEvents || Disconnected in s.receivedEvents ==> !s.consumer.Selecting?)
      && (s.consumer.LeftByDisconnect? ==>
            Stopped in s.receivedEvents || Disconnected in s.receivedEvents
            || (s.framesClosed && s.frames == [] && s.receivedFrames == Kept(s.arrivals)))
  {
    StartInvariant(telnyx);
    InvariantRun(Start(telnyx), acts);
  }

  // ---------- After the session has left ----------

  predicate Left(s: State) {
    !s.consumer.Selecting?
  }

  /** A session that left its loop stays out, with the done signal as it was: when
      it was stopped, the signal that `Run` waits for never comes. */
  lemma {:induction false} LeftIsFinal(s: State, acts: seq<Action>)
    requires Left(s) && IsRun(s, acts)
    ensures After(s, acts).consumer == s.consumer
    ensures After(s, acts).doneCloses == s.doneCloses
    decreases |acts|
  {
    if acts != [] {
      LeftIsFinal(Next(s, acts[0]), acts[1..]);
    }
  }

  lemma StoppedIsNeverDone(telnyx: bool, before: seq<Action>, after: seq<Action>)
    requires IsRun(Start(telnyx), before)
    requires After(Start(telnyx), before).consumer.LeftByStop?
    requires IsRun(After(Start(telnyx), before), after)
    ensures After(After(Start(telnyx), before), after).doneCloses == 0
  {
    Safety(telnyx, before);
    LeftIsFinal(After(Start(telnyx), before), after);
  }

  /** The events that still have to go through before the loop can return. */
  function Owed(p: Producer): nat {
    match p
    case Reading => 1
    case Sending(_, last) => if last then 1 else 2
    case _ => 0
  }

  /** There is room for them although nobody receives any more. */
  predicate CanFinish(s: State) {
    |s.events| + Owed(s.producer) <= 16 || Owed(s.producer) == 0
  }

  lemma StuckStep(s: State, a: Action)
    requires Left(s) && !CanFinish(s) && Enabled(s, a)
    ensures Left(Next(s, a)) && !CanFinish(Next(s, a))
  {
  }

  /** Once the session has left, the read loop can still come to its end exactly
      when the event queue has room for what it owes. Otherwise it blocks for good
      and neither closes its channels nor its connection. */
  lemma {:induction false} StuckForever(s: State, acts: seq<Action>)
    requires Left(s) && !CanFinish(s) && IsRun(s, acts)
    ensures !After(s, acts).producer.Finished?
    decreases |acts|
  {
    if acts != [] {
      hide CanFinish;
      StuckStep(s, acts[0]);
      StuckForever(Next(s, acts[0]), acts[1..]);
    } else {
      assert !s.producer.Finished?;
    }
  }

  lemma {:induction false} FinishRun(s: State) returns (acts: seq<Action>)
    requires CanFinish(s)
    ensures IsRun(s, acts) && After(s, acts).producer.Finished?
    decreases match s.producer
      case Sending(_, last) => if last then 3 else 5
      case Reading => 4
      case ClosingFrames => 2
      case ClosingEvents => 1
      case Finished => 0
  {
    if s.producer.Finished? {
      acts := [];
    } else {
      var a := match s.producer
        case Reading => ReadError
        case Sending(_, _) => SendEvent
        case ClosingFrames => CloseFrames
        case _ => CloseEvents;
      var rest := FinishRun(Next(s, a));
      acts := [a] + rest;
    }
  }

  lemma FinishesExactlyWhenRoom(s: State)
    requires Left(s)
    ensures CanFinish(s) <==> exists acts :: IsRun(s, acts) && After(s, acts).producer.Finished?
  {
    if CanFinish(s) {
      var acts := FinishRun(s);
    } else {
      forall acts | IsRun(s, acts)
        ensures !After(s, acts).producer.Finished?
      {
        StuckForever(s, acts);
      }
    }
  }

  /** Messages after a stop do fill the queue: the loop can get stuck. */
  lemma {:induction false} FillRun(s: State) returns (acts: seq<Action>)
    requires Left(s) && s.producer.Reading? && |s.events| <= EVENT_CAPACITY
    ensures IsRun(s, acts) && Left(After(s, acts)) && !CanFinish(After(s, acts))
    decreases EVENT_CAPACITY - |s.events|
  {
    if |s.events| == EVENT_CAPACITY {
      acts := [];
    } else {
      var mark := Receive(None, Some(Mark));
      var sent := Next(Next(s, mark), SendEvent);
      var rest := FillRun(sent);
      assert ([SendEvent] + rest)[1..] == rest;
      acts := [mark] + ([SendEvent] + rest);
      assert acts[1..] == [SendEvent] + rest;
    }
  }

  lemma ReadLoopCanGetStuck() returns (acts: seq<Action>)
    ensures IsRun(Start(false), acts)
    ensures Left(After(Start(false), acts)) && !CanFinish(After(Start(false), acts))
  {
    var s0 := Start(false);
    var s1 := Next(s0, RequestStop);
    var s2 := Next(s1, TakeStop);
    var rest := FillRun(s2);
    assert ([TakeStop] + rest)[1..] == rest;
    acts := [RequestStop] + ([TakeStop] + rest);
    assert acts[1..] == [TakeStop] + rest;
  }
}
