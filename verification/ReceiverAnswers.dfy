/**
 * All that one call on a receiver does, read off the message, the state and the answers it gets: what it
 * tells the service, what it hands to its Link, how it ends, and what it returns.
 */
module ReceiverAnswers {
  import opened Integers
  import opened Protocol
  import opened ReceiverSpec
  import opened ReceiverRuns
  import opened ReceiverRefusals

  predicate Live(c: Config, r: Receiver, call: Call) { call.Deliver? && !Expired(c, r, call.now) }

  predicate OfSession(r: Receiver, id: u8) { (r.phase == Active || r.phase == Completed) && id == r.setup.sessionId }

  /** A SEGMENT of the open session with an index and a size that belong together. */
  predicate WellSized(r: Receiver, m: Message) {
    m.SegmentMsg? && OfSession(r, m.sessionId) && m.index <= r.setup.finalIndex && |m.payload| == r.setup.SizeOf(m.index)
  }

  /** One that is granted and not there yet. */
  ghost predicate Wanted(c: Config, r: Receiver, m: Message) {
    WellSized(r, m) && r.phase == Active && m.index < r.GrantedEnd(c) && m.index as nat !in r.accepted
  }

  /** And the only one missing. */
  ghost predicate LastOne(r: Receiver, m: Message) {
    m.SegmentMsg? && forall i: nat | i <= r.setup.finalIndex :: i in r.accepted || i == m.index
  }

  /** Whether a message is one the receiver acknowledges. */
  ghost predicate Asks(c: Config, r: Receiver, m: Message, a: Answers) {
    match m
    case ProbeMsg(id) => OfSession(r, id)
    case SetupMsg(asked) =>
      Acceptable(c, asked) && if r.phase == Active then asked == r.setup else a.admission == AdmitAccepted
    case SegmentMsg(_, _, _) => WellSized(r, m) && (!Wanted(c, r, m) || a.sinkAccepts)
    case _ => false
  }

  ghost predicate Completes(c: Config, r: Receiver, call: Call) {
    Live(c, r, call) && Wanted(c, r, call.m) && call.a.sinkAccepts && LastOne(r, call.m)
  }

  /** What is told to the service and the sink before anything is sent. */
  ghost function Telling(c: Config, r: Receiver, call: Call): seq<Event> {
    if !Live(c, r, call) then []
    else
      match call.m
      case DatagramMsg(payload) => [Datagram(payload)]
      case SetupMsg(asked) =>
        if r.phase != Active && Acceptable(c, asked) then
          [Begin(asked.sessionId, asked.TotalSize(), asked.segmentSize, call.a.admission)]
        else []
      case SegmentMsg(_, index, payload) =>
        if !Wanted(c, r, call.m) then []
        else [Store(r.setup.OffsetOf(index), payload, call.a.sinkAccepts)] + (if Completes(c, r, call) then [Complete] else [])
      case _ => []
  }

  /** What is handed to the Link, when a packet for it can be prepared. */
  ghost function Reply(c: Config, r: Receiver, call: Call): Option<Message> {
    if call.Cancel? && r.phase == Active then Some(AbortMsg(r.setup.sessionId))
    else if !Live(c, r, call) then None
    else if Asks(c, r, call.m, call.a) then Some(AckOf(c, Apply(c, r, call).next))
    else
      match Called(c, r, call.m, call.a.admission)
      case Some(called) => Some(RejectMsg(called.0, called.1))
      case None => None
  }

  ghost function Sending(c: Config, r: Receiver, call: Call): seq<Event> {
    if !call.Check? && call.a.prepared && Reply(c, r, call).Some? then [Pdu(Reply(c, r, call).value, call.a.send)] else []
  }

  /** An acknowledgement that the Link neither took nor asks to have again later. */
  predicate Undone(a: Answers) { !a.prepared || (a.send != Sent && a.send != Full) }

  /** How a transfer comes to an end other than by completing, if it does. */
  ghost function Ending(c: Config, r: Receiver, call: Call): seq<Event> {
    if call.Cancel? then (if r.phase == Active then [AbortedBy(Local)] else [])
    else if !Live(c, r, call) then (if Expired(c, r, call.now) then [Failed(InactivityTimeout)] else [])
    else if call.m.AbortMsg? && r.phase == Active && call.m.sessionId == r.setup.sessionId then [AbortedBy(Peer)]
    else if Wanted(c, r, call.m) && !call.a.sinkAccepts then [Failed(SinkRejected)]
    else if Asks(c, r, call.m, call.a) && Undone(call.a) && (r.phase == Active || call.m.SetupMsg?) && !Completes(c, r, call) then
      [Failed(SendFailed)]
    else []
  }

  /** What the message itself has wrong with it. */
  ghost predicate Amiss(c: Config, r: Receiver, m: Message, a: Answers) {
    match m
    case SegmentMsg(id, index, _) =>
      OfSession(r, id) && index <= r.setup.finalIndex && (!WellSized(r, m) || (Wanted(c, r, m) && !a.sinkAccepts))
    case BadSetup(session) => session.None?
    case SetupMsg(_) => false
    case ProbeMsg(_) => false
    case DatagramMsg(_) => false
    case AbortMsg(_) => false
    case _ => true
  }

  /** A call fails for an expired transfer, a message that is amiss, or an answer that did not go out. */
  ghost function Result(c: Config, r: Receiver, call: Call): ProcessResult {
    match call
    case Check(now) => if Expired(c, r, now) then Failure else IsIdle
    case Cancel(a) => if r.phase != Active || (a.prepared && a.send == InvalidState) then IsIdle else Progress
    case Deliver(m, now, a) =>
      if Expired(c, r, now) || Amiss(c, r, m, a) || (Reply(c, r, call).Some? && Undone(a)) then Failure
      else if Reply(c, r, call).Some? && a.send == Full then Blocked
      else Progress
  }

  /** All of it: the events in their order, and the result. */
  ghost predicate Described(c: Config, r: Receiver, call: Call, s: Step) {
    && s.events == Telling(c, r, call) + Sending(c, r, call) + Ending(c, r, call)
    && s.result == Result(c, r, call)
  }

  // One kind of message at a time.

  lemma PostIs(r: Receiver, ack: Message, a: Answers)
    ensures var o, failed := Post(r, ack, a), Undone(a) && r.phase == Active;
      && o.next == (if failed then r.(phase := Error) else r)
      && o.events == (if a.prepared then [Pdu(ack, a.send)] else []) + (if failed then [Failed(SendFailed)] else [])
      && (o.handled <==> !Undone(a)) && (o.handled ==> o.sent == a.send)
  {
    assert [Pdu(ack, a.send)] + [] == [Pdu(ack, a.send)];
  }

  /** Neither the phase nor the time of last activity shows in an acknowledgement. */
  lemma SameAck(c: Config, r: Receiver, s: Receiver)
    requires s.setup == r.setup && s.accepted == r.accepted
    ensures AckOf(c, s) == AckOf(c, r)
  {}

  lemma AcksAs(c: Config, r: Receiver, a: Answers)
    ensures var o, failed := SendAck(c, r, a), Undone(a) && r.phase == Active;
      && o.next.setup == r.setup && o.next.accepted == r.accepted
      && o.events == (if a.prepared then [Pdu(AckOf(c, o.next), a.send)] else []) + (if failed then [Failed(SendFailed)] else [])
      && (o.handled <==> !Undone(a)) && (o.handled ==> o.sent == a.send)
  {
    PostIs(r, AckOf(c, r), a);
    SameAck(c, r, SendAck(c, r, a).next);
  }

  lemma ProbeDescribed(c: Config, r: Receiver, call: Call)
    requires Live(c, r, call) && call.m.ProbeMsg?
    ensures Described(c, r, call, Apply(c, r, call))
  {
    AcksAs(c, r.(lastActivity := call.now), call.a);
  }

  lemma CompletesIs(r: Receiver, m: Message)
    requires m.SegmentMsg? && r.phase == Active && m.index <= r.setup.finalIndex
    ensures Stored(r, m.index).phase == (if LastOne(r, m) then Completed else Active)
    ensures Stored(r, m.index).setup == r.setup
  {
    var all := r.accepted + {m.index as nat};
    FirstMissingIs(all, 0, r.Count());
    var first := FirstMissing(all, 0, r.Count());
    if first == r.Count() {
      forall i: nat | i <= r.setup.finalIndex ensures i in r.accepted || i == m.index { assert i in all; }
    } else {
      assert first <= r.setup.finalIndex && first !in r.accepted && first != m.index;
    }
  }

  /** What a segment's outcome comes to, given what was told and whether it was answered. */
  lemma SegmentDescribed(c: Config, r: Receiver, call: Call)
    requires Live(c, r, call) && call.m.SegmentMsg?
    ensures Described(c, r, call, Apply(c, r, call))
  {
    var SegmentMsg(id, index, payload) := call.m;
    if !WellSized(r, call.m) {
    } else if !Wanted(c, r, call.m) {
      UnwantedDescribed(c, r, call);
    } else if !call.a.sinkAccepts {
      RefusedDescribed(c, r, call);
    } else {
      TakenDescribed(c, r, call);
    }
  }

  lemma UnwantedDescribed(c: Config, r: Receiver, call: Call)
    requires Live(c, r, call) && WellSized(r, call.m) && !Wanted(c, r, call.m)
    ensures Described(c, r, call, Apply(c, r, call))
  {
    var r1 := if call.m.index < r.GrantedEnd(c) then r.(lastActivity := call.now) else r;
    AcksAs(c, r1, call.a);
    assert OnSegment(c, r, call.m.sessionId, call.m.index, call.m.payload, call.now, call.a) == SendAck(c, r1, call.a);
  }

  lemma RefusedDescribed(c: Config, r: Receiver, call: Call)
    requires Live(c, r, call) && Wanted(c, r, call.m) && !call.a.sinkAccepts
    ensures Described(c, r, call, Apply(c, r, call))
  {
    var r1 := r.(lastActivity := call.now);
    assert OnSegment(c, r, call.m.sessionId, call.m.index, call.m.payload, call.now, call.a)
        == OfferSegment(c, r1, call.m.index, call.m.payload, call.a);
  }

  lemma TakenDescribed(c: Config, r: Receiver, call: Call)
    requires Live(c, r, call) && Wanted(c, r, call.m) && call.a.sinkAccepts
    ensures Described(c, r, call, Apply(c, r, call))
  {
    var r1 := r.(lastActivity := call.now);
    assert OnSegment(c, r, call.m.sessionId, call.m.index, call.m.payload, call.now, call.a)
        == OfferSegment(c, r1, call.m.index, call.m.payload, call.a);
    CompletesIs(r1, call.m);
    TakenIs(c, r1, call.m.index, call.m.payload, call.a);
  }

  /** The store, the completion if there is one, and the acknowledgement. */
  lemma TakenIs(c: Config, r: Receiver, index: u16, payload: seq<byte>, a: Answers)
    requires r.phase == Active && a.sinkAccepts
    ensures var o, more, store := OfferSegment(c, r, index, payload, a), Stored(r, index), Store(r.setup.OffsetOf(index), payload, true);
      var failed := Undone(a) && more.phase == Active;
      && o.events == [store] + (if more.phase == Completed then [Complete] else [])
                     + (if a.prepared then [Pdu(AckOf(c, o.next), a.send)] else []) + (if failed then [Failed(SendFailed)] else [])
      && (o.handled <==> !Undone(a)) && (o.handled ==> o.sent == a.send)
  {
    AcksAs(c, Stored(r, index), a);
  }

  lemma SetupDescribed(c: Config, r: Receiver, call: Call)
    requires Live(c, r, call) && call.m.SetupMsg?
    ensures Described(c, r, call, Apply(c, r, call))
  {
    var asked := call.m.setup;
    ReasonIs(c, r, asked);
    if Refusal(c, r, asked).None? {
      if r.phase == Active {
        AcksAs(c, r.(lastActivity := call.now), call.a);
      } else if call.a.admission == AdmitAccepted {
        AcksAs(c, Receiver(Active, asked, {}, call.now), call.a);
      }
    }
  }

  lemma OtherDescribed(c: Config, r: Receiver, call: Call)
    requires call.Deliver? && !Expired(c, r, call.now) ==> !call.m.SegmentMsg? && !call.m.SetupMsg? && !call.m.ProbeMsg?
    ensures Described(c, r, call, Apply(c, r, call))
  {}

  /** Every call, on every receiver. */
  lemma CallDescribed(c: Config, r: Receiver, call: Call)
    ensures Described(c, r, call, Apply(c, r, call))
  {
    if Live(c, r, call) && call.m.SegmentMsg? {
      SegmentDescribed(c, r, call);
    } else if Live(c, r, call) && call.m.SetupMsg? {
      SetupDescribed(c, r, call);
    } else if Live(c, r, call) && call.m.ProbeMsg? {
      ProbeDescribed(c, r, call);
    } else {
      OtherDescribed(c, r, call);
    }
  }

  // What follows.

  predicate IsAck(e: Event) { e.Pdu? && e.message.AckMsg? }

  function Acks(events: seq<Event>): nat {
    if events == [] then 0 else (if IsAck(events[0]) then 1 else 0) + Acks(events[1..])
  }

  lemma {:induction false} AcksAdd(first: seq<Event>, second: seq<Event>)
    ensures Acks(first + second) == Acks(first) + Acks(second)
    decreases first
  {
    if first == [] {
      assert first + second == second;
    } else {
      assert (first + second)[1..] == first[1..] + second;
      AcksAdd(first[1..], second);
    }
  }

  lemma {:induction false} NoAcks(events: seq<Event>)
    requires forall e | e in events :: !IsAck(e)
    ensures Acks(events) == 0
    decreases events
  {
    if events != [] { NoAcks(events[1..]); }
  }

  lemma AcksBetween(first: seq<Event>, middle: seq<Event>, last: seq<Event>)
    requires (forall e | e in first :: !IsAck(e)) && (forall e | e in last :: !IsAck(e)) && |middle| <= 1
    ensures Acks(first + middle + last) == if |middle| == 1 && IsAck(middle[0]) then 1 else 0
  {
    NoAcks(first);
    NoAcks(last);
    AcksAdd(first + middle, last);
    AcksAdd(first, middle);
    if middle != [] { assert middle[1..] == []; }
  }

  /** An acknowledgement is handed over only where one is called for. */
  lemma SendsAck(c: Config, r: Receiver, call: Call)
    ensures var sending := Sending(c, r, call);
      |sending| <= 1 && ((|sending| == 1 && IsAck(sending[0])) <==> CanAnswer(c, r, call) && Asks(c, r, call.m, call.a))
  {}

  /**
   * A call hands over exactly one acknowledgement when the engine handles a PROBE of its session, the SETUP of the
   * transfer under way or one that begins a transfer, or a well-sized SEGMENT that is unwanted or that the sink
   * takes, and has a packet to answer in; and none otherwise. It fails exactly when it could not: the answer a
   * message calls for is never left out.
   */
  lemma AcksIff(c: Config, r: Receiver, call: Call)
    ensures Acks(Apply(c, r, call).events) == if CanAnswer(c, r, call) && Asks(c, r, call.m, call.a) then 1 else 0
    ensures Live(c, r, call) && Asks(c, r, call.m, call.a) ==>
      Apply(c, r, call).result == if Undone(call.a) then Failure else if call.a.send == Full then Blocked else Progress
  {
    CallDescribed(c, r, call);
    SendsAck(c, r, call);
    TellsNoAcks(c, r, call);
    AcksBetween(Telling(c, r, call), Sending(c, r, call), Ending(c, r, call));
    if Live(c, r, call) && Asks(c, r, call.m, call.a) { ResultIs(c, r, call); }
  }

  lemma TellsNoAcks(c: Config, r: Receiver, call: Call)
    ensures forall e | e in Telling(c, r, call) :: !IsAck(e)
    ensures forall e | e in Ending(c, r, call) :: !IsAck(e)
  {}

  lemma ResultIs(c: Config, r: Receiver, call: Call)
    requires Live(c, r, call) && Asks(c, r, call.m, call.a)
    ensures Result(c, r, call) == if Undone(call.a) then Failure else if call.a.send == Full then Blocked else Progress
  {}

  /** Where each call leaves the transfer. */
  lemma PhaseIs(c: Config, r: Receiver, call: Call)
    ensures var next := Apply(c, r, call).next.phase;
      next ==
        if Ending(c, r, call) != [] then (if Ending(c, r, call)[0].Failed? then Error else Aborted)
        else if Completes(c, r, call) then Completed
        else if Live(c, r, call) && Begins(c, r, call) then Active
        else r.phase
  {
    if Live(c, r, call) {
      match call.m
      case SegmentMsg(id, index, payload) => SegmentPhase(c, r, call);
      case SetupMsg(asked) => SetupPhase(c, r, call);
      case ProbeMsg(_) =>
        var r1 := r.(lastActivity := call.now);
        PostIs(r1, AckOf(c, r1), call.a);
      case _ =>
    }
  }

  lemma SetupPhase(c: Config, r: Receiver, call: Call)
    requires Live(c, r, call) && call.m.SetupMsg?
    ensures Apply(c, r, call).next.phase
         == if Asks(c, r, call.m, call.a) && Undone(call.a) then Error else if Begins(c, r, call) then Active else r.phase
  {
    ReasonIs(c, r, call.m.setup);
    var r1, begun := r.(lastActivity := call.now), Receiver(Active, call.m.setup, {}, call.now);
    PostIs(r1, AckOf(c, r1), call.a);
    PostIs(begun, AckOf(c, begun), call.a);
  }

  lemma SegmentPhase(c: Config, r: Receiver, call: Call)
    requires Live(c, r, call) && call.m.SegmentMsg?
    ensures Apply(c, r, call).next.phase ==
      if Ending(c, r, call) != [] then Error else if Completes(c, r, call) then Completed else r.phase
  {
    var r1 := if call.m.index < r.GrantedEnd(c) then r.(lastActivity := call.now) else r;
    if Wanted(c, r, call.m) {
      WantedPhase(c, r, call, r1);
    } else {
      PostIs(r1, AckOf(c, r1), call.a);
    }
  }

  lemma WantedPhase(c: Config, r: Receiver, call: Call, r1: Receiver)
    requires Live(c, r, call) && Wanted(c, r, call.m) && r1 == r.(lastActivity := call.now)
    ensures Apply(c, r, call).next.phase ==
      if Ending(c, r, call) != [] then Error else if Completes(c, r, call) then Completed else r.phase
  {
    CompletesIs(r1, call.m);
    var more := Stored(r1, call.m.index);
    PostIs(more, AckOf(c, more), call.a);
    assert OnSegment(c, r, call.m.sessionId, call.m.index, call.m.payload, call.now, call.a)
        == OfferSegment(c, r1, call.m.index, call.m.payload, call.a);
  }
}
