/** What holds of a receiver over every sequence of calls, whatever the peer, the sink and the Link do. */
module ReceiverRuns {
  import opened Integers
  import opened Protocol
  import opened ReceiverSpec

  // The object a sink holds: what it has taken since the transfer it is part of began.

  datatype Write = Write(offset: nat, bytes: seq<byte>)

  function Sink(before: seq<Write>, events: seq<Event>): seq<Write> {
    if events == [] then before
    else
      var rest := Sink(before, events[..|events| - 1]);
      match events[|events| - 1]
      case Begin(_, _, _, admission) => if admission == AdmitAccepted then [] else rest
      case Store(offset, bytes, accepted) => if accepted then rest + [Write(offset, bytes)] else rest
      case _ => rest
  }

  lemma {:induction false} SinkAppend(before: seq<Write>, first: seq<Event>, second: seq<Event>)
    ensures Sink(before, first + second) == Sink(Sink(before, first), second)
    decreases second
  {
    if second == [] {
      assert first + second == first;
    } else {
      var n := |second| - 1;
      assert (first + second)[..|first + second| - 1] == first + second[..n];
      SinkAppend(before, first, second[..n]);
    }
  }

  /** The one segment a call hands to the sink and the sink takes, if there is one. */
  ghost predicate Takes(c: Config, r: Receiver, call: Call, index: nat) {
    && call.Deliver? && call.m.SegmentMsg? && call.a.sinkAccepts && !Expired(c, r, call.now)
    && r.phase == Active && call.m.sessionId == r.setup.sessionId && call.m.index == index
    && index < r.GrantedEnd(c) && index !in r.accepted && |call.m.payload| == r.setup.SizeOf(index)
  }

  /** A call begins a transfer when it is a SETUP that is well formed, within limits, and admitted. */
  ghost predicate Begins(c: Config, r: Receiver, call: Call) {
    && call.Deliver? && call.m.SetupMsg? && call.a.admission == AdmitAccepted
    && r.phase != Active && Acceptable(c, call.m.setup)
  }

  predicate Acceptable(c: Config, asked: Setup) {
    && 0 < asked.finalSize <= asked.segmentSize <= c.maximumSegmentSize
    && asked.TotalSize() <= c.maximumObjectSize && c.width > 0
  }

  predicate Quiet(events: seq<Event>) { forall e | e in events :: !e.Begin? && !e.Store? }

  lemma {:induction false} QuietSink(before: seq<Write>, events: seq<Event>)
    requires Quiet(events)
    ensures Sink(before, events) == before
    decreases events
  {
    if events != [] { QuietSink(before, events[..|events| - 1]); }
  }

  /** Only the first event can touch the sink. */
  lemma HeadSink(before: seq<Write>, head: Event, rest: seq<Event>)
    requires Quiet(rest)
    ensures Sink(before, [head] + rest) == Sink(before, [head])
  {
    SinkAppend(before, [head], rest);
    QuietSink(Sink(before, [head]), rest);
  }

  lemma OneWrite(before: seq<Write>, head: Event)
    ensures head.Store? ==> Sink(before, [head]) == if head.accepted then before + [Write(head.offset, head.bytes)] else before
    ensures head.Begin? ==> Sink(before, [head]) == if head.admission == AdmitAccepted then [] else before
  {
    assert [head][..0] == [];
  }

  lemma PostQuiet(r: Receiver, ack: Message, a: Answers)
    ensures Quiet(Post(r, ack, a).events)
    ensures var s := Post(r, ack, a).next; s == r || (r.phase == Active && s == r.(phase := Error))
  {}

  lemma OfferEffect(c: Config, r: Receiver, index: nat, payload: seq<byte>, a: Answers, writes: seq<Write>)
    requires c.width <= WINDOW && Sound(c, r) && r.phase == Active
    requires index < r.GrantedEnd(c) && index !in r.accepted
    ensures var o := OfferSegment(c, r, index, payload, a);
      && Sound(c, o.next) && o.next.setup == r.setup
      && o.next.accepted == r.accepted + (if a.sinkAccepts then {index} else {})
      && Sink(writes, o.events) == writes + (if a.sinkAccepts then [Write(r.setup.OffsetOf(index), payload)] else [])
  {
    var store := Store(r.setup.OffsetOf(index), payload, a.sinkAccepts);
    var o := OfferSegment(c, r, index, payload, a);
    OneWrite(writes, store);
    if a.sinkAccepts {
      StoredSound(c, r, index);
      var more := Stored(r, index);
      PostQuiet(more, AckOf(c, more), a);
      HeadSink(writes, store, o.events[1..]);
      assert o.events == [store] + o.events[1..];
    } else {
      HeadSink(writes, store, [Failed(SinkRejected)]);
    }
  }

  /** A SETUP the engine does not refuse of itself is acceptable, and outside a transfer every acceptable one gets that far. */
  lemma UnrefusedIff(c: Config, r: Receiver, asked: Setup)
    ensures Refusal(c, r, asked).None? ==> Acceptable(c, asked)
    ensures r.phase != Active && Acceptable(c, asked) ==> Refusal(c, r, asked).None?
  {}

  /** What an admission does, whatever the total size it was asked for. */
  lemma AdmitEffect(c: Config, r: Receiver, asked: Setup, now: u32, a: Answers, writes: seq<Write>)
    requires 0 < c.width <= WINDOW && Sound(c, r) && r.phase != Active && 0 < asked.finalSize <= asked.segmentSize
    ensures var o := Admit(c, r, asked, now, a);
      && Sound(c, o.next)
      && (if a.admission == AdmitAccepted then
            o.next.setup == asked && o.next.accepted == {} && Sink(writes, o.events) == []
          else
            o.next.setup == r.setup && o.next.accepted == r.accepted && Sink(writes, o.events) == writes)
  {
    var o := Admit(c, r, asked, now, a);
    var begin := o.events[0];
    OneWrite(writes, begin);
    if a.admission == AdmitAccepted {
      var started := Receiver(Active, asked, {}, now);
      FirstMissingUnique({}, asked.SegmentCount(), 0);
      PostQuiet(started, AckOf(c, started), a);
    }
    HeadSink(writes, begin, o.events[1..]);
    assert o.events == [begin] + o.events[1..];
  }

  lemma SetupEffect(c: Config, r: Receiver, asked: Setup, now: u32, a: Answers, writes: seq<Write>)
    requires c.width <= WINDOW && Sound(c, r)
    ensures var o := OnSetup(c, r, asked, now, a);
      && Sound(c, o.next)
      && (if a.admission == AdmitAccepted && r.phase != Active && Acceptable(c, asked) then
            o.next.setup == asked && o.next.accepted == {} && Sink(writes, o.events) == []
          else
            o.next.setup == r.setup && o.next.accepted == r.accepted && Sink(writes, o.events) == writes)
  {
    var o := OnSetup(c, r, asked, now, a);
    UnrefusedIff(c, r, asked);
    if Refusal(c, r, asked).None? && r.phase != Active {
      AdmitEffect(c, r, asked, now, a, writes);
    } else {
      if r.phase == Active { PostQuiet(r.(lastActivity := now), AckOf(c, r.(lastActivity := now)), a); }
      QuietSink(writes, o.events);
    }
  }

  /** One call either begins a transfer, adds one new segment to the sink and the set, or changes neither. */
  lemma CallEffect(c: Config, r: Receiver, call: Call, writes: seq<Write>)
    requires c.width <= WINDOW && Sound(c, r)
    ensures var s := Apply(c, r, call);
      && Sound(c, s.next)
      && (Begins(c, r, call) ==>
            s.next.setup == call.m.setup && s.next.accepted == {} && Sink(writes, s.events) == [])
      && (!Begins(c, r, call) ==> s.next.setup == r.setup)
      && (forall i: nat | Takes(c, r, call, i) ::
            && s.next.accepted == r.accepted + {i}
            && Sink(writes, s.events) == writes + [Write(r.setup.OffsetOf(i), call.m.payload)])
      && (!Begins(c, r, call) && (forall i: nat :: !Takes(c, r, call, i)) ==>
            s.next.accepted == r.accepted && Sink(writes, s.events) == writes)
  {
    var s := Apply(c, r, call);
    if call.Deliver? && !Expired(c, r, call.now) && call.m.SetupMsg? {
      SetupEffect(c, r, call.m.setup, call.now, call.a, writes);
    } else if call.Deliver? && !Expired(c, r, call.now) && call.m.SegmentMsg? {
      SegmentEffect(c, r, call, writes);
    } else {
      OtherEffect(c, r, call);
      QuietSink(writes, s.events);
    }
  }

  /** Ends and acknowledgements touch neither the set nor the sink. */
  ghost predicate LeavesAlone(c: Config, r: Receiver, next: Receiver, events: seq<Event>) {
    Sound(c, next) && next.setup == r.setup && next.accepted == r.accepted && Quiet(events)
  }

  lemma AnswerEffect(c: Config, r: Receiver, ack: Message, now: u32, a: Answers)
    requires Sound(c, r)
    ensures var o := Post(r.(lastActivity := now), ack, a); LeavesAlone(c, r, o.next, o.events)
  {
    PostQuiet(r.(lastActivity := now), ack, a);
  }

  lemma ProbeEffect(c: Config, r: Receiver, id: u8, now: u32, a: Answers, o: Outcome)
    requires Sound(c, r) && o == OnMessage(c, r, ProbeMsg(id), now, a)
    ensures LeavesAlone(c, r, o.next, o.events)
  {
    if r.Open() && id == r.setup.sessionId {
      var ack := AckOf(c, r.(lastActivity := now));
      assert o == Post(r.(lastActivity := now), ack, a);
      AnswerEffect(c, r, ack, now, a);
    }
  }

  lemma MessageEffect(c: Config, r: Receiver, m: Message, now: u32, a: Answers)
    requires Sound(c, r) && !m.SetupMsg? && !m.SegmentMsg? && !m.ProbeMsg?
    ensures var o := OnMessage(c, r, m, now, a); LeavesAlone(c, r, o.next, o.events)
  {}

  lemma EndEffect(c: Config, r: Receiver, call: Call)
    requires Sound(c, r) && (call.Deliver? ==> Expired(c, r, call.now))
    ensures var s := Apply(c, r, call); LeavesAlone(c, r, s.next, s.events)
  {}

  /** A call that is neither a SETUP nor a SEGMENT to a live transfer leaves set and sink alone. */
  lemma OtherEffect(c: Config, r: Receiver, call: Call)
    requires Sound(c, r)
    requires !(call.Deliver? && !Expired(c, r, call.now) && (call.m.SetupMsg? || call.m.SegmentMsg?))
    ensures var s := Apply(c, r, call); LeavesAlone(c, r, s.next, s.events)
  {
    if !call.Deliver? || Expired(c, r, call.now) {
      EndEffect(c, r, call);
    } else if call.m.ProbeMsg? {
      ProbeEffect(c, r, call.m.sessionId, call.now, call.a, OnMessage(c, r, call.m, call.now, call.a));
    } else {
      MessageEffect(c, r, call.m, call.now, call.a);
    }
  }

  lemma SegmentEffect(c: Config, r: Receiver, call: Call, writes: seq<Write>)
    requires c.width <= WINDOW && Sound(c, r)
    requires call.Deliver? && call.m.SegmentMsg? && !Expired(c, r, call.now)
    ensures var s := Apply(c, r, call);
      && Sound(c, s.next) && s.next.setup == r.setup
      && (forall i: nat | Takes(c, r, call, i) ::
            && s.next.accepted == r.accepted + {i}
            && Sink(writes, s.events) == writes + [Write(r.setup.OffsetOf(i), call.m.payload)])
      && ((forall i: nat :: !Takes(c, r, call, i)) ==>
            s.next.accepted == r.accepted && Sink(writes, s.events) == writes)
  {
    var SegmentMsg(id, index, payload) := call.m;
    var s := Apply(c, r, call);
    var r1 := if index < r.GrantedEnd(c) then r.(lastActivity := call.now) else r;
    if !r.Open() || id != r.setup.sessionId || index >= r.Count() || |payload| != r.setup.SizeOf(index) {
      QuietSink(writes, s.events);
    } else if r1.phase == Completed || index >= r1.GrantedEnd(c) || index in r1.accepted {
      PostQuiet(r1, AckOf(c, r1), call.a);
      QuietSink(writes, s.events);
    } else {
      OfferEffect(c, r1, index, payload, call.a, writes);
      assert Takes(c, r, call, index) <==> call.a.sinkAccepts;
    }
  }

  // Every run from a fresh receiver.

  function AllEvents(trace: seq<Seen>): seq<Event> {
    if trace == [] then [] else AllEvents(trace[..|trace| - 1]) + trace[|trace| - 1].events
  }

  /** order names every member of s exactly once. */
  ghost predicate Lists(order: seq<nat>, s: set<nat>) {
    && (forall i: nat :: i in s <==> i in order)
    && (forall j, k | 0 <= j < k < |order| :: order[j] != order[k])
  }

  /** The writes are the segments named by order, in that order, each at its place and of its size. */
  ghost predicate Files(setup: Setup, order: seq<nat>, writes: seq<Write>) {
    && |writes| == |order|
    && forall k | 0 <= k < |order| ::
         writes[k].offset == setup.OffsetOf(order[k]) && |writes[k].bytes| == setup.SizeOf(order[k])
  }

  /** The sink of the current transfer holds each accepted segment once and nothing else. */
  ghost predicate Filed(r: Receiver, writes: seq<Write>) {
    exists order: seq<nat> :: Lists(order, r.accepted) && Files(r.setup, order, writes)
  }

  lemma FiledStep(c: Config, r: Receiver, call: Call, writes: seq<Write>)
    requires c.width <= WINDOW && Sound(c, r) && Filed(r, writes)
    ensures var s := Apply(c, r, call); Sound(c, s.next) && Filed(s.next, Sink(writes, s.events))
  {
    var s := Apply(c, r, call);
    CallEffect(c, r, call, writes);
    var order: seq<nat> :| Lists(order, r.accepted) && Files(r.setup, order, writes);
    if Begins(c, r, call) {
      assert Lists([], {}) && Files(s.next.setup, [], []);
    } else if i: nat :| Takes(c, r, call, i) {
      assert Lists(order + [i], s.next.accepted);
      assert Files(s.next.setup, order + [i], Sink(writes, s.events));
    } else {
      assert Lists(order, s.next.accepted) && Files(s.next.setup, order, Sink(writes, s.events));
    }
  }

  /**
   * After any calls at all, the state is sound (a contiguous count, a full grant past it, nothing
   * accepted outside it, completion exactly at the last segment) and the sink was handed each
   * accepted segment exactly once since its transfer began.
   */
  lemma {:induction false} EveryRunFiles(c: Config, calls: seq<Call>)
    requires c.width <= WINDOW
    ensures var (r, trace) := Run(c, IDLE, calls); Sound(c, r) && Filed(r, Sink([], AllEvents(trace)))
    decreases calls
  {
    if calls == [] {
      assert Lists([], {}) && Files(NO_SETUP, [], []);
    } else {
      var head := calls[..|calls| - 1];
      EveryRunFiles(c, head);
      var (r, trace) := Run(c, IDLE, head);
      var call := calls[|calls| - 1];
      var (after, longer) := Run(c, IDLE, calls);
      FiledStep(c, r, call, Sink([], AllEvents(trace)));
      assert longer[..|longer| - 1] == trace;
      SinkAppend([], AllEvents(trace), Apply(c, r, call).events);
    }
  }

  /** The kinds of message a receiver sends of its own. */
  predicate Replies(m: Message) { m.AckMsg? || m.RejectMsg? || m.AbortMsg? }

  /**
   * Every PDU is a reply, and an acknowledgement is of the state the call leaves, whether or not its
   * sending failed; only an open or beginning transfer acknowledges or is open afterwards.
   */
  ghost predicate Speaks(c: Config, live: bool, next: Receiver, events: seq<Event>) {
    && (next.Open() ==> live)
    && forall e | e in events && e.Pdu? ::
         Replies(e.message) && (e.message.AckMsg? ==> e.message == AckOf(c, next) && next.phase != Idle && live)
  }

  lemma AckOfNext(c: Config, r: Receiver, call: Call)
    requires c.width <= WINDOW && Sound(c, r)
    ensures var s := Apply(c, r, call); Speaks(c, r.Open() || Begins(c, r, call), s.next, s.events)
  {
    if call.Deliver? && !Expired(c, r, call.now) {
      match call.m
      case SegmentMsg(id, index, payload) => SegmentAck(c, r, id, index, payload, call.now, call.a);
      case SetupMsg(asked) => SetupAck(c, r, asked, call.now, call.a);
      case ProbeMsg(id) => if r.Open() { PostAck(c, r.(lastActivity := call.now), call.a); }
      case _ =>
    }
  }

  lemma PostAck(c: Config, r: Receiver, a: Answers)
    requires r.Open()
    ensures Speaks(c, true, SendAck(c, r, a).next, SendAck(c, r, a).events)
  {
    assert AckOf(c, r.(phase := Error)) == AckOf(c, r);
  }

  lemma SegmentAck(c: Config, r: Receiver, id: u8, index: u16, payload: seq<byte>, now: u32, a: Answers)
    requires c.width <= WINDOW && Sound(c, r)
    ensures var o := OnSegment(c, r, id, index, payload, now, a); Speaks(c, r.Open(), o.next, o.events)
  {
    if r.Open() && id == r.setup.sessionId && index < r.Count() && |payload| == r.setup.SizeOf(index) {
      var r1 := if index < r.GrantedEnd(c) then r.(lastActivity := now) else r;
      if r1.phase == Completed || index >= r1.GrantedEnd(c) || index in r1.accepted {
        PostAck(c, r1, a);
      } else {
        PostAck(c, Stored(r1, index), a);
      }
    }
  }

  lemma SetupAck(c: Config, r: Receiver, asked: Setup, now: u32, a: Answers)
    requires c.width <= WINDOW && Sound(c, r)
    ensures var o := OnSetup(c, r, asked, now, a);
      Speaks(c, r.Open() || (r.phase != Active && a.admission == AdmitAccepted && Acceptable(c, asked)), o.next, o.events)
  {
    if Refusal(c, r, asked).None? {
      if r.phase == Active {
        PostAck(c, r.(lastActivity := now), a);
      } else if a.admission == AdmitAccepted {
        PostAck(c, Receiver(Active, asked, {}, now), a);
      }
    }
  }

  /** A position once granted stays granted until the next transfer begins. */
  lemma GrantNeverShrinks(c: Config, r: Receiver, call: Call)
    requires c.width <= WINDOW && Sound(c, r) && !Begins(c, r, call)
    ensures r.Frontier() <= Apply(c, r, call).next.Frontier()
    ensures r.GrantedEnd(c) <= Apply(c, r, call).next.GrantedEnd(c)
  {
    CallEffect(c, r, call, []);
    FrontierGrows(r.accepted, Apply(c, r, call).next.accepted, 0, r.Count());
  }

  /** A completed transfer holds every segment of the object. */
  lemma CompletedHoldsAll(c: Config, r: Receiver)
    requires Sound(c, r) && r.Open()
    ensures r.phase == Completed <==> r.accepted == UpTo(r.Count())
  {
    FirstMissingIs(r.accepted, 0, r.Count());
    if r.accepted == UpTo(r.Count()) { FirstMissingUnique(r.accepted, r.Count(), r.Count()); }
  }

  // Each admitted transfer ends at most once, and is open until it does.

  function Opened(events: seq<Event>): nat {
    if events == [] then 0
    else Opened(events[1..]) + (if events[0].Begin? && events[0].admission == AdmitAccepted then 1 else 0)
  }

  function Closed(events: seq<Event>): nat {
    if events == [] then 0
    else Closed(events[1..]) + (if events[0].Complete? || events[0].Failed? || events[0].AbortedBy? then 1 else 0)
  }

  lemma {:induction false} CountAppend(first: seq<Event>, second: seq<Event>)
    ensures Opened(first + second) == Opened(first) + Opened(second)
    ensures Closed(first + second) == Closed(first) + Closed(second)
    decreases first
  {
    if first == [] {
      assert first + second == second;
    } else {
      assert (first + second)[1..] == first[1..] + second;
      CountAppend(first[1..], second);
    }
  }

  function One(r: Receiver): nat { if r.phase == Active then 1 else 0 }

  lemma PostBalance(r: Receiver, ack: Message, a: Answers, before: seq<Event>)
    ensures var o := After(before, Post(r, ack, a));
      Opened(o.events) == Opened(before) && Closed(o.events) + One(o.next) == Closed(before) + One(r)
  {
    CountAppend(before, Post(r, ack, a).events);
    CountAppend([Pdu(ack, a.send)], [Failed(SendFailed)]);
    CountAppend([], [Failed(SendFailed)]);
  }

  lemma RejectBalance(r: Receiver, id: u8, reason: RejectReason, a: Answers, begin: Event)
    requires begin.Begin? && begin.admission != AdmitAccepted
    ensures var o := After([begin], SendReject(r, id, reason, a));
      Opened(o.events) == 0 && Closed(o.events) == 0 && o.next == r
  {
    CountAppend([begin], SendReject(r, id, reason, a).events);
  }

  lemma OfferBalance(c: Config, r: Receiver, index: nat, payload: seq<byte>, a: Answers)
    requires r.phase == Active
    ensures var o := OfferSegment(c, r, index, payload, a);
      Opened(o.events) == 0 && Closed(o.events) + One(o.next) == 1
  {
    var more := Stored(r, index);
    var store := Store(r.setup.OffsetOf(index), payload, a.sinkAccepts);
    if a.sinkAccepts {
      var done := if more.phase == Completed then [Complete] else [];
      CountAppend([store], done);
      PostBalance(more, AckOf(c, more), a, [store] + done);
    } else {
      CountAppend([store], [Failed(SinkRejected)]);
    }
  }

  lemma SegmentBalance(c: Config, r: Receiver, id: u8, index: u16, payload: seq<byte>, now: u32, a: Answers)
    requires c.width <= WINDOW && Sound(c, r)
    ensures var o := OnSegment(c, r, id, index, payload, now, a);
      Opened(o.events) == 0 && Closed(o.events) + One(o.next) == One(r)
  {
    if r.Open() && id == r.setup.sessionId && index < r.Count() && |payload| == r.setup.SizeOf(index) {
      var r1 := if index < r.GrantedEnd(c) then r.(lastActivity := now) else r;
      if r1.phase == Completed || index >= r1.GrantedEnd(c) || index in r1.accepted {
        PostBalance(r1, AckOf(c, r1), a, []);
        assert After([], SendAck(c, r1, a)) == SendAck(c, r1, a);
      } else {
        OfferBalance(c, r1, index, payload, a);
      }
    }
  }

  lemma AdmitBalance(c: Config, r: Receiver, asked: Setup, now: u32, a: Answers)
    requires r.phase != Active
    ensures var o := Admit(c, r, asked, now, a); Opened(o.events) == Closed(o.events) + One(o.next)
  {
    var begin := Begin(asked.sessionId, asked.TotalSize(), asked.segmentSize, a.admission);
    if a.admission == AdmitAccepted {
      var started := Receiver(Active, asked, {}, now);
      PostBalance(started, AckOf(c, started), a, [begin]);
    } else {
      RejectBalance(r, asked.sessionId, AdmissionReason(a.admission), a, begin);
    }
  }

  lemma SetupBalance(c: Config, r: Receiver, asked: Setup, now: u32, a: Answers)
    ensures var o := OnSetup(c, r, asked, now, a);
      Opened(o.events) + One(r) == Closed(o.events) + One(o.next)
  {
    if Refusal(c, r, asked).None? {
      if r.phase == Active {
        var r1 := r.(lastActivity := now);
        PostBalance(r1, AckOf(c, r1), a, []);
        assert After([], SendAck(c, r1, a)) == SendAck(c, r1, a);
      } else {
        AdmitBalance(c, r, asked, now, a);
      }
    }
  }

  lemma CallBalance(c: Config, r: Receiver, call: Call)
    requires c.width <= WINDOW && Sound(c, r)
    ensures var s := Apply(c, r, call); Opened(s.events) + One(r) == Closed(s.events) + One(s.next)
  {
    if call.Deliver? && !Expired(c, r, call.now) && call.m.SegmentMsg? {
      SegmentBalance(c, r, call.m.sessionId, call.m.index, call.m.payload, call.now, call.a);
    } else if call.Deliver? && !Expired(c, r, call.now) && call.m.SetupMsg? {
      SetupBalance(c, r, call.m.setup, call.now, call.a);
    } else if call.Deliver? && call.m.ProbeMsg? {
      var r1 := r.(lastActivity := call.now);
      PostBalance(r1, AckOf(c, r1), call.a, []);
      assert After([], SendAck(c, r1, call.a)) == SendAck(c, r1, call.a);
    } else if call.Cancel? && call.a.prepared {
      CountAppend([Pdu(AbortMsg(r.setup.sessionId), call.a.send)], [AbortedBy(Local)]);
    }
  }

  /** Transfers admitted equal completions, failures and aborts, plus the one still open if there is one. */
  lemma {:induction false} EveryRunBalances(c: Config, calls: seq<Call>)
    requires c.width <= WINDOW
    ensures var (r, trace) := Run(c, IDLE, calls);
      Opened(AllEvents(trace)) == Closed(AllEvents(trace)) + One(r)
    decreases calls
  {
    if calls != [] {
      var head := calls[..|calls| - 1];
      EveryRunBalances(c, head);
      EveryRunFiles(c, head);
      var (r, trace) := Run(c, IDLE, head);
      var call := calls[|calls| - 1];
      var (after, longer) := Run(c, IDLE, calls);
      assert longer[..|longer| - 1] == trace;
      CallBalance(c, r, call);
      CountAppend(AllEvents(trace), Apply(c, r, call).events);
    }
  }
}
