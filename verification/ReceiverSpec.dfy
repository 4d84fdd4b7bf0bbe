/**
 * What a BITS receiver does, over the set of absolute segment indices its sink has accepted.
 * The cumulative count, the grant and the acknowledged bitmap are all read off that set.
 */
module ReceiverSpec {
  import opened Integers
  import opened Protocol
  import Bitmap16

  datatype Config = Config(maximumSegmentSize: u16, width: nat, maximumObjectSize: u32, timeout: u32)

  datatype Admission = AdmitAccepted | AdmitBusy | AdmitTooLarge | AdmitRejected
  datatype FailureReason = SinkRejected | SendFailed | InactivityTimeout
  datatype AbortReason = Local | Peer

  /** What the callbacks and the PDU sender answer during one call. */
  datatype Answers = Answers(admission: Admission, sinkAccepts: bool, prepared: bool, send: SendResult)

  /** One callback made, or one PDU handed to the sender. */
  datatype Event =
    | Begin(sessionId: u8, totalSize: nat, segmentSize: u16, admission: Admission)
    | Store(offset: nat, bytes: seq<byte>, accepted: bool)
    | Complete
    | Failed(why: FailureReason)
    | AbortedBy(who: AbortReason)
    | Datagram(datagram: seq<byte>)
    | Pdu(message: Message, result: SendResult)

  datatype Receiver = Receiver(phase: TransferState, setup: Setup, accepted: set<nat>, lastActivity: u32)
  {
    function Count(): nat { setup.SegmentCount() }

    predicate Open() { phase == Active || phase == Completed }

    ghost function Frontier(): nat { FirstMissing(accepted, 0, Count()) }

    ghost function GrantedEnd(c: Config): nat { Min(Count(), Frontier() + c.width) }
  }

  const IDLE := Receiver(Idle, NO_SETUP, {}, 0)

  /** The least index from i on that is not in s, or n. */
  function FirstMissing(s: set<nat>, i: nat, n: nat): (m: nat)
    decreases n - i
  {
    if i < n && i in s then FirstMissing(s, i + 1, n) else i
  }

  lemma {:induction false} FirstMissingIs(s: set<nat>, i: nat, n: nat)
    requires i <= n
    ensures i <= FirstMissing(s, i, n) <= n
    ensures forall k: nat | i <= k < FirstMissing(s, i, n) :: k in s
    ensures FirstMissing(s, i, n) < n ==> FirstMissing(s, i, n) !in s
    decreases n - i
  {
    if i < n && i in s { FirstMissingIs(s, i + 1, n); }
  }

  lemma FirstMissingUnique(s: set<nat>, n: nat, m: nat)
    requires m <= n && (forall k: nat | k < m :: k in s) && (m < n ==> m !in s)
    ensures FirstMissing(s, 0, n) == m
  {
    FirstMissingIs(s, 0, n);
  }

  datatype Outcome = Outcome(next: Receiver, events: seq<Event>, handled: bool, sent: SendResult)

  function Nothing(r: Receiver, handled: bool): Outcome { Outcome(r, [], handled, Sent) }

  /** A transfer that cannot go on reports it once; any other state is left alone. */
  function Fail(r: Receiver, why: FailureReason, o: Outcome): Outcome {
    if r.phase == Active then o.(next := r.(phase := Error), events := o.events + [Failed(why)]) else o.(next := r)
  }

  predicate Admitted(s: SendResult) { s == Sent || s == Full }

  /** The cumulative and selective acknowledgement of the accepted set. */
  ghost function AckOf(c: Config, r: Receiver): Message {
    var count, end := r.Frontier(), r.GrantedEnd(c);
    AckMsg(r.setup.sessionId,
           Bitmap16.Register(Offsets(r.accepted, count, if end > count then end - count else 0)),
           if end > count then SequenceFor(r.setup, end - 1) else BaseSequence(r.setup, count),
           BaseSequence(r.setup, count))
  }

  function Post(r: Receiver, ack: Message, a: Answers): Outcome {
    if !a.prepared then Fail(r, SendFailed, Outcome(r, [], false, TooLarge))
    else if Admitted(a.send) then Outcome(r, [Pdu(ack, a.send)], true, a.send)
    else Fail(r, SendFailed, Outcome(r, [Pdu(ack, a.send)], false, a.send))
  }

  ghost function SendAck(c: Config, r: Receiver, a: Answers): Outcome { Post(r, AckOf(c, r), a) }

  function SendReject(r: Receiver, sessionId: u8, reason: RejectReason, a: Answers): Outcome {
    if !a.prepared then Outcome(r, [], false, TooLarge)
    else Outcome(r, [Pdu(RejectMsg(sessionId, reason), a.send)], Admitted(a.send), a.send)
  }

  function After(first: seq<Event>, o: Outcome): Outcome { o.(events := first + o.events) }

  /** One more segment with the sink; the last one completes the transfer. */
  ghost function Stored(r: Receiver, index: nat): Receiver {
    var more := r.(accepted := r.accepted + {index});
    if more.Frontier() == more.Count() then more.(phase := Completed) else more
  }

  ghost function OnSegment(c: Config, r: Receiver, id: u8, index: u16, payload: seq<byte>, now: u32, a: Answers): Outcome {
    if !r.Open() || id != r.setup.sessionId || index >= r.Count() then Nothing(r, true)
    else if |payload| != r.setup.SizeOf(index) then Nothing(r, false)
    else
      var r1 := if index < r.GrantedEnd(c) then r.(lastActivity := now) else r;
      if r1.phase == Completed || index >= r1.GrantedEnd(c) || index in r1.accepted then SendAck(c, r1, a)
      else OfferSegment(c, r1, index, payload, a)
  }

  /** A wanted segment goes to the sink; only its acceptance counts as receipt. */
  ghost function OfferSegment(c: Config, r: Receiver, index: nat, payload: seq<byte>, a: Answers): Outcome {
    var store := Store(r.setup.OffsetOf(index), payload, a.sinkAccepts);
    if !a.sinkAccepts then Fail(r, SinkRejected, Outcome(r, [store], false, Sent))
    else
      var more := Stored(r, index);
      After([store] + (if more.phase == Completed then [Complete] else []), SendAck(c, more, a))
  }

  /** Why a SETUP is refused before the service is asked, if it is. */
  function Refusal(c: Config, r: Receiver, asked: Setup): Option<RejectReason> {
    if asked.segmentSize == 0 || asked.finalSize == 0 || asked.finalSize > asked.segmentSize then Some(InvalidArgument)
    else if asked.TotalSize() > c.maximumObjectSize then Some(ObjectTooLarge)
    else if c.width == 0 || asked.segmentSize > c.maximumSegmentSize then Some(UnsupportedSegmentSize)
    else if r.phase == Active && r.setup != asked then Some(RejectBusy)
    else None
  }

  function AdmissionReason(admission: Admission): RejectReason {
    if admission == AdmitBusy then RejectBusy
    else if admission == AdmitTooLarge then ObjectTooLarge else InvalidArgument
  }

  ghost function OnSetup(c: Config, r: Receiver, asked: Setup, now: u32, a: Answers): Outcome {
    match Refusal(c, r, asked)
    case Some(reason) => SendReject(r, asked.sessionId, reason, a)
    case None => if r.phase == Active then SendAck(c, r.(lastActivity := now), a) else Admit(c, r, asked, now, a)
  }

  /** The service decides; an admitted transfer starts empty and is acknowledged with its first grant. */
  ghost function Admit(c: Config, r: Receiver, asked: Setup, now: u32, a: Answers): Outcome {
    After([Begin(asked.sessionId, asked.TotalSize(), asked.segmentSize, a.admission)],
          if a.admission == AdmitAccepted then SendAck(c, Receiver(Active, asked, {}, now), a)
          else SendReject(r, asked.sessionId, AdmissionReason(a.admission), a))
  }

  ghost function OnMessage(c: Config, r: Receiver, m: Message, now: u32, a: Answers): Outcome {
    match m
    case SegmentMsg(id, index, payload) => OnSegment(c, r, id, index, payload, now, a)
    case SetupMsg(asked) => OnSetup(c, r, asked, now, a)
    case BadSetup(session) =>
      if session.None? then Nothing(r, false) else SendReject(r, session.value, InvalidArgument, a)
    case ProbeMsg(id) =>
      if !r.Open() || id != r.setup.sessionId then Nothing(r, true)
      else SendAck(c, r.(lastActivity := now), a)
    case DatagramMsg(payload) => Outcome(r, [Datagram(payload)], true, Sent)
    case AbortMsg(id) =>
      if r.phase != Active || id != r.setup.sessionId then Nothing(r, true)
      else Outcome(r.(phase := Aborted), [AbortedBy(Peer)], true, Sent)
    case AckMsg(_, _, _, _) => Nothing(r, false)
    case RejectMsg(_, _) => Nothing(r, false)
    case BadBody(_) => Nothing(r, false)
    case BadControl => Nothing(r, false)
  }

  predicate Expired(c: Config, r: Receiver, now: u32) {
    r.phase == Active && c.timeout != 0 && Since(now, r.lastActivity) >= c.timeout
  }

  datatype Step = Step(next: Receiver, events: seq<Event>, result: ProcessResult)

  function Poll(c: Config, r: Receiver, now: u32): Step {
    if Expired(c, r, now) then Step(r.(phase := Error), [Failed(InactivityTimeout)], Failure)
    else Step(r, [], IsIdle)
  }

  ghost function Process(c: Config, r: Receiver, m: Message, now: u32, a: Answers): Step {
    if Expired(c, r, now) then Poll(c, r, now)
    else
      var o := OnMessage(c, r, m, now, a);
      Step(o.next, o.events, if !o.handled then Failure else if o.sent == Full then Blocked else Progress)
  }

  /** A local abort: the notice to the peer is attempted, its admission does not matter. */
  function AbortLocally(r: Receiver, a: Answers): (Receiver, seq<Event>, SendResult) {
    if r.phase != Active then (r, [], InvalidState)
    else
      var pdu := if a.prepared then [Pdu(AbortMsg(r.setup.sessionId), a.send)] else [];
      (r.(phase := Aborted), pdu + [AbortedBy(Local)], if a.prepared then a.send else TooLarge)
  }

  /** A call on the engine: a PDU, a timer poll, or a local abort. */
  datatype Call = Deliver(m: Message, now: u32, a: Answers) | Check(now: u32) | Cancel(a: Answers)

  /** An abort reports its send result; as a step it is idle exactly when there was nothing to abort. */
  function AbortResult(sent: SendResult): ProcessResult { if sent == InvalidState then IsIdle else Progress }

  ghost function Apply(c: Config, r: Receiver, call: Call): Step {
    match call
    case Deliver(m, now, a) => Process(c, r, m, now, a)
    case Check(now) => Poll(c, r, now)
    case Cancel(a) => var (next, events, sent) := AbortLocally(r, a); Step(next, events, AbortResult(sent))
  }

  /** What a caller sees of one call. */
  datatype Seen = Seen(events: seq<Event>, result: ProcessResult, phase: TransferState)

  /** The machine over a sequence of calls, and what is seen of each of them. */
  ghost function Run(c: Config, r: Receiver, calls: seq<Call>): (Receiver, seq<Seen>) {
    if calls == [] then (r, [])
    else
      var (before, trace) := Run(c, r, calls[..|calls| - 1]);
      var step := Apply(c, before, calls[|calls| - 1]);
      (step.next, trace + [Seen(step.events, step.result, step.next.phase)])
  }

  /** The state of a receiver that has only ever run this machine. */
  ghost predicate Sound(c: Config, r: Receiver) {
    && (r.phase == Idle ==> r.accepted == {})
    && r.phase != Starting && r.phase != Rejected
    && (r.phase != Idle ==>
          && 1 <= c.width <= WINDOW
          && 0 < r.setup.finalSize <= r.setup.segmentSize
          && (forall i | i in r.accepted :: i < r.GrantedEnd(c)))
    && (r.phase == Active ==> r.Frontier() < r.Count())
    && (r.phase == Completed ==> r.Frontier() == r.Count())
  }

  lemma {:induction false} FrontierGrows(s: set<nat>, t: set<nat>, i: nat, n: nat)
    requires s <= t
    ensures FirstMissing(s, i, n) <= FirstMissing(t, i, n)
    decreases n - i
  {
    if i < n && i in s {
      FrontierGrows(s, t, i + 1, n);
    } else if i < n {
      FirstMissingIs(t, i, n);
    }
  }

  lemma StoredSound(c: Config, r: Receiver, index: nat)
    requires Sound(c, r) && r.phase == Active && index < r.GrantedEnd(c)
    ensures Sound(c, Stored(r, index))
    ensures r.Frontier() <= Stored(r, index).Frontier() <= r.GrantedEnd(c) <= Stored(r, index).GrantedEnd(c)
  {
    FirstMissingIs(r.accepted, 0, r.Count());
    FirstMissingIs(r.accepted + {index}, 0, r.Count());
    FrontierGrows(r.accepted, r.accepted + {index}, 0, r.Count());
    var m := Stored(r, index).Frontier();
    assert forall k: nat | k < m :: k in r.accepted + {index};
    assert r.GrantedEnd(c) !in r.accepted + {index};
  }
}
