/** When a receiver answers with a REJECT, and what becomes of a SETUP that it cannot take. */
module ReceiverRefusals {
  import opened Integers
  import opened Protocol
  import opened ReceiverSpec
  import opened ReceiverRuns

  /** The call is on an engine that handles a message and has a packet to answer in. */
  predicate CanAnswer(c: Config, r: Receiver, call: Call) {
    call.Deliver? && !Expired(c, r, call.now) && call.a.prepared
  }

  predicate SizesMakeSense(asked: Setup) { 0 < asked.finalSize <= asked.segmentSize }

  /** Each refusal by itself: a size that makes no sense, an object too large, a segment too large, a transfer under way. */
  lemma ReasonIs(c: Config, r: Receiver, asked: Setup)
    ensures Refusal(c, r, asked) == Some(InvalidArgument) <==> !SizesMakeSense(asked)
    ensures Refusal(c, r, asked) == Some(ObjectTooLarge) <==> SizesMakeSense(asked) && asked.TotalSize() > c.maximumObjectSize
    ensures Refusal(c, r, asked) == Some(UnsupportedSegmentSize) <==>
      && SizesMakeSense(asked) && asked.TotalSize() <= c.maximumObjectSize
      && (c.width == 0 || asked.segmentSize > c.maximumSegmentSize)
    ensures Refusal(c, r, asked) == Some(RejectBusy) <==> Acceptable(c, asked) && r.phase == Active && asked != r.setup
    ensures Refusal(c, r, asked) == None <==> Acceptable(c, asked) && (r.phase == Active ==> asked == r.setup)
  {}

  /** And each reason the service's own refusal is passed on with. */
  lemma AdmissionIs()
    ensures AdmissionReason(AdmitBusy) == RejectBusy && AdmissionReason(AdmitTooLarge) == ObjectTooLarge
    ensures AdmissionReason(AdmitRejected) == InvalidArgument
  {}

  /** The session and reason of the REJECT that a message calls for, if it calls for one. */
  function Called(c: Config, r: Receiver, m: Message, admission: Admission): Option<(u8, RejectReason)> {
    match m
    case BadSetup(Some(id)) => Some((id, InvalidArgument))
    case SetupMsg(asked) =>
      if Refusal(c, r, asked).Some? then Some((asked.sessionId, Refusal(c, r, asked).value))
      else if r.phase != Active && admission != AdmitAccepted then Some((asked.sessionId, AdmissionReason(admission)))
      else None
    case _ => None
  }

  predicate IsReject(e: Event) { e.Pdu? && e.message.RejectMsg? }

  ghost predicate Rejects(c: Config, r: Receiver, call: Call) { exists e | e in Apply(c, r, call).events :: IsReject(e) }

  ghost predicate Replies(c: Config, r: Receiver, call: Call) { exists e | e in Apply(c, r, call).events :: e.Pdu? }

  lemma PostIsNoReject(r: Receiver, ack: Message, a: Answers)
    requires ack.AckMsg?
    ensures forall e | e in Post(r, ack, a).events :: !IsReject(e)
  {}

  lemma SegmentIsNotRejected(c: Config, r: Receiver, id: u8, index: u16, payload: seq<byte>, now: u32, a: Answers)
    ensures forall e | e in OnSegment(c, r, id, index, payload, now, a).events :: !IsReject(e)
  {
    var r1 := if index < r.GrantedEnd(c) then r.(lastActivity := now) else r;
    PostIsNoReject(r1, AckOf(c, r1), a);
    PostIsNoReject(Stored(r1, index), AckOf(c, Stored(r1, index)), a);
  }

  lemma RejectIs(r: Receiver, id: u8, reason: RejectReason, a: Answers, first: seq<Event>)
    requires forall e | e in first :: !e.Pdu?
    ensures var o := After(first, SendReject(r, id, reason, a));
      && o.next == r
      && o.events == first + (if a.prepared then [Pdu(RejectMsg(id, reason), a.send)] else [])
      && ((exists e | e in o.events :: IsReject(e)) <==> a.prepared)
  {
    if a.prepared {
      var o := After(first, SendReject(r, id, reason, a));
      assert o.events[|first|] == Pdu(RejectMsg(id, reason), a.send) && IsReject(o.events[|first|]);
    }
  }

  /** A refused SETUP is answered last, after the service was asked if it was. */
  lemma SetupRefused(c: Config, r: Receiver, asked: Setup, now: u32, a: Answers)
    ensures var o, called := OnSetup(c, r, asked, now, a), Called(c, r, SetupMsg(asked), a.admission);
      && ((exists e | e in o.events :: IsReject(e)) <==> a.prepared && called.Some?)
      && (called.Some? ==> o.next == r)
      && (a.prepared && called.Some? ==>
            o.events != [] && o.events[|o.events| - 1] == Pdu(RejectMsg(called.value.0, called.value.1), a.send)
            && forall e | e in o.events[..|o.events| - 1] :: !e.Pdu?)
  {
    var begin := [Begin(asked.sessionId, asked.TotalSize(), asked.segmentSize, a.admission)];
    match Refusal(c, r, asked)
    case Some(reason) =>
      RejectIs(r, asked.sessionId, reason, a, []);
      assert [] + SendReject(r, asked.sessionId, reason, a).events == SendReject(r, asked.sessionId, reason, a).events;
    case None =>
      if r.phase == Active {
        PostIsNoReject(r.(lastActivity := now), AckOf(c, r.(lastActivity := now)), a);
      } else if a.admission == AdmitAccepted {
        var started := Receiver(Active, asked, {}, now);
        PostIsNoReject(started, AckOf(c, started), a);
      } else {
        RejectIs(r, asked.sessionId, AdmissionReason(a.admission), a, begin);
      }
  }

  /**
   * A call is answered with a REJECT exactly when the engine handles a message that calls for one and has a
   * packet to answer in. It is then the call's last event and only PDU, it has the session and reason the
   * message calls for, and the receiver is left as it was.
   */
  lemma RejectsIff(c: Config, r: Receiver, call: Call)
    ensures Rejects(c, r, call) <==> CanAnswer(c, r, call) && Called(c, r, call.m, call.a.admission).Some?
    ensures Rejects(c, r, call) ==>
      var s, called := Apply(c, r, call), Called(c, r, call.m, call.a.admission).value;
      && s.next == r
      && s.events[|s.events| - 1] == Pdu(RejectMsg(called.0, called.1), call.a.send)
      && forall e | e in s.events[..|s.events| - 1] :: !e.Pdu?
  {
    if call.Deliver? && !Expired(c, r, call.now) {
      match call.m
      case SetupMsg(asked) => SetupRefused(c, r, asked, call.now, call.a);
      case SegmentMsg(id, index, payload) => SegmentIsNotRejected(c, r, id, index, payload, call.now, call.a);
      case ProbeMsg(_) =>
        var r1 := r.(lastActivity := call.now);
        PostIsNoReject(r1, AckOf(c, r1), call.a);
      case BadSetup(session) =>
        if session.Some? && call.a.prepared {
          var events := Apply(c, r, call).events;
          assert events == [Pdu(RejectMsg(session.value, InvalidArgument), call.a.send)];
          assert IsReject(events[0]);
        }
      case _ =>
    }
  }

  // Malformed SETUPs, which the documentation has dropped.

  /** A SETUP control byte before something that is not a SETUP, or one with sizes no object can have. */
  predicate Malformed(m: Message) {
    match m
    case BadSetup(_) => true
    case SetupMsg(asked) => !(0 < asked.finalSize <= asked.segmentSize)
    case _ => false
  }

  predicate HasSession(m: Message) { m.SetupMsg? || (m.BadSetup? && m.session.Some?) }

  /** A malformed SETUP goes unanswered exactly when it has no session byte, or the engine cannot answer at all. */
  lemma MalformedIsDroppedIff(c: Config, r: Receiver, call: Call)
    requires call.Deliver? && Malformed(call.m)
    ensures !Replies(c, r, call) <==> !CanAnswer(c, r, call) || !HasSession(call.m)
    ensures !Expired(c, r, call.now) ==> Apply(c, r, call).next == r
  {
    RejectsIff(c, r, call);
    if call.m.SetupMsg? { SetupRefused(c, r, call.m.setup, call.now, call.a); }
  }

  /** One that is answered: to an idle receiver, with nothing but a session byte. */
  lemma MalformedIsAnswered(c: Config, id: u8)
    ensures var call := Deliver(BadSetup(Some(id)), 0, Answers(AdmitAccepted, true, true, Sent));
      Malformed(call.m) && Apply(c, IDLE, call).events == [Pdu(RejectMsg(id, InvalidArgument), Sent)]
  {}

  // A SETUP that conflicts with the transfer under way, which the documentation has dropped too.

  /** The receiver is in a transfer that the SETUP asks to change. */
  predicate Conflicts(c: Config, r: Receiver, call: Call) {
    call.Deliver? && call.m.SetupMsg? && r.phase == Active && call.m.setup != r.setup
  }

  /** A conflicting SETUP changes nothing; it goes unanswered exactly when the engine cannot answer at all. */
  lemma ConflictIsDroppedIff(c: Config, r: Receiver, call: Call)
    requires Conflicts(c, r, call)
    ensures !Replies(c, r, call) <==> !CanAnswer(c, r, call)
    ensures !Expired(c, r, call.now) ==> Apply(c, r, call).next == r
  {
    RejectsIff(c, r, call);
    SetupRefused(c, r, call.m.setup, call.now, call.a);
  }

  ghost predicate SaysBusy(c: Config, r: Receiver, call: Call) {
    exists e | e in Apply(c, r, call).events :: e.Pdu? && e.message.RejectMsg? && e.message.reason == RejectBusy
  }

  /**
   * The answer to a SETUP is REJECT(Busy) exactly when it could be taken but for a transfer under way that
   * it would change, or but for a service that says it is busy.
   */
  lemma BusyIff(c: Config, r: Receiver, call: Call)
    requires call.Deliver? && call.m.SetupMsg?
    ensures SaysBusy(c, r, call) <==>
      && CanAnswer(c, r, call) && Acceptable(c, call.m.setup)
      && if r.phase == Active then call.m.setup != r.setup else call.a.admission == AdmitBusy
  {
    RejectsIff(c, r, call);
    UnrefusedIff(c, r, call.m.setup);
    if Rejects(c, r, call) {
      var s := Apply(c, r, call);
      var last := s.events[|s.events| - 1];
      forall k | 0 <= k < |s.events| - 1 ensures !s.events[k].Pdu? {
        assert s.events[k] in s.events[..|s.events| - 1];
      }
      assert last in s.events;
    }
  }

  /** One that is answered with Busy, and one with the same session whose sizes are looked at first. */
  lemma ConflictIsAnswered(c: Config, r: Receiver, now: u32)
    requires r.phase == Active && Acceptable(c, r.setup) && !Expired(c, r, now)
    ensures var other := r.setup.(initialSequence := (r.setup.initialSequence + 1) % 0x100);
      Apply(c, r, Deliver(SetupMsg(other), now, Answers(AdmitAccepted, true, true, Sent))).events
      == [Pdu(RejectMsg(r.setup.sessionId, RejectBusy), Sent)]
    ensures Apply(c, r, Deliver(SetupMsg(r.setup.(finalSize := 0)), now, Answers(AdmitAccepted, true, true, Sent))).events
      == [Pdu(RejectMsg(r.setup.sessionId, InvalidArgument), Sent)]
  {
    var other := r.setup.(initialSequence := (r.setup.initialSequence + 1) % 0x100);
    other.OffsetIs(other.finalIndex);
    r.setup.OffsetIs(other.finalIndex);
  }
}
