/**
 * The receiver state machine, field by field. limit is the window the build allows: at 1 the build
 * keeps a running object offset in place of the receive register and takes the shorter branches.
 */
module ReceiverEngine {
  import opened Integers
  import opened Protocol
  import opened ReceiverSpec
  import B = Bitmap16

  /** An index below count, or one whose bit is set in the register based at count. */
  ghost predicate InWindow(count: nat, bits: set<nat>, i: nat) {
    i < count || i - count in bits
  }

  ghost predicate IsWindow(s: set<nat>, count: nat, bits: set<nat>) {
    forall i: nat :: i in s <==> InWindow(count, bits, i)
  }

  lemma AddToWindow(s: set<nat>, count: nat, bits: set<nat>, offset: nat, wider: set<nat>)
    requires IsWindow(s, count, bits) && wider == bits + {offset}
    ensures IsWindow(s + {count + offset}, count, wider)
  {
    forall i: nat ensures i in s + {count + offset} <==> InWindow(count, wider, i) {
      assert i in s <==> InWindow(count, bits, i);
    }
  }

  lemma SlideWindow(s: set<nat>, count: nat, bits: set<nat>, shifted: set<nat>)
    requires IsWindow(s, count, bits) && 0 in bits
    requires forall i: nat :: i in shifted <==> i + 1 in bits
    ensures IsWindow(s, count + 1, shifted)
  {
    forall i: nat ensures i in s <==> InWindow(count + 1, shifted, i) {
      assert i in s <==> InWindow(count, bits, i);
      if i > count { assert i - count - 1 in shifted <==> i - count in bits; }
    }
  }

  /** With no bits set the accepted set is a prefix, and one more makes the next prefix. */
  lemma NextInOrder(s: set<nat>, count: nat, bits: set<nat>, total: nat)
    requires IsWindow(s, count, bits) && bits == {} && count < total
    ensures IsWindow(s + {count}, count + 1, bits)
    ensures FirstMissing(s + {count}, 0, total) == count + 1
  {
    forall i: nat ensures i in s + {count} <==> InWindow(count + 1, bits, i) {
      assert i in s <==> InWindow(count, bits, i);
    }
    var next := count + 1;
    assert forall k: nat | k < next :: InWindow(next, bits, k);
    assert !InWindow(count + 1, bits, count + 1);
    FirstMissingUnique(s + {count}, total, count + 1);
  }

  /** The registers stand for the accepted set of r. */
  ghost predicate Represents(c: Config, r: Receiver, total: nat, count: nat, bitmap: nat, end: nat) {
    && c.width <= WINDOW
    && Sound(c, r)
    && bitmap < 0x1_0000
    && IsWindow(r.accepted, count, B.Bits(bitmap))
    && (r.phase != Idle ==> total == r.Count() && count == r.Frontier() && end == r.GrantedEnd(c))
  }

  /** The acknowledgement encoded from the masked register is the one of the accepted set. */
  lemma AckMatches(c: Config, r: Receiver, total: nat, count: nat, bitmap: nat, end: nat, masked: u16)
    requires Represents(c, r, total, count, bitmap, end) && r.phase != Idle && count <= end <= count + WINDOW
    requires forall i: nat :: i in B.Bits(masked) <==> i in B.Bits(bitmap) && i < end - count
    ensures AckOf(c, r) == AckMsg(
      r.setup.sessionId, masked,
      if end > count then SequenceFor(r.setup, end - 1) else BaseSequence(r.setup, count),
      BaseSequence(r.setup, count))
  {
    var s := Offsets(r.accepted, count, end - count);
    forall i: nat ensures i in B.Bits(masked) <==> i < WINDOW && i in s {
      if i in s { assert count + i in r.accepted; assert InWindow(count, B.Bits(bitmap), count + i); }
      if i in B.Bits(masked) { assert InWindow(count, B.Bits(bitmap), count + i); }
    }
    B.RegisterOf(s, masked);
  }

  /** Width one: the base, and the next sequence number unless the object is complete. */
  lemma NarrowAckMatches(c: Config, r: Receiver, total: nat, count: nat, bitmap: nat, end: nat)
    requires Represents(c, r, total, count, bitmap, end) && r.phase != Idle
    requires c.width == 1 && B.Bits(bitmap) == {}
    ensures var base := (r.setup.initialSequence + count % 0x100 - 1) % 0x100;
            AckOf(c, r) == AckMsg(r.setup.sessionId, 0, if count < total then (base + 1) % 0x100 else base, base)
  {
    FirstMissingIs(r.accepted, 0, r.Count());
    B.NoBits(0);
    AckMatches(c, r, total, count, bitmap, end, 0);
    NarrowSequence(r.setup, count);
  }

  lemma NarrowSequence(setup: Setup, count: nat)
    ensures var base := (setup.initialSequence + count % 0x100 - 1) % 0x100;
            BaseSequence(setup, count) == base && SequenceFor(setup, count) == (base + 1) % 0x100
  {
    var turns := count / 0x100;
    assert count == 0x100 * turns + count % 0x100;
    BaseIs(setup, count);
    WholeTurns(setup.initialSequence + count % 0x100 - 1, turns);
    OneFurther(setup.initialSequence + count % 0x100 - 1);
  }

  lemma WholeTurns(x: int, turns: nat)
    ensures (x + 0x100 * turns) % 0x100 == x % 0x100
  {}

  lemma OneFurther(x: int)
    ensures (x + 1) % 0x100 == (x % 0x100 + 1) % 0x100
  {}

  lemma Renamed(c: Config, r: Receiver, total: nat, count: nat, bitmap: nat, end: nat, s: Receiver)
    requires Represents(c, r, total, count, bitmap, end)
    requires s.setup == r.setup && s.accepted == r.accepted
    requires s.phase == r.phase || (r.phase == Active && (s.phase == Error || s.phase == Aborted))
    ensures Represents(c, s, total, count, bitmap, end)
  {}

  class Engine {
    const limit: nat
    const config: Config
    var state: TransferState
    var setup: Setup
    var lastSend: SendResult
    var lastActivity: u32
    var segmentCount: nat
    var contiguousCount: nat
    var grantedEnd: nat
    var receiveBitmap: u16
    var nextObjectOffset: nat
    ghost var model: Receiver

    /** The fields agree with the set of accepted segments they stand for. */
    ghost predicate Valid()
      reads this
    {
      && state == model.phase && setup == model.setup && lastActivity == model.lastActivity
      && Represents(config, model, segmentCount, contiguousCount, receiveBitmap, grantedEnd)
      && 1 <= limit <= WINDOW && config.width <= limit
      && (limit == 1 ==> NarrowValid())
    }

    ghost predicate NarrowValid()
      reads this
    {
      && B.Bits(receiveBitmap) == {}
      && (state == Active ==> nextObjectOffset == setup.OffsetOf(contiguousCount))
    }

    constructor (buildLimit: nat, requested: Config)
      requires 1 <= buildLimit <= WINDOW
      ensures Valid() && model == IDLE
      ensures limit == buildLimit && config == requested.(width := Min(requested.width, buildLimit))
    {
      limit := buildLimit;
      config := if requested.width > buildLimit then requested.(width := buildLimit) else requested;
      state, setup, lastSend, lastActivity := Idle, NO_SETUP, Sent, 0;
      segmentCount, contiguousCount, grantedEnd, receiveBitmap, nextObjectOffset := 0, 0, 0, 0, 0;
      model := IDLE;
      new;
      B.NoBits(0);
    }

    method SendFailure(why: FailureReason) returns (events: seq<Event>)
      requires Valid()
      modifies this`state, this`model
      ensures Valid()
      ensures model == if old(model).phase == Active then old(model).(phase := Error) else old(model)
      ensures events == if old(model).phase == Active then [Failed(why)] else []
    {
      events := [];
      if state == Active {
        Renamed(config, model, segmentCount, contiguousCount, receiveBitmap, grantedEnd, model.(phase := Error));
        state := Error;
        model := model.(phase := Error);
        events := [Failed(why)];
      }
    }

    /** The acknowledgement of the current window. */
    method Acknowledgement() returns (ack: Message)
      requires Valid() && model.Open()
      ensures ack == AckOf(config, model)
    {
      if limit == 1 {
        ack := NarrowAcknowledgement();
        return;
      }
      FirstMissingIs(model.accepted, 0, model.Count());
      var base := BaseSequence(setup, contiguousCount);
      var maximum := if grantedEnd > contiguousCount then SequenceFor(setup, grantedEnd - 1) else base;
      var mask := B.LowMask16(grantedEnd - contiguousCount);
      var bitmap := B.And16(receiveBitmap, mask);
      AckMatches(config, model, segmentCount, contiguousCount, receiveBitmap, grantedEnd, bitmap);
      ack := AckMsg(setup.sessionId, bitmap, maximum, base);
    }

    /** Width one: the base, and the next sequence number unless the object is complete. */
    method NarrowAcknowledgement() returns (ack: Message)
      requires Valid() && model.Open() && limit == 1
      ensures ack == AckOf(config, model)
    {
      NarrowAckMatches(config, model, segmentCount, contiguousCount, receiveBitmap, grantedEnd);
      var base := (setup.initialSequence + contiguousCount % 0x100 - 1) % 0x100;
      var top := if contiguousCount < segmentCount then (base + 1) % 0x100 else base;
      ack := AckMsg(setup.sessionId, 0, top, base);
    }

    method SendAcknowledgement(a: Answers) returns (handled: bool, events: seq<Event>)
      requires Valid() && model.Open()
      modifies this`state, this`lastSend, this`model
      ensures Valid()
      ensures Outcome(model, events, handled, lastSend) == SendAck(config, old(model), a)
    {
      var ack := Acknowledgement();
      handled, events := PostAcknowledgement(ack, a);
    }

    method PostAcknowledgement(ack: Message, a: Answers) returns (handled: bool, events: seq<Event>)
      requires Valid()
      modifies this`state, this`lastSend, this`model
      ensures Valid()
      ensures Outcome(model, events, handled, lastSend) == Post(old(model), ack, a)
    {
      if !a.prepared {
        lastSend := TooLarge;
        events := SendFailure(SendFailed);
        return false, events;
      }
      lastSend := a.send;
      events := [Pdu(ack, a.send)];
      handled := lastSend == Sent || lastSend == Full;
      if !handled {
        var failed := SendFailure(SendFailed);
        events := events + failed;
      }
    }

    method SendRejection(sessionId: u8, reason: RejectReason, a: Answers) returns (handled: bool, events: seq<Event>)
      modifies this`lastSend
      ensures Outcome(model, events, handled, lastSend) == SendReject(model, sessionId, reason, a)
    {
      lastSend := TooLarge;
      if !a.prepared { return false, []; }
      lastSend := a.send;
      return lastSend == Sent || lastSend == Full, [Pdu(RejectMsg(sessionId, reason), a.send)];
    }

    /** Extend the grant to a full window past the cumulative count, as far as the object goes. */
    method UpdateGrant()
      requires config.width <= limit && limit <= WINDOW && (limit == 1 ==> config.width == 1)
      requires contiguousCount <= grantedEnd <= Min(segmentCount, contiguousCount + config.width)
      modifies this`grantedEnd
      ensures grantedEnd == Min(segmentCount, contiguousCount + config.width)
    {
      if limit == 1 {
        grantedEnd := if contiguousCount < segmentCount then contiguousCount + 1 else contiguousCount;
        return;
      }
      var span := grantedEnd - contiguousCount;
      var mask := B.LowMask16(span);
      var held := B.And16(receiveBitmap, mask);
      var received := B.PopCount16(held);
      SubsetSize(B.Bits(held), UpTo(span));
      var unreceived := span - received;
      while grantedEnd < segmentCount && span < config.width && unreceived < config.width
        invariant span == grantedEnd - contiguousCount && unreceived <= span
        invariant grantedEnd <= Min(segmentCount, contiguousCount + config.width)
      {
        grantedEnd := grantedEnd + 1;
        span := span + 1;
        unreceived := unreceived + 1;
      }
    }

    /** Count the segments at the low end of the register and move its base past them. */
    method Slide(ghost accepted: set<nat>)
      requires IsWindow(accepted, contiguousCount, B.Bits(receiveBitmap))
      requires forall i | i in accepted :: i < segmentCount
      requires contiguousCount <= segmentCount
      modifies this`receiveBitmap, this`contiguousCount
      ensures IsWindow(accepted, contiguousCount, B.Bits(receiveBitmap))
      ensures contiguousCount == FirstMissing(accepted, 0, segmentCount)
    {
      while receiveBitmap % 2 == 1
        invariant IsWindow(accepted, contiguousCount, B.Bits(receiveBitmap))
        invariant contiguousCount <= segmentCount
        decreases segmentCount - contiguousCount
      {
        assert B.Bit(receiveBitmap, 0);
        assert contiguousCount in accepted by { assert InWindow(contiguousCount, B.Bits(receiveBitmap), contiguousCount); }
        var shifted := B.ShiftRight16(receiveBitmap, 1);
        SlideWindow(accepted, contiguousCount, B.Bits(receiveBitmap), B.Bits(shifted));
        receiveBitmap := shifted;
        contiguousCount := contiguousCount + 1;
      }
      assert contiguousCount !in accepted by {
        assert !B.Bit(receiveBitmap, 0);
        assert !InWindow(contiguousCount, B.Bits(receiveBitmap), contiguousCount);
      }
      assert forall k: nat | k < contiguousCount :: InWindow(contiguousCount, B.Bits(receiveBitmap), k);
      FirstMissingUnique(accepted, segmentCount, contiguousCount);
    }

    /** Record a segment the sink has taken, slide the window over the gap it closes, and extend the grant. */
    method Record(offset: nat)
      requires Valid() && model.phase == Active && limit > 1
      requires contiguousCount + offset < grantedEnd && offset < WINDOW
      modifies this`receiveBitmap, this`contiguousCount, this`grantedEnd, this`model
      ensures model == Stored(old(model), old(contiguousCount) + offset)
      ensures Represents(config, model, segmentCount, contiguousCount, receiveBitmap, grantedEnd)
      ensures contiguousCount == segmentCount <==> model.phase == Completed
    {
      ghost var before := model;
      ghost var accepted := model.accepted + {contiguousCount + offset};
      FirstMissingIs(before.accepted, 0, before.Count());
      var bit := B.Single16(offset);
      receiveBitmap := B.Or16(receiveBitmap, bit);
      AddToWindow(before.accepted, contiguousCount, old(B.Bits(receiveBitmap)), offset, B.Bits(receiveBitmap));
      StoredSound(config, before, contiguousCount + offset);
      Slide(accepted);
      UpdateGrant();
      model := Stored(before, old(contiguousCount) + offset);
    }

    /** Width one: the next segment is the only one there is to record. */
    method RecordNext(payload: seq<byte>)
      requires Valid() && model.phase == Active && limit == 1
      requires |payload| == setup.SizeOf(contiguousCount)
      modifies this`contiguousCount, this`nextObjectOffset, this`grantedEnd, this`model
      ensures model == Stored(old(model), old(contiguousCount))
      ensures Represents(config, model, segmentCount, contiguousCount, receiveBitmap, grantedEnd)
      ensures contiguousCount == segmentCount <==> model.phase == Completed
      ensures model.phase == Active ==> nextObjectOffset == setup.OffsetOf(contiguousCount)
    {
      ghost var before := model;
      FirstMissingIs(before.accepted, 0, before.Count());
      StoredSound(config, before, contiguousCount);
      contiguousCount := contiguousCount + 1;
      nextObjectOffset := nextObjectOffset + |payload|;
      model := Stored(before, old(contiguousCount));
      NextInOrder(before.accepted, old(contiguousCount), B.Bits(receiveBitmap), segmentCount);
      UpdateGrant();
    }

    /** Whether a segment of the object is inside the grant and not yet with the sink. */
    method IsWanted(index: nat) returns (wanted: bool)
      requires Valid() && model.Open()
      ensures wanted <==> !(model.phase == Completed || index >= model.GrantedEnd(config) || index in model.accepted)
    {
      FirstMissingIs(model.accepted, 0, model.Count());
      assert index in model.accepted <==> InWindow(contiguousCount, B.Bits(receiveBitmap), index);
      if index < contiguousCount {
        return false;
      }
      if limit == 1 {
        return state != Completed && index < grantedEnd && index == contiguousCount;
      }
      if state == Completed || index >= grantedEnd || index - contiguousCount >= config.width {
        return false;
      }
      var bit := B.Single16(index - contiguousCount);
      var seen := B.And16(receiveBitmap, bit);
      wanted := B.IsZero16(seen);
      assert index - contiguousCount in B.Bits(seen) <==> index - contiguousCount in B.Bits(receiveBitmap);
    }

    method HandleSegment(id: u8, index: u16, payload: seq<byte>, now: u32, a: Answers)
      returns (handled: bool, events: seq<Event>)
      requires Valid() && lastSend == Sent
      modifies this
      ensures Valid()
      ensures Outcome(model, events, handled, lastSend) == OnSegment(config, old(model), id, index, payload, now, a)
    {
      if (state != Active && state != Completed) || id != setup.sessionId || index >= segmentCount {
        return true, [];
      }
      if |payload| != setup.SizeOf(index) {
        return false, [];
      }
      if index < grantedEnd {
        lastActivity := now;
        model := model.(lastActivity := now);
        Renamed(config, old(model), segmentCount, contiguousCount, receiveBitmap, grantedEnd, model);
      }
      var wanted := IsWanted(index);
      if !wanted {
        handled, events := SendAcknowledgement(a);
      } else {
        handled, events := StoreSegment(index, payload, a);
      }
    }

    method ObjectOffset(index: nat) returns (offset: nat)
      requires Valid() && model.phase == Active && model.Frontier() <= index < model.GrantedEnd(config)
      ensures offset == model.setup.OffsetOf(index)
    {
      if limit == 1 {
        return nextObjectOffset;
      }
      setup.OffsetIs(index);
      offset := index * setup.segmentSize;
    }

    /** Offer the segment to the sink; once it is taken, record, complete and acknowledge. */
    method StoreSegment(index: u16, payload: seq<byte>, a: Answers) returns (handled: bool, events: seq<Event>)
      requires Valid() && model.phase == Active && lastSend == Sent
      requires model.Frontier() <= index < model.GrantedEnd(config) && |payload| == model.setup.SizeOf(index)
      modifies this
      ensures Valid()
      ensures Outcome(model, events, handled, lastSend) == OfferSegment(config, old(model), index, payload, a)
    {
      var objectOffset := ObjectOffset(index);
      events := [Store(objectOffset, payload, a.sinkAccepts)];
      if !a.sinkAccepts {
        var failed := SendFailure(SinkRejected);
        return false, events + failed;
      }
      Receive(index, payload);
      if state == Completed {
        events := events + [Complete];
      }
      var acknowledged;
      handled, acknowledged := SendAcknowledgement(a);
      events := events + acknowledged;
    }

    method Receive(index: nat, payload: seq<byte>)
      requires Valid() && model.phase == Active
      requires model.Frontier() <= index < model.GrantedEnd(config) && |payload| == model.setup.SizeOf(index)
      modifies this
      ensures Valid() && model == Stored(old(model), index) && lastSend == old(lastSend)
    {
      if limit == 1 {
        RecordNext(payload);
      } else {
        Record(index - contiguousCount);
      }
      Settle();
    }

    /** The transfer is complete when everything is counted. */
    method Settle()
      requires Represents(config, model, segmentCount, contiguousCount, receiveBitmap, grantedEnd)
      requires state == Active && setup == model.setup && lastActivity == model.lastActivity
      requires 1 <= limit <= WINDOW && config.width <= limit
      requires model.phase == if contiguousCount == segmentCount then Completed else Active
      requires limit == 1 ==> B.Bits(receiveBitmap) == {}
      requires limit == 1 && model.phase == Active ==> nextObjectOffset == setup.OffsetOf(contiguousCount)
      modifies this`state
      ensures Valid()
    {
      if contiguousCount == segmentCount {
        state := Completed;
      }
    }

    method HandleSetup(asked: Setup, now: u32, a: Answers) returns (handled: bool, events: seq<Event>)
      requires Valid() && lastSend == Sent
      modifies this
      ensures Valid()
      ensures Outcome(model, events, handled, lastSend) == OnSetup(config, old(model), asked, now, a)
    {
      if asked.segmentSize == 0 || asked.finalSize == 0 || asked.finalSize > asked.segmentSize {
        handled, events := SendRejection(asked.sessionId, InvalidArgument, a);
        return;
      }
      var totalSize := asked.ComputeTotalSize();
      if totalSize > config.maximumObjectSize {
        handled, events := SendRejection(asked.sessionId, ObjectTooLarge, a);
        return;
      }
      if config.width == 0 || asked.segmentSize > config.maximumSegmentSize {
        handled, events := SendRejection(asked.sessionId, UnsupportedSegmentSize, a);
        return;
      }
      if state == Active {
        if setup == asked {
          lastActivity := now;
          model := model.(lastActivity := now);
          Renamed(config, old(model), segmentCount, contiguousCount, receiveBitmap, grantedEnd, model);
          handled, events := SendAcknowledgement(a);
        } else {
          handled, events := SendRejection(asked.sessionId, RejectBusy, a);
        }
        return;
      }
      handled, events := AskService(asked, totalSize, now, a);
    }

    method AskService(asked: Setup, totalSize: nat, now: u32, a: Answers) returns (handled: bool, events: seq<Event>)
      requires totalSize == asked.TotalSize()
      requires Valid() && lastSend == Sent && model.phase != Active
      requires 1 <= config.width && 0 < asked.finalSize <= asked.segmentSize
      modifies this
      ensures Valid()
      ensures Outcome(model, events, handled, lastSend) == Admit(config, old(model), asked, now, a)
    {
      events := [Begin(asked.sessionId, totalSize, asked.segmentSize, a.admission)];
      var answered;
      if a.admission != AdmitAccepted {
        var reason := if a.admission == AdmitBusy then RejectBusy
                      else if a.admission == AdmitTooLarge then ObjectTooLarge else InvalidArgument;
        handled, answered := SendRejection(asked.sessionId, reason, a);
      } else {
        Open(asked, now);
        handled, answered := SendAcknowledgement(a);
      }
      events := events + answered;
    }

    /** A fresh transfer with nothing received and the first grant made. */
    method Open(asked: Setup, now: u32)
      requires Valid() && 1 <= config.width && 0 < asked.finalSize <= asked.segmentSize
      modifies this
      ensures Valid() && model == Receiver(Active, asked, {}, now)
      ensures lastSend == old(lastSend)
    {
      setup := asked;
      segmentCount := asked.SegmentCount();
      contiguousCount := 0;
      grantedEnd := 0;
      receiveBitmap := 0;
      nextObjectOffset := 0;
      state := Active;
      lastActivity := now;
      B.NoBits(0);
      FirstMissingUnique({}, segmentCount, 0);
      UpdateGrant();
      model := Receiver(Active, asked, {}, now);
    }

    method HandleMessage(m: Message, now: u32, a: Answers) returns (handled: bool, events: seq<Event>)
      requires Valid() && lastSend == Sent
      modifies this
      ensures Valid()
      ensures Outcome(model, events, handled, lastSend) == OnMessage(config, old(model), m, now, a)
    {
      handled, events := false, [];
      match m
      case SegmentMsg(id, index, payload) => handled, events := HandleSegment(id, index, payload, now, a);
      case SetupMsg(asked) => handled, events := HandleSetup(asked, now, a);
      case BadSetup(session) =>
        if session.Some? { handled, events := SendRejection(session.value, InvalidArgument, a); }
      case ProbeMsg(id) =>
        if (state != Active && state != Completed) || id != setup.sessionId { return true, []; }
        lastActivity := now;
        model := model.(lastActivity := now);
        Renamed(config, old(model), segmentCount, contiguousCount, receiveBitmap, grantedEnd, model);
        handled, events := SendAcknowledgement(a);
      case DatagramMsg(payload) => handled, events := true, [Datagram(payload)];
      case AbortMsg(id) => handled, events := HandleAbort(id);
      case AckMsg(_, _, _, _) =>
      case RejectMsg(_, _) =>
      case BadBody(_) =>
      case BadControl =>
    }

    method HandleAbort(id: u8) returns (handled: bool, events: seq<Event>)
      requires Valid() && lastSend == Sent
      modifies this`state, this`model
      ensures Valid()
      ensures forall c, now, a :: Outcome(model, events, handled, lastSend) == OnMessage(c, old(model), AbortMsg(id), now, a)
    {
      if state != Active || id != setup.sessionId {
        return true, [];
      }
      Renamed(config, model, segmentCount, contiguousCount, receiveBitmap, grantedEnd, model.(phase := Aborted));
      state := Aborted;
      model := model.(phase := Aborted);
      return true, [AbortedBy(Peer)];
    }

    method CheckExpiry(now: u32) returns (result: ProcessResult, events: seq<Event>)
      requires Valid()
      modifies this`state, this`model
      ensures Valid()
      ensures Step(model, events, result) == Poll(config, old(model), now)
    {
      if state != Active || config.timeout == 0 || Since(now, lastActivity) < config.timeout {
        return IsIdle, [];
      }
      events := SendFailure(InactivityTimeout);
      result := Failure;
    }

    method Consume(m: Message, now: u32, a: Answers) returns (result: ProcessResult, events: seq<Event>)
      requires Valid()
      modifies this
      ensures Valid()
      ensures Step(model, events, result) == Process(config, old(model), m, now, a)
    {
      result, events := CheckExpiry(now);
      if result == Failure { return; }
      lastSend := Sent;
      var handled;
      handled, events := HandleMessage(m, now, a);
      if !handled { return Failure, events; }
      result := if lastSend == Full then Blocked else Progress;
    }

    method Abort(a: Answers) returns (result: SendResult, events: seq<Event>)
      requires Valid()
      modifies this`state, this`lastSend, this`model
      ensures Valid()
      ensures (model, events, result) == AbortLocally(old(model), a)
    {
      if state != Active { return InvalidState, []; }
      lastSend := TooLarge;
      events := [];
      if a.prepared {
        lastSend := a.send;
        events := [Pdu(AbortMsg(setup.sessionId), a.send)];
      }
      Renamed(config, model, segmentCount, contiguousCount, receiveBitmap, grantedEnd, model.(phase := Aborted));
      state := Aborted;
      model := model.(phase := Aborted);
      return lastSend, events + [AbortedBy(Local)];
    }

    method Perform(call: Call) returns (result: ProcessResult, events: seq<Event>)
      requires Valid()
      modifies this
      ensures Valid()
      ensures Step(model, events, result) == Apply(config, old(model), call)
    {
      match call
      case Deliver(m, now, a) => result, events := Consume(m, now, a);
      case Check(now) => result, events := CheckExpiry(now);
      case Cancel(a) =>
        var sent;
        sent, events := Abort(a);
        result := AbortResult(sent);
    }

    /** Any sequence of calls does what the set-based machine does on the same calls. */
    method Drive(calls: seq<Call>) returns (trace: seq<Seen>)
      requires Valid()
      modifies this
      ensures Valid()
      ensures (model, trace) == Run(config, old(model), calls)
    {
      trace := [];
      for i := 0 to |calls|
        invariant Valid()
        invariant (model, trace) == Run(config, old(model), calls[..i])
      {
        assert calls[..i + 1][..|calls[..i + 1]| - 1] == calls[..i];
        var result, events := Perform(calls[i]);
        trace := trace + [Seen(events, result, state)];
      }
      assert calls[..|calls|] == calls;
    }
  }

  /** The width-one build and the general build told to use width one behave the same. */
  method SameBehaviour(narrow: Engine, wide: Engine, calls: seq<Call>)
    returns (left: seq<Seen>, right: seq<Seen>)
    requires narrow != wide && narrow.limit == 1 && wide.limit > 1 && narrow.config == wide.config
    requires narrow.Valid() && wide.Valid() && narrow.model == wide.model
    modifies narrow, wide
    ensures left == right && narrow.model == wide.model
  {
    left := narrow.Drive(calls);
    right := wide.Drive(calls);
  }
}
