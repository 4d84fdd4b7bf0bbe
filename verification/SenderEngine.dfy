/** The transmitter, field by field: counters, window registers and per-slot timers updated in place. */
module SenderEngine {
  import opened Integers
  import opened Forwarding
  import opened Protocol
  import opened SenderSpec
  import B = Bitmap16

  /** Slot o of the registers and arrays is about segment counted + o of the track. */
  ghost predicate Slots(t: Track, sent: set<nat>, acked: set<nat>, times: seq<u32>, retries: seq<u8>) {
    && |times| == WINDOW && |retries| == WINDOW
    && (forall o: nat :: o in sent <==> o < WINDOW && t.counted + o in t.sent)
    && (forall o: nat :: o in acked <==> o < WINDOW && t.counted + o in t.reported)
    && (forall o: nat | o in sent ::
          times[o] == t.sent[t.counted + o].at && retries[o] == t.sent[t.counted + o].retries)
  }

  /** What moving the base by n does to a register and to an array. */
  ghost predicate Shifted(n: nat, before: set<nat>, after: set<nat>) {
    forall o: nat :: o in after <==> o + n in before
  }

  ghost predicate Moved<T>(n: nat, before: seq<T>, after: seq<T>, blank: T) {
    && |before| == |after| == WINDOW
    && forall o: nat | o < WINDOW :: after[o] == if o + n < WINDOW then before[o + n] else blank
  }

  lemma ShiftSlots(t: Track, n: nat, sent: set<nat>, acked: set<nat>, times: seq<u32>, retries: seq<u8>,
                   sent': set<nat>, acked': set<nat>, times': seq<u32>, retries': seq<u8>)
    requires Slots(t, sent, acked, times, retries) && t.Ordered()
    requires Shifted(n, sent, sent') && Shifted(n, acked, acked')
    requires Moved(n, times, times', 0) && Moved(n, retries, retries', 0)
    ensures Slots(t.(counted := t.counted + n), sent', acked', times', retries')
  {
    var u := t.(counted := t.counted + n);
    forall o: nat ensures o in sent' <==> o < WINDOW && u.counted + o in u.sent {
      assert o in sent' <==> o + n in sent;
      assert t.counted + (o + n) == u.counted + o;
    }
    forall o: nat ensures o in acked' <==> o < WINDOW && u.counted + o in u.reported {
      assert o in acked' <==> o + n in acked;
      assert t.counted + (o + n) == u.counted + o;
    }
    forall o: nat | o in sent' ensures times'[o] == u.sent[u.counted + o].at && retries'[o] == u.sent[u.counted + o].retries {
      assert o + n in sent;
      assert t.counted + (o + n) == u.counted + o;
    }
  }

  /** The register tests of an acknowledgement are the set tests on the track. */
  lemma AckTests(j: Job, t: Track, sent: set<nat>, bitmap: u16, maxSequence: u8, base: u8,
                 stray: set<nat>, uncovered: bool)
    requires t.Ordered() && (forall o: nat :: o in sent <==> o < WINDOW && t.counted + o in t.sent)
    requires forall o: nat :: o in stray <==> o in B.Bits(bitmap) && o >= Minus8(maxSequence, base)
    requires Minus8(base, BaseSequence(j.setup, t.counted)) <= WINDOW ==>
      (uncovered <==> exists o: nat :: o < Minus8(base, BaseSequence(j.setup, t.counted)) && o !in sent)
    ensures
      var advance := Minus8(base, BaseSequence(j.setup, t.counted));
      var span := Minus8(maxSequence, base);
      ReadAck(j, t, bitmap, maxSequence, base) ==
        if advance > WINDOW || t.counted + advance > j.total || span > WINDOW || t.counted + advance + span > j.total
           || stray != {} || uncovered then Ignored else Read(advance, span)
  {
    var advance := Minus8(base, BaseSequence(j.setup, t.counted));
    if advance <= WINDOW {
      if uncovered {
        var o: nat :| o < advance && o !in sent;
        assert t.counted <= t.counted + o < t.counted + advance && t.counted + o !in t.sent;
      } else {
        forall i: nat | t.counted <= i < t.counted + advance ensures i in t.sent {
          assert i - t.counted in sent;
          assert t.counted + (i - t.counted) == i;
        }
      }
    }
    if stray != {} {
      var o :| o in stray;
      assert o in B.Bits(bitmap) && o >= Minus8(maxSequence, base);
    }
  }

  /** A register of reports, set against segments instead of slots. */
  lemma ReportedAt(from: nat, segments: set<nat>, reported: set<nat>, bits: set<nat>,
                   sent: set<nat>, acked: set<nat>, report: set<nat>)
    requires forall o: nat :: o in sent <==> o < WINDOW && from + o in segments
    requires forall o: nat :: o in acked <==> o < WINDOW && from + o in reported
    requires forall o: nat :: o in report <==> o in bits && o in sent
    ensures forall o: nat :: o in acked + report <==>
      o < WINDOW && from + o in reported + (set i | i in segments && i >= from && i - from in bits)
  {
    forall o: nat
      ensures o in acked + report <==>
        o < WINDOW && from + o in reported + (set i | i in segments && i >= from && i - from in bits)
    {
      assert (from + o) - from == o;
    }
  }

  /** Adding the reported bits completes the step. */
  lemma ReportSlots(t: Track, bitmap: u16, advance: nat, span: nat,
                    sent: set<nat>, acked: set<nat>, times: seq<u32>, retries: seq<u8>, report: set<nat>)
    requires Slots(t.(counted := t.counted + advance), sent, acked, times, retries)
    requires forall o: nat :: o in report <==> o in B.Bits(bitmap) && o in sent
    ensures Slots(TakeAck(t, bitmap, advance, span), sent, acked + report, times, retries)
  {
    ReportedAt(t.counted + advance, t.sent.Keys, t.reported, B.Bits(bitmap), sent, acked, report);
  }

  lemma AdmitSlots(t: Track, o: nat, now: u32, sent: set<nat>, acked: set<nat>, times: seq<u32>, retries: seq<u8>,
                   times': seq<u32>, retries': seq<u8>, again: u8)
    requires Slots(t, sent, acked, times, retries) && o < WINDOW && (o in sent ==> retries[o] < 0xFF)
    requires times' == times[o := now] && retries' == retries[o := again]
    requires again == if o in sent then retries[o] + 1 else 0
    ensures Slots(Admit(t, t.counted + o, now), sent + {o}, acked, times', retries')
  {
    var u := Admit(t, t.counted + o, now);
    forall k: nat ensures k in sent + {o} <==> k < WINDOW && u.counted + k in u.sent {
      if k < WINDOW { assert k in sent <==> t.counted + k in t.sent; }
    }
    forall k: nat | k in sent + {o}
      ensures times'[k] == u.sent[u.counted + k].at && retries'[k] == u.sent[u.counted + k].retries
    {
      if k != o { assert k in sent; }
    }
  }

  /** The last-send times and retry counts of the sixteen window slots. */
  class SlotTimers {
    const lastSendMs: array<u32>
    const retryCount: array<u8>
    ghost var times: seq<u32>
    ghost var retries: seq<u8>

    ghost predicate Valid()
      reads this, lastSendMs, retryCount
    {
      && lastSendMs.Length == retryCount.Length == WINDOW
      && times == lastSendMs[..] && retries == retryCount[..]
    }

    constructor ()
      ensures Valid() && fresh(lastSendMs) && fresh(retryCount)
    {
      lastSendMs := new u32[WINDOW](_ => 0);
      retryCount := new u8[WINDOW](_ => 0);
      new;
      times, retries := lastSendMs[..], retryCount[..];
    }

    method Set(o: nat, now: u32, retry: u8)
      requires Valid() && o < WINDOW
      modifies this, lastSendMs, retryCount
      ensures Valid() && times == old(times)[o := now] && retries == old(retries)[o := retry]
    {
      lastSendMs[o] := now;
      retryCount[o] := retry;
      times, retries := times[o := now], retries[o := retry];
    }

    method Clear()
      requires Valid()
      modifies this, lastSendMs, retryCount
      ensures Valid() && forall o: nat | o < WINDOW :: times[o] == 0 && retries[o] == 0
    {
      for index := 0 to WINDOW
        invariant forall o | 0 <= o < index :: lastSendMs[o] == 0 && retryCount[o] == 0
      {
        lastSendMs[index] := 0;
        retryCount[index] := 0;
      }
      times, retries := lastSendMs[..], retryCount[..];
    }

    /** Slot o takes the contents of slot o + count; the slots that run out are cleared. */
    method Shift(count: nat)
      requires Valid() && 0 < count < WINDOW
      modifies this, lastSendMs, retryCount
      ensures Valid() && Moved(count, old(times), times, 0) && Moved(count, old(retries), retries, 0)
    {
      for index := 0 to WINDOW - count
        invariant forall o | 0 <= o < index ::
          lastSendMs[o] == old(lastSendMs[o + count]) && retryCount[o] == old(retryCount[o + count])
        invariant forall o | index <= o < WINDOW ::
          lastSendMs[o] == old(lastSendMs[o]) && retryCount[o] == old(retryCount[o])
      {
        lastSendMs[index] := lastSendMs[index + count];
        retryCount[index] := retryCount[index + count];
      }
      for index := WINDOW - count to WINDOW
        invariant forall o | 0 <= o < WINDOW - count ::
          lastSendMs[o] == old(lastSendMs[o + count]) && retryCount[o] == old(retryCount[o + count])
        invariant forall o | WINDOW - count <= o < index :: lastSendMs[o] == 0 && retryCount[o] == 0
      {
        lastSendMs[index] := 0;
        retryCount[index] := 0;
      }
      times, retries := lastSendMs[..], retryCount[..];
    }
  }

  /** What becomes of a segment, from what the Link answered. */
  lemma SegmentOutcome(c: Config, s: Sender, i: u16, now: u32, route: RouteResult, attempt: Attempted)
    requires attempt == Attempt(c, SEGMENT_HEADER_SIZE + s.job.setup.SizeOf(i), s.job.SegmentOf(i), route)
    ensures SendSegment(c, s, i, now, route) ==
      match attempt.result
      case Sent => Step(s.(track := Admit(s.track, i, now), timers := s.timers.(probing := false)), attempt.events, Progress)
      case Full => Step(s, attempt.events, Blocked)
      case _ => Step(s.(phase := Error), attempt.events, Failure)
  {}

  class Engine {
    const config: Config
    var state: TransferState
    var image: seq<byte>
    var setup: Setup
    var segmentCount: nat
    var acknowledgedCount: nat
    var grantedEnd: nat
    var sentBitmap: u16
    var acknowledgedBitmap: u16
    const slots: SlotTimers
    var setupLastSendMs: u32
    var probeLastSendMs: u32
    var setupRetryCount: u8
    var probeRetryCount: u8
    var setupSent: bool
    var probeTimerActive: bool
    var occupied: bool
    var slot: Message
    var lastSend: SendResult
    ghost var model: Sender

    ghost predicate Valid()
      reads this, slots, slots.lastSendMs, slots.retryCount
    {
      && state == model.phase
      && Job(image, setup, segmentCount) == model.job
      && acknowledgedCount == model.track.counted && grantedEnd == model.track.granted
      && Timers(setupSent, setupLastSendMs, setupRetryCount, probeTimerActive, probeLastSendMs, probeRetryCount) == model.timers
      && slots.Valid()
      && Slots(model.track, B.Bits(sentBitmap), B.Bits(acknowledgedBitmap), slots.times, slots.retries)
      && Sound(config, model)
    }

    constructor (c: Config)
      ensures Valid() && model == IDLE && config == c && !occupied
      ensures fresh(slots) && fresh(slots.lastSendMs) && fresh(slots.retryCount)
    {
      config := c;
      state, image, setup, segmentCount, acknowledgedCount, grantedEnd := Idle, [], NO_SETUP, 0, 0, 0;
      sentBitmap, acknowledgedBitmap := 0, 0;
      slots := new SlotTimers();
      setupLastSendMs, probeLastSendMs, setupRetryCount, probeRetryCount := 0, 0, 0, 0;
      setupSent, probeTimerActive, occupied, slot, lastSend := false, false, false, BadControl, Sent;
      model := IDLE;
      new;
      B.NoBits(0);
    }

    /** Move the base of the registers and arrays up by count slots. */
    method ShiftWindow(count: nat)
      requires slots.Valid()
      modifies this`sentBitmap, this`acknowledgedBitmap, slots, slots.lastSendMs, slots.retryCount
      ensures slots.Valid()
      ensures Shifted(count, old(B.Bits(sentBitmap)), B.Bits(sentBitmap))
      ensures Shifted(count, old(B.Bits(acknowledgedBitmap)), B.Bits(acknowledgedBitmap))
      ensures Moved(count, old(slots.times), slots.times, 0)
      ensures Moved(count, old(slots.retries), slots.retries, 0)
    {
      if count == 0 {
        return;
      }
      if count >= WINDOW {
        slots.Clear();
        sentBitmap := 0;
        acknowledgedBitmap := 0;
        B.NoBits(0);
        return;
      }
      slots.Shift(count);
      sentBitmap := B.ShiftRight16(sentBitmap, count);
      acknowledgedBitmap := B.ShiftRight16(acknowledgedBitmap, count);
    }

    method ResetTransferTracking()
      requires slots.Valid()
      modifies this`acknowledgedCount, this`grantedEnd, this`sentBitmap, this`acknowledgedBitmap
      modifies this`setupLastSendMs, this`probeLastSendMs, this`setupRetryCount, this`probeRetryCount
      modifies this`setupSent, this`probeTimerActive, slots, slots.lastSendMs, slots.retryCount
      ensures slots.Valid() && acknowledgedCount == grantedEnd == 0
      ensures Timers(setupSent, setupLastSendMs, setupRetryCount, probeTimerActive, probeLastSendMs, probeRetryCount) == NO_TIMERS
      ensures Slots(NO_TRACK, B.Bits(sentBitmap), B.Bits(acknowledgedBitmap), slots.times, slots.retries)
    {
      slots.Clear();
      acknowledgedCount, grantedEnd, sentBitmap, acknowledgedBitmap := 0, 0, 0, 0;
      setupLastSendMs, probeLastSendMs, setupRetryCount, probeRetryCount := 0, 0, 0, 0;
      setupSent, probeTimerActive := false, false;
      B.NoBits(0);
    }

    method StartTransfer(bytes: seq<byte>, segmentSize: u16, id: u8, isn: u8) returns (result: StartResult)
      requires Valid()
      modifies this, slots, slots.lastSendMs, slots.retryCount
      ensures Valid() && (model, result) == Start(config, old(model), bytes, segmentSize, id, isn)
      ensures result == Started ==> state == Starting && image == bytes
      ensures result == Started ==> setup.sessionId == id && setup.initialSequence == isn && setup.segmentSize == segmentSize
    {
      StartSound(config, model, bytes, segmentSize, id, isn);
      if state == Starting || state == Active {
        return Busy;
      }
      if bytes == [] || segmentSize == 0 || |bytes| > 0xFFFF_FFFF {
        return BadArgument;
      }
      var count := SegmentsFor(|bytes|, segmentSize);
      if count == 0 || count > MAXIMUM_SEGMENT_COUNT {
        return BadArgument;
      }
      if config.capacity < SETUP_SIZE || config.capacity < segmentSize + SEGMENT_HEADER_SIZE {
        return PacketTooSmall;
      }
      SegmentsFit(|bytes|, segmentSize);
      model := Start(config, model, bytes, segmentSize, id, isn).0;
      image := bytes;
      setup := Setup(id, isn, count - 1, segmentSize, |bytes| - (count - 1) * segmentSize);
      segmentCount := count;
      state := Starting;
      ResetTransferTracking();
      result := Started;
    }

    /** The ingress slot: only kinds a transmitter handles, one at a time. */
    method Receive(m: Message, fits: bool) returns (result: ReceiveResult)
      requires Valid()
      modifies this`occupied, this`slot
      ensures Valid()
      ensures result == ReceiveAccepted <==> Admissible(m) && !old(occupied) && fits
      ensures result == ReceiveFull <==> Admissible(m) && old(occupied)
      ensures if result == ReceiveAccepted then occupied && slot == m else occupied == old(occupied) && slot == old(slot)
    {
      if !Admissible(m) { return ReceiveRejected; }
      if occupied { return ReceiveFull; }
      if !fits { return ReceiveRejected; }
      slot, occupied := m, true;
      result := ReceiveAccepted;
    }

    /** The checks an acknowledgement has to pass, on the registers. */
    method CheckAck(bitmap: u16, maxSequence: u8, base: u8) returns (usable: bool, advance: nat, span: nat)
      requires Valid()
      ensures ReadAck(model.job, model.track, bitmap, maxSequence, base) == if usable then Read(advance, span) else Ignored
    {
      var currentBase := BaseSequence(setup, acknowledgedCount);
      advance := Minus8(base, currentBase);
      span := Minus8(maxSequence, base);
      var allowed := B.LowMask16(span);
      var beyond := B.Complement16(allowed);
      var stray := B.And16(bitmap, beyond);
      var clean := B.IsZero16(stray);
      var advancedMask := B.LowMask16(advance);
      var covered := B.And16(sentBitmap, advancedMask);
      if covered != advancedMask && B.Bits(covered) == B.Bits(advancedMask) { B.SameBits(covered, advancedMask); }
      CoveredIs(advance, B.Bits(sentBitmap), B.Bits(advancedMask), B.Bits(covered));
      AckTests(model.job, model.track, B.Bits(sentBitmap), bitmap, maxSequence, base,
               B.Bits(stray), covered != advancedMask);
      if advance > WINDOW || acknowledgedCount + advance > segmentCount
         || span > WINDOW || acknowledgedCount + advance + span > segmentCount || !clean {
        return false, advance, span;
      }
      usable := covered == advancedMask;
    }

    static lemma CoveredIs(advance: nat, sent: set<nat>, mask: set<nat>, covered: set<nat>)
      requires covered == sent * mask && (forall i: nat :: i in mask <==> i < WINDOW && i < advance)
      ensures advance <= WINDOW ==> (covered != mask <==> exists o: nat :: o < advance && o !in sent)
    {
      if covered != mask { assert exists o :: o in mask && o !in covered; }
      if advance <= WINDOW && (exists o: nat :: o < advance && o !in sent) {
        var o: nat :| o < advance && o !in sent;
        assert o in mask;
      }
    }

    /** Count advance more segments and move the window past them. */
    method Advance(advance: nat, ghost t: Track)
      requires slots.Valid() && t.Ordered() && acknowledgedCount == t.counted
      requires Slots(t, B.Bits(sentBitmap), B.Bits(acknowledgedBitmap), slots.times, slots.retries)
      modifies this`sentBitmap, this`acknowledgedBitmap, this`acknowledgedCount, slots, slots.lastSendMs, slots.retryCount
      ensures slots.Valid() && acknowledgedCount == t.counted + advance
      ensures Slots(t.(counted := t.counted + advance), B.Bits(sentBitmap), B.Bits(acknowledgedBitmap),
                    slots.times, slots.retries)
    {
      ghost var sent, acked, times, retries := B.Bits(sentBitmap), B.Bits(acknowledgedBitmap), slots.times, slots.retries;
      ShiftWindow(advance);
      ShiftSlots(t, advance, sent, acked, times, retries,
                 B.Bits(sentBitmap), B.Bits(acknowledgedBitmap), slots.times, slots.retries);
      acknowledgedCount := acknowledgedCount + advance;
    }

    /** Record the reported segments among those sent. */
    method Report(bitmap: u16, ghost t: Track, ghost advance: nat, span: nat)
      requires forall o :: o in B.Bits(bitmap) ==> o < span
      requires slots.Valid()
      requires Slots(t.(counted := t.counted + advance), B.Bits(sentBitmap), B.Bits(acknowledgedBitmap),
                     slots.times, slots.retries)
      modifies this`acknowledgedBitmap
      ensures Slots(TakeAck(t, bitmap, advance, span), B.Bits(sentBitmap), B.Bits(acknowledgedBitmap),
                    slots.times, slots.retries)
    {
      var allowed := B.LowMask16(span);
      var claimed := B.And16(bitmap, allowed);
      var report := B.And16(claimed, sentBitmap);
      ReportSlots(t, bitmap, advance, span, B.Bits(sentBitmap), B.Bits(acknowledgedBitmap),
                  slots.times, slots.retries, B.Bits(report));
      acknowledgedBitmap := B.Or16(acknowledgedBitmap, report);
    }

    method HandleAck(id: u8, bitmap: u16, maxSequence: u8, base: u8) returns (events: seq<Event>)
      requires Valid()
      modifies this, slots, slots.lastSendMs, slots.retryCount
      ensures Valid() && occupied == old(occupied)
      ensures (model, events) == OnAck(old(model), id, bitmap, maxSequence, base)
    {
      if (state != Starting && state != Active) || id != setup.sessionId || !setupSent {
        return [];
      }
      var usable, advance, span := CheckAck(bitmap, maxSequence, base);
      if !usable {
        return [];
      }
      MessageSound(config, model, AckMsg(id, bitmap, maxSequence, base));
      events := TakeAcknowledgement(bitmap, advance, span);
    }

    method TakeAcknowledgement(bitmap: u16, advance: nat, span: nat) returns (events: seq<Event>)
      requires Valid() && (forall o :: o in B.Bits(bitmap) ==> o < span)
      requires Sound(config, Acknowledged(model, bitmap, advance, span))
      modifies this, slots, slots.lastSendMs, slots.retryCount
      ensures Valid() && occupied == old(occupied)
      ensures model == Acknowledged(old(model), bitmap, advance, span)
      ensures events == if model.phase == Completed then [Complete] else []
    {
      ghost var after := Acknowledged(model, bitmap, advance, span);
      Advance(advance, model.track);
      Report(bitmap, model.track, advance, span);
      events := ExtendGrant(span, after);
    }

    /** The rest of an acknowledgement: the grant, the probe timer, and whether the object is done. */
    method ExtendGrant(span: nat, ghost after: Sender) returns (events: seq<Event>)
      requires slots.Valid() && Sound(config, after)
      requires Slots(after.track, B.Bits(sentBitmap), B.Bits(acknowledgedBitmap), slots.times, slots.retries)
      requires acknowledgedCount == after.track.counted && segmentCount == after.job.total
      requires after.track.granted == if acknowledgedCount + span > grantedEnd then acknowledgedCount + span else grantedEnd
      requires Job(image, setup, segmentCount) == after.job
      requires after.phase == if after.track.counted == after.job.total then Completed else Active
      requires after.timers == Timers(true, setupLastSendMs, setupRetryCount, false, probeLastSendMs, 0)
      modifies this`grantedEnd, this`setupSent, this`probeTimerActive, this`probeRetryCount, this`state, this`model
      ensures Valid() && model == after
      ensures events == if model.phase == Completed then [Complete] else []
    {
      if acknowledgedCount + span > grantedEnd {
        grantedEnd := acknowledgedCount + span;
      }
      setupSent := true;
      probeTimerActive := false;
      probeRetryCount := 0;
      events := [];
      if acknowledgedCount == segmentCount {
        state := Completed;
        events := [Complete];
      } else {
        state := Active;
      }
      model := after;
    }

    method HandleDatagram(m: Message) returns (handled: bool, events: seq<Event>)
      requires Valid()
      modifies this, slots, slots.lastSendMs, slots.retryCount
      ensures Valid() && occupied == old(occupied)
      ensures OnMessage(old(model), m) == if handled then Handled(model, events) else Unhandled
      ensures !handled ==> model == old(model) && events == []
    {
      MessageSound(config, model, m);
      handled, events := true, [];
      match m
      case AckMsg(id, bitmap, maxSequence, base) => events := HandleAck(id, bitmap, maxSequence, base);
      case RejectMsg(id, reason) =>
        if (state == Starting || state == Active) && id == setup.sessionId {
          state := Rejected;
          model := model.(phase := Rejected);
          events := [RejectedBy(reason)];
        }
      case AbortMsg(id) =>
        if (state == Starting || state == Active) && id == setup.sessionId {
          state := Aborted;
          model := model.(phase := Aborted);
          events := [AbortedNow];
        }
      case DatagramMsg(payload) => events := [Datagram(payload)];
      case _ => handled := false;
    }

    /** Prepare and forward one packet; only full admission counts as sent. */
    method Forward(size: nat, m: Message, route: RouteResult) returns (sent: bool, events: seq<Event>)
      modifies this`lastSend
      ensures Attempted(lastSend, events) == Attempt(config, size, m, route)
      ensures sent <==> lastSend == Sent
    {
      lastSend := TooLarge;
      if size > config.capacity {
        return false, [];
      }
      lastSend := SendResultOf(route);
      return lastSend == Sent, [Pdu(m, lastSend)];
    }

    /** After a send that did not go out: a full Link is retried, anything else is fatal. */
    method Refused() returns (result: ProcessResult)
      requires Valid() && model.Open() && lastSend != Sent
      modifies this`state, this`model
      ensures Valid()
      ensures Step(model, [], result) == Settle(old(model), old(model), Attempted(lastSend, []))
    {
      if lastSend == Full {
        return Blocked;
      }
      state := Error;
      model := model.(phase := Error);
      result := Failure;
    }

    method TransmitSetup(now: u32, route: RouteResult, again: bool) returns (result: ProcessResult, events: seq<Event>)
      requires Valid() && model.phase == Starting && (again ==> setupRetryCount < config.timing.maxRetries)
      modifies this
      ensures Valid() && occupied == old(occupied)
      ensures Step(model, events, result) == SendSetup(config, old(model), now, route, again)
    {
      var sent;
      sent, events := Forward(SETUP_SIZE, SetupMsg(setup), route);
      if !sent {
        result := Refused();
        return;
      }
      MarkSetup(now, if again then setupRetryCount + 1 else setupRetryCount);
      result := Progress;
    }

    method SetProbeTimer(active: bool, at: u32, retries: u8)
      requires Valid() && retries <= config.timing.maxRetries
      modifies this`probeTimerActive, this`probeLastSendMs, this`probeRetryCount, this`model
      ensures Valid()
      ensures model == old(model).(timers := old(model).timers.(probing := active, probeAt := at, probeRetries := retries))
    {
      ghost var timers := model.timers.(probing := active, probeAt := at, probeRetries := retries);
      TimersSound(config, model, timers);
      probeTimerActive, probeLastSendMs, probeRetryCount := active, at, retries;
      model := model.(timers := timers);
    }

    method MarkSetup(now: u32, retries: u8)
      requires Valid() && retries <= config.timing.maxRetries
      modifies this`setupSent, this`setupLastSendMs, this`setupRetryCount, this`model
      ensures Valid()
      ensures model == old(model).(timers := old(model).timers.(setupSent := true, setupAt := now, setupRetries := retries))
    {
      ghost var timers := model.timers.(setupSent := true, setupAt := now, setupRetries := retries);
      TimersSound(config, model, timers);
      setupSent, setupLastSendMs, setupRetryCount := true, now, retries;
      model := model.(timers := timers);
    }

    method TransmitProbe(now: u32, route: RouteResult) returns (result: ProcessResult, events: seq<Event>)
      requires Valid() && model.phase == Active && probeRetryCount < config.timing.maxRetries
      modifies this
      ensures Valid() && occupied == old(occupied)
      ensures Step(model, events, result) == SendProbe(config, old(model), now, route)
    {
      var sent;
      sent, events := Forward(PROBE_SIZE, ProbeMsg(setup.sessionId), route);
      if !sent {
        result := Refused();
        return;
      }
      SetProbeTimer(probeTimerActive, now, probeRetryCount + 1);
      result := Progress;
    }

    method TransmitAbort(route: RouteResult) returns (result: ProcessResult, events: seq<Event>)
      requires Valid() && model.Open()
      modifies this`lastSend, this`state, this`model
      ensures Valid()
      ensures Step(model, events, result) == GiveUp(config, old(model), route)
      ensures lastSend == Attempt(config, ABORT_SIZE, AbortMsg(old(setup).sessionId), route).result
    {
      var sent;
      sent, events := Forward(ABORT_SIZE, AbortMsg(setup.sessionId), route);
      state := Aborted;
      model := model.(phase := Aborted);
      return Failure, events + [AbortedNow];
    }

    method Abort(route: RouteResult) returns (result: SendResult, events: seq<Event>)
      requires Valid()
      modifies this`lastSend, this`state, this`model
      ensures Valid()
      ensures (model, events, result) == AbortLocally(config, old(model), route)
    {
      if state != Starting && state != Active {
        return InvalidState, [];
      }
      var step;
      step, events := TransmitAbort(route);
      result := lastSend;
    }

    method TransmitSegment(offset: nat, now: u32, route: RouteResult, again: bool)
      returns (result: ProcessResult, events: seq<Event>)
      requires Valid() && model.phase == Active && offset < grantedEnd - acknowledgedCount
      requires again <==> offset in B.Bits(sentBitmap)
      requires again ==> slots.retries[offset] < config.timing.maxRetries
      modifies this, slots, slots.lastSendMs, slots.retryCount
      ensures Valid() && occupied == old(occupied)
      ensures Step(model, events, result) == SendSegment(config, old(model), old(acknowledgedCount) + offset, now, route)
    {
      ghost var before, index := model, acknowledgedCount + offset;
      var sent;
      sent, events := ForwardSegment(acknowledgedCount + offset, route);
      SegmentOutcome(config, before, index, now, route, Attempted(lastSend, events));
      if !sent {
        result := Refused();
        return;
      }
      MarkSent(offset, now, again);
      result := Progress;
    }

    method ForwardSegment(index: u16, route: RouteResult) returns (sent: bool, events: seq<Event>)
      requires Valid() && index < segmentCount
      modifies this`lastSend
      ensures Valid() && (sent <==> lastSend == Sent)
      ensures Attempted(lastSend, events)
           == Attempt(config, SEGMENT_HEADER_SIZE + model.job.setup.SizeOf(index), model.job.SegmentOf(index), route)
    {
      PayloadFits(config, model.job, index);
      setup.OffsetIs(index);
      var objectOffset := index * setup.segmentSize;
      var segment := SegmentMsg(setup.sessionId, index, image[objectOffset..objectOffset + setup.SizeOf(index)]);
      sent, events := Forward(SEGMENT_HEADER_SIZE + setup.SizeOf(index), segment, route);
    }

    method MarkSent(offset: nat, now: u32, again: bool)
      requires Valid() && model.phase == Active && offset < grantedEnd - acknowledgedCount
      requires again <==> offset in B.Bits(sentBitmap)
      requires again ==> slots.retries[offset] < config.timing.maxRetries
      modifies this`sentBitmap, this`probeTimerActive, this`model, slots, slots.lastSendMs, slots.retryCount
      ensures Valid()
      ensures model == old(model).(track := Admit(old(model).track, old(acknowledgedCount) + offset, now),
                                   timers := old(model).timers.(probing := false))
    {
      ghost var t := model.track;
      ghost var after := model.(track := Admit(t, t.counted + offset, now), timers := model.timers.(probing := false));
      AdmitSound(config, model, t.counted + offset, now);
      Enter(offset, now, again, t);
      probeTimerActive := false;
      model := after;
    }

    /** Enter one admission in the slot's register bit, time and count. */
    method Enter(offset: nat, now: u32, again: bool, ghost t: Track)
      requires slots.Valid() && offset < WINDOW && Slots(t, B.Bits(sentBitmap), B.Bits(acknowledgedBitmap), slots.times, slots.retries)
      requires again <==> offset in B.Bits(sentBitmap)
      requires again ==> slots.retries[offset] < 0xFF
      modifies this`sentBitmap, slots, slots.lastSendMs, slots.retryCount
      ensures slots.Valid()
      ensures Slots(Admit(t, t.counted + offset, now), B.Bits(sentBitmap), B.Bits(acknowledgedBitmap),
                    slots.times, slots.retries)
    {
      var retry := slots.retryCount[offset];
      var next := if again then retry + 1 else 0;
      AdmitSlots(t, offset, now, B.Bits(sentBitmap), B.Bits(acknowledgedBitmap), slots.times, slots.retries,
                 slots.times[offset := now], slots.retries[offset := next], next);
      var bit := B.Single16(offset);
      sentBitmap := B.Or16(sentBitmap, bit);
      slots.Set(offset, now, next);
    }

    static method IsSet(register: u16, offset: nat) returns (isSet: bool)
      requires offset < WINDOW
      ensures isSet <==> offset in B.Bits(register)
    {
      var bit := B.Single16(offset);
      var masked := B.And16(register, bit);
      var clear := B.IsZero16(masked);
      isSet := !clear;
      assert offset in B.Bits(masked) <==> offset in B.Bits(register);
    }

    /** The first slot of the window that was never sent, or the width of the window. */
    method FindUnsent() returns (offset: nat)
      requires Valid()
      ensures acknowledgedCount + offset == FirstUnsent(model.track, acknowledgedCount)
    {
      var span := grantedEnd - acknowledgedCount;
      offset := 0;
      while offset < span
        invariant offset <= span
        invariant FirstUnsent(model.track, acknowledgedCount) == FirstUnsent(model.track, acknowledgedCount + offset)
      {
        var sent := IsSet(sentBitmap, offset);
        if !sent {
          return;
        }
        offset := offset + 1;
      }
    }

    /** The slots sent and not acknowledged, inside the window. */
    method OutstandingSlots() returns (register: u16)
      requires Valid()
      ensures forall o: nat :: o in B.Bits(register) <==> model.track.Outstanding(acknowledgedCount + o)
    {
      var windowMask := B.LowMask16(grantedEnd - acknowledgedCount);
      var pending := B.Complement16(acknowledgedBitmap);
      var sentPending := B.And16(sentBitmap, pending);
      register := B.And16(sentPending, windowMask);
      forall o: nat ensures o in B.Bits(register) <==> model.track.Outstanding(acknowledgedCount + o) {
        assert o in B.Bits(sentBitmap) <==> o < WINDOW && model.track.counted + o in model.track.sent;
        assert o in B.Bits(acknowledgedBitmap) <==> o < WINDOW && model.track.counted + o in model.track.reported;
      }
    }

    /** The first outstanding slot whose timer has run out, or the width of the window. */
    method FindDue(outstanding: u16, now: u32) returns (offset: nat)
      requires Valid()
      requires forall o: nat :: o in B.Bits(outstanding) <==> model.track.Outstanding(acknowledgedCount + o)
      ensures acknowledgedCount + offset == FirstDue(config, model.track, now, acknowledgedCount)
    {
      var span := grantedEnd - acknowledgedCount;
      offset := 0;
      while offset < span
        invariant offset <= span
        invariant FirstDue(config, model.track, now, acknowledgedCount) == FirstDue(config, model.track, now, acknowledgedCount + offset)
      {
        var pending := IsSet(outstanding, offset);
        if pending {
          assert offset in B.Bits(sentBitmap);
          if Elapsed(now, slots.lastSendMs[offset], config.timing.retransmit) {
            return;
          }
        }
        offset := offset + 1;
      }
    }

    method StepStarting(now: u32, route: RouteResult, quiet: ProcessResult)
      returns (result: ProcessResult, events: seq<Event>)
      requires Valid() && model.phase == Starting
      modifies this
      ensures Valid() && occupied == old(occupied)
      ensures Step(model, events, result) == ActStarting(config, old(model), now, route, quiet)
    {
      if !setupSent {
        result, events := TransmitSetup(now, route, false);
      } else if Elapsed(now, setupLastSendMs, config.timing.retransmit) {
        if setupRetryCount >= config.timing.maxRetries {
          result, events := TransmitAbort(route);
        } else {
          result, events := TransmitSetup(now, route, true);
        }
      } else {
        result, events := quiet, [];
      }
    }

    method StepProbing(idle: bool, now: u32, route: RouteResult, quiet: ProcessResult)
      returns (result: ProcessResult, events: seq<Event>)
      requires Valid() && model.phase == Active && (idle <==> !AnyOutstanding(model.track))
      modifies this
      ensures Valid() && occupied == old(occupied)
      ensures Step(model, events, result) == ActProbing(config, old(model), now, route, quiet)
    {
      result, events := quiet, [];
      if acknowledgedCount < segmentCount && idle {
        if !probeTimerActive {
          SetProbeTimer(true, now, probeRetryCount);
        } else if Elapsed(now, probeLastSendMs, config.timing.probe) {
          result, events := ProbeAgain(now, route);
        }
      } else {
        SetProbeTimer(false, probeLastSendMs, 0);
      }
    }

    method ProbeAgain(now: u32, route: RouteResult) returns (result: ProcessResult, events: seq<Event>)
      requires Valid() && model.phase == Active
      modifies this
      ensures Valid() && occupied == old(occupied)
      ensures Step(model, events, result) == NextProbe(config, old(model), now, route)
    {
      if probeRetryCount >= config.timing.maxRetries {
        result, events := TransmitAbort(route);
      } else {
        result, events := TransmitProbe(now, route);
      }
    }

    static lemma NoneOutstanding(t: Track, bits: set<nat>)
      requires t.Ordered() && forall o: nat :: o in bits <==> t.Outstanding(t.counted + o)
      ensures bits == {} <==> !AnyOutstanding(t)
    {
      if AnyOutstanding(t) {
        var i: nat :| i < t.granted && t.Outstanding(i);
        assert t.counted + (i - t.counted) == i;
        assert i - t.counted in bits;
      }
      if o :| o in bits {
        assert t.Outstanding(t.counted + o);
      }
    }

    method StepActive(now: u32, route: RouteResult, quiet: ProcessResult)
      returns (result: ProcessResult, events: seq<Event>)
      requires Valid() && model.phase == Active
      modifies this, slots, slots.lastSendMs, slots.retryCount
      ensures Valid() && occupied == old(occupied)
      ensures Step(model, events, result) == ActActive(config, old(model), now, route, quiet)
    {
      var unsent := FindUnsent();
      FirstUnsentIs(model.track, acknowledgedCount);
      if unsent < grantedEnd - acknowledgedCount {
        result, events := TransmitSegment(unsent, now, route, false);
      } else {
        result, events := StepResending(now, route, quiet);
      }
    }

    /** The first due slot of the window, or its width, and whether nothing at all is outstanding. */
    method ScanWindow(now: u32) returns (due: nat, idle: bool)
      requires Valid()
      ensures acknowledgedCount + due == FirstDue(config, model.track, now, acknowledgedCount)
      ensures idle <==> !AnyOutstanding(model.track)
    {
      var outstanding := OutstandingSlots();
      due := FindDue(outstanding, now);
      idle := B.IsZero16(outstanding);
      NoneOutstanding(model.track, B.Bits(outstanding));
    }

    method StepResending(now: u32, route: RouteResult, quiet: ProcessResult)
      returns (result: ProcessResult, events: seq<Event>)
      requires Valid() && model.phase == Active
      modifies this, slots, slots.lastSendMs, slots.retryCount
      ensures Valid() && occupied == old(occupied)
      ensures Step(model, events, result) == ActResending(config, old(model), now, route, quiet)
    {
      var due, idle := ScanWindow(now);
      FirstDueIs(config, model.track, now, acknowledgedCount);
      if due < grantedEnd - acknowledgedCount {
        result, events := Resend(due, now, route);
      } else {
        result, events := StepProbing(idle, now, route, quiet);
      }
    }

    /** An outstanding segment whose timer has run out is sent again, or the transfer given up. */
    method Resend(offset: nat, now: u32, route: RouteResult) returns (result: ProcessResult, events: seq<Event>)
      requires Valid() && model.phase == Active && offset < grantedEnd - acknowledgedCount
      requires model.track.Outstanding(acknowledgedCount + offset)
      modifies this, slots, slots.lastSendMs, slots.retryCount
      ensures Valid() && occupied == old(occupied)
      ensures var i := old(acknowledgedCount) + offset;
        i in old(model).track.sent && i < 0x1_0000 && Step(model, events, result) ==
          if old(model).track.sent[i].retries >= config.timing.maxRetries then GiveUp(config, old(model), route)
          else SendSegment(config, old(model), i, now, route)
    {
      if slots.retryCount[offset] >= config.timing.maxRetries {
        result, events := TransmitAbort(route);
      } else {
        result, events := TransmitSegment(offset, now, route, true);
      }
    }

    /** One bounded step: the slot's message first, then at most one send or timer action. */
    method Consume(now: u32, route: RouteResult) returns (result: ProcessResult, events: seq<Event>)
      requires Valid()
      modifies this, slots, slots.lastSendMs, slots.retryCount
      ensures Valid() && !occupied
      ensures Step(model, events, result)
           == Process(config, old(model), if old(occupied) then Some(old(slot)) else None, now, route)
    {
      var quiet := IsIdle;
      events := [];
      if occupied {
        quiet := Progress;
        var handled;
        handled, events := HandleDatagram(slot);
        occupied := false;
        if !handled {
          Fail();
          return Failure, events;
        }
      }
      var acted;
      result, acted := Continue(now, route, quiet);
      events := events + acted;
    }

    method Fail()
      requires Valid()
      modifies this`state, this`model
      ensures Valid() && model == old(model).(phase := Error)
    {
      state := Error;
      model := model.(phase := Error);
    }

    method Continue(now: u32, route: RouteResult, quiet: ProcessResult) returns (result: ProcessResult, events: seq<Event>)
      requires Valid()
      modifies this, slots, slots.lastSendMs, slots.retryCount
      ensures Valid() && occupied == old(occupied)
      ensures Step(model, events, result) == Act(config, old(model), now, route, quiet)
    {
      if state == Starting {
        result, events := StepStarting(now, route, quiet);
      } else if state == Active {
        result, events := StepActive(now, route, quiet);
      } else {
        result, events := quiet, [];
      }
    }
  }

  predicate Admissible(m: Message) {
    match m
    case AckMsg(_, _, _, _) => true
    case RejectMsg(_, _) => true
    case AbortMsg(_) => true
    case DatagramMsg(_) => true
    case BadBody(kind) => kind == AckType || kind == RejectType || kind == AbortType || kind == DatagramType
    case _ => false
  }

  /** The slot takes every message that is handled, and, of the others, only those that fail on their body. */
  lemma AdmissibleIs(s: Sender, m: Message)
    ensures OnMessage(s, m).Handled? ==> Admissible(m)
    ensures Admissible(m) && OnMessage(s, m).Unhandled? <==> m.BadBody? && m.kind != SetupType && m.kind != SegmentType && m.kind != ProbeType
  {}
}
