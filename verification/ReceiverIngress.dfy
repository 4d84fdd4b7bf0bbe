/**
 * The packet slots in front of a receiver: arriving packets are copied into bounded storage and
 * handed to the engine later, at most one SEGMENT and one other PDU a turn.
 */
module ReceiverIngress {
  import opened Integers
  import opened Protocol
  import R = ReceiverSpec
  import RR = ReceiverRuns
  import E = ReceiverEngine
  import B = Bitmap16

  /** Slot capacities as the application installs them, some possibly missing, and the datagram slot's. */
  datatype Storage = Storage(slots: seq<Option<u16>>, datagram: u16)
  {
    function Limit(): nat { Min(|slots|, WINDOW) }

    predicate Installed(i: nat) { i < Limit() && slots[i].Some? }

    /** Installed slots among the first n. */
    function Count(n: nat): nat
      requires n <= Limit()
    {
      if n == 0 then 0 else Count(n - 1) + (if Installed(n - 1) then 1 else 0)
    }
  }

  /** Packets waiting: one per occupied slot, and at most one that is not a SEGMENT. */
  datatype Ingress = Ingress(segments: map<nat, Message>, datagram: Option<Message>)

  const EMPTY := Ingress(map[], None)

  /** The type in the control byte, if it has a known one. */
  function KindOf(m: Message): Option<MessageType> {
    match m
    case SetupMsg(_) => Some(SetupType)
    case SegmentMsg(_, _, _) => Some(SegmentType)
    case AckMsg(_, _, _, _) => Some(AckType)
    case ProbeMsg(_) => Some(ProbeType)
    case RejectMsg(_, _) => Some(RejectType)
    case AbortMsg(_) => Some(AbortType)
    case DatagramMsg(_) => Some(DatagramType)
    case BadSetup(_) => Some(SetupType)
    case BadBody(kind) => Some(kind)
    case BadControl => None
  }

  predicate Free(store: Storage, x: Ingress, i: nat) { store.Installed(i) && i !in x.segments }

  predicate Fits(store: Storage, x: Ingress, size: nat, i: nat) { Free(store, x, i) && size <= store.slots[i].value }

  /** The least free slot from i on that holds a packet of the size, or the end. */
  function FirstFit(store: Storage, x: Ingress, size: nat, i: nat): (slot: nat)
    ensures i <= store.Limit() ==> i <= slot <= store.Limit()
    ensures slot < store.Limit() ==> Fits(store, x, size, slot)
    decreases store.Limit() - i
  {
    if i < store.Limit() && !Fits(store, x, size, i) then FirstFit(store, x, size, i + 1) else i
  }

  predicate AnyFree(store: Storage, x: Ingress) { exists i: nat | i < WINDOW :: Free(store, x, i) }

  /** Where an arriving packet goes. */
  function Receive(store: Storage, x: Ingress, m: Message, size: nat): (Ingress, ReceiveResult) {
    if KindOf(m).None? then (x, ReceiveRejected)
    else if KindOf(m).value != SegmentType then
      if x.datagram.Some? then (x, ReceiveFull)
      else if size > store.datagram then (x, ReceiveRejected)
      else (x.(datagram := Some(m)), ReceiveAccepted)
    else
      var slot := FirstFit(store, x, size, 0);
      if slot < store.Limit() then (x.(segments := x.segments[slot := m]), ReceiveAccepted)
      else (x, if AnyFree(store, x) then ReceiveRejected else ReceiveFull)
  }

  /** The least occupied slot from i on, or the window width. */
  function FirstHeld(x: Ingress, i: nat): nat
    decreases WINDOW - i
  {
    if i < WINDOW && i !in x.segments then FirstHeld(x, i + 1) else i
  }

  datatype Turned = Turned(ingress: Ingress, step: R.Step)

  ghost function TakeSegment(c: R.Config, x: Ingress, r: R.Receiver, now: u32, a: R.Answers): Turned {
    var slot := FirstHeld(x, 0);
    if slot in x.segments then Turned(x.(segments := x.segments - {slot}), R.Process(c, r, x.segments[slot], now, a))
    else Turned(x, R.Step(r, [], IsIdle))
  }

  function Combined(first: ProcessResult, second: ProcessResult): ProcessResult {
    if first == Failure || second == Failure then Failure
    else if first == Blocked || second == Blocked then Blocked else Progress
  }

  ghost function TakeDatagram(c: R.Config, t: Turned, now: u32, b: R.Answers): Turned {
    if t.ingress.datagram.None? then t
    else
      var step := R.Process(c, t.step.next, t.ingress.datagram.value, now, b);
      Turned(t.ingress.(datagram := None),
             R.Step(step.next, t.step.events + step.events, Combined(t.step.result, step.result)))
  }

  /** One turn: expiry empties the slots; otherwise one SEGMENT and then one other PDU. */
  ghost function Turn(c: R.Config, x: Ingress, r: R.Receiver, now: u32, a: R.Answers, b: R.Answers): Turned {
    if R.Expired(c, r, now) then Turned(EMPTY, R.Poll(c, r, now))
    else TakeDatagram(c, TakeSegment(c, x, r, now, a), now, b)
  }

  ghost predicate Fit(store: Storage, x: Ingress) { forall i | i in x.segments :: store.Installed(i) }

  /** The number of packets waiting. */
  function Waiting(x: Ingress): nat { |x.segments| + (if x.datagram.Some? then 1 else 0) }

  /** One more slot is occupied exactly when a packet is accepted. */
  lemma ReceiveCounts(store: Storage, x: Ingress, m: Message, size: nat)
    requires Fit(store, x)
    ensures var (next, result) := Receive(store, x, m, size);
      Fit(store, next) && Waiting(next) == Waiting(x) + (if result == ReceiveAccepted then 1 else 0)
  {
    var slot := FirstFit(store, x, size, 0);
    if KindOf(m) == Some(SegmentType) && slot < store.Limit() {
      assert x.segments[slot := m].Keys == x.segments.Keys + {slot};
    }
  }

  /** A slot in use is among the first sixteen, so a search of those finds it. */
  lemma {:induction false} HeldIsFound(store: Storage, x: Ingress, i: nat)
    requires Fit(store, x) && i <= WINDOW
    ensures i <= FirstHeld(x, i) <= WINDOW
    ensures forall k: nat | i <= k < FirstHeld(x, i) :: k !in x.segments
    ensures FirstHeld(x, i) < WINDOW <==> exists k | k in x.segments :: k >= i
    ensures FirstHeld(x, i) < WINDOW ==> FirstHeld(x, i) in x.segments
    decreases WINDOW - i
  {
    if i < WINDOW && i !in x.segments { HeldIsFound(store, x, i + 1); }
  }

  /** No accepted packet waits behind an empty turn: each turn drains a slot of each kind in use, or all at expiry. */
  lemma TurnDrains(store: Storage, c: R.Config, x: Ingress, r: R.Receiver, now: u32, a: R.Answers, b: R.Answers)
    requires Fit(store, x)
    ensures var next := Turn(c, x, r, now, a, b).ingress;
      Fit(store, next) &&
        if R.Expired(c, r, now) then Waiting(next) == 0
        else |next.segments| == (if x.segments == map[] then 0 else |x.segments| - 1) && next.datagram.None?
  {
    HeldIsFound(store, x, 0);
    var slot := FirstHeld(x, 0);
    if x.segments != map[] {
      var k :| k in x.segments;
      assert k >= 0;
      assert (x.segments - {slot}).Keys == x.segments.Keys - {slot};
    }
  }

  // What the answers mean.

  predicate CanTake(store: Storage, x: Ingress, size: nat) { exists i: nat | i < 16 :: Fits(store, x, size, i) }

  /** A SEGMENT is taken when a free slot has room for it, and goes into the first such slot. */
  lemma SegmentAnswer(store: Storage, x: Ingress, m: Message, size: nat)
    requires KindOf(m) == Some(SegmentType)
    ensures var (next, result) := Receive(store, x, m, size);
      && (result == ReceiveAccepted <==> CanTake(store, x, size))
      && (result == ReceiveFull <==> !AnyFree(store, x))
      && (result == ReceiveAccepted ==> exists i: nat | i < WINDOW ::
            && Fits(store, x, size, i) && (forall j: nat | j < i :: !Fits(store, x, size, j))
            && next == x.(segments := x.segments[i := m]))
      && (result != ReceiveAccepted ==> next == x)
  {
    FirstFitIs(store, x, size, 0);
    if i: nat :| i < WINDOW && Fits(store, x, size, i) { FirstFitFinds(store, x, size, 0, i); }
  }

  lemma {:induction false} FirstFitIs(store: Storage, x: Ingress, size: nat, i: nat)
    ensures forall j: nat | i <= j < FirstFit(store, x, size, i) :: !Fits(store, x, size, j)
    decreases store.Limit() - i
  {
    if i < store.Limit() && !Fits(store, x, size, i) { FirstFitIs(store, x, size, i + 1); }
  }

  /** Any other known PDU waits alone, in a slot of its own size; what is of no known kind is refused. */
  lemma OtherAnswer(store: Storage, x: Ingress, m: Message, size: nat)
    requires KindOf(m) != Some(SegmentType)
    ensures var (next, result) := Receive(store, x, m, size);
      && (result == ReceiveAccepted <==> !m.BadControl? && x.datagram.None? && size <= store.datagram)
      && (result == ReceiveFull <==> !m.BadControl? && x.datagram.Some?)
      && next == if result == ReceiveAccepted then Ingress(x.segments, Some(m)) else x
  {}

  predicate LowestHeld(x: Ingress, i: nat) { i in x.segments && forall j: nat | j < i :: j !in x.segments }

  /** What one call of a turn does, if it is made at all. */
  ghost function Call(c: R.Config, r: R.Receiver, m: Option<Message>, now: u32, a: R.Answers): R.Step {
    if m.Some? then R.Process(c, r, m.value, now, a) else R.Step(r, [], IsIdle)
  }

  /**
   * A turn hands the engine the SEGMENT in the lowest slot in use and then the other PDU, each if there is
   * one, and frees what held them. It fails if either call failed, is otherwise blocked if either was, is idle
   * when nothing was waiting, and is progress in every other case.
   */
  lemma TurnIs(store: Storage, c: R.Config, x: Ingress, r: R.Receiver, now: u32, a: R.Answers, b: R.Answers, i: nat)
    requires Fit(store, x) && !R.Expired(c, r, now) && (x.segments != map[] ==> LowestHeld(x, i))
    ensures var t := Turn(c, x, r, now, a, b);
      var first := Call(c, r, if i in x.segments then Some(x.segments[i]) else None, now, a);
      var second := Call(c, first.next, x.datagram, now, b);
      && t.ingress == Ingress(x.segments - {i}, None)
      && t.step.next == second.next && t.step.events == first.events + second.events
      && (t.step.result == Failure <==> first.result == Failure || second.result == Failure)
      && (t.step.result == Blocked <==> t.step.result != Failure && (first.result == Blocked || second.result == Blocked))
      && (t.step.result == IsIdle <==> x.segments == map[] && x.datagram.None?)
  {
    HeldIsFound(store, x, 0);
    if x.segments != map[] {
      assert FirstHeld(x, 0) == i;
    } else {
      assert x.segments - {i} == map[];
    }
  }

  /** At expiry nothing that was waiting is handed on. */
  lemma TurnExpires(c: R.Config, x: Ingress, r: R.Receiver, now: u32, a: R.Answers, b: R.Answers)
    requires R.Expired(c, r, now)
    ensures var t := Turn(c, x, r, now, a, b);
      t.ingress == Ingress(map[], None) && t.step == R.Step(r.(phase := Error), [R.Failed(R.InactivityTimeout)], Failure)
  {}

  // The configuration the slots imply.

  predicate SizesFit(store: Storage, n: nat, maximum: nat)
    requires n <= store.Limit()
  {
    forall i: nat | i < n && store.Installed(i) ::
      maximum == 0 || maximum + SEGMENT_HEADER_SIZE <= store.slots[i].value
  }

  /** The receive window is the number of slots, and no segment size it admits exceeds any of them. */
  ghost predicate Configures(store: Storage, timeout: u32, c: R.Config) {
    && c.width == store.Count(store.Limit()) <= WINDOW && c.timeout == timeout && c.maximumObjectSize == 0xFFFF_FFFF
    && SizesFit(store, store.Limit(), c.maximumSegmentSize)
    && (c.width == 0 ==> c.maximumSegmentSize == 0)
  }

  lemma {:induction false} CountBound(store: Storage, n: nat)
    requires n <= store.Limit()
    ensures store.Count(n) <= n
    ensures store.Count(n) > 0 <==> exists i: nat | i < n :: store.Installed(i)
  {
    if n > 0 { CountBound(store, n - 1); }
  }

  method EngineConfig(store: Storage, timeout: u32) returns (c: R.Config)
    ensures Configures(store, timeout, c)
    ensures c.width > 0 ==> exists i: nat | store.Installed(i) ::
      c.maximumSegmentSize == if store.slots[i].value >= 4 then store.slots[i].value - 4 else 0
  {
    var width, maximum: u16 := 0, 0xFFFF;
    ghost var least: nat := 0;
    for index := 0 to store.Limit()
      invariant width == store.Count(index)
      invariant SizesFit(store, index, maximum) || width == 0
      invariant width > 0 ==> store.Installed(least)
      invariant width > 0 ==> maximum == if store.slots[least].value >= 4 then store.slots[least].value - 4 else 0
      invariant width == 0 ==> maximum == 0xFFFF && forall i: nat | i < index :: !store.Installed(i)
    {
      CountBound(store, index);
      if store.slots[index].None? { continue; }
      width := width + 1;
      var size: u16 := if store.slots[index].value >= SEGMENT_HEADER_SIZE then store.slots[index].value - SEGMENT_HEADER_SIZE else 0;
      if size < maximum {
        maximum := size;
        least := index;
      }
    }
    CountBound(store, store.Limit());
    if width == 0 { maximum := 0; }
    c := R.Config(maximum, width, 0xFFFF_FFFF, timeout);
  }

  /** So a segment of any transfer the receiver accepts finds a slot as long as one is free. */
  lemma SegmentHasRoom(store: Storage, timeout: u32, c: R.Config, setup: Setup, x: Ingress, m: Message)
    requires Configures(store, timeout, c) && RR.Acceptable(c, setup)
    requires m.SegmentMsg? && m.index <= setup.finalIndex && |m.payload| == setup.SizeOf(m.index)
    ensures Receive(store, x, m, SEGMENT_HEADER_SIZE + |m.payload|).1
         == if AnyFree(store, x) then ReceiveAccepted else ReceiveFull
  {
    if i: nat :| i < WINDOW && Free(store, x, i) {
      FirstFitFinds(store, x, SEGMENT_HEADER_SIZE + |m.payload|, 0, i);
    }
  }

  lemma {:induction false} FirstFitFinds(store: Storage, x: Ingress, size: nat, from: nat, i: nat)
    requires from <= i && Fits(store, x, size, i)
    ensures FirstFit(store, x, size, from) <= i
    decreases i - from
  {
    if from < i && !Fits(store, x, size, from) { FirstFitFinds(store, x, size, from + 1, i); }
  }

  /** The receiver as built: the occupied mask and the slots, in front of the engine. */
  class BitsReceiver {
    const store: Storage
    const packets: array<Message>
    const engine: E.Engine
    var datagramPacket: Message
    var occupiedMask: u16
    var datagramOccupied: bool
    ghost var ingress: Ingress

    ghost predicate Valid()
      reads this, packets, engine
    {
      && engine.Valid()
      && packets.Length == store.Limit()
      && Fit(store, ingress)
      && B.Bits(occupiedMask) == ingress.segments.Keys
      && (forall i: nat | i in ingress.segments :: packets[i] == ingress.segments[i])
      && ingress.datagram == (if datagramOccupied then Some(datagramPacket) else None)
    }

    constructor (installed: Storage, buildLimit: nat, timeout: u32)
      requires 1 <= buildLimit <= WINDOW
      ensures Valid() && ingress == EMPTY && engine.model == R.IDLE && store == installed
      ensures engine.config.width == Min(installed.Count(installed.Limit()), buildLimit)
      ensures fresh(packets) && fresh(engine)
    {
      store := installed;
      packets := new Message[Min(|installed.slots|, WINDOW)](_ => BadControl);
      var config := EngineConfig(installed, timeout);
      engine := new E.Engine(buildLimit, config);
      datagramPacket, occupiedMask, datagramOccupied := BadControl, 0, false;
      ingress := EMPTY;
      new;
      B.NoBits(0);
    }

    method Accept(m: Message, size: nat) returns (result: ReceiveResult)
      requires Valid()
      modifies this`datagramPacket, this`occupiedMask, this`datagramOccupied, this`ingress, packets
      ensures Valid()
      ensures (ingress, result) == Receive(store, old(ingress), m, size)
    {
      if m.BadControl? {
        return ReceiveRejected;
      }
      if KindOf(m) != Some(SegmentType) {
        if datagramOccupied { return ReceiveFull; }
        if size > store.datagram { return ReceiveRejected; }
        datagramPacket, datagramOccupied := m, true;
        ingress := ingress.(datagram := Some(m));
        return ReceiveAccepted;
      }
      var slot, seen := FindSlot(size);
      if slot < store.Limit() {
        Fill(slot, m);
        result := ReceiveAccepted;
      } else {
        result := if seen then ReceiveRejected else ReceiveFull;
      }
    }

    /** The first free slot that takes the packet; seen tells whether any slot was free. */
    method FindSlot(size: nat) returns (slot: nat, seen: bool)
      requires Valid()
      ensures slot == FirstFit(store, ingress, size, 0)
      ensures slot == store.Limit() ==> (seen <==> AnyFree(store, ingress))
    {
      slot, seen := 0, false;
      while slot < store.Limit()
        invariant slot <= store.Limit()
        invariant FirstFit(store, ingress, size, 0) == FirstFit(store, ingress, size, slot)
        invariant seen ==> AnyFree(store, ingress)
        invariant !seen ==> forall i: nat | i < slot :: !Free(store, ingress, i)
      {
        var bit := B.Single16(slot);
        var taken := B.And16(occupiedMask, bit);
        var vacant := B.IsZero16(taken);
        assert slot in B.Bits(taken) <==> slot in ingress.segments;
        if store.slots[slot].Some? && vacant {
          assert Free(store, ingress, slot);
          seen := true;
          if size <= store.slots[slot].value { return; }
        }
        slot := slot + 1;
      }
    }

    method Fill(slot: nat, m: Message)
      requires Valid() && Free(store, ingress, slot)
      modifies this`occupiedMask, this`ingress, packets
      ensures Valid()
      ensures ingress == old(ingress).(segments := old(ingress).segments[slot := m])
    {
      var bit := B.Single16(slot);
      occupiedMask := B.Or16(occupiedMask, bit);
      packets[slot] := m;
      ingress := ingress.(segments := ingress.segments[slot := m]);
    }

    /** The lowest occupied slot, or the window width when none is. */
    method FindHeld() returns (slot: nat)
      requires Valid()
      ensures slot == FirstHeld(ingress, 0) <= WINDOW
    {
      slot := 0;
      while slot < WINDOW
        invariant slot <= WINDOW && FirstHeld(ingress, 0) == FirstHeld(ingress, slot)
      {
        var bit := B.Single16(slot);
        var taken := B.And16(occupiedMask, bit);
        var vacant := B.IsZero16(taken);
        assert slot in B.Bits(taken) <==> slot in ingress.segments;
        if !vacant { return; }
        slot := slot + 1;
      }
    }

    /** Free a slot before its packet is handed on. */
    method Empty(slot: nat) returns (m: Message)
      requires Valid() && slot in ingress.segments
      modifies this`occupiedMask, this`ingress
      ensures Valid()
      ensures m == old(ingress).segments[slot] && ingress == old(ingress).(segments := old(ingress).segments - {slot})
    {
      var bit := B.Single16(slot);
      var rest := B.Complement16(bit);
      occupiedMask := B.And16(occupiedMask, rest);
      m := packets[slot];
      ingress := ingress.(segments := ingress.segments - {slot});
    }

    method ConsumeSegment(now: u32, a: R.Answers) returns (result: ProcessResult, events: seq<R.Event>)
      requires Valid()
      modifies this`occupiedMask, this`ingress, engine
      ensures Valid()
      ensures Turned(ingress, R.Step(engine.model, events, result))
           == TakeSegment(engine.config, old(ingress), old(engine.model), now, a)
    {
      HeldIsFound(store, ingress, 0);
      var slot := FindHeld();
      if slot < WINDOW {
        var m := Empty(slot);
        result, events := engine.Consume(m, now, a);
      } else {
        result, events := IsIdle, [];
      }
    }

    method ConsumeDatagram(now: u32, b: R.Answers, first: ProcessResult, before: seq<R.Event>)
      returns (result: ProcessResult, events: seq<R.Event>)
      requires Valid()
      modifies this`datagramOccupied, this`ingress, engine
      ensures Valid()
      ensures Turned(ingress, R.Step(engine.model, events, result))
           == TakeDatagram(engine.config, Turned(old(ingress), R.Step(old(engine.model), before, first)), now, b)
    {
      if !datagramOccupied {
        return first, before;
      }
      var second, more := engine.Consume(datagramPacket, now, b);
      datagramOccupied := false;
      ingress := ingress.(datagram := None);
      events := before + more;
      if second == Failure || first == Failure {
        return Failure, events;
      }
      result := if first == Blocked || second == Blocked then Blocked else Progress;
    }

    method Process(now: u32, a: R.Answers, b: R.Answers) returns (result: ProcessResult, events: seq<R.Event>)
      requires Valid()
      modifies this`datagramOccupied, this`occupiedMask, this`ingress, engine
      ensures Valid()
      ensures Turned(ingress, R.Step(engine.model, events, result))
           == Turn(engine.config, old(ingress), old(engine.model), now, a, b)
    {
      var polled, expired := engine.CheckExpiry(now);
      if polled == Failure {
        occupiedMask, datagramOccupied := 0, false;
        ingress := EMPTY;
        B.NoBits(0);
        return Failure, expired;
      }
      result, events := ConsumeSegment(now, a);
      result, events := ConsumeDatagram(now, b, result, events);
    }
  }
}
