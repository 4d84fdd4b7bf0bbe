/**
 * What a BITS transmitter does, over absolute segment indices: the segments its Link has admitted,
 * with when and how often, and the ones the peer has reported. Windows and registers do not appear.
 */
module SenderSpec {
  import opened Integers
  import opened Forwarding
  import opened Protocol
  import Bitmap16

  datatype Timing = Timing(retransmit: u32, probe: u32, maxRetries: u8)
  datatype Config = Config(timing: Timing, capacity: nat)

  datatype StartResult = Started | Busy | BadArgument | PacketTooSmall

  datatype Event =
    | Datagram(datagram: seq<byte>)
    | Complete
    | RejectedBy(reason: RejectReason)
    | AbortedNow
    | Pdu(message: Message, result: SendResult)

  /** The object being sent and how SETUP frames it; no segments when there has been no transfer. */
  datatype Job = Job(image: seq<byte>, setup: Setup, total: nat)
  {
    function Payload(i: nat): seq<byte> {
      var from, to := setup.OffsetOf(i), setup.OffsetOf(i) + setup.SizeOf(i);
      if to <= |image| then image[from..to] else []
    }

    function SegmentOf(i: u16): Message { SegmentMsg(setup.sessionId, i, Payload(i)) }

    predicate Framed(c: Config) {
      && total == setup.SegmentCount()
      && 0 < setup.finalSize <= setup.segmentSize
      && |image| == setup.OffsetOf(setup.finalIndex) + setup.finalSize
      && c.capacity >= SETUP_SIZE && c.capacity >= setup.segmentSize + SEGMENT_HEADER_SIZE
    }
  }

  /** When a segment was last admitted, and how many of its admissions were retransmissions. */
  datatype Entry = Entry(at: u32, retries: nat)

  /** counted: all below are acknowledged; granted: the peer permits all below; sent: admitted segments. */
  datatype Track = Track(counted: nat, granted: nat, sent: map<nat, Entry>, reported: set<nat>)
  {
    /** Admitted, inside the window, and not yet reported. */
    predicate Outstanding(i: nat) { counted <= i < granted && i in sent && i !in reported }

    /** Counted within granted, sent between them, reported within sent. */
    ghost predicate Ordered() {
      && counted <= granted <= counted + WINDOW
      && (forall i: nat | i < counted :: i in sent)
      && (forall i: nat | i in sent :: i < granted)
      && (forall i: nat | i in reported :: i in sent)
    }

    predicate Bounded(limit: nat) { forall i: nat | i in sent :: sent[i].retries <= limit }
  }

  datatype Timers = Timers(
    setupSent: bool, setupAt: u32, setupRetries: nat, probing: bool, probeAt: u32, probeRetries: nat)

  datatype Sender = Sender(phase: TransferState, job: Job, track: Track, timers: Timers)
  {
    predicate Open() { phase == Starting || phase == Active }
  }

  const NO_JOB := Job([], NO_SETUP, 0)
  const NO_TRACK := Track(0, 0, map[], {})
  const NO_TIMERS := Timers(false, 0, 0, false, 0, 0)
  const IDLE := Sender(Idle, NO_JOB, NO_TRACK, NO_TIMERS)

  function SendResultOf(route: RouteResult): SendResult {
    match route
    case RouteAccepted => Sent
    case RoutePartial => Partial
    case RouteFull => Full
    case RouteTooLarge => TooLarge
    case RouteRejected => SendRejected
    case _ => NoRoute
  }

  /** Segments needed for an object of this size. */
  function SegmentsFor(size: nat, segmentSize: nat): nat
    requires segmentSize > 0
  {
    size / segmentSize + (if size % segmentSize == 0 then 0 else 1)
  }

  /** The last segment is the non-empty rest after the full ones. */
  lemma SegmentsFit(size: nat, segmentSize: nat)
    requires size > 0 && segmentSize > 0
    ensures var count := SegmentsFor(size, segmentSize);
      count > 0 && 0 < size - (count - 1) * segmentSize <= segmentSize
  {
    assert size == size / segmentSize * segmentSize + size % segmentSize;
    var whole := size / segmentSize;
    assert (whole - 1) * segmentSize == whole * segmentSize - segmentSize;
  }

  function Start(c: Config, s: Sender, image: seq<byte>, segmentSize: u16, id: u8, isn: u8): (Sender, StartResult) {
    if s.Open() then (s, Busy)
    else if image == [] || segmentSize == 0 || |image| > 0xFFFF_FFFF then (s, BadArgument)
    else
      var count := SegmentsFor(|image|, segmentSize);
      if count == 0 || count > MAXIMUM_SEGMENT_COUNT then (s, BadArgument)
      else if c.capacity < SETUP_SIZE || c.capacity < segmentSize + SEGMENT_HEADER_SIZE then (s, PacketTooSmall)
      else
        SegmentsFit(|image|, segmentSize);
        var setup := Setup(id, isn, count - 1, segmentSize, |image| - (count - 1) * segmentSize);
        (Sender(Starting, Job(image, setup, count), NO_TRACK, NO_TIMERS), Started)
  }

  // Acknowledgements.

  /** How far an acknowledgement moves the count, and the grant past it, when it is not ignored. */
  datatype Reading = Ignored | Read(advance: nat, span: nat)

  ghost function ReadAck(j: Job, t: Track, bitmap: u16, maxSequence: u8, base: u8): Reading {
    var advance := Minus8(base, BaseSequence(j.setup, t.counted));
    var span := Minus8(maxSequence, base);
    if advance > WINDOW || t.counted + advance > j.total
       || span > WINDOW || t.counted + advance + span > j.total
       || (exists o :: o in Bitmap16.Bits(bitmap) && o >= span)
       || (exists i: nat :: t.counted <= i < t.counted + advance && i !in t.sent)
    then Ignored
    else Read(advance, span)
  }

  ghost function TakeAck(t: Track, bitmap: u16, advance: nat, span: nat): Track {
    var counted := t.counted + advance;
    Track(counted, if counted + span > t.granted then counted + span else t.granted, t.sent,
          t.reported + (set i | i in t.sent && i >= counted && i - counted in Bitmap16.Bits(bitmap)))
  }

  ghost function OnAck(s: Sender, id: u8, bitmap: u16, maxSequence: u8, base: u8): (Sender, seq<Event>) {
    if !s.Open() || id != s.job.setup.sessionId || !s.timers.setupSent then (s, [])
    else
      match ReadAck(s.job, s.track, bitmap, maxSequence, base)
      case Ignored => (s, [])
      case Read(advance, span) =>
        var next := Acknowledged(s, bitmap, advance, span);
        (next, if next.phase == Completed then [Complete] else [])
  }

  ghost function Acknowledged(s: Sender, bitmap: u16, advance: nat, span: nat): Sender {
    var track := TakeAck(s.track, bitmap, advance, span);
    Sender(if track.counted == s.job.total then Completed else Active, s.job, track,
           s.timers.(setupSent := true, probing := false, probeRetries := 0))
  }

  /** A message is handled, or not: an unhandled one is fatal to the transmitter. */
  datatype Handling = Unhandled | Handled(next: Sender, events: seq<Event>)

  ghost function OnMessage(s: Sender, m: Message): Handling {
    match m
    case AckMsg(id, bitmap, maxSequence, base) =>
      var (next, events) := OnAck(s, id, bitmap, maxSequence, base); Handled(next, events)
    case RejectMsg(id, reason) =>
      if s.Open() && id == s.job.setup.sessionId then Handled(s.(phase := Rejected), [RejectedBy(reason)])
      else Handled(s, [])
    case AbortMsg(id) =>
      if s.Open() && id == s.job.setup.sessionId then Handled(s.(phase := Aborted), [AbortedNow]) else Handled(s, [])
    case DatagramMsg(payload) => Handled(s, [Datagram(payload)])
    case _ => Unhandled
  }

  // Sending.

  datatype Step = Step(next: Sender, events: seq<Event>, result: ProcessResult)

  predicate Elapsed(now: u32, start: u32, duration: u32) { Since(now, start) >= duration }

  datatype Attempted = Attempted(result: SendResult, events: seq<Event>)

  /** The attempt to send a message of a size that may not even fit the transmit packet. */
  function Attempt(c: Config, size: nat, m: Message, route: RouteResult): Attempted {
    if size > c.capacity then Attempted(TooLarge, [])
    else Attempted(SendResultOf(route), [Pdu(m, SendResultOf(route))])
  }

  /** A sent message takes its effect; a full Link is retried later; anything else ends the transfer. */
  function Settle(s: Sender, after: Sender, attempt: Attempted): Step {
    match attempt.result
    case Sent => Step(after, attempt.events, Progress)
    case Full => Step(s, attempt.events, Blocked)
    case _ => Step(s.(phase := Error), attempt.events, Failure)
  }

  function GiveUp(c: Config, s: Sender, route: RouteResult): Step {
    Step(s.(phase := Aborted),
         Attempt(c, ABORT_SIZE, AbortMsg(s.job.setup.sessionId), route).events + [AbortedNow], Failure)
  }

  function SendSetup(c: Config, s: Sender, now: u32, route: RouteResult, again: bool): Step {
    var retries := s.timers.setupRetries + (if again then 1 else 0);
    Settle(s, s.(timers := s.timers.(setupSent := true, setupAt := now, setupRetries := retries)),
           Attempt(c, SETUP_SIZE, SetupMsg(s.job.setup), route))
  }

  function Admit(t: Track, i: nat, now: u32): Track {
    t.(sent := t.sent[i := Entry(now, if i in t.sent then t.sent[i].retries + 1 else 0)])
  }

  function SendSegment(c: Config, s: Sender, i: u16, now: u32, route: RouteResult): Step {
    Settle(s, s.(track := Admit(s.track, i, now), timers := s.timers.(probing := false)),
           Attempt(c, SEGMENT_HEADER_SIZE + s.job.setup.SizeOf(i), s.job.SegmentOf(i), route))
  }

  function SendProbe(c: Config, s: Sender, now: u32, route: RouteResult): Step {
    Settle(s, s.(timers := s.timers.(probeAt := now, probeRetries := s.timers.probeRetries + 1)),
           Attempt(c, PROBE_SIZE, ProbeMsg(s.job.setup.sessionId), route))
  }

  /** The least granted segment from i on that was never admitted, or the end of the grant. */
  function FirstUnsent(t: Track, i: nat): nat
    decreases t.granted - i
  {
    if i < t.granted && i in t.sent then FirstUnsent(t, i + 1) else i
  }

  predicate Due(c: Config, t: Track, now: u32, i: nat) {
    t.Outstanding(i) && Elapsed(now, t.sent[i].at, c.timing.retransmit)
  }

  /** The least outstanding segment from i on whose timer has run out, or the end of the grant. */
  function FirstDue(c: Config, t: Track, now: u32, i: nat): nat
    decreases t.granted - i
  {
    if i < t.granted && !Due(c, t, now, i) then FirstDue(c, t, now, i + 1) else i
  }

  lemma {:induction false} FirstUnsentIs(t: Track, i: nat)
    requires i <= t.granted
    ensures i <= FirstUnsent(t, i) <= t.granted
    ensures forall k: nat | i <= k < FirstUnsent(t, i) :: k in t.sent
    ensures FirstUnsent(t, i) < t.granted ==> FirstUnsent(t, i) !in t.sent
    decreases t.granted - i
  {
    if i < t.granted && i in t.sent { FirstUnsentIs(t, i + 1); }
  }

  lemma {:induction false} FirstDueIs(c: Config, t: Track, now: u32, i: nat)
    requires i <= t.granted
    ensures i <= FirstDue(c, t, now, i) <= t.granted
    ensures forall k: nat | i <= k < FirstDue(c, t, now, i) :: !Due(c, t, now, k)
    ensures FirstDue(c, t, now, i) < t.granted ==> Due(c, t, now, FirstDue(c, t, now, i))
    decreases t.granted - i
  {
    if i < t.granted && !Due(c, t, now, i) { FirstDueIs(c, t, now, i + 1); }
  }

  predicate AnyOutstanding(t: Track) { exists i: nat | i < t.granted :: t.Outstanding(i) }

  function ActStarting(c: Config, s: Sender, now: u32, route: RouteResult, quiet: ProcessResult): Step {
    if !s.timers.setupSent then SendSetup(c, s, now, route, false)
    else if !Elapsed(now, s.timers.setupAt, c.timing.retransmit) then Step(s, [], quiet)
    else if s.timers.setupRetries >= c.timing.maxRetries then GiveUp(c, s, route)
    else SendSetup(c, s, now, route, true)
  }

  function NextProbe(c: Config, s: Sender, now: u32, route: RouteResult): Step {
    if s.timers.probeRetries >= c.timing.maxRetries then GiveUp(c, s, route) else SendProbe(c, s, now, route)
  }

  function ActProbing(c: Config, s: Sender, now: u32, route: RouteResult, quiet: ProcessResult): Step {
    if s.track.counted >= s.job.total || AnyOutstanding(s.track) then
      Step(s.(timers := s.timers.(probing := false, probeRetries := 0)), [], quiet)
    else if !s.timers.probing then Step(s.(timers := s.timers.(probing := true, probeAt := now)), [], quiet)
    else if !Elapsed(now, s.timers.probeAt, c.timing.probe) then Step(s, [], quiet)
    else NextProbe(c, s, now, route)
  }

  function ActResending(c: Config, s: Sender, now: u32, route: RouteResult, quiet: ProcessResult): Step
    requires s.track.counted <= s.track.granted <= 0x1_0000
  {
    FirstDueIs(c, s.track, now, s.track.counted);
    var due := FirstDue(c, s.track, now, s.track.counted);
    if due < s.track.granted then
      if s.track.sent[due].retries >= c.timing.maxRetries then GiveUp(c, s, route)
      else SendSegment(c, s, due, now, route)
    else ActProbing(c, s, now, route, quiet)
  }

  function ActActive(c: Config, s: Sender, now: u32, route: RouteResult, quiet: ProcessResult): Step
    requires s.track.counted <= s.track.granted <= 0x1_0000
  {
    var unsent := FirstUnsent(s.track, s.track.counted);
    if unsent < s.track.granted then SendSegment(c, s, unsent, now, route)
    else ActResending(c, s, now, route, quiet)
  }

  function Act(c: Config, s: Sender, now: u32, route: RouteResult, quiet: ProcessResult): Step
    requires s.track.counted <= s.track.granted <= 0x1_0000
  {
    match s.phase
    case Starting => ActStarting(c, s, now, route, quiet)
    case Active => ActActive(c, s, now, route, quiet)
    case _ => Step(s, [], quiet)
  }

  /** One call: at most one received message, then at most one send or timer step. */
  ghost function Process(c: Config, s: Sender, inbox: Option<Message>, now: u32, route: RouteResult): Step
    requires Sound(c, s)
  {
    if inbox.None? then Act(c, s, now, route, IsIdle)
    else
      MessageSound(c, s, inbox.value);
      match OnMessage(s, inbox.value)
      case Unhandled => Step(s.(phase := Error), [], Failure)
      case Handled(next, events) =>
        var step := Act(c, next, now, route, Progress);
        step.(events := events + step.events)
  }

  /** A local abort: the notice to the peer is attempted, its admission does not matter. */
  function AbortLocally(c: Config, s: Sender, route: RouteResult): (Sender, seq<Event>, SendResult) {
    if !s.Open() then (s, [], InvalidState)
    else
      var attempt := Attempt(c, ABORT_SIZE, AbortMsg(s.job.setup.sessionId), route);
      (s.(phase := Aborted), attempt.events + [AbortedNow], attempt.result)
  }

  // What always holds of a transmitter.

  predicate TimersBounded(t: Timers, limit: nat) { t.setupRetries <= limit && t.probeRetries <= limit }

  predicate PhaseFits(phase: TransferState, counted: nat, granted: nat, total: nat, setupSent: bool) {
    && (total == 0 ==> phase == Idle || phase == Error)
    && (total > 0 ==> phase != Idle)
    && (phase == Starting ==> granted == 0)
    && (phase == Active ==> counted < total && setupSent)
    && (phase == Completed ==> counted == total)
  }

  ghost predicate Sound(c: Config, s: Sender) {
    && s.track.Ordered() && s.track.Bounded(c.timing.maxRetries) && TimersBounded(s.timers, c.timing.maxRetries)
    && s.track.granted <= s.job.total <= MAXIMUM_SEGMENT_COUNT
    && (s.job.total > 0 ==> s.job.Framed(c))
    && PhaseFits(s.phase, s.track.counted, s.track.granted, s.job.total, s.timers.setupSent)
  }

  /** Every segment of the object lies inside its bytes. */
  lemma {:induction false} PayloadFits(c: Config, j: Job, index: nat)
    requires j.Framed(c) && index < j.total
    ensures j.setup.OffsetOf(index) + j.setup.SizeOf(index) <= |j.image|
    decreases j.total - index
  {
    if index < j.setup.finalIndex { PayloadFits(c, j, index + 1); }
  }

  lemma StartSound(c: Config, s: Sender, image: seq<byte>, segmentSize: u16, id: u8, isn: u8)
    requires Sound(c, s)
    ensures Sound(c, Start(c, s, image, segmentSize, id, isn).0)
  {
    if Start(c, s, image, segmentSize, id, isn).1 == Started {
      SegmentsFit(|image|, segmentSize);
      var next := Start(c, s, image, segmentSize, id, isn).0;
      next.job.setup.OffsetIs(next.job.setup.finalIndex);
    }
  }

  /** Whatever an acknowledgement claims, only admitted segments are counted or reported, within the grant. */
  lemma TakeOrdered(j: Job, t: Track, bitmap: u16, maxSequence: u8, base: u8)
    requires t.Ordered() && t.granted <= j.total && ReadAck(j, t, bitmap, maxSequence, base).Read?
    ensures var Read(advance, span) := ReadAck(j, t, bitmap, maxSequence, base);
      var next := TakeAck(t, bitmap, advance, span);
      next.Ordered() && next.granted <= j.total && t.counted <= next.counted <= t.granted <= next.granted
  {
    var Read(advance, span) := ReadAck(j, t, bitmap, maxSequence, base);
    if advance > 0 { assert t.counted + advance - 1 in t.sent; }
  }

  lemma MessageSound(c: Config, s: Sender, m: Message)
    requires Sound(c, s)
    ensures match OnMessage(s, m) case Unhandled => true case Handled(next, _) => Sound(c, next)
  {
    if m.AckMsg? && s.Open() && m.sessionId == s.job.setup.sessionId && s.timers.setupSent
       && ReadAck(s.job, s.track, m.bitmap, m.maxSequence, m.base).Read? {
      TakeOrdered(s.job, s.track, m.bitmap, m.maxSequence, m.base);
    }
  }

  lemma AdmitOrdered(t: Track, i: nat, now: u32, limit: nat)
    requires t.Ordered() && t.Bounded(limit) && t.counted <= i < t.granted
    requires i in t.sent ==> t.sent[i].retries < limit
    ensures Admit(t, i, now).Ordered() && Admit(t, i, now).Bounded(limit)
  {}

  lemma StartingSound(c: Config, s: Sender, now: u32, route: RouteResult, quiet: ProcessResult)
    requires Sound(c, s) && s.phase == Starting
    ensures Sound(c, ActStarting(c, s, now, route, quiet).next)
  {}

  lemma ProbingSound(c: Config, s: Sender, now: u32, route: RouteResult, quiet: ProcessResult)
    requires Sound(c, s) && s.phase == Active
    ensures Sound(c, ActProbing(c, s, now, route, quiet).next)
  {}

  lemma AdmitSound(c: Config, s: Sender, i: nat, now: u32)
    requires Sound(c, s) && s.phase == Active && s.track.counted <= i < s.track.granted
    requires i in s.track.sent ==> s.track.sent[i].retries < c.timing.maxRetries
    ensures Sound(c, s.(track := Admit(s.track, i, now), timers := s.timers.(probing := false)))
  {
    AdmitOrdered(s.track, i, now, c.timing.maxRetries);
  }

  lemma SegmentSound(c: Config, s: Sender, i: u16, now: u32, route: RouteResult)
    requires Sound(c, s) && s.phase == Active && s.track.counted <= i < s.track.granted
    requires i in s.track.sent ==> s.track.sent[i].retries < c.timing.maxRetries
    ensures Sound(c, SendSegment(c, s, i, now, route).next)
  {
    AdmitOrdered(s.track, i, now, c.timing.maxRetries);
  }

  lemma TimersSound(c: Config, s: Sender, t: Timers)
    requires Sound(c, s) && TimersBounded(t, c.timing.maxRetries) && (s.timers.setupSent ==> t.setupSent)
    ensures Sound(c, s.(timers := t))
  {}

  lemma ResendingSound(c: Config, s: Sender, now: u32, route: RouteResult, quiet: ProcessResult)
    requires Sound(c, s) && s.phase == Active
    ensures Sound(c, ActResending(c, s, now, route, quiet).next)
  {
    FirstDueIs(c, s.track, now, s.track.counted);
    var due := FirstDue(c, s.track, now, s.track.counted);
    if due < s.track.granted {
      if s.track.sent[due].retries < c.timing.maxRetries { SegmentSound(c, s, due, now, route); }
    } else {
      ProbingSound(c, s, now, route, quiet);
    }
  }

  lemma ActSound(c: Config, s: Sender, now: u32, route: RouteResult, quiet: ProcessResult)
    requires Sound(c, s)
    ensures Sound(c, Act(c, s, now, route, quiet).next)
  {
    match s.phase
    case Starting => StartingSound(c, s, now, route, quiet);
    case Active =>
      FirstUnsentIs(s.track, s.track.counted);
      var unsent := FirstUnsent(s.track, s.track.counted);
      if unsent < s.track.granted {
        SegmentSound(c, s, unsent, now, route);
      } else {
        ResendingSound(c, s, now, route, quiet);
      }
    case _ =>
  }

  lemma ProcessSound(c: Config, s: Sender, inbox: Option<Message>, now: u32, route: RouteResult)
    requires Sound(c, s)
    ensures Sound(c, Process(c, s, inbox, now, route).next)
  {
    if inbox.None? {
      ActSound(c, s, now, route, IsIdle);
    } else {
      MessageSound(c, s, inbox.value);
      match OnMessage(s, inbox.value)
      case Unhandled =>
      case Handled(next, events) => ActSound(c, next, now, route, Progress);
    }
  }

  // What a call can put on the Link, and what it cannot undo.

  /** The data a transmitter sends: its SETUP, and granted segments with their own bytes. */
  ghost predicate Speaks(j: Job, t: Track, m: Message, result: SendResult) {
    match m
    case SetupMsg(setup) => setup == j.setup
    case SegmentMsg(id, index, payload) =>
      && id == j.setup.sessionId && t.counted <= index < t.granted <= j.total && index !in t.reported
      && payload == j.Payload(index) && (result == Sent ==> index in t.sent)
    case ProbeMsg(id) => id == j.setup.sessionId
    case AbortMsg(id) => id == j.setup.sessionId
    case _ => false
  }

  /** A step without a received message sends data of the job, forgets nothing, and completes nothing. */
  ghost predicate Emits(s: Sender, step: Step) {
    && step.next.job == s.job
    && step.next.track.counted == s.track.counted && step.next.track.reported == s.track.reported
    && (forall i: nat | i in s.track.sent :: i in step.next.track.sent)
    && (step.next.Open() ==> s.Open()) && (step.next.phase == Completed ==> s.phase == Completed)
    && (forall e | e in step.events && e.Pdu? :: Speaks(s.job, step.next.track, e.message, e.result))
    && (forall e | e in step.events && e.Pdu? && e.result != Sent && e.result != Full :: !step.next.Open())
  }

  lemma SettleEmits(c: Config, s: Sender, after: Sender, size: nat, m: Message, route: RouteResult)
    requires s.Open() && after.phase == s.phase && after.job == s.job
    requires after.track.counted == s.track.counted && after.track.reported == s.track.reported
    requires forall i: nat | i in s.track.sent :: i in after.track.sent
    requires Speaks(s.job, after.track, m, Sent)
    requires forall r: SendResult | r != Sent :: Speaks(s.job, s.track, m, r)
    ensures Emits(s, Settle(s, after, Attempt(c, size, m, route)))
  {}

  lemma GiveUpEmits(c: Config, s: Sender, route: RouteResult)
    requires s.Open()
    ensures Emits(s, GiveUp(c, s, route))
  {}

  lemma SetupEmits(c: Config, s: Sender, now: u32, route: RouteResult, again: bool)
    requires s.phase == Starting
    ensures Emits(s, SendSetup(c, s, now, route, again))
  {
    var retries := s.timers.setupRetries + (if again then 1 else 0);
    SettleEmits(c, s, s.(timers := s.timers.(setupSent := true, setupAt := now, setupRetries := retries)),
                SETUP_SIZE, SetupMsg(s.job.setup), route);
  }

  lemma ProbeEmits(c: Config, s: Sender, now: u32, route: RouteResult)
    requires s.phase == Active
    ensures Emits(s, SendProbe(c, s, now, route))
  {
    SettleEmits(c, s, s.(timers := s.timers.(probeAt := now, probeRetries := s.timers.probeRetries + 1)),
                PROBE_SIZE, ProbeMsg(s.job.setup.sessionId), route);
  }

  lemma SegmentEmits(c: Config, s: Sender, i: u16, now: u32, route: RouteResult)
    requires s.phase == Active && s.track.counted <= i < s.track.granted <= s.job.total && i !in s.track.reported
    ensures Emits(s, SendSegment(c, s, i, now, route))
  {
    SettleEmits(c, s, s.(track := Admit(s.track, i, now), timers := s.timers.(probing := false)),
                SEGMENT_HEADER_SIZE + s.job.setup.SizeOf(i), s.job.SegmentOf(i), route);
  }

  lemma StartingEmits(c: Config, s: Sender, now: u32, route: RouteResult, quiet: ProcessResult)
    requires s.phase == Starting
    ensures Emits(s, ActStarting(c, s, now, route, quiet))
  {
    SetupEmits(c, s, now, route, false);
    SetupEmits(c, s, now, route, true);
    GiveUpEmits(c, s, route);
  }

  lemma ProbingEmits(c: Config, s: Sender, now: u32, route: RouteResult, quiet: ProcessResult)
    requires s.phase == Active
    ensures Emits(s, ActProbing(c, s, now, route, quiet))
  {
    ProbeEmits(c, s, now, route);
    GiveUpEmits(c, s, route);
  }

  lemma ActEmits(c: Config, s: Sender, now: u32, route: RouteResult, quiet: ProcessResult)
    requires Sound(c, s)
    ensures Emits(s, Act(c, s, now, route, quiet))
  {
    match s.phase
    case Starting => StartingEmits(c, s, now, route, quiet);
    case Active =>
      FirstUnsentIs(s.track, s.track.counted);
      var unsent := FirstUnsent(s.track, s.track.counted);
      if unsent < s.track.granted {
        SegmentEmits(c, s, unsent, now, route);
      } else {
        ResendingEmits(c, s, now, route, quiet);
      }
    case _ =>
  }

  lemma ResendingEmits(c: Config, s: Sender, now: u32, route: RouteResult, quiet: ProcessResult)
    requires Sound(c, s) && s.phase == Active
    ensures Emits(s, ActResending(c, s, now, route, quiet))
  {
    FirstDueIs(c, s.track, now, s.track.counted);
    var due := FirstDue(c, s.track, now, s.track.counted);
    if due < s.track.granted {
      GiveUpEmits(c, s, route);
      SegmentEmits(c, s, due, now, route);
    } else {
      ProbingEmits(c, s, now, route, quiet);
    }
  }

  /** An acknowledgement keeps the record of what was sent, and only adds to what is counted and granted. */
  lemma MessageKeeps(c: Config, s: Sender, m: Message)
    requires Sound(c, s)
    ensures match OnMessage(s, m) case Unhandled => true case Handled(next, events) =>
      && next.job == s.job && next.track.sent == s.track.sent && (next.Open() ==> s.Open())
      && s.track.counted <= next.track.counted && s.track.granted <= next.track.granted
      && (forall e | e in events :: !e.Pdu?)
  {
    MessageSound(c, s, m);
  }

  lemma ProcessEmits(c: Config, s: Sender, inbox: Option<Message>, now: u32, route: RouteResult)
    requires Sound(c, s)
    ensures var step := Process(c, s, inbox, now, route);
      && Sound(c, step.next)
      && step.next.job == s.job
      && (forall i: nat | i in s.track.sent :: i in step.next.track.sent)
      && (step.next.Open() ==> s.Open())
      && s.track.counted <= step.next.track.counted
      && (forall e | e in step.events && e.Pdu? :: Speaks(s.job, step.next.track, e.message, e.result))
      && (forall e | e in step.events && e.Pdu? && e.result != Sent && e.result != Full :: !step.next.Open())
  {
    ProcessSound(c, s, inbox, now, route);
    if inbox.None? {
      ActEmits(c, s, now, route, IsIdle);
    } else {
      MessageSound(c, s, inbox.value);
      MessageKeeps(c, s, inbox.value);
      match OnMessage(s, inbox.value)
      case Unhandled =>
      case Handled(next, events) => ActEmits(c, next, now, route, Progress);
    }
  }
}
