/**
 * All that one call on a transmitter does, read off its state, the clock and its Link: which message it sends
 * or sends again, when it gives up, and how the Link's answer settles it.
 */
module SenderAnswers {
  import opened Integers
  import opened Forwarding
  import opened Protocol
  import opened SenderSpec
  import Bitmap16

  predicate Late(now: u32, since: u32, timeout: u32) { Since(now, since) >= timeout }

  /** Sent, granted, and heard of neither in the count nor apart from it. */
  predicate Out(t: Track, i: nat) { t.counted <= i < t.granted && i in t.sent && i !in t.reported }

  /** The least granted segment that never went out. */
  ghost predicate NextUnsent(s: Sender, i: nat) {
    && s.phase == Active && s.track.counted <= i < s.track.granted && i !in s.track.sent
    && forall j: nat | s.track.counted <= j < i :: j in s.track.sent
  }

  ghost predicate AllSent(s: Sender) {
    s.phase == Active && forall j: nat | s.track.counted <= j < s.track.granted :: j in s.track.sent
  }

  predicate Overdue(c: Config, t: Track, now: u32, i: nat) { Out(t, i) && Late(now, t.sent[i].at, c.timing.retransmit) }

  /** With nothing unsent, the least segment out whose time has run down. */
  ghost predicate FirstOverdue(c: Config, s: Sender, now: u32, i: nat) {
    AllSent(s) && Overdue(c, s.track, now, i) && forall j: nat | j < i :: !Overdue(c, s.track, now, j)
  }

  ghost predicate NoneOverdue(c: Config, s: Sender, now: u32) {
    AllSent(s) && forall i: nat :: !Overdue(c, s.track, now, i)
  }

  /** Nothing to send and nothing out: only the peer can move things on. */
  ghost predicate Stalled(c: Config, s: Sender, now: u32) {
    NoneOverdue(c, s, now) && s.track.counted < s.job.total && forall i: nat :: !Out(s.track, i)
  }

  predicate SetupDue(c: Config, s: Sender, now: u32) {
    s.phase == Starting && s.timers.setupSent && Late(now, s.timers.setupAt, c.timing.retransmit)
  }

  ghost predicate ProbeDue(c: Config, s: Sender, now: u32) {
    Stalled(c, s, now) && s.timers.probing && Late(now, s.timers.probeAt, c.timing.probe)
  }

  // How a call comes out.

  /** One message is handed over: admitted it takes its effect, a full Link leaves all as it was, anything else is the end. */
  ghost predicate Sends(s: Sender, step: Step, m: Message, after: Sender, route: RouteResult) {
    match route
    case RouteAccepted => step == Step(after, [Pdu(m, Sent)], Progress)
    case RouteFull => step == Step(s, [Pdu(m, Full)], Blocked)
    case RoutePartial => step == Step(s.(phase := Error), [Pdu(m, Partial)], Failure)
    case RouteTooLarge => step == Step(s.(phase := Error), [Pdu(m, TooLarge)], Failure)
    case RouteRejected => step == Step(s.(phase := Error), [Pdu(m, SendRejected)], Failure)
    case _ => step == Step(s.(phase := Error), [Pdu(m, NoRoute)], Failure)
  }

  /** The notice to the peer is attempted whatever becomes of it, and the transfer is over. */
  ghost predicate GivesUp(s: Sender, step: Step, route: RouteResult) {
    && step.next == s.(phase := Aborted) && step.result == Failure
    && |step.events| == 2 && step.events[0].Pdu? && step.events[0].message == AbortMsg(s.job.setup.sessionId)
    && (step.events[0].result == Sent <==> route == RouteAccepted) && step.events[1] == AbortedNow
  }

  /** The calls that send a message, by what makes them. */
  ghost predicate SendsWhenDue(c: Config, s: Sender, now: u32, route: RouteResult, step: Step) {
    && (s.phase == Starting && !s.timers.setupSent ==>
          Sends(s, step, SetupMsg(s.job.setup), s.(timers := s.timers.(setupSent := true, setupAt := now)), route))
    && (SetupDue(c, s, now) && s.timers.setupRetries < c.timing.maxRetries ==>
          Sends(s, step, SetupMsg(s.job.setup),
                s.(timers := s.timers.(setupAt := now, setupRetries := s.timers.setupRetries + 1)), route))
    && (forall i: u16 | NextUnsent(s, i) ::
          Sends(s, step, s.job.SegmentOf(i),
                s.(track := s.track.(sent := s.track.sent[i := Entry(now, 0)]), timers := s.timers.(probing := false)), route))
    && (forall i: u16 | FirstOverdue(c, s, now, i) && s.track.sent[i].retries < c.timing.maxRetries ::
          Sends(s, step, s.job.SegmentOf(i),
                s.(track := s.track.(sent := s.track.sent[i := Entry(now, s.track.sent[i].retries + 1)]),
                   timers := s.timers.(probing := false)), route))
    && (ProbeDue(c, s, now) && s.timers.probeRetries < c.timing.maxRetries ==>
          Sends(s, step, ProbeMsg(s.job.setup.sessionId),
                s.(timers := s.timers.(probeAt := now, probeRetries := s.timers.probeRetries + 1)), route))
  }

  /** Something due has been tried again as often as it may be. */
  ghost predicate Exhausted(c: Config, s: Sender, now: u32) {
    || (SetupDue(c, s, now) && s.timers.setupRetries >= c.timing.maxRetries)
    || (exists i: nat :: FirstOverdue(c, s, now, i) && s.track.sent[i].retries >= c.timing.maxRetries)
    || (ProbeDue(c, s, now) && s.timers.probeRetries >= c.timing.maxRetries)
  }

  /** The calls that send nothing, and what they do to the probe timer. */
  ghost predicate QuietOtherwise(c: Config, s: Sender, now: u32, quiet: ProcessResult, step: Step) {
    && (s.phase == Starting && s.timers.setupSent && !SetupDue(c, s, now) ==> step == Step(s, [], quiet))
    && (Stalled(c, s, now) && !s.timers.probing ==>
          step == Step(s.(timers := s.timers.(probing := true, probeAt := now)), [], quiet))
    && (Stalled(c, s, now) && s.timers.probing && !ProbeDue(c, s, now) ==> step == Step(s, [], quiet))
    && (NoneOverdue(c, s, now) && !Stalled(c, s, now) ==>
          step == Step(s.(timers := s.timers.(probing := false, probeRetries := 0)), [], quiet))
    && (!s.Open() ==> step == Step(s, [], quiet))
  }

  ghost predicate Described(c: Config, s: Sender, now: u32, route: RouteResult, quiet: ProcessResult, step: Step) {
    && SendsWhenDue(c, s, now, route, step)
    && (Exhausted(c, s, now) ==> GivesUp(s, step, route))
    && QuietOtherwise(c, s, now, quiet, step)
  }

  // The step without a message.

  lemma SettleIs(s: Sender, after: Sender, c: Config, size: nat, m: Message, route: RouteResult)
    requires size <= c.capacity
    ensures Sends(s, Settle(s, after, Attempt(c, size, m, route)), m, after, route)
  {}

  lemma GiveUpIs(c: Config, s: Sender, route: RouteResult)
    requires ABORT_SIZE <= c.capacity
    ensures GivesUp(s, GiveUp(c, s, route), route)
  {}

  lemma StartingDescribed(c: Config, s: Sender, now: u32, route: RouteResult, quiet: ProcessResult)
    requires Sound(c, s) && s.phase == Starting
    ensures Described(c, s, now, route, quiet, ActStarting(c, s, now, route, quiet))
  {
    GiveUpIs(c, s, route);
  }

  lemma UnsentDescribed(c: Config, s: Sender, now: u32, route: RouteResult, quiet: ProcessResult, unsent: u16)
    requires Sound(c, s) && NextUnsent(s, unsent)
    ensures Described(c, s, now, route, quiet, SendSegment(c, s, unsent, now, route))
  {
    forall i: u16 | NextUnsent(s, i) ensures i == unsent {}
  }

  /** When a segment is overdue nothing else is to be done. */
  lemma OnlyOverdue(c: Config, s: Sender, now: u32, due: nat)
    requires FirstOverdue(c, s, now, due)
    ensures s.phase == Active && !SetupDue(c, s, now) && !NoneOverdue(c, s, now)
    ensures (forall i: nat :: !NextUnsent(s, i)) && forall i: nat | FirstOverdue(c, s, now, i) :: i == due
  {}

  lemma ExhaustedDescribed(c: Config, s: Sender, now: u32, route: RouteResult, quiet: ProcessResult, due: u16)
    requires Sound(c, s) && FirstOverdue(c, s, now, due) && s.track.sent[due].retries >= c.timing.maxRetries
    ensures Described(c, s, now, route, quiet, GiveUp(c, s, route))
  {
    OnlyOverdue(c, s, now, due);
    GiveUpIs(c, s, route);
  }

  lemma SegmentFits(c: Config, s: Sender, i: nat)
    requires Sound(c, s) && s.phase == Active
    ensures SEGMENT_HEADER_SIZE + s.job.setup.SizeOf(i) <= c.capacity
  {}

  lemma ResentDescribed(c: Config, s: Sender, now: u32, route: RouteResult, quiet: ProcessResult, due: u16)
    requires SEGMENT_HEADER_SIZE + s.job.setup.SizeOf(due) <= c.capacity && FirstOverdue(c, s, now, due) && s.track.sent[due].retries < c.timing.maxRetries
    ensures Described(c, s, now, route, quiet, SendSegment(c, s, due, now, route))
  {
    OnlyOverdue(c, s, now, due);
    SettleIs(s, s.(track := Admit(s.track, due, now), timers := s.timers.(probing := false)), c,
             SEGMENT_HEADER_SIZE + s.job.setup.SizeOf(due), s.job.SegmentOf(due), route);
  }

  lemma OutIs(t: Track)
    requires t.counted <= t.granted
    ensures AnyOutstanding(t) <==> exists i: nat :: Out(t, i)
  {
    if i: nat :| Out(t, i) { assert t.Outstanding(i); }
    if AnyOutstanding(t) {
      var i: nat :| i < t.granted && t.Outstanding(i);
      assert Out(t, i);
    }
  }

  lemma ProbingDescribed(c: Config, s: Sender, now: u32, route: RouteResult, quiet: ProcessResult)
    requires Sound(c, s) && NoneOverdue(c, s, now)
    ensures Described(c, s, now, route, quiet, ActProbing(c, s, now, route, quiet))
  {
    OutIs(s.track);
    GiveUpIs(c, s, route);
    SettleIs(s, s.(timers := s.timers.(probeAt := now, probeRetries := s.timers.probeRetries + 1)), c, PROBE_SIZE,
             ProbeMsg(s.job.setup.sessionId), route);
  }

  lemma ActiveDescribed(c: Config, s: Sender, now: u32, route: RouteResult, quiet: ProcessResult)
    requires Sound(c, s) && s.phase == Active
    ensures Described(c, s, now, route, quiet, ActActive(c, s, now, route, quiet))
  {
    FirstUnsentIs(s.track, s.track.counted);
    var unsent := FirstUnsent(s.track, s.track.counted);
    if unsent < s.track.granted {
      UnsentDescribed(c, s, now, route, quiet, unsent);
    } else {
      FirstDueIs(c, s.track, now, s.track.counted);
      var due := FirstDue(c, s.track, now, s.track.counted);
      if due < s.track.granted {
        FoundOverdue(c, s, now, due);
        if s.track.sent[due].retries >= c.timing.maxRetries {
          ExhaustedDescribed(c, s, now, route, quiet, due);
        } else {
          SegmentFits(c, s, due);
          ResentDescribed(c, s, now, route, quiet, due);
        }
      } else {
        FoundNone(c, s, now);
        ProbingDescribed(c, s, now, route, quiet);
      }
    }
  }

  lemma FoundOverdue(c: Config, s: Sender, now: u32, due: nat)
    requires AllSent(s) && s.track.counted <= due < s.track.granted && Due(c, s.track, now, due)
    requires forall k: nat | s.track.counted <= k < due :: !Due(c, s.track, now, k)
    ensures FirstOverdue(c, s, now, due)
  {
    forall j: nat | j < due ensures !Overdue(c, s.track, now, j) {
      if j >= s.track.counted { assert !Due(c, s.track, now, j); }
    }
  }

  lemma FoundNone(c: Config, s: Sender, now: u32)
    requires AllSent(s) && forall k: nat | s.track.counted <= k < s.track.granted :: !Due(c, s.track, now, k)
    ensures NoneOverdue(c, s, now)
  {
    forall j: nat ensures !Overdue(c, s.track, now, j) {
      if s.track.counted <= j < s.track.granted { assert !Due(c, s.track, now, j); }
    }
  }

  lemma ActDescribed(c: Config, s: Sender, now: u32, route: RouteResult, quiet: ProcessResult)
    requires Sound(c, s)
    ensures Described(c, s, now, route, quiet, Act(c, s, now, route, quiet))
  {
    match s.phase
    case Starting => StartingDescribed(c, s, now, route, quiet);
    case Active => ActiveDescribed(c, s, now, route, quiet);
    case _ =>
  }

  /** Nothing is left undescribed: every state sends, gives up, or is quiet in one of the ways above. */
  lemma EveryStateIsOne(c: Config, s: Sender, now: u32)
    requires Sound(c, s)
    ensures !s.Open() || s.phase == Starting
      || (exists i: nat :: NextUnsent(s, i)) || (exists i: nat :: FirstOverdue(c, s, now, i)) || NoneOverdue(c, s, now)
  {
    if s.phase == Active {
      FirstUnsentIs(s.track, s.track.counted);
      var unsent := FirstUnsent(s.track, s.track.counted);
      if unsent < s.track.granted {
        assert NextUnsent(s, unsent);
      } else {
        FirstDueIs(c, s.track, now, s.track.counted);
        var due := FirstDue(c, s.track, now, s.track.counted);
        if due < s.track.granted { FoundOverdue(c, s, now, due); } else { FoundNone(c, s, now); }
      }
    }
  }

  // Calls.

  /** A call that finds no message does what is due, and nothing else. */
  lemma SilentCallDescribed(c: Config, s: Sender, now: u32, route: RouteResult)
    requires Sound(c, s)
    ensures Described(c, s, now, route, IsIdle, Process(c, s, None, now, route))
  {
    ActDescribed(c, s, now, route, IsIdle);
  }

  /** With nothing unsent, the least segment out whose time has run down goes out again while it has retries left. */
  lemma OverdueIsResent(c: Config, s: Sender, now: u32, route: RouteResult, i: u16)
    requires Sound(c, s) && FirstOverdue(c, s, now, i) && s.track.sent[i].retries < c.timing.maxRetries
    ensures var step := Process(c, s, None, now, route);
      && |step.events| == 1 && step.events[0].Pdu? && step.events[0].message == s.job.SegmentOf(i)
      && (route == RouteAccepted ==> step.next.track.sent[i] == Entry(now, s.track.sent[i].retries + 1) && step.result == Progress)
  {
    SilentCallDescribed(c, s, now, route);
  }

  /** A call without a message gives up if and only if a due SETUP, segment or probe has had all its retries. */
  lemma GivesUpIff(c: Config, s: Sender, now: u32, route: RouteResult)
    requires Sound(c, s)
    ensures AbortedNow in Process(c, s, None, now, route).events <==> Exhausted(c, s, now)
    ensures Exhausted(c, s, now) ==> GivesUp(s, Process(c, s, None, now, route), route)
  {
    SilentCallDescribed(c, s, now, route);
    var step := Process(c, s, None, now, route);
    if Exhausted(c, s, now) {
      assert step.events[1] in step.events;
    } else {
      NoneAborts(c, s, now, route, step);
    }
  }

  lemma NoneAborts(c: Config, s: Sender, now: u32, route: RouteResult, step: Step)
    requires Sound(c, s) && Described(c, s, now, route, IsIdle, step) && !Exhausted(c, s, now)
    ensures AbortedNow !in step.events
  {
    EveryStateIsOne(c, s, now);
    if i: nat :| NextUnsent(s, i) {
      assert i < 0x1_0000;
      assert NextUnsent(s, i as u16);
    }
    if i: nat :| FirstOverdue(c, s, now, i) {
      assert i < 0x1_0000;
      assert FirstOverdue(c, s, now, i as u16);
    }
  }

  // Messages.

  /** The kinds a transmitter handles, which are the kinds its slot admits. */
  lemma HandledIff(s: Sender, m: Message)
    ensures OnMessage(s, m).Handled? <==> m.AckMsg? || m.RejectMsg? || m.AbortMsg? || m.DatagramMsg?
  {}

  /** A REJECT or ABORT of the open session ends it, and is told; any other changes nothing. */
  lemma EndingsAre(s: Sender, m: Message)
    requires m.RejectMsg? || m.AbortMsg?
    ensures OnMessage(s, m) ==
      if !(s.phase == Starting || s.phase == Active) || m.sessionId != s.job.setup.sessionId then Handled(s, [])
      else if m.RejectMsg? then Handled(s.(phase := Rejected), [RejectedBy(m.reason)])
      else Handled(s.(phase := Aborted), [AbortedNow])
  {}

  /** A datagram goes to the service, whatever the transfer; an acknowledgement out of place changes nothing. */
  lemma OthersAre(s: Sender, m: Message)
    ensures m.DatagramMsg? ==> OnMessage(s, m) == Handled(s, [Datagram(m.payload)])
    ensures m.AckMsg? && (!(s.phase == Starting || s.phase == Active) || m.sessionId != s.job.setup.sessionId || !s.timers.setupSent) ==>
      OnMessage(s, m) == Handled(s, [])
  {}

  /** How far an acknowledgement moves the count, and how far past that it grants, in 8-bit arithmetic. */
  function AdvanceOf(s: Sender, m: Message): nat
    requires m.AckMsg?
  {
    (m.base - (s.job.setup.initialSequence + s.track.counted - 1)) % 0x100
  }

  function SpanOf(m: Message): nat
    requires m.AckMsg?
  {
    (m.maxSequence - m.base) % 0x100
  }

  /**
   * An acknowledgement of the transfer under way that stays inside the window and the object, counts only
   * segments that went out, and reports none past its own grant.
   */
  ghost predicate Usable(s: Sender, m: Message) {
    && m.AckMsg? && s.Open() && s.timers.setupSent && m.sessionId == s.job.setup.sessionId
    && AdvanceOf(s, m) <= 16 && SpanOf(m) <= 16
    && s.track.counted + AdvanceOf(s, m) + SpanOf(m) <= s.job.total
    && (forall o | o in Bitmap16.Bits(m.bitmap) :: o < SpanOf(m))
    && (forall i: nat | s.track.counted <= i < s.track.counted + AdvanceOf(s, m) :: i in s.track.sent)
  }

  /** A usable acknowledgement moves the count, the grant and the reports; any other changes nothing. */
  lemma AckIs(s: Sender, m: Message)
    requires m.AckMsg?
    ensures !Usable(s, m) ==> OnMessage(s, m) == Handled(s, [])
    ensures Usable(s, m) ==>
      var count, before := s.track.counted + AdvanceOf(s, m), s.track;
      var Handled(next, events) := OnMessage(s, m);
      && next.phase == (if count == s.job.total then Completed else Active)
      && events == (if count == s.job.total then [Complete] else [])
      && next.job == s.job && next.timers == s.timers.(probing := false, probeRetries := 0)
      && next.track.counted == count && next.track.sent == before.sent
      && next.track.granted == (if count + SpanOf(m) > before.granted then count + SpanOf(m) else before.granted)
      && (forall i: nat :: i in next.track.reported <==>
            i in before.reported || (i in before.sent && i >= count && i - count in Bitmap16.Bits(m.bitmap)))
  {
    BaseIs(s.job.setup, s.track.counted);
    WrappedMinus(m.base, s.job.setup.initialSequence + s.track.counted - 1);
    WrappedMinus(m.maxSequence, m.base);
  }

  lemma WrappedMinus(a: u8, b: int)
    ensures Minus8(a, b % 0x100) == (a - b) % 0x100
  {}

  /** A message comes first; one that cannot be handled is fatal, and after any other the call does what is due. */
  lemma CallDescribed(c: Config, s: Sender, m: Message, now: u32, route: RouteResult)
    requires Sound(c, s)
    ensures var step := Process(c, s, Some(m), now, route);
      match OnMessage(s, m)
      case Unhandled => step == Step(s.(phase := Error), [], Failure)
      case Handled(next, events) =>
        Sound(c, next) && events <= step.events
        && Described(c, next, now, route, Progress, step.(events := step.events[|events|..]))
  {
    MessageSound(c, s, m);
    match OnMessage(s, m)
    case Unhandled =>
    case Handled(next, events) =>
      ActDescribed(c, next, now, route, Progress);
      var act := Act(c, next, now, route, Progress);
      assert (events + act.events)[|events|..] == act.events;
  }

  /** A local abort ends an open transfer and attempts the notice, whatever becomes of that. */
  lemma LocalAbortIs(c: Config, s: Sender, route: RouteResult)
    requires Sound(c, s)
    ensures var (next, events, result) := AbortLocally(c, s, route);
      if s.phase == Starting || s.phase == Active then
        && next == s.(phase := Aborted) && result == SendResultOf(route)
        && events == [Pdu(AbortMsg(s.job.setup.sessionId), result), AbortedNow]
      else next == s && events == [] && result == InvalidState
  {}

  /** What the transmitter makes of its Link's answers. */
  lemma LinkAnswers()
    ensures SendResultOf(RouteAccepted) == Sent && SendResultOf(RouteFull) == Full && SendResultOf(RoutePartial) == Partial
    ensures SendResultOf(RouteTooLarge) == TooLarge && SendResultOf(RouteRejected) == SendRejected
    ensures forall route | route != RouteAccepted && route != RouteFull && route != RoutePartial && route != RouteTooLarge
      && route != RouteRejected :: SendResultOf(route) == NoRoute
  {}
}
