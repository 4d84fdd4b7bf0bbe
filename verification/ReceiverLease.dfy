/** The inactivity lease of a receiver, against a clock that does not wrap. */
module ReceiverLease {
  import opened Integers
  import opened Protocol
  import opened ReceiverSpec
  import opened ReceiverRuns

  const CLOCK: nat := 0x1_0000_0000

  /** A call made at a true time; the engine is told that time on its wrapping clock. */
  datatype Timed = Timed(at: nat, what: What)
  datatype What = Arrive(m: Message, a: Answers) | Look | Stop(a: Answers)

  function CallAt(t: Timed): Call {
    match t.what
    case Arrive(m, a) => Deliver(m, t.at % CLOCK, a)
    case Look => Check(t.at % CLOCK)
    case Stop(a) => Cancel(a)
  }

  /** The messages that keep an active transfer alive. */
  ghost predicate Renews(c: Config, r: Receiver, m: Message) {
    match m
    case SetupMsg(asked) => asked == r.setup && Acceptable(c, asked)
    case SegmentMsg(id, index, payload) =>
      id == r.setup.sessionId && index < r.GrantedEnd(c) && |payload| == r.setup.SizeOf(index)
    case ProbeMsg(id) => id == r.setup.sessionId
    case _ => false
  }

  ghost predicate Touches(c: Config, r: Receiver, call: Call) {
    Begins(c, r, call) || (r.phase == Active && call.Deliver? && Renews(c, r, call.m))
  }

  /** A transfer that is open after a call was last active at that call if it touched, else when it was before. */
  lemma LeaseMoves(c: Config, r: Receiver, call: Call)
    requires c.width <= WINDOW && Sound(c, r)
    ensures var s := Apply(c, r, call).next;
      s.phase == Active ==>
        if Touches(c, r, call) then s.lastActivity == call.now else r.phase == Active && s.lastActivity == r.lastActivity
  {
    if call.Deliver? && !Expired(c, r, call.now) {
      match call.m
      case SegmentMsg(id, index, payload) =>
        SegmentLease(c, r, id, index, payload, call.now, call.a);
      case SetupMsg(asked) =>
        SetupLease(c, r, asked, call.now, call.a);
      case ProbeMsg(id) =>
        PostQuiet(r.(lastActivity := call.now), AckOf(c, r.(lastActivity := call.now)), call.a);
      case _ =>
    }
  }

  lemma SetupLease(c: Config, r: Receiver, asked: Setup, now: u32, a: Answers)
    requires Sound(c, r)
    ensures var s := OnSetup(c, r, asked, now, a).next;
      s.phase == Active ==>
        if Acceptable(c, asked) && (if r.phase == Active then asked == r.setup else a.admission == AdmitAccepted) then
          s.lastActivity == now
        else r.phase == Active && s.lastActivity == r.lastActivity
  {
    UnrefusedIff(c, r, asked);
    if r.phase == Active {
      PostQuiet(r.(lastActivity := now), AckOf(c, r.(lastActivity := now)), a);
    } else {
      AdmitLease(c, r, asked, now, a);
    }
  }

  lemma AdmitLease(c: Config, r: Receiver, asked: Setup, now: u32, a: Answers)
    requires r.phase != Active
    ensures var s := Admit(c, r, asked, now, a).next;
      s.phase == Active ==> a.admission == AdmitAccepted && s.lastActivity == now
  {
    var started := Receiver(Active, asked, {}, now);
    PostQuiet(started, AckOf(c, started), a);
  }

  lemma SegmentLease(c: Config, r: Receiver, id: u8, index: u16, payload: seq<byte>, now: u32, a: Answers)
    requires c.width <= WINDOW && Sound(c, r)
    ensures var s := OnSegment(c, r, id, index, payload, now, a).next;
      s.phase == Active ==>
        r.phase == Active && s.lastActivity == if Renews(c, r, SegmentMsg(id, index, payload)) then now else r.lastActivity
  {
    FirstMissingIs(r.accepted, 0, r.Count());
    if r.Open() && id == r.setup.sessionId && index < r.Count() && |payload| == r.setup.SizeOf(index) {
      var r1 := if index < r.GrantedEnd(c) then r.(lastActivity := now) else r;
      PostQuiet(r1, AckOf(c, r1), a);
      if !(r1.phase == Completed || index >= r1.GrantedEnd(c) || index in r1.accepted) {
        var more := Stored(r1, index);
        PostQuiet(more, AckOf(c, more), a);
      }
    }
  }

  /** The call reported that the transfer ran out of time. */
  ghost predicate TimedOut(c: Config, r: Receiver, call: Call) {
    Failed(InactivityTimeout) in Apply(c, r, call).events
  }

  /** Every check of an open transfer expires it exactly when its true idle time has reached the timeout. */
  ghost predicate OnTime(c: Config, r: Receiver, lease: nat, calls: seq<Timed>)
    decreases calls
  {
    calls == [] ||
    var t, call := calls[0], CallAt(calls[0]);
    && (!call.Cancel? ==> (TimedOut(c, r, call) <==> r.phase == Active && 0 < c.timeout <= t.at - lease))
    && OnTime(c, Apply(c, r, call).next, if Touches(c, r, call) then t.at else lease, calls[1..])
  }

  /** Calls in order of time, never further apart than the pace. */
  predicate Paced(pace: nat, last: nat, calls: seq<Timed>)
    decreases calls
  {
    calls == [] || (last <= calls[0].at <= last + pace && Paced(pace, calls[0].at, calls[1..]))
  }

  /** Two calls this far apart are told apart by the clock: at most a full clock less the timeout. */
  predicate Close(c: Config, pace: nat) { c.timeout == 0 || pace + c.timeout <= CLOCK }

  lemma ExpiryIs(c: Config, r: Receiver, call: Call)
    ensures !call.Cancel? ==> (TimedOut(c, r, call) <==> Expired(c, r, call.now))
  {
    if call.Deliver? && !Expired(c, r, call.now) {
      NoTimeoutEvent(c, r, call.m, call.now, call.a);
    }
  }

  lemma PostNoTimeout(r: Receiver, ack: Message, a: Answers)
    ensures Failed(InactivityTimeout) !in Post(r, ack, a).events
  {}

  lemma SegmentNoTimeout(c: Config, r: Receiver, id: u8, index: u16, payload: seq<byte>, now: u32, a: Answers)
    ensures Failed(InactivityTimeout) !in OnSegment(c, r, id, index, payload, now, a).events
  {
    var r1 := if index < r.GrantedEnd(c) then r.(lastActivity := now) else r;
    PostNoTimeout(r1, AckOf(c, r1), a);
    PostNoTimeout(Stored(r1, index), AckOf(c, Stored(r1, index)), a);
  }

  lemma SetupNoTimeout(c: Config, r: Receiver, asked: Setup, now: u32, a: Answers)
    ensures Failed(InactivityTimeout) !in OnSetup(c, r, asked, now, a).events
  {
    var r1, started := r.(lastActivity := now), Receiver(Active, asked, {}, now);
    PostNoTimeout(r1, AckOf(c, r1), a);
    PostNoTimeout(started, AckOf(c, started), a);
  }

  lemma NoTimeoutEvent(c: Config, r: Receiver, m: Message, now: u32, a: Answers)
    ensures Failed(InactivityTimeout) !in OnMessage(c, r, m, now, a).events
  {
    match m
    case SegmentMsg(id, index, payload) => SegmentNoTimeout(c, r, id, index, payload, now, a);
    case SetupMsg(asked) => SetupNoTimeout(c, r, asked, now, a);
    case ProbeMsg(_) => PostNoTimeout(r.(lastActivity := now), AckOf(c, r.(lastActivity := now)), a);
    case _ =>
  }

  /** The clock difference is the true idle time as long as that is below one full clock. */
  lemma TrueIdle(now: nat, lease: nat)
    requires lease <= now < lease + CLOCK
    ensures Since(now % CLOCK, lease % CLOCK) == now - lease
  {}

  /** The lease a receiver holds is the one it was last renewed at, and has not run out. */
  ghost predicate Leased(c: Config, r: Receiver, lease: nat, last: nat) {
    r.phase == Active ==> lease <= last && r.lastActivity == lease % CLOCK && (c.timeout == 0 || last - lease < c.timeout)
  }

  lemma ClockTells(c: Config, r: Receiver, lease: nat, last: nat, at: nat)
    requires Leased(c, r, lease, last) && last <= at && Close(c, at - last)
    ensures Expired(c, r, at % CLOCK) <==> r.phase == Active && 0 < c.timeout <= at - lease
  {
    if r.phase == Active && c.timeout != 0 { TrueIdle(at, lease); }
  }

  /** An expired transfer is closed by the call that finds it so. */
  lemma ExpiredCloses(c: Config, r: Receiver, call: Call)
    requires call.Cancel? || Expired(c, r, call.now)
    ensures Apply(c, r, call).next.phase != Active
  {}

  lemma NextLease(c: Config, r: Receiver, lease: nat, last: nat, t: Timed)
    requires c.width <= WINDOW && Sound(c, r) && Leased(c, r, lease, last)
    requires last <= t.at && Close(c, t.at - last)
    ensures Leased(c, Apply(c, r, CallAt(t)).next, if Touches(c, r, CallAt(t)) then t.at else lease, t.at)
  {
    var call := CallAt(t);
    LeaseMoves(c, r, call);
    ClockTells(c, r, lease, last, t.at);
    if call.Cancel? || Expired(c, r, call.now) { ExpiredCloses(c, r, call); }
  }

  /**
   * Wrap-safe expiry: over any calls paced closely, an open transfer expires at the first check
   * whose true idle time reaches the timeout, and never before.
   */
  lemma {:induction false} ExpiresOnTime(c: Config, r: Receiver, pace: nat, lease: nat, last: nat, calls: seq<Timed>)
    requires c.width <= WINDOW && Sound(c, r) && Close(c, pace) && Paced(pace, last, calls) && Leased(c, r, lease, last)
    ensures OnTime(c, r, lease, calls)
    decreases calls
  {
    if calls != [] {
      var t, call := calls[0], CallAt(calls[0]);
      CallEffect(c, r, call, []);
      ExpiryIs(c, r, call);
      ClockTells(c, r, lease, last, t.at);
      NextLease(c, r, lease, last, t);
      ExpiresOnTime(c, Apply(c, r, call).next, pace, if Touches(c, r, call) then t.at else lease, t.at, calls[1..]);
    }
  }

  // No slower pace will do.

  /** Some SETUP is within the limits. */
  predicate CanBegin(c: Config) { c.width > 0 && c.maximumSegmentSize > 0 && c.maximumObjectSize > 0 }

  const SMALLEST := Setup(0, 0, 0, 1, 1)

  const BEGINNING := Timed(0, Arrive(SetupMsg(SMALLEST), Answers(AdmitAccepted, true, true, Sent)))

  /** A transfer begun at time zero. */
  const BEGUN := Receiver(Active, SMALLEST, {}, 0)

  lemma Beginning(c: Config)
    requires c.width <= WINDOW && CanBegin(c)
    ensures var call := CallAt(BEGINNING);
      Begins(c, IDLE, call) && Apply(c, IDLE, call).next == BEGUN && !TimedOut(c, IDLE, call)
  {
    assert SMALLEST.TotalSize() == 1;
    BeginsThen(c, IDLE, SMALLEST, CallAt(BEGINNING));
  }

  lemma BeginsThen(c: Config, r: Receiver, asked: Setup, call: Call)
    requires c.width <= WINDOW && r.phase != Active && Acceptable(c, asked)
    requires call.Deliver? && call.m == SetupMsg(asked) && call.a == Answers(AdmitAccepted, true, true, Sent)
    ensures Begins(c, r, call) && !TimedOut(c, r, call)
    ensures Apply(c, r, call).next == Receiver(Active, asked, {}, call.now)
  {
    UnrefusedIff(c, r, asked);
    ExpiryIs(c, r, call);
  }

  /** Checks every millisecond until just before the timeout, then none for a clock's round from the beginning. */
  function Looks(timeout: u32, from: nat): seq<Timed>
    decreases timeout - from
  {
    if from + 1 >= timeout then [Timed(CLOCK, Look)] else [Timed(from + 1, Look)] + Looks(timeout, from + 1)
  }

  lemma {:induction false} LooksArePaced(timeout: u32, pace: nat, from: nat)
    requires 0 < timeout && from < timeout && pace + timeout > CLOCK
    ensures Paced(pace, from, Looks(timeout, from))
    decreases timeout - from
  {
    if from + 1 >= timeout {
      assert [Timed(CLOCK, Look)][1..] == [];
    } else {
      LooksArePaced(timeout, pace, from + 1);
      assert Looks(timeout, from)[1..] == Looks(timeout, from + 1);
    }
  }

  lemma LooksFresh(c: Config, at: nat)
    requires c.timeout != 0 && (at < c.timeout || at == CLOCK)
    ensures var call := CallAt(Timed(at, Look));
      Apply(c, BEGUN, call).next == BEGUN && !TimedOut(c, BEGUN, call) && !Touches(c, BEGUN, call)
  {
    assert at % CLOCK == if at == CLOCK then 0 else at;
  }

  /** The last check finds a transfer idle for a whole clock, and takes it for one just begun. */
  lemma {:induction false} LooksAreFooled(c: Config, from: nat)
    requires from < c.timeout
    ensures !OnTime(c, BEGUN, 0, Looks(c.timeout, from))
    decreases c.timeout - from
  {
    var calls := Looks(c.timeout, from);
    LooksFresh(c, calls[0].at);
    if from + 1 < c.timeout {
      LooksAreFooled(c, from + 1);
      assert calls[1..] == Looks(c.timeout, from + 1);
    }
  }

  lemma {:induction false} NothingBegins(c: Config, r: Receiver, lease: nat, calls: seq<Timed>)
    requires c.width <= WINDOW && !CanBegin(c) && Sound(c, r) && r.phase != Active
    ensures OnTime(c, r, lease, calls)
    decreases calls
  {
    if calls != [] {
      var call := CallAt(calls[0]);
      ExpiryIs(c, r, call);
      LeaseMoves(c, r, call);
      CallEffect(c, r, call, []);
      assert !Touches(c, r, call);
      NothingBegins(c, Apply(c, r, call).next, lease, calls[1..]);
    }
  }

  lemma NotOnTime(c: Config, calls: seq<Timed>)
    requires c.width <= WINDOW && CanBegin(c) && calls != [] && calls[0] == BEGINNING && !OnTime(c, BEGUN, 0, calls[1..])
    ensures !OnTime(c, IDLE, 0, calls)
  {
    Beginning(c);
    var call := CallAt(calls[0]);
    assert Touches(c, IDLE, call) && Apply(c, IDLE, call).next == BEGUN;
  }

  /**
   * The exact pace: from a fresh receiver every run of calls no further apart expires on time if and only if
   * the pace is at most a full clock less the timeout (or there is no timeout, or no transfer it could take).
   */
  lemma PaceIsExact(c: Config, pace: nat)
    requires c.width <= WINDOW
    ensures (forall calls: seq<Timed> | Paced(pace, 0, calls) :: OnTime(c, IDLE, 0, calls)) <==> Close(c, pace) || !CanBegin(c)
  {
    if Close(c, pace) || !CanBegin(c) {
      forall calls: seq<Timed> | Paced(pace, 0, calls) ensures OnTime(c, IDLE, 0, calls) {
        if CanBegin(c) { ExpiresOnTime(c, IDLE, pace, 0, 0, calls); } else { NothingBegins(c, IDLE, 0, calls); }
      }
    } else {
      var calls := [BEGINNING] + Looks(c.timeout, 0);
      assert calls[1..] == Looks(c.timeout, 0);
      LooksArePaced(c.timeout, pace, 0);
      LooksAreFooled(c, 0);
      assert Paced(pace, 0, calls);
      NotOnTime(c, calls);
    }
  }
}
