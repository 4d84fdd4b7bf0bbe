/** What holds of a transmitter over every sequence of calls, whatever its peer and its Link do. */
module SenderRuns {
  import opened Integers
  import opened Forwarding
  import opened Protocol
  import opened SenderSpec

  datatype Call =
    | Launch(image: seq<byte>, segmentSize: u16, id: u8, isn: u8)
    | Turn(inbox: Option<Message>, now: u32, route: RouteResult)
    | Quit(route: RouteResult)

  /** The state after a call, the callbacks and sends it made, and whether it started a transfer. */
  datatype Outcome = Outcome(next: Sender, events: seq<Event>, started: bool)

  ghost function Apply(c: Config, s: Sender, call: Call): Outcome
    requires Sound(c, s)
  {
    match call
    case Launch(image, segmentSize, id, isn) =>
      var (next, result) := Start(c, s, image, segmentSize, id, isn);
      Outcome(next, [], result == Started)
    case Turn(inbox, now, route) =>
      var step := Process(c, s, inbox, now, route);
      Outcome(step.next, step.events, false)
    case Quit(route) =>
      var (next, events, result) := AbortLocally(c, s, route);
      Outcome(next, events, false)
  }

  lemma ApplySound(c: Config, s: Sender, call: Call)
    requires Sound(c, s)
    ensures Sound(c, Apply(c, s, call).next)
  {
    match call
    case Launch(image, segmentSize, id, isn) => StartSound(c, s, image, segmentSize, id, isn);
    case Turn(inbox, now, route) => ProcessSound(c, s, inbox, now, route);
    case Quit(route) =>
  }

  /** Started transfers, and terminal callbacks, of a run of calls from s. */
  ghost function Launches(c: Config, s: Sender, calls: seq<Call>): nat
    requires Sound(c, s)
    decreases calls
  {
    if calls == [] then 0
    else
      ApplySound(c, s, calls[0]);
      var o := Apply(c, s, calls[0]);
      (if o.started then 1 else 0) + Launches(c, o.next, calls[1..])
  }

  ghost function Endings(c: Config, s: Sender, calls: seq<Call>): nat
    requires Sound(c, s)
    decreases calls
  {
    if calls == [] then 0
    else
      ApplySound(c, s, calls[0]);
      var o := Apply(c, s, calls[0]);
      Ended(o.events) + Endings(c, o.next, calls[1..])
  }

  function Ended(events: seq<Event>): nat {
    if events == [] then 0
    else Ended(events[1..]) + (if events[0].Complete? || events[0].RejectedBy? || events[0].AbortedNow? then 1 else 0)
  }

  lemma {:induction false} EndedAppend(first: seq<Event>, second: seq<Event>)
    ensures Ended(first + second) == Ended(first) + Ended(second)
    decreases first
  {
    if first == [] {
      assert first + second == second;
    } else {
      assert (first + second)[1..] == first[1..] + second;
      EndedAppend(first[1..], second);
    }
  }

  function One(s: Sender): nat { if s.Open() then 1 else 0 }

  /** A step announces an end only by leaving the open states. */
  ghost predicate EndsOnce(s: Sender, next: Sender, events: seq<Event>) { Ended(events) + One(next) <= One(s) }

  lemma GiveUpEnds(c: Config, s: Sender, route: RouteResult)
    requires s.Open()
    ensures var step := GiveUp(c, s, route); EndsOnce(s, step.next, step.events)
  {
    EndedAppend(Attempt(c, ABORT_SIZE, AbortMsg(s.job.setup.sessionId), route).events, [AbortedNow]);
  }

  lemma SettleEnds(c: Config, s: Sender, after: Sender, size: nat, m: Message, route: RouteResult)
    requires s.Open() && after.Open()
    ensures var step := Settle(s, after, Attempt(c, size, m, route)); EndsOnce(s, step.next, step.events)
  {}

  lemma ProbingEnds(c: Config, s: Sender, now: u32, route: RouteResult, quiet: ProcessResult)
    requires s.phase == Active
    ensures var step := ActProbing(c, s, now, route, quiet); EndsOnce(s, step.next, step.events)
  {
    GiveUpEnds(c, s, route);
    SettleEnds(c, s, s.(timers := s.timers.(probeAt := now, probeRetries := s.timers.probeRetries + 1)),
               PROBE_SIZE, ProbeMsg(s.job.setup.sessionId), route);
  }

  lemma SegmentEnds(c: Config, s: Sender, i: u16, now: u32, route: RouteResult)
    requires s.phase == Active
    ensures var step := SendSegment(c, s, i, now, route); EndsOnce(s, step.next, step.events)
  {
    SettleEnds(c, s, s.(track := Admit(s.track, i, now), timers := s.timers.(probing := false)),
               SEGMENT_HEADER_SIZE + s.job.setup.SizeOf(i), s.job.SegmentOf(i), route);
  }

  lemma StartingEnds(c: Config, s: Sender, now: u32, route: RouteResult, quiet: ProcessResult)
    requires s.phase == Starting
    ensures var step := ActStarting(c, s, now, route, quiet); EndsOnce(s, step.next, step.events)
  {
    GiveUpEnds(c, s, route);
    SetupEnds(c, s, now, route, false);
    SetupEnds(c, s, now, route, true);
  }

  lemma SetupEnds(c: Config, s: Sender, now: u32, route: RouteResult, again: bool)
    requires s.phase == Starting
    ensures var step := SendSetup(c, s, now, route, again); EndsOnce(s, step.next, step.events)
  {
    var retries := s.timers.setupRetries + (if again then 1 else 0);
    SettleEnds(c, s, s.(timers := s.timers.(setupSent := true, setupAt := now, setupRetries := retries)),
               SETUP_SIZE, SetupMsg(s.job.setup), route);
  }

  lemma ResendingEnds(c: Config, s: Sender, now: u32, route: RouteResult, quiet: ProcessResult)
    requires Sound(c, s) && s.phase == Active
    ensures var step := ActResending(c, s, now, route, quiet); EndsOnce(s, step.next, step.events)
  {
    FirstDueIs(c, s.track, now, s.track.counted);
    var due := FirstDue(c, s.track, now, s.track.counted);
    if due < s.track.granted {
      SegmentEnds(c, s, due, now, route);
      GiveUpEnds(c, s, route);
    } else {
      ProbingEnds(c, s, now, route, quiet);
    }
  }

  lemma ActEnds(c: Config, s: Sender, now: u32, route: RouteResult, quiet: ProcessResult)
    requires Sound(c, s)
    ensures var step := Act(c, s, now, route, quiet); EndsOnce(s, step.next, step.events)
  {
    match s.phase
    case Starting => StartingEnds(c, s, now, route, quiet);
    case Active =>
      FirstUnsentIs(s.track, s.track.counted);
      var unsent := FirstUnsent(s.track, s.track.counted);
      if unsent < s.track.granted {
        SegmentEnds(c, s, unsent, now, route);
      } else {
        ResendingEnds(c, s, now, route, quiet);
      }
    case _ =>
  }

  lemma MessageEnds(c: Config, s: Sender, m: Message)
    requires Sound(c, s) && OnMessage(s, m).Handled?
    ensures EndsOnce(s, OnMessage(s, m).next, OnMessage(s, m).events)
  {}

  lemma TurnEnds(c: Config, s: Sender, inbox: Option<Message>, now: u32, route: RouteResult)
    requires Sound(c, s)
    ensures var step := Process(c, s, inbox, now, route); EndsOnce(s, step.next, step.events)
  {
    if inbox.None? {
      ActEnds(c, s, now, route, IsIdle);
    } else if OnMessage(s, inbox.value).Handled? {
      MessageSound(c, s, inbox.value);
      MessageEnds(c, s, inbox.value);
      var next := OnMessage(s, inbox.value).next;
      ActEnds(c, next, now, route, Progress);
      EndedAppend(OnMessage(s, inbox.value).events, Act(c, next, now, route, Progress).events);
    }
  }

  lemma CallEnds(c: Config, s: Sender, call: Call)
    requires Sound(c, s)
    ensures var o := Apply(c, s, call); Ended(o.events) + One(o.next) <= One(s) + (if o.started then 1 else 0)
  {
    match call
    case Launch(image, segmentSize, id, isn) =>
    case Turn(inbox, now, route) => TurnEnds(c, s, inbox, now, route);
    case Quit(route) =>
      EndedAppend(Attempt(c, ABORT_SIZE, AbortMsg(s.job.setup.sessionId), route).events, [AbortedNow]);
  }

  /** Over any calls, each started transfer gets at most one terminal callback. */
  lemma {:induction false} OneEndingEach(c: Config, s: Sender, calls: seq<Call>)
    requires Sound(c, s)
    ensures Endings(c, s, calls) <= One(s) + Launches(c, s, calls)
    decreases calls
  {
    if calls != [] {
      ApplySound(c, s, calls[0]);
      CallEnds(c, s, calls[0]);
      OneEndingEach(c, Apply(c, s, calls[0]).next, calls[1..]);
    }
  }

  // A silent peer costs a bounded number of sends.

  /** Sends still owed for one granted segment: a first one if never sent, then the retries it has left. */
  function Owed(t: Track, limit: nat, i: nat): nat {
    if i !in t.sent then limit + 1
    else if i in t.reported || t.sent[i].retries > limit then 0
    else limit - t.sent[i].retries
  }

  function WindowEffort(t: Track, limit: nat, i: nat): nat
    decreases t.granted - i
  {
    if i >= t.granted then 0 else Owed(t, limit, i) + WindowEffort(t, limit, i + 1)
  }

  /** Some granted segment is not yet reported. */
  predicate Waiting(t: Track) { exists i: nat | i < t.granted :: i >= t.counted && i !in t.reported }

  /** What a transmitter may still send while it hears nothing: sends, retries or probes, and one abort. */
  function Effort(c: Config, s: Sender): int {
    var limit := c.timing.maxRetries;
    match s.phase
    case Starting => limit - s.timers.setupRetries + (if s.timers.setupSent then 0 else 1) + 1
    case Active =>
      WindowEffort(s.track, limit, s.track.counted)
      + (if Waiting(s.track) then 0 else limit - s.timers.probeRetries) + 1
    case _ => 0
  }

  /** Messages the Link admitted in full. */
  function Sends(events: seq<Event>): nat {
    if events == [] then 0
    else Sends(events[1..]) + (if events[0].Pdu? && events[0].result == Sent then 1 else 0)
  }

  /** A send is paid for, and a full Link costs and changes nothing. */
  ghost predicate Pays(c: Config, s: Sender, step: Step) {
    && Sends(step.events) <= 1
    && 0 <= Effort(c, step.next) <= Effort(c, s) - Sends(step.events)
    && (step.result == Blocked ==> step.next == s && Sends(step.events) == 0)
  }

  lemma {:induction false} SegmentCosts(t: Track, limit: nat, k: nat, now: u32, i: nat)
    requires t.Ordered() && k < t.granted && k !in t.reported && (k in t.sent ==> t.sent[k].retries < limit)
    ensures WindowEffort(t, limit, i) == WindowEffort(Admit(t, k, now), limit, i) + (if i <= k then 1 else 0)
    decreases t.granted - i
  {
    if i < t.granted { SegmentCosts(t, limit, k, now, i + 1); }
  }

  /** At most a first send and every retry for each segment of the window; nothing when all are reported. */
  lemma {:induction false} WindowBound(t: Track, limit: nat, i: nat)
    requires t.counted <= i <= t.granted
    ensures WindowEffort(t, limit, i) <= (t.granted - i) * (limit + 1)
    ensures t.Ordered() && !Waiting(t) ==> WindowEffort(t, limit, i) == 0
    decreases t.granted - i
  {
    if i < t.granted {
      WindowBound(t, limit, i + 1);
      assert (t.granted - i) * (limit + 1) == (t.granted - i - 1) * (limit + 1) + (limit + 1);
    }
  }

  lemma EffortBound(c: Config, s: Sender)
    requires Sound(c, s)
    ensures 0 <= Effort(c, s) <= 16 * (1 + c.timing.maxRetries) + 1
    ensures s.Open() ==> Effort(c, s) >= 1
  {
    if s.phase == Active {
      var limit: nat := c.timing.maxRetries;
      WindowBound(s.track, limit, s.track.counted);
      MoreCosts(s.track.granted - s.track.counted, 16, limit + 1);
    }
  }

  lemma MoreCosts(a: nat, b: nat, each: nat)
    requires a <= b
    ensures a * each <= b * each
  {}

  lemma SettlePays(c: Config, s: Sender, after: Sender, size: nat, m: Message, route: RouteResult)
    requires s.Open() && 0 <= Effort(c, after) < Effort(c, s)
    ensures Pays(c, s, Settle(s, after, Attempt(c, size, m, route)))
  {
    assert Effort(c, s.(phase := Error)) == 0;
  }

  lemma GiveUpPays(c: Config, s: Sender, route: RouteResult)
    requires Effort(c, s) >= 1
    ensures Pays(c, s, GiveUp(c, s, route))
  {
    var attempt := Attempt(c, ABORT_SIZE, AbortMsg(s.job.setup.sessionId), route);
    var events := attempt.events + [AbortedNow];
    assert [AbortedNow][1..] == [] && events[1..] == if attempt.events == [] then [] else [AbortedNow];
    assert Effort(c, s.(phase := Aborted)) == 0;
  }

  lemma SegmentPays(c: Config, s: Sender, i: u16, now: u32, route: RouteResult)
    requires Sound(c, s) && s.phase == Active && s.track.counted <= i < s.track.granted && i !in s.track.reported
    requires i in s.track.sent ==> s.track.sent[i].retries < c.timing.maxRetries
    ensures Pays(c, s, SendSegment(c, s, i, now, route))
  {
    var limit := c.timing.maxRetries;
    var after := s.(track := Admit(s.track, i, now), timers := s.timers.(probing := false));
    SegmentSound(c, s, i, now, RouteAccepted);
    EffortBound(c, after);
    SegmentCosts(s.track, limit, i, now, s.track.counted);
    assert Waiting(s.track) && Waiting(after.track);
    SettlePays(c, s, after, SEGMENT_HEADER_SIZE + s.job.setup.SizeOf(i), s.job.SegmentOf(i), route);
  }

  lemma SetupPays(c: Config, s: Sender, now: u32, route: RouteResult, again: bool)
    requires Sound(c, s) && s.phase == Starting && s.timers.setupSent == again
    requires again ==> s.timers.setupRetries < c.timing.maxRetries
    ensures Pays(c, s, SendSetup(c, s, now, route, again))
  {
    var retries := s.timers.setupRetries + (if again then 1 else 0);
    SettlePays(c, s, s.(timers := s.timers.(setupSent := true, setupAt := now, setupRetries := retries)),
               SETUP_SIZE, SetupMsg(s.job.setup), route);
  }

  lemma StartingPays(c: Config, s: Sender, now: u32, route: RouteResult, quiet: ProcessResult)
    requires Sound(c, s) && s.phase == Starting && quiet != Blocked
    ensures Pays(c, s, ActStarting(c, s, now, route, quiet))
  {
    EffortBound(c, s);
    if !s.timers.setupSent {
      SetupPays(c, s, now, route, false);
    } else if Elapsed(now, s.timers.setupAt, c.timing.retransmit) {
      if s.timers.setupRetries >= c.timing.maxRetries {
        GiveUpPays(c, s, route);
      } else {
        SetupPays(c, s, now, route, true);
      }
    }
  }

  /** A probe is only sent once every granted segment has been reported. */
  lemma ProbingPays(c: Config, s: Sender, now: u32, route: RouteResult, quiet: ProcessResult)
    requires Sound(c, s) && s.phase == Active && quiet != Blocked
    requires forall i: nat | s.track.counted <= i < s.track.granted :: i in s.track.sent
    ensures Pays(c, s, ActProbing(c, s, now, route, quiet))
  {
    EffortBound(c, s);
    if AnyOutstanding(s.track) {
      var i: nat :| i < s.track.granted && s.track.Outstanding(i);
      assert Waiting(s.track);
    } else {
      assert !Waiting(s.track) by {
        if i: nat :| i < s.track.granted && i >= s.track.counted && i !in s.track.reported {
          assert s.track.Outstanding(i);
        }
      }
      if s.timers.probing && Elapsed(now, s.timers.probeAt, c.timing.probe) { ProbePays(c, s, now, route); }
    }
  }

  lemma ProbePays(c: Config, s: Sender, now: u32, route: RouteResult)
    requires Sound(c, s) && s.phase == Active && !Waiting(s.track)
    ensures Pays(c, s, NextProbe(c, s, now, route))
  {
    EffortBound(c, s);
    if s.timers.probeRetries >= c.timing.maxRetries {
      GiveUpPays(c, s, route);
    } else {
      WindowBound(s.track, c.timing.maxRetries, s.track.counted);
      SettlePays(c, s, s.(timers := s.timers.(probeAt := now, probeRetries := s.timers.probeRetries + 1)),
                 PROBE_SIZE, ProbeMsg(s.job.setup.sessionId), route);
    }
  }

  lemma ResendingPays(c: Config, s: Sender, now: u32, route: RouteResult, quiet: ProcessResult)
    requires Sound(c, s) && s.phase == Active && quiet != Blocked
    requires forall i: nat | s.track.counted <= i < s.track.granted :: i in s.track.sent
    ensures Pays(c, s, ActResending(c, s, now, route, quiet))
  {
    FirstDueIs(c, s.track, now, s.track.counted);
    var due := FirstDue(c, s.track, now, s.track.counted);
    if due >= s.track.granted {
      ProbingPays(c, s, now, route, quiet);
    } else if s.track.sent[due].retries >= c.timing.maxRetries {
      EffortBound(c, s);
      GiveUpPays(c, s, route);
    } else {
      SegmentPays(c, s, due, now, route);
    }
  }

  /** Every send made without hearing anything strictly lowers the effort; a full Link leaves the whole state. */
  lemma ActPays(c: Config, s: Sender, now: u32, route: RouteResult, quiet: ProcessResult)
    requires Sound(c, s) && quiet != Blocked
    ensures Pays(c, s, Act(c, s, now, route, quiet))
  {
    match s.phase
    case Starting => StartingPays(c, s, now, route, quiet);
    case Active =>
      FirstUnsentIs(s.track, s.track.counted);
      var unsent := FirstUnsent(s.track, s.track.counted);
      if unsent < s.track.granted {
        SegmentPays(c, s, unsent, now, route);
      } else {
        ResendingPays(c, s, now, route, quiet);
      }
    case _ =>
  }

  /** Calls of process with nothing received, at any times, whatever the Link answers. */
  datatype Beat = Beat(now: u32, route: RouteResult)

  ghost function Silence(c: Config, s: Sender, beats: seq<Beat>): (Sender, nat)
    requires Sound(c, s)
    decreases beats
  {
    if beats == [] then (s, 0)
    else
      var step := Process(c, s, None, beats[0].now, beats[0].route);
      ProcessSound(c, s, None, beats[0].now, beats[0].route);
      var (last, sends) := Silence(c, step.next, beats[1..]);
      (last, Sends(step.events) + sends)
  }

  lemma {:induction false} SilencePays(c: Config, s: Sender, beats: seq<Beat>)
    requires Sound(c, s)
    ensures var (last, sends) := Silence(c, s, beats); 0 <= Effort(c, last) && sends + Effort(c, last) <= Effort(c, s)
    decreases beats
  {
    EffortBound(c, s);
    if beats != [] {
      ActPays(c, s, beats[0].now, beats[0].route, IsIdle);
      ProcessSound(c, s, None, beats[0].now, beats[0].route);
      SilencePays(c, Process(c, s, None, beats[0].now, beats[0].route).next, beats[1..]);
    }
  }

  /**
   * From any reachable state, over any number of calls that receive nothing, the Link is given at
   * most one first send and every retry for each of 16 segments, and one abort.
   */
  lemma SilentPeerBound(c: Config, s: Sender, beats: seq<Beat>)
    requires Sound(c, s)
    ensures Silence(c, s, beats).1 <= 16 * (1 + c.timing.maxRetries) + 1
    ensures !s.Open() ==> Silence(c, s, beats).1 == 0
  {
    EffortBound(c, s);
    SilencePays(c, s, beats);
  }

  // And it cannot hold a transmitter for ever.

  /** The longer of the two timeouts. */
  function Patience(c: Config): u32 {
    if c.timing.retransmit > c.timing.probe then c.timing.retransmit else c.timing.probe
  }

  /** A timer is running, or a segment is unsent, so that the next call has something to do. */
  predicate Armed(c: Config, s: Sender, now: u32) {
    match s.phase
    case Starting => !s.timers.setupSent || Since(now, s.timers.setupAt) <= Patience(c)
    case Active =>
      || FirstUnsent(s.track, s.track.counted) < s.track.granted
      || (exists i: nat | i < s.track.granted :: s.track.Outstanding(i) && Since(now, s.track.sent[i].at) <= Patience(c))
      || (!AnyOutstanding(s.track) && s.timers.probing && Since(now, s.timers.probeAt) <= Patience(c))
    case _ => true
  }

  lemma ArmsStarting(c: Config, s: Sender, now: u32, route: RouteResult)
    requires Sound(c, s) && s.phase == Starting && route != RouteFull
    ensures Armed(c, ActStarting(c, s, now, route, IsIdle).next, now)
  {}

  lemma ArmsProbing(c: Config, s: Sender, now: u32, route: RouteResult)
    requires Sound(c, s) && s.phase == Active && route != RouteFull
    requires forall i: nat | i < s.track.granted :: !Due(c, s.track, now, i)
    ensures Armed(c, ActProbing(c, s, now, route, IsIdle).next, now)
  {
    if i: nat :| i < s.track.granted && s.track.Outstanding(i) {
      assert !Due(c, s.track, now, i);
    }
  }

  lemma ArmsSegment(c: Config, s: Sender, i: u16, now: u32, route: RouteResult)
    requires Sound(c, s) && s.phase == Active && route != RouteFull
    requires s.track.counted <= i < s.track.granted && i !in s.track.reported
    ensures Armed(c, SendSegment(c, s, i, now, route).next, now)
  {
    var step := SendSegment(c, s, i, now, route);
    if step.next.phase == Active { assert step.next.track.Outstanding(i); }
  }

  /** After any call that left the transmitter open over a Link that was not full, it is armed. */
  lemma ActArms(c: Config, s: Sender, now: u32, route: RouteResult)
    requires Sound(c, s) && route != RouteFull
    ensures Armed(c, Act(c, s, now, route, IsIdle).next, now)
  {
    match s.phase
    case Starting => ArmsStarting(c, s, now, route);
    case Active =>
      FirstUnsentIs(s.track, s.track.counted);
      FirstDueIs(c, s.track, now, s.track.counted);
      var unsent, due := FirstUnsent(s.track, s.track.counted), FirstDue(c, s.track, now, s.track.counted);
      if unsent < s.track.granted {
        ArmsSegment(c, s, unsent, now, route);
      } else if due < s.track.granted {
        ArmsSegment(c, s, due, now, route);
      } else {
        ArmsProbing(c, s, now, route);
      }
    case _ =>
  }

  /** The next call comes after every timeout, and before the clock has come round to look recent again. */
  predicate Spaced(c: Config, before: u32, now: u32) {
    Patience(c) <= Since(now, before) < 0x1_0000_0000 - Patience(c)
  }

  lemma SpacedElapsed(c: Config, at: u32, before: u32, now: u32)
    requires Since(before, at) <= Patience(c) && Spaced(c, before, now)
    ensures Elapsed(now, at, c.timing.retransmit) && Elapsed(now, at, c.timing.probe)
  {}

  lemma ArmedSends(c: Config, s: Sender, before: u32, now: u32, route: RouteResult)
    requires Sound(c, s) && Armed(c, s, before) && Spaced(c, before, now) && route != RouteFull && s.Open()
    ensures var step := Act(c, s, now, route, IsIdle); step.next.Open() ==> Sends(step.events) == 1
  {
    if s.phase == Starting {
      if s.timers.setupSent { SpacedElapsed(c, s.timers.setupAt, before, now); }
    } else {
      FirstUnsentIs(s.track, s.track.counted);
      if FirstUnsent(s.track, s.track.counted) >= s.track.granted { ArmedResends(c, s, before, now, route); }
    }
  }

  lemma ArmedResends(c: Config, s: Sender, before: u32, now: u32, route: RouteResult)
    requires Sound(c, s) && Armed(c, s, before) && Spaced(c, before, now) && route != RouteFull && s.phase == Active
    requires FirstUnsent(s.track, s.track.counted) >= s.track.granted
    ensures var step := ActResending(c, s, now, route, IsIdle); step.next.Open() ==> Sends(step.events) == 1
  {
    FirstDueIs(c, s.track, now, s.track.counted);
    if i: nat :| i < s.track.granted && s.track.Outstanding(i) && Since(before, s.track.sent[i].at) <= Patience(c) {
      SpacedElapsed(c, s.track.sent[i].at, before, now);
      assert Due(c, s.track, now, i);
    } else {
      SpacedElapsed(c, s.timers.probeAt, before, now);
    }
  }

  ghost predicate Paced(c: Config, beats: seq<Beat>) {
    && (forall k | 0 <= k < |beats| :: beats[k].route != RouteFull)
    && (forall k | 0 < k < |beats| :: Spaced(c, beats[k - 1].now, beats[k].now))
  }

  lemma {:induction false} ArmedEnds(c: Config, s: Sender, before: u32, beats: seq<Beat>)
    requires Sound(c, s) && Armed(c, s, before) && Paced(c, beats)
    requires beats != [] ==> Spaced(c, before, beats[0].now)
    requires |beats| >= Effort(c, s)
    ensures !Silence(c, s, beats).0.Open()
    decreases beats
  {
    EffortBound(c, s);
    if beats != [] {
      var now, route := beats[0].now, beats[0].route;
      var next := Process(c, s, None, now, route).next;
      ActPays(c, s, now, route, IsIdle);
      ProcessSound(c, s, None, now, route);
      ActArms(c, s, now, route);
      EffortBound(c, next);
      if s.Open() { ArmedSends(c, s, before, now, route); }
      ArmedEnds(c, next, now, beats[1..]);
    }
  }

  /** Left alone over a Link that is never full, every transmitter reaches a terminal state in bounded time. */
  lemma SilentPeerEnds(c: Config, s: Sender, beats: seq<Beat>)
    requires Sound(c, s) && Paced(c, beats)
    requires |beats| >= 16 * (1 + c.timing.maxRetries) + 2
    ensures !Silence(c, s, beats).0.Open()
  {
    var now, route := beats[0].now, beats[0].route;
    var next := Process(c, s, None, now, route).next;
    ProcessSound(c, s, None, now, route);
    ActArms(c, s, now, route);
    EffortBound(c, next);
    ArmedEnds(c, next, now, beats[1..]);
  }
}
