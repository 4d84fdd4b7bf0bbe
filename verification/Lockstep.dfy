/** Both endpoints taking turns over Links and a sink that accept everything. */
module Lockstep {
  import opened Integers
  import opened Forwarding
  import opened Protocol
  import opened Exchange
  import opened Turns
  import R = ReceiverSpec
  import S = SenderSpec
  import I = ReceiverIngress

  /** The two ends, and the slots the receiver was given. */
  datatype Pair = Pair(ends: Setting, store: I.Storage)

  /** inbox is the transmitter's ingress slot. */
  datatype World = World(sender: S.Sender, inbox: Option<Message>, receiver: R.Receiver, ingress: I.Ingress)

  /** The size of a PDU on the wire. */
  function WireSize(m: Message): nat {
    match m
    case SetupMsg(_) => SETUP_SIZE
    case SegmentMsg(_, _, payload) => SEGMENT_HEADER_SIZE + |payload|
    case AckMsg(_, _, _, _) => ACK_SIZE
    case DatagramMsg(payload) => 1 + |payload|
    case RejectMsg(_, _) => 3
    case _ => PROBE_SIZE
  }

  function Pdus(events: seq<S.Event>): seq<Message> {
    if events == [] then []
    else (if events[0].Pdu? && events[0].result == Sent then [events[0].message] else []) + Pdus(events[1..])
  }

  function Replies(events: seq<R.Event>): seq<Message> {
    if events == [] then []
    else (if events[0].Pdu? && events[0].result == Sent then [events[0].message] else []) + Replies(events[1..])
  }

  /** Packets arriving at the receiver's slots, in order. */
  function Arrive(x: Pair, ingress: I.Ingress, ms: seq<Message>): I.Ingress
    decreases ms
  {
    if ms == [] then ingress
    else Arrive(x, I.Receive(x.store, ingress, ms[0], WireSize(ms[0])).0, ms[1..])
  }

  /** Packets arriving at the transmitter's one slot: the first fills it. */
  function Answer(inbox: Option<Message>, ms: seq<Message>): Option<Message> {
    if inbox.Some? || ms == [] then inbox else Some(ms[0])
  }

  datatype Round = Round(after: World, sent: seq<Message>, called: seq<S.Event>, taken: seq<R.Event>)

  /**
   * The transmitter processes, what it sends arrives, the receiver processes, what it sends arrives.
   * (A transmitter whose state no calls can have produced does nothing.)
   */
  ghost function Play(x: Pair, w: World, now: u32): Round {
    if !S.Sound(x.ends.sender, w.sender) then Round(w, [], [], [])
    else
      var step := S.Process(x.ends.sender, w.sender, w.inbox, now, RouteAccepted);
      var turn := I.Turn(x.ends.receiver, Arrive(x, w.ingress, Pdus(step.events)), w.receiver, now, WILLING, WILLING);
      Round(World(step.next, Answer(None, Replies(turn.step.events)), turn.step.next, turn.ingress),
            Pdus(step.events), step.events, turn.step.events)
  }

  /** The object is within what both ends and the slots are built for. */
  ghost predicate Fitting(x: Pair) {
    && Workable(x.ends)
    && I.Configures(x.store, x.ends.receiver.timeout, x.ends.receiver) && x.store.datagram >= SETUP_SIZE
  }

  /** A transfer just started towards a receiver that is not in one. */
  ghost predicate Ready(x: Pair, w: World) {
    && w.sender == S.Sender(Starting, x.ends.job, S.NO_TRACK, S.NO_TIMERS) && S.Sound(x.ends.sender, w.sender)
    && w.inbox.None? && w.ingress == I.EMPTY
    && R.Sound(x.ends.receiver, w.receiver) && w.receiver.phase != Active
  }

  ghost predicate InStep(x: Pair, w: World, k: nat, now: u32) {
    && k <= x.ends.job.total
    && SenderAt(x.ends, w.sender, k) && ReceiverAt(x.ends, w.receiver, k, now)
    && w.inbox == Some(R.AckOf(x.ends.receiver, w.receiver)) && w.ingress == I.EMPTY
  }

  lemma Alone(m: Message)
    ensures Pdus([S.Pdu(m, Sent)]) == [m]
    ensures Replies([R.Pdu(m, Sent)]) == [m]
  {
    assert [S.Pdu(m, Sent)][1..] == [] && [R.Pdu(m, Sent)][1..] == [];
  }

  /** One packet of a kind that fits goes into an empty slot, and the next turn takes it out again. */
  lemma TakesSegment(x: Pair, r: R.Receiver, k: nat, now: u32)
    requires Fitting(x) && k < x.ends.job.total && !R.Expired(x.ends.receiver, r, now)
    ensures var m := x.ends.job.SegmentOf(k);
      var t := I.Turn(x.ends.receiver, Arrive(x, I.EMPTY, [m]), r, now, WILLING, WILLING);
      t.ingress == I.EMPTY && t.step == R.Process(x.ends.receiver, r, m, now, WILLING)
  {
    var m := x.ends.job.SegmentOf(k);
    S.PayloadFits(x.ends.sender, x.ends.job, k);
    I.CountBound(x.store, x.store.Limit());
    var i: nat :| i < x.store.Limit() && x.store.Installed(i);
    assert I.Free(x.store, I.EMPTY, i);
    I.SegmentHasRoom(x.store, x.ends.receiver.timeout, x.ends.receiver, x.ends.job.setup, I.EMPTY, m);
    var slot := I.FirstFit(x.store, I.EMPTY, WireSize(m), 0);
    var held := I.EMPTY.(segments := map[slot := m]);
    assert Arrive(x, I.EMPTY, [m]) == held by { assert [m][1..] == []; }
    I.HeldIsFound(x.store, held, 0);
    assert slot >= 0 && slot in held.segments;
    assert held.segments - {slot} == map[];
  }

  lemma TakesSetup(x: Pair, r: R.Receiver, now: u32)
    requires Fitting(x) && !R.Expired(x.ends.receiver, r, now)
    ensures var m := SetupMsg(x.ends.job.setup);
      var t := I.Turn(x.ends.receiver, Arrive(x, I.EMPTY, [m]), r, now, WILLING, WILLING);
      t.ingress == I.EMPTY && t.step.next == R.Process(x.ends.receiver, r, m, now, WILLING).next
      && t.step.events == R.Process(x.ends.receiver, r, m, now, WILLING).events
  {
    var m := SetupMsg(x.ends.job.setup);
    var held := I.EMPTY.(datagram := Some(m));
    assert Arrive(x, I.EMPTY, [m]) == held by { assert [m][1..] == []; }
    I.HeldIsFound(x.store, held, 0);
  }

  // Rounds.

  /** A round in which the transmitter sends one packet. */
  lemma Assemble(x: Pair, w: World, now: u32, m: Message, s: S.Step, t: I.Turned)
    requires S.Sound(x.ends.sender, w.sender) && S.Process(x.ends.sender, w.sender, w.inbox, now, RouteAccepted) == s
    requires s.events == [S.Pdu(m, Sent)]
    requires I.Turn(x.ends.receiver, Arrive(x, w.ingress, [m]), w.receiver, now, WILLING, WILLING) == t
    ensures Play(x, w, now)
         == Round(World(s.next, Answer(None, Replies(t.step.events)), t.step.next, t.ingress), [m], s.events, t.step.events)
  {
    Alone(m);
  }

  lemma FirstRound(x: Pair, w: World, now: u32)
    requires Fitting(x) && Ready(x, w)
    ensures var round := Play(x, w, now);
      InStep(x, round.after, 0, now) && round.sent == [SetupMsg(x.ends.job.setup)]
  {
    var m := SetupMsg(x.ends.job.setup);
    SendsSetup(x.ends, w.sender, now);
    TakesSetup(x, w.receiver, now);
    AdmitsSetup(x.ends, w.receiver, now);
    Assemble(x, w, now, m, S.Process(x.ends.sender, w.sender, None, now, RouteAccepted),
             I.Turn(x.ends.receiver, Arrive(x, I.EMPTY, [m]), w.receiver, now, WILLING, WILLING));
    var r := R.Process(x.ends.receiver, w.receiver, m, now, WILLING);
    Alone(R.AckOf(x.ends.receiver, r.next));
    assert r.events[1..] == [R.Pdu(R.AckOf(x.ends.receiver, r.next), Sent)];
  }

  lemma NextRound(x: Pair, w: World, k: nat, before: u32, now: u32)
    requires Fitting(x) && InStep(x, w, k, before) && k < x.ends.job.total && InTime(x.ends, before, now)
    ensures var round := Play(x, w, now); InStep(x, round.after, k + 1, now) && round.sent == [x.ends.job.SegmentOf(k)]
  {
    var m := x.ends.job.SegmentOf(k);
    SendsNext(x.ends, w.sender, w.receiver, k, now);
    TakesSegment(x, w.receiver, k, now);
    Stores(x.ends, w.receiver, k, before, now);
    Assemble(x, w, now, m, S.Process(x.ends.sender, w.sender, w.inbox, now, RouteAccepted),
             I.Turn(x.ends.receiver, Arrive(x, I.EMPTY, [m]), w.receiver, now, WILLING, WILLING));
    OneReply(x, k, R.AckOf(x.ends.receiver, R.Process(x.ends.receiver, w.receiver, m, now, WILLING).next));
  }

  /** The reply that is left after the store and perhaps the completion. */
  lemma OneReply(x: Pair, k: u16, ack: Message)
    ensures Replies(Taken(x.ends, k, ack)) == [ack]
  {
    Alone(ack);
    var tail := Tail(k + 1 == x.ends.job.total, ack);
    assert Taken(x.ends, k, ack)[1..] == tail;
    if tail[0].Complete? { assert tail[1..] == [R.Pdu(ack, Sent)]; }
  }

  lemma LastRound(x: Pair, w: World, before: u32, now: u32)
    requires Fitting(x) && InStep(x, w, x.ends.job.total, before)
    ensures var round := Play(x, w, now);
      && round.after.sender.phase == Completed && round.after.receiver == w.receiver
      && round.sent == [] && round.called == [S.Complete]
  {
    Finishes(x.ends, w.sender, w.receiver, now);
    assert [S.Complete][1..] == [];
    I.HeldIsFound(x.store, I.EMPTY, 0);
  }

  /** A round as a function of where it starts and when. */
  ghost function Player(x: Pair): (World, u32) -> Played<World, Message> {
    (w: World, now: u32) => Played(Play(x, w, now).after, Play(x, w, now).sent)
  }

  ghost function Stage(x: Pair): (World, nat, u32) -> bool { (w: World, k: nat, before: u32) => InStep(x, w, k, before) }

  function Pace(x: Pair): (u32, u32) -> bool { (before: u32, now: u32) => InTime(x.ends, before, now) }

  /** The k-th segment, as a message. */
  function Segment(j: S.Job): nat -> Message { (k: nat) => if k < 0x1_0000 then j.SegmentOf(k) else BadControl }

  lemma RoundsFollow(x: Pair)
    requires Fitting(x)
    ensures Follows(Player(x), Stage(x), Pace(x), Segment(x.ends.job), x.ends.job.total)
  {
    var play, at, close, line := Player(x), Stage(x), Pace(x), Segment(x.ends.job);
    forall w, k: nat, before, now | k < x.ends.job.total && at(w, k, before) && close(before, now)
      ensures at(play(w, now).last, k + 1, now) && play(w, now).sent == [line(k)]
    {
      NextRound(x, w, k, before, now);
    }
  }

  ghost predicate Across(x: Pair, w: World) {
    w.sender.phase == Completed && w.receiver.phase == Completed && w.receiver.accepted == UpTo(x.ends.job.total)
  }

  /**
   * An object of n segments is across after n + 2 rounds, both ends completed, and the transmitter has
   * sent its SETUP and each segment once, in order: nothing was ever sent again, whatever its timeouts.
   */
  lemma TransferTakesTwoMoreRounds(x: Pair, w: World, times: seq<u32>)
    requires Fitting(x) && Ready(x, w) && |times| == x.ends.job.total + 2 && Chained(Pace(x), times[0], times[1..])
    ensures var all := PlayAll(Player(x), w, times);
      && Across(x, all.last)
      && all.sent == [SetupMsg(x.ends.job.setup)] + Script(Segment(x.ends.job), 0, x.ends.job.total)
  {
    var n := x.ends.job.total;
    FirstRound(x, w, times[0]);
    RoundsFollow(x);
    var v, before := PlaysThrough(Player(x), Stage(x), Pace(x), Segment(x.ends.job), n, w, times);
    LastRound(x, v, before, times[n + 1]);
  }
}
