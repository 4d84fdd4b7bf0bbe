/**
 * A full window under way: in each round the transmitter may be called any number of times before the
 * receiver takes its turn, so segments wait in the receiver's slots, and are taken by slot, not in order.
 */
module Pipeline {
  import opened Integers
  import opened Forwarding
  import opened Protocol
  import opened Exchange
  import opened Lockstep
  import opened Turns
  import opened Window
  import R = ReceiverSpec
  import RR = ReceiverRuns
  import S = SenderSpec
  import A = AckArithmetic
  import I = ReceiverIngress

  /** A call that finds the inbox empty. (A transmitter whose state no calls can have produced does nothing.) */
  ghost function Idler(x: Setting, now: u32): (S.Sender, nat) -> Played<S.Sender, Message> {
    (s: S.Sender, call: nat) =>
      if S.Sound(x.sender, s) then
        var step := S.Process(x.sender, s, None, now, RouteAccepted); Played(step.next, Pdus(step.events))
      else Played(s, [])
  }

  /** The first call finds what is in the inbox, the others find it empty. */
  ghost function CallOften(x: Setting, s: S.Sender, inbox: Option<Message>, now: u32, calls: nat): Played<S.Sender, Message> {
    if calls == 0 || !S.Sound(x.sender, s) then Played(s, [])
    else
      var step := S.Process(x.sender, s, inbox, now, RouteAccepted);
      var rest := PlayAll(Idler(x, now), step.next, seq<nat>(calls - 1, (i: nat) => i));
      Played(rest.last, Pdus(step.events) + rest.sent)
  }

  /** The transmitter's calls, what they send arriving, the receiver's turn, what that sends arriving. */
  ghost function PlayBeat(x: Pair, w: World, beat: Beat): Played<World, Message> {
    var burst := CallOften(x.ends, w.sender, w.inbox, beat.now, beat.calls);
    var turn := I.Turn(x.ends.receiver, Arrive(x, w.ingress, burst.sent), w.receiver, beat.now, WILLING, WILLING);
    Played(World(burst.last, Answer(None, Replies(turn.step.events)), turn.step.next, turn.ingress), burst.sent)
  }

  // The transmitter's calls.

  lemma GoesOn(x: Setting, t: S.Track, f: nat, q: nat, p: nat, s: S.Sender, now: u32, quiet: ProcessResult)
    requires Workable(x) && x.sender.timing.retransmit > 0 && GoneOn(x, t, f, q, now)(s, p)
    ensures var step, r := S.Act(x.sender, s, now, RouteAccepted, quiet), Up(p, Min(x.job.total, f + x.receiver.width));
      GoneOn(x, t, f, q, now)(step.next, r) && Pdus(step.events) == Script(Segment(x.job), p, r)
  {
    Going(x, t, f, q, p, s, now);
    ActsOnce(x, s, f, p, now, quiet);
    GoneFurther(x, t, f, q, p, Up(p, Min(x.job.total, f + x.receiver.width)), s, S.Act(x.sender, s, now, RouteAccepted, quiet), now);
  }

  /** Wherever it has come from, it can be taken from here. */
  lemma Going(x: Setting, t: S.Track, f: nat, q: nat, p: nat, s: S.Sender, now: u32)
    requires GoneOn(x, t, f, q, now)(s, p)
    ensures GoneOn(x, s.track, f, p, now)(s, p) && s.track.granted == Min(x.job.total, f + x.receiver.width)
    ensures s.track.counted <= s.track.granted <= 0x1_0000
  {}

  lemma GoneFurther(x: Setting, t: S.Track, f: nat, q: nat, p: nat, r: nat, s: S.Sender, step: S.Step, now: u32)
    requires GoneOn(x, t, f, q, now)(s, p) && Stepped(x, s, f, p, now)(step, r)
    ensures GoneOn(x, t, f, q, now)(step.next, r) && Pdus(step.events) == Script(Segment(x.job), p, r)
  {
    SentMore(t, s.track, step.next.track, q, p, r, now);
  }

  lemma IdlerAdvances(x: Setting, t: S.Track, f: nat, q: nat, now: u32)
    requires Workable(x) && x.sender.timing.retransmit > 0
    ensures Advances(Idler(x, now), GoneOn(x, t, f, q, now), Segment(x.job), Min(x.job.total, f + x.receiver.width))
  {
    var play, at := Idler(x, now), GoneOn(x, t, f, q, now);
    var limit := Min(x.job.total, f + x.receiver.width);
    forall s, call: nat, p: nat | at(s, p) && p <= limit
      ensures at(play(s, call).last, Up(p, limit)) && play(s, call).sent == Script(Segment(x.job), p, Up(p, limit))
    {
      GoesOn(x, t, f, q, p, s, now, IsIdle);
    }
  }

  /** The first call of a round hears and sends. */
  lemma FirstCall(x: Setting, s: S.Sender, ack: Message, f: nat, q: nat, now: u32, heard: S.Sender)
    requires Workable(x) && S.Sound(x.sender, s) && S.OnMessage(s, ack) == S.Handled(heard, [])
    requires Sending(x, heard, f, q) && InHand(x, heard.track, now) && x.sender.timing.retransmit > 0
    ensures var step, m := S.Process(x.sender, s, Some(ack), now, RouteAccepted), Up(q, Min(x.job.total, f + x.receiver.width));
      GoneOn(x, heard.track, f, q, now)(step.next, m) && Pdus(step.events) == Script(Segment(x.job), q, m)
  {
    StartsOn(x, heard, f, q, now);
    GoesOn(x, heard.track, f, q, q, heard, now, Progress);
    ProcessIs(x, s, ack, heard, now);
  }

  lemma StartsOn(x: Setting, s: S.Sender, f: nat, q: nat, now: u32)
    requires Sending(x, s, f, q) && InHand(x, s.track, now)
    ensures GoneOn(x, s.track, f, q, now)(s, q)
  {}

  /** And the others send on. */
  lemma OtherCalls(play: (S.Sender, nat) -> Played<S.Sender, Message>, at: (S.Sender, nat) -> bool, line: nat -> Message, limit: nat,
                   q: nat, s: S.Sender, first: seq<Message>, calls: nat)
    requires Advances(play, at, line, limit) && calls > 0 && q <= limit
    requires at(s, Up(q, limit)) && first == Script(line, q, Up(q, limit))
    ensures var rest := PlayAll(play, s, seq<nat>(calls - 1, (i: nat) => i));
      at(rest.last, UpBy(q, calls, limit)) && first + rest.sent == Script(line, q, UpBy(q, calls, limit))
  {
    PlaysUpTo(play, at, line, limit, s, Up(q, limit), seq<nat>(calls - 1, (i: nat) => i));
    ScriptJoins(line, q, Up(q, limit), UpBy(q, calls, limit));
  }

  /** The transmitter's calls in a round: it hears of everything, and sends on. */
  lemma HearsAndSends(x: Setting, s: S.Sender, ack: Message, f: nat, q: nat, now: u32, calls: nat, heard: S.Sender)
    requires Workable(x) && S.Sound(x.sender, s) && S.OnMessage(s, ack) == S.Handled(heard, []) && calls > 0
    requires Sending(x, heard, f, q) && InHand(x, heard.track, now) && x.sender.timing.retransmit > 0
    ensures var burst, p := CallOften(x, s, Some(ack), now, calls), UpBy(q, calls, Min(x.job.total, f + x.receiver.width));
      GoneOn(x, heard.track, f, q, now)(burst.last, p) && burst.sent == Script(Segment(x.job), q, p)
  {
    var step := S.Process(x.sender, s, Some(ack), now, RouteAccepted);
    FirstCall(x, s, ack, f, q, now, heard);
    IdlerAdvances(x, heard.track, f, q, now);
    OtherCalls(Idler(x, now), GoneOn(x, heard.track, f, q, now), Segment(x.job), Min(x.job.total, f + x.receiver.width),
               q, step.next, Pdus(step.events), calls);
  }

  // One round.

  lemma HeardSending(x: Setting, s: S.Sender, r: R.Receiver, q: nat, heard: S.Sender)
    requires Workable(x) && Tied(x, s, r)(q) && r.Frontier() < x.job.total && A.Writable(x.receiver, r) && r.setup == x.job.setup
    requires Heard(x, s, r)(heard) && S.Sound(x.sender, heard)
    ensures Sending(x, heard, r.Frontier(), q) && heard.track.reported <= r.accepted
    ensures forall i: nat | heard.track.Outstanding(i) :: i < q && i !in r.accepted
  {
    FrontierFacts(x, r);
    HearsBounds(x, s, r, q);
  }

  lemma NothingTooOld(x: Pair, beats: seq<Beat>, t: S.Track, accepted: set<nat>, b: nat, q: nat)
    requires Fitting(x) && Brisk(x.ends.sender.timing.retransmit, x.ends.receiver.width, beats) && b < |beats| && Waited(beats, t, x.ends.receiver.width, b, q)(accepted)
    requires forall i: nat | t.Outstanding(i) :: i < q && i !in accepted
    ensures InHand(x.ends, t, beats[b].now)
  {
    forall i: nat | t.Outstanding(i) ensures Since(beats[b].now, t.sent[i].at) < x.ends.sender.timing.retransmit {
      SelfAhead(accepted, i, x.ends.receiver.width);
      NotYetDue(x.ends.sender.timing.retransmit, beats, t.sent[i].at, Ahead(accepted, i, x.ends.receiver.width), x.ends.receiver.width, b);
    }
  }

  /** Before round b: b - 1 segments are with the sink, the rest of the first q wait, and none has waited too long. */
  ghost predicate Flow(x: Pair, w: World, beats: seq<Beat>, b: nat, q: nat) {
    && 0 < b <= |beats| && |w.receiver.accepted| == b - 1
    && Between(x.ends, w.sender, w.receiver, q) && w.inbox == Some(R.AckOf(x.ends.receiver, w.receiver))
    && R.Sound(x.ends.receiver, w.receiver)
    && w.receiver.phase == (if b - 1 == x.ends.job.total then Completed else Active)
    && (w.receiver.phase == Active ==> w.receiver.lastActivity == beats[b - 1].now)
    && Holding(x, w.ingress, w.receiver.accepted, q)
    && Waited(beats, w.sender.track, x.ends.receiver.width, b, q)(w.receiver.accepted)
  }

  ghost function Flowing(x: Pair, beats: seq<Beat>): (World, nat, nat) -> bool {
    (w: World, b: nat, q: nat) => Flow(x, w, beats, b, q)
  }

  /** What the acknowledgement in the inbox does to the transmitter. */
  lemma BeatHears(x: Pair, w: World, beats: seq<Beat>, b: nat, q: nat) returns (heard: S.Sender)
    requires Fitting(x) && Flowing(x, beats)(w, b, q) && b < |beats| && b - 1 < x.ends.job.total
    requires Brisk(x.ends.sender.timing.retransmit, x.ends.receiver.width, beats)
    ensures w.receiver.Frontier() < x.ends.job.total
    ensures S.OnMessage(w.sender, R.AckOf(x.ends.receiver, w.receiver)) == S.Handled(heard, [])
    ensures Sending(x.ends, heard, w.receiver.Frontier(), q) && InHand(x.ends, heard.track, beats[b].now)
    ensures heard.track.sent == w.sender.track.sent && heard.track.reported <= w.receiver.accepted
  {
    var r := w.receiver;
    FrontierFacts(x.ends, r);
    Hears(x.ends, w.sender, r, q);
    S.MessageSound(x.ends.sender, w.sender, R.AckOf(x.ends.receiver, r));
    heard := S.OnMessage(w.sender, R.AckOf(x.ends.receiver, r)).next;
    HeardSending(x.ends, w.sender, r, q, heard);
    NothingTooOld(x, beats, heard.track, r.accepted, b, q);
  }

  /** The transmitter's part of a round. */
  lemma BeatSends(x: Pair, w: World, beats: seq<Beat>, b: nat, q: nat) returns (heard: S.Sender, p: nat)
    requires Fitting(x) && Flowing(x, beats)(w, b, q) && b < |beats| && b - 1 < x.ends.job.total
    requires Brisk(x.ends.sender.timing.retransmit, x.ends.receiver.width, beats) && beats[b].calls > 0
    ensures w.receiver.Frontier() < x.ends.job.total
    ensures var granted := w.receiver.GrantedEnd(x.ends.receiver);
      q <= granted && p == UpBy(q, beats[b].calls, granted)
    ensures heard.track.sent == w.sender.track.sent && heard.track.reported <= w.receiver.accepted
    ensures GoneOn(x.ends, heard.track, w.receiver.Frontier(), q, beats[b].now)(
              CallOften(x.ends, w.sender, w.inbox, beats[b].now, beats[b].calls).last, p)
    ensures CallOften(x.ends, w.sender, w.inbox, beats[b].now, beats[b].calls).sent == Script(Segment(x.ends.job), q, p)
  {
    heard := BeatHears(x, w, beats, b, q);
    assert Since(beats[b].now, beats[b].now) < x.ends.sender.timing.retransmit;
    p := BurstIs(x.ends, w.sender, w.inbox, R.AckOf(x.ends.receiver, w.receiver), w.receiver.Frontier(), q,
                 beats[b].now, beats[b].calls, heard);
  }

  lemma BurstIs(x: Setting, s: S.Sender, inbox: Option<Message>, ack: Message, f: nat, q: nat, now: u32, calls: nat, heard: S.Sender)
    returns (p: nat)
    requires Workable(x) && S.Sound(x.sender, s) && S.OnMessage(s, ack) == S.Handled(heard, []) && calls > 0 && inbox == Some(ack)
    requires Sending(x, heard, f, q) && InHand(x, heard.track, now) && x.sender.timing.retransmit > 0
    ensures p == UpBy(q, calls, Min(x.job.total, f + x.receiver.width)) && q <= Min(x.job.total, f + x.receiver.width)
    ensures GoneOn(x, heard.track, f, q, now)(CallOften(x, s, inbox, now, calls).last, p)
    ensures CallOften(x, s, inbox, now, calls).sent == Script(Segment(x.job), q, p)
  {
    p := UpBy(q, calls, Min(x.job.total, f + x.receiver.width));
    HearsAndSends(x, s, ack, f, q, now, calls, heard);
  }

  // The receiver's part.

  lemma TurnIs(c: R.Config, g: I.Ingress, r: R.Receiver, now: u32, slot: nat)
    requires slot == I.FirstHeld(g, 0) && slot in g.segments && g.datagram.None? && !R.Expired(c, r, now)
    ensures I.Turn(c, g, r, now, WILLING, WILLING)
         == I.Turned(g.(segments := g.segments - {slot}), R.Process(c, r, g.segments[slot], now, WILLING))
  {}

  lemma StoreReplies(store: R.Event, done: bool, ack: Message)
    requires store.Store?
    ensures Replies([store] + Tail(done, ack)) == [ack]
  {
    Lockstep.Alone(ack);
    var tail := Tail(done, ack);
    assert ([store] + tail)[1..] == tail;
    if done { assert tail[1..] == [R.Pdu(ack, Sent)]; }
  }

  /** A turn takes one of the waiting segments, whichever, and acknowledges. */
  lemma TurnTakes(x: Pair, r: R.Receiver, g: I.Ingress, p: nat, now: u32) returns (i: u16)
    requires Fitting(x) && Holding(x, g, r.accepted, p) && |r.accepted| < p <= r.GrantedEnd(x.ends.receiver)
    requires r.phase == Active && r.setup == x.ends.job.setup && !R.Expired(x.ends.receiver, r, now)
    ensures i < p && i as nat !in r.accepted
    ensures var turn, more := I.Turn(x.ends.receiver, g, r, now, WILLING, WILLING), R.Stored(r.(lastActivity := now), i);
      && turn.step.next == more && Replies(turn.step.events) == [R.AckOf(x.ends.receiver, more)]
      && Holding(x, turn.ingress, r.accepted + {i as nat}, p)
  {
    i := TakesOut(x, g, r.accepted, p);
    TurnIs(x.ends.receiver, g, r, now, I.FirstHeld(g, 0));
    StoresAny(x.ends, r, i, now);
    var more := R.Stored(r.(lastActivity := now), i);
    StoreReplies(R.Store(x.ends.job.setup.OffsetOf(i), x.ends.job.Payload(i), true), more.phase == Completed,
                 R.AckOf(x.ends.receiver, more));
  }

  // Round after round.

  /** Something always waits: the first segment not accepted is sent if nothing else is out. */
  lemma SomethingWaits(accepted: set<nat>, f: nat, q: nat, calls: nat, limit: nat)
    requires accepted <= UpTo(q) && f !in accepted && f < limit && q <= limit && calls > 0
    ensures |accepted| < UpBy(q, calls, limit)
  {
    SubsetSize(accepted, UpTo(q));
    if f < q { SubsetSize(accepted, UpTo(q) - {f}); }
  }

  lemma BetweenOn(x: Setting, t: S.Track, f: nat, q: nat, p: nat, now: u32, s: S.Sender, r: R.Receiver, more: R.Receiver)
    requires GoneOn(x, t, f, q, now)(s, p) && t.reported <= r.accepted && r.Frontier() == f
    requires s.track.granted <= r.GrantedEnd(x.receiver) <= more.GrantedEnd(x.receiver) && f <= more.Frontier()
    requires r.accepted <= more.accepted <= UpTo(p) && more.setup == x.job.setup && A.Writable(x.receiver, more)
    ensures Tied(x, s, more)(p)
  {}

  lemma AgedOn(x: Setting, beats: seq<Beat>, before: S.Track, t: S.Track, s: S.Sender, r: R.Receiver, b: nat, q: nat, p: nat, e: nat)
    requires x.receiver.width > 0 && b < |beats| && GoneOn(x, t, r.Frontier(), q, beats[b].now)(s, p) && before.sent == t.sent
    requires Waited(beats, before, x.receiver.width, b, q)(r.accepted) && e < p && e !in r.accepted
    ensures Waited(beats, s.track, x.receiver.width, b + 1, p)(r.accepted + {e})
  {
    R.FirstMissingIs(r.accepted, 0, r.Count());
    AgesOn(beats, before, s.track, r.accepted, x.receiver.width, b, r.Frontier(), q, p, e);
  }

  lemma GrantIs(x: Setting, t: S.Track, f: nat, q: nat, p: nat, now: u32, s: S.Sender)
    requires GoneOn(x, t, f, q, now)(s, p)
    ensures s.track.granted == Min(x.job.total, f + x.receiver.width) && p <= s.track.granted && q <= p
  {}

  /** The receiver before round b. */
  ghost function Taking(x: Setting, beats: seq<Beat>, b: nat): R.Receiver -> bool {
    (r: R.Receiver) =>
      && R.Sound(x.receiver, r) && r.setup == x.job.setup && |r.accepted| == b - 1 && 0 < b <= |beats|
      && r.phase == (if b - 1 == x.job.total then Completed else Active)
      && (r.phase == Active ==> r.lastActivity == beats[b - 1].now)
  }

  lemma FlowIs(x: Pair, w: World, beats: seq<Beat>, b: nat, q: nat)
    requires Flowing(x, beats)(w, b, q)
    ensures Taking(x.ends, beats, b)(w.receiver) && w.receiver.accepted <= UpTo(q) && Held(x, w.receiver.accepted)(w.ingress, q)
    ensures Waited(beats, w.sender.track, x.ends.receiver.width, b, q)(w.receiver.accepted)
    ensures Tied(x.ends, w.sender, w.receiver)(q) && w.inbox == Some(R.AckOf(x.ends.receiver, w.receiver))
  {}

  lemma MakesFlow(x: Pair, v: World, beats: seq<Beat>, b: nat, q: nat)
    requires Taking(x.ends, beats, b)(v.receiver) && Tied(x.ends, v.sender, v.receiver)(q)
    requires v.inbox == Some(R.AckOf(x.ends.receiver, v.receiver)) && Held(x, v.receiver.accepted)(v.ingress, q)
    requires Waited(beats, v.sender.track, x.ends.receiver.width, b, q)(v.receiver.accepted)
    ensures Flowing(x, beats)(v, b, q)
  {}

  lemma TakingIs(x: Setting, beats: seq<Beat>, b: nat, r: R.Receiver)
    requires Workable(x) && Taking(x, beats, b)(r) && 0 < b <= x.job.total
    ensures R.Sound(x.receiver, r) && r.phase == Active && r.setup == x.job.setup && |r.accepted| == b - 1
    ensures A.Writable(x.receiver, r) && b <= |beats| && r.lastActivity == beats[b - 1].now
  {}

  /** With one more segment it is the receiver before the next round. */
  lemma TakingOn(x: Setting, beats: seq<Beat>, b: nat, r: R.Receiver, i: nat)
    requires Workable(x) && Taking(x, beats, b)(r) && 0 < b <= x.job.total && b < |beats|
    requires i < r.GrantedEnd(x.receiver) && i !in r.accepted
    ensures var more := R.Stored(r.(lastActivity := beats[b].now), i);
      && Taking(x, beats, b + 1)(more) && more.accepted == r.accepted + {i} && A.Writable(x.receiver, more)
      && r.Frontier() <= more.Frontier() && r.GrantedEnd(x.receiver) <= more.GrantedEnd(x.receiver) && more.setup == r.setup
  {
    TakingIs(x, beats, b, r);
    StoredPhase(x, r.(lastActivity := beats[b].now), i);
  }

  /** And still tied to the transmitter that has gone on. */
  lemma TiedOn(x: Setting, beats: seq<Beat>, b: nat, r: R.Receiver, i: u16, t: S.Track, q: nat, p: nat, s: S.Sender, more: R.Receiver)
    requires Workable(x) && Taking(x, beats, b)(r) && 0 < b <= x.job.total && b < |beats| && r.accepted <= UpTo(q)
    requires t.reported <= r.accepted && GoneOn(x, t, r.Frontier(), q, beats[b].now)(s, p) && i < p && i as nat !in r.accepted
    requires more == R.Stored(r.(lastActivity := beats[b].now), i)
    ensures Tied(x, s, more)(p) && Taking(x, beats, b + 1)(more) && more.accepted == r.accepted + {i as nat}
  {
    TakingIs(x, beats, b, r);
    FrontierFacts(x, r);
    GrantIs(x, t, r.Frontier(), q, p, beats[b].now, s);
    TakingOn(x, beats, b, r, i);
    BetweenOn(x, t, r.Frontier(), q, p, beats[b].now, s, r, more);
  }

  /** What a whole round does, out of what its halves do. */
  lemma FlowOn(x: Pair, r: R.Receiver, before: S.Track, v: World, beats: seq<Beat>, b: nat, q: nat, p: nat, heard: S.Sender, i: u16)
    requires Fitting(x) && b < |beats| && 0 < b <= x.ends.job.total && Taking(x.ends, beats, b)(r) && r.accepted <= UpTo(q)
    requires Waited(beats, before, x.ends.receiver.width, b, q)(r.accepted)
    requires heard.track.sent == before.sent && heard.track.reported <= r.accepted
    requires GoneOn(x.ends, heard.track, r.Frontier(), q, beats[b].now)(v.sender, p)
    requires i < p && i as nat !in r.accepted && v.receiver == R.Stored(r.(lastActivity := beats[b].now), i)
    requires v.inbox == Some(R.AckOf(x.ends.receiver, v.receiver)) && Held(x, r.accepted + {i as nat})(v.ingress, p)
    ensures Flowing(x, beats)(v, b + 1, p)
  {
    TiedOn(x.ends, beats, b, r, i, heard.track, q, p, v.sender, v.receiver);
    AgedOn(x.ends, beats, before, heard.track, v.sender, r, b, q, p, i);
    MakesFlow(x, v, beats, b + 1, p);
  }

  /** A world in which everything is on time: no timeout runs down, and the transmitter is called in every round. */
  ghost predicate Timely(x: Pair, beats: seq<Beat>) {
    && Brisk(x.ends.sender.timing.retransmit, x.ends.receiver.width, beats)
    && (forall b | 0 < b < |beats| :: InTime(x.ends, beats[b - 1].now, beats[b].now))
    && (forall b | 0 <= b < |beats| :: beats[b].calls > 0)
  }

  /** What has been sent waits in the slots. */
  lemma BeatArrives(x: Pair, w: World, beats: seq<Beat>, b: nat, q: nat, calls: nat, p: nat)
    requires Fitting(x) && Flowing(x, beats)(w, b, q) && 0 < b <= x.ends.job.total && calls > 0
    requires q <= w.receiver.GrantedEnd(x.ends.receiver) && p == UpBy(q, calls, w.receiver.GrantedEnd(x.ends.receiver))
    ensures Held(x, w.receiver.accepted)(Arrive(x, w.ingress, Script(Segment(x.ends.job), q, p)), p)
    ensures |w.receiver.accepted| < p
  {
    FlowIs(x, w, beats, b, q);
    TakingIs(x.ends, beats, b, w.receiver);
    FrontierFacts(x.ends, w.receiver);
    ArriveAll(x, w.ingress, w.receiver.accepted, q, p);
    SomethingWaits(w.receiver.accepted, w.receiver.Frontier(), q, calls, w.receiver.GrantedEnd(x.ends.receiver));
  }

  /** One of them is taken. */
  lemma BeatTakes(x: Pair, beats: seq<Beat>, b: nat, r: R.Receiver, g: I.Ingress, p: nat) returns (i: u16)
    requires Fitting(x) && Taking(x.ends, beats, b)(r) && 0 < b <= x.ends.job.total && b < |beats| && Held(x, r.accepted)(g, p)
    requires |r.accepted| < p <= r.GrantedEnd(x.ends.receiver) && InTime(x.ends, beats[b - 1].now, beats[b].now)
    ensures i < p && i as nat !in r.accepted
    ensures var turn, more := I.Turn(x.ends.receiver, g, r, beats[b].now, WILLING, WILLING), R.Stored(r.(lastActivity := beats[b].now), i);
      && turn.step.next == more && Replies(turn.step.events) == [R.AckOf(x.ends.receiver, more)]
      && Held(x, r.accepted + {i as nat})(turn.ingress, p)
  {
    TakingIs(x.ends, beats, b, r);
    i := TurnTakes(x, r, g, p, beats[b].now);
  }

  lemma NextBeat(x: Pair, w: World, beats: seq<Beat>, b: nat, q: nat) returns (p: nat)
    requires Fitting(x) && Flowing(x, beats)(w, b, q) && b < |beats| && 0 < b <= x.ends.job.total && Timely(x, beats)
    ensures q <= p && Flowing(x, beats)(PlayBeat(x, w, beats[b]).last, b + 1, p)
    ensures PlayBeat(x, w, beats[b]).sent == Script(Segment(x.ends.job), q, p)
  {
    var heard;
    heard, p := BeatSends(x, w, beats, b, q);
    FlowIs(x, w, beats, b, q);
    BeatArrives(x, w, beats, b, q, beats[b].calls, p);
    var i := BeatTakes(x, beats, b, w.receiver, Arrive(x, w.ingress, Script(Segment(x.ends.job), q, p)), p);
    FlowOn(x, w.receiver, w.sender.track, PlayBeat(x, w, beats[b]).last, beats, b, q, p, heard, i);
  }

  // The first round and the last.

  lemma SetupGoesOut(x: Setting, s: S.Sender, now: u32)
    requires Workable(x) && s == S.Sender(Starting, x.job, S.NO_TRACK, S.NO_TIMERS) && S.Sound(x.sender, s)
    ensures var step := S.Process(x.sender, s, None, now, RouteAccepted);
      && step.next == s.(timers := S.NO_TIMERS.(setupSent := true, setupAt := now))
      && S.Sound(x.sender, step.next) && Pdus(step.events) == [SetupMsg(x.job.setup)]
  {
    S.ProcessSound(x.sender, s, None, now, RouteAccepted);
    Lockstep.Alone(SetupMsg(x.job.setup));
  }

  /** Calls that find nothing to do change nothing. */
  ghost predicate Still(x: Setting, s: S.Sender, now: u32) {
    S.Sound(x.sender, s) && S.Act(x.sender, s, now, RouteAccepted, IsIdle) == S.Step(s, [], IsIdle)
  }

  lemma {:induction false} StillStays(x: Setting, s: S.Sender, now: u32, times: seq<nat>)
    requires Still(x, s, now)
    ensures PlayAll(Idler(x, now), s, times) == Played(s, [])
    decreases times
  {
    if times != [] {
      assert Idler(x, now)(s, times[0]) == Played(s, []);
      StillStays(x, s, now, times[1..]);
    }
  }

  lemma OnlyFirstCall(x: Setting, s: S.Sender, inbox: Option<Message>, now: u32, calls: nat, next: S.Sender, sent: seq<Message>)
    requires calls > 0 && S.Sound(x.sender, s) && Still(x, next, now)
    requires var step := S.Process(x.sender, s, inbox, now, RouteAccepted); step.next == next && Pdus(step.events) == sent
    ensures CallOften(x, s, inbox, now, calls) == Played(next, sent)
  {
    StillStays(x, next, now, seq<nat>(calls - 1, (i: nat) => i));
    assert sent + [] == sent;
  }

  lemma FirstBurst(x: Setting, s: S.Sender, now: u32, calls: nat)
    requires Workable(x) && s == S.Sender(Starting, x.job, S.NO_TRACK, S.NO_TIMERS) && S.Sound(x.sender, s)
    requires x.sender.timing.retransmit > 0 && calls > 0
    ensures CallOften(x, s, None, now, calls)
         == Played(s.(timers := S.NO_TIMERS.(setupSent := true, setupAt := now)), [SetupMsg(x.job.setup)])
    ensures S.Sound(x.sender, s.(timers := S.NO_TIMERS.(setupSent := true, setupAt := now)))
  {
    SetupGoesOut(x, s, now);
    OnlyFirstCall(x, s, None, now, calls, s.(timers := S.NO_TIMERS.(setupSent := true, setupAt := now)), [SetupMsg(x.job.setup)]);
  }

  /** The receiver admits the SETUP and acknowledges it. */
  lemma FirstTurn(x: Pair, r: R.Receiver, now: u32)
    requires Fitting(x) && R.Sound(x.ends.receiver, r) && r.phase != Active
    ensures var turn, more := I.Turn(x.ends.receiver, Arrive(x, I.EMPTY, [SetupMsg(x.ends.job.setup)]), r, now, WILLING, WILLING),
                              R.Receiver(Active, x.ends.job.setup, {}, now);
      && turn.ingress == I.EMPTY && turn.step.next == more && Replies(turn.step.events) == [R.AckOf(x.ends.receiver, more)]
      && R.Sound(x.ends.receiver, more)
  {
    var m := SetupMsg(x.ends.job.setup);
    TakesSetup(x, r, now);
    AdmitsSetup(x.ends, r, now);
    var step := R.Process(x.ends.receiver, r, m, now, WILLING);
    RR.CallEffect(x.ends.receiver, r, R.Deliver(m, now, WILLING), []);
    assert step.next == R.Receiver(Active, x.ends.job.setup, {}, now);
    Lockstep.Alone(R.AckOf(x.ends.receiver, step.next));
    assert step.events[1..] == [R.Pdu(R.AckOf(x.ends.receiver, step.next), Sent)];
  }

  lemma FirstTied(x: Setting, s: S.Sender, now: u32)
    requires Workable(x) && S.Sound(x.sender, s)
    requires s == S.Sender(Starting, x.job, S.NO_TRACK, S.NO_TIMERS.(setupSent := true, setupAt := now))
    ensures Tied(x, s, R.Receiver(Active, x.job.setup, {}, now))(0)
  {
    FrontierAt(x, R.Receiver(Active, x.job.setup, {}, now), 0);
  }

  lemma FirstBeat(x: Pair, w: World, beats: seq<Beat>)
    requires Fitting(x) && Ready(x, w) && beats != [] && Timely(x, beats)
    ensures Flowing(x, beats)(PlayBeat(x, w, beats[0]).last, 1, 0)
    ensures PlayBeat(x, w, beats[0]).sent == [SetupMsg(x.ends.job.setup)]
  {
    var now := beats[0].now;
    assert Since(beats[0].now, beats[0].now) < x.ends.sender.timing.retransmit;
    FirstBurst(x.ends, w.sender, now, beats[0].calls);
    FirstTurn(x, w.receiver, now);
    var v := PlayBeat(x, w, beats[0]).last;
    FirstTied(x.ends, v.sender, now);
    assert Held(x, {})(I.EMPTY, 0) && Taking(x.ends, beats, 1)(v.receiver);
    MakesFlow(x, v, beats, 1, 0);
  }

  /** The acknowledgement of everything completes the transmitter. */
  lemma LastBurst(x: Setting, s: S.Sender, r: R.Receiver, q: nat, now: u32, calls: nat)
    requires Workable(x) && Tied(x, s, r)(q) && |r.accepted| == x.job.total && calls > 0
    ensures var burst := CallOften(x, s, Some(R.AckOf(x.receiver, r)), now, calls);
      burst.last.phase == Completed && burst.sent == []
  {
    var ack := R.AckOf(x.receiver, r);
    FrontierFacts(x, r);
    Hears(x, s, r, q);
    S.MessageSound(x.sender, s, ack);
    var next := S.OnMessage(s, ack).next;
    assert S.Process(x.sender, s, Some(ack), now, RouteAccepted) == S.Step(next, [S.Complete] + [], Progress);
    assert [S.Complete] + [] == [S.Complete] && [S.Complete][1..] == [];
    OnlyFirstCall(x, s, Some(ack), now, calls, next, []);
  }

  lemma LastTurn(x: Pair, r: R.Receiver, g: I.Ingress, q: nat, now: u32)
    requires Fitting(x) && Held(x, r.accepted)(g, q) && |r.accepted| == q && r.phase != Active
    ensures I.Turn(x.ends.receiver, Arrive(x, g, []), r, now, WILLING, WILLING).step.next == r
  {
    assert g.segments == map[];
    I.HeldIsFound(x.store, g, 0);
  }

  lemma LastBeat(x: Pair, w: World, beats: seq<Beat>, q: nat)
    requires Fitting(x) && |beats| == x.ends.job.total + 2 && Timely(x, beats)
    requires Flowing(x, beats)(w, x.ends.job.total + 1, q)
    ensures q == x.ends.job.total
    ensures var round := PlayBeat(x, w, beats[q + 1]); Delivered(x, round.last) && round.sent == []
  {
    var n, r := x.ends.job.total, w.receiver;
    FlowEnd(x, w, beats, q);
    LastBurst(x.ends, w.sender, r, q, beats[n + 1].now, beats[n + 1].calls);
    LastTurn(x, r, w.ingress, q, beats[n + 1].now);
  }

  lemma FlowEnd(x: Pair, w: World, beats: seq<Beat>, q: nat)
    requires Fitting(x) && Flowing(x, beats)(w, x.ends.job.total + 1, q)
    ensures var r := w.receiver;
      && r.phase == Completed && |r.accepted| == x.ends.job.total == q && r.accepted == UpTo(q)
      && Tied(x.ends, w.sender, r)(q) && Held(x, r.accepted)(w.ingress, q)
      && w.inbox == Some(R.AckOf(x.ends.receiver, r))
  {
    FrontierFacts(x.ends, w.receiver);
    HearsBounds(x.ends, w.sender, w.receiver, q);
    SubsetSize(w.receiver.accepted, UpTo(q));
    SameSize(w.receiver.accepted, UpTo(q));
  }

  ghost predicate Delivered(x: Pair, w: World) {
    w.sender.phase == Completed && w.receiver.phase == Completed && w.receiver.accepted == UpTo(x.ends.job.total)
  }

  ghost function Beater(x: Pair): (World, Beat) -> Played<World, Message> { (w: World, beat: Beat) => PlayBeat(x, w, beat) }

  lemma BeatsCarry(x: Pair, beats: seq<Beat>)
    requires Fitting(x) && |beats| == x.ends.job.total + 2 && Timely(x, beats)
    ensures Carries(Beater(x), Flowing(x, beats), Segment(x.ends.job), beats, x.ends.job.total + 1)
  {
    var play, at, line := Beater(x), Flowing(x, beats), Segment(x.ends.job);
    forall w, b: nat, q: nat | 0 < b < x.ends.job.total + 1 && at(w, b, q)
      ensures exists p: nat :: Turns.Takes(play, at, line, beats, w, b, q, p)
    {
      var p := NextBeat(x, w, beats, b, q);
      assert Turns.Takes(play, at, line, beats, w, b, q, p);
    }
  }

  /**
   * With up to a full window of segments waiting in the receiver's slots, and taken from them out of order, an
   * object of n segments is across after n + 2 rounds: however often the transmitter is called in each, both
   * ends are completed, and the transmitter has sent its SETUP and each segment once, in order, as long as
   * twice as many rounds as the window is wide fit within its retransmission timeout.
   */
  lemma WindowDelivers(x: Pair, w: World, beats: seq<Beat>)
    requires Fitting(x) && Ready(x, w) && |beats| == x.ends.job.total + 2 && Timely(x, beats)
    ensures var all := PlayAll(Beater(x), w, beats);
      && Delivered(x, all.last)
      && all.sent == [SetupMsg(x.ends.job.setup)] + Script(Segment(x.ends.job), 0, x.ends.job.total)
  {
    var n := x.ends.job.total;
    FirstBeat(x, w, beats);
    BeatsCarry(x, beats);
    var q := Carried(Beater(x), Flowing(x, beats), Segment(x.ends.job), beats, n + 1, w, [SetupMsg(x.ends.job.setup)], n + 1);
    Ends(x, w, beats, q);
  }

  /** The last round sends nothing more. */
  lemma Ends(x: Pair, w: World, beats: seq<Beat>, q: nat)
    requires Fitting(x) && |beats| == x.ends.job.total + 2 && Timely(x, beats)
    requires Flowing(x, beats)(PlayAll(Beater(x), w, beats[..x.ends.job.total + 1]).last, x.ends.job.total + 1, q)
    ensures q == x.ends.job.total
    ensures var all, before := PlayAll(Beater(x), w, beats), PlayAll(Beater(x), w, beats[..x.ends.job.total + 1]);
      Delivered(x, all.last) && all.sent == before.sent
  {
    var n := x.ends.job.total;
    var before := PlayAll(Beater(x), w, beats[..n + 1]);
    LastBeat(x, before.last, beats, q);
    PlayLast(Beater(x), w, beats, n + 1);
    assert beats[..n + 2] == beats && before.sent + [] == before.sent;
  }

  /** On the way, each round but the first takes one segment out of the slots, and what was sent and not taken is in them. */
  lemma OneEachRound(x: Pair, w: World, beats: seq<Beat>, b: nat) returns (q: nat)
    requires Fitting(x) && Ready(x, w) && |beats| == x.ends.job.total + 2 && Timely(x, beats) && 0 < b <= x.ends.job.total + 1
    ensures var all := PlayAll(Beater(x), w, beats[..b]);
      && all.sent == [SetupMsg(x.ends.job.setup)] + Script(Segment(x.ends.job), 0, q)
      && |all.last.receiver.accepted| == b - 1 && |all.last.ingress.segments| == q - (b - 1)
  {
    FirstBeat(x, w, beats);
    BeatsCarry(x, beats);
    q := Carried(Beater(x), Flowing(x, beats), Segment(x.ends.job), beats, x.ends.job.total + 1, w, [SetupMsg(x.ends.job.setup)], b);
    assert Flowing(x, beats)(PlayAll(Beater(x), w, beats[..b]).last, b, q);
  }
}
