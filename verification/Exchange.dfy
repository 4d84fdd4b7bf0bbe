/**
 * What each endpoint does when the other has done its part: the steps of a transfer in which nothing
 * is lost, one message at a time.
 */
module Exchange {
  import opened Integers
  import opened Forwarding
  import opened Protocol
  import R = ReceiverSpec
  import RR = ReceiverRuns
  import S = SenderSpec
  import A = AckArithmetic

  /** The fixed parts: both configurations and the object with its SETUP. */
  datatype Setting = Setting(sender: S.Config, receiver: R.Config, job: S.Job)
  {
    function Id(): u8 { job.setup.sessionId }
  }

  /** A service that admits, a sink that accepts, and a Link that sends. */
  const WILLING := R.Answers(R.AdmitAccepted, true, true, Sent)

  /** The object is within what both ends are built for. */
  ghost predicate Workable(x: Setting) {
    && x.job.Framed(x.sender) && 0 < x.job.total <= MAXIMUM_SEGMENT_COUNT
    && 0 < x.receiver.width <= WINDOW && RR.Acceptable(x.receiver, x.job.setup)
  }

  /** The transmitter once it has sent the SETUP and k segments and heard of one fewer. */
  ghost predicate SenderAt(x: Setting, s: S.Sender, k: nat) {
    && S.Sound(x.sender, s) && s.job == x.job && s.timers.setupSent
    && s.track.sent.Keys == UpTo(k) && s.track.reported == {}
    && (if k == 0 then s.phase == Starting && s.track.granted == 0
        else s.phase == Active && s.track.counted == k - 1 && s.track.granted == Min(x.job.total, k - 1 + x.receiver.width))
  }

  ghost predicate ReceiverAt(x: Setting, r: R.Receiver, k: nat, now: u32) {
    && r.phase == (if k == x.job.total then Completed else Active)
    && r.setup == x.job.setup && r.accepted == UpTo(k)
    && (k < x.job.total ==> r.lastActivity == now)
  }

  lemma FrontierAt(x: Setting, r: R.Receiver, k: nat)
    requires Workable(x) && r.setup == x.job.setup && r.accepted == UpTo(k) && k <= x.job.total
    ensures r.Frontier() == k && A.Writable(x.receiver, r)
  {
    R.FirstMissingUnique(r.accepted, r.Count(), k);
  }

  // The transmitter's half of a round.

  /** The receiver's acknowledgement of k segments: all k counted, and the grant past them. */
  lemma ReadsAll(x: Setting, s: S.Sender, r: R.Receiver, k: nat)
    requires Workable(x) && SenderAt(x, s, k) && k <= x.job.total
    requires r.setup == x.job.setup && r.accepted == UpTo(k)
    ensures k >= s.track.counted
    ensures A.Reading(x.receiver, r, x.job, s.track)
         == S.Read(k - s.track.counted, Min(x.job.total, k + x.receiver.width) - k)
  {
    FrontierAt(x, r, k);
    A.ReadBack(x.receiver, r, x.job, s.track);
  }

  /** Nothing past the k segments is reported. */
  lemma ReportsNone(x: Setting, s: S.Sender, r: R.Receiver, k: nat)
    requires Workable(x) && SenderAt(x, s, k) && k <= x.job.total && s.track.counted <= k
    requires r.setup == x.job.setup && r.accepted == UpTo(k)
    ensures S.TakeAck(s.track, R.AckOf(x.receiver, r).bitmap, k - s.track.counted,
                      Min(x.job.total, k + x.receiver.width) - k).reported == {}
  {
    FrontierAt(x, r, k);
    A.BitmapReadBack(x.receiver, r, s.track);
  }

  lemma HearsAll(x: Setting, s: S.Sender, r: R.Receiver, k: nat)
    requires Workable(x) && SenderAt(x, s, k) && k <= x.job.total
    requires r.setup == x.job.setup && r.accepted == UpTo(k)
    ensures var next := S.OnMessage(s, R.AckOf(x.receiver, r));
      && next.Handled? && next.next.job == x.job && next.next.timers.setupSent
      && next.next.phase == (if k == x.job.total then Completed else Active)
      && next.next.track == S.Track(k, Min(x.job.total, k + x.receiver.width), s.track.sent, {})
      && next.events == (if k == x.job.total then [S.Complete] else [])
  {
    ReadsAll(x, s, r, k);
    ReportsNone(x, s, r, k);
  }

  /** With everything sent counted and the grant open, the next segment is the one to send. */
  lemma ActsNext(x: Setting, s: S.Sender, k: nat, now: u32, quiet: ProcessResult)
    requires Workable(x) && k < x.job.total && S.Sound(x.sender, s) && s.job == x.job && s.phase == Active
    requires s.timers.setupSent && s.track.sent.Keys == UpTo(k)
    requires s.track.counted == k && s.track.granted == Min(x.job.total, k + x.receiver.width) && s.track.reported == {}
    ensures var step := S.Act(x.sender, s, now, RouteAccepted, quiet);
      && step.events == [S.Pdu(x.job.SegmentOf(k), Sent)]
      && step.next == s.(track := S.Admit(s.track, k, now), timers := s.timers.(probing := false))
  {
    assert S.FirstUnsent(s.track, k) == k;
    S.PayloadFits(x.sender, x.job, k);
    assert S.Act(x.sender, s, now, RouteAccepted, quiet) == S.SendSegment(x.sender, s, k, now, RouteAccepted);
  }

  lemma SenderMovesOn(x: Setting, s: S.Sender, k: nat, now: u32)
    requires Workable(x) && k < x.job.total && S.Sound(x.sender, s) && s.job == x.job && s.phase == Active
    requires s.timers.setupSent && s.track.sent.Keys == UpTo(k)
    requires s.track.counted == k && s.track.granted == Min(x.job.total, k + x.receiver.width) && s.track.reported == {}
    ensures SenderAt(x, s.(track := S.Admit(s.track, k, now), timers := s.timers.(probing := false)), k + 1)
  {
    S.AdmitOrdered(s.track, k, now, x.sender.timing.maxRetries);
    assert S.Admit(s.track, k, now).sent.Keys == UpTo(k + 1);
  }

  /** So the next call sends the next segment, and nothing else. */
  lemma SendsNext(x: Setting, s: S.Sender, r: R.Receiver, k: nat, now: u32)
    requires Workable(x) && SenderAt(x, s, k) && k < x.job.total
    requires r.setup == x.job.setup && r.accepted == UpTo(k)
    ensures var step := S.Process(x.sender, s, Some(R.AckOf(x.receiver, r)), now, RouteAccepted);
      step.events == [S.Pdu(x.job.SegmentOf(k), Sent)] && SenderAt(x, step.next, k + 1)
  {
    var ack := R.AckOf(x.receiver, r);
    HearsAll(x, s, r, k);
    S.MessageSound(x.sender, s, ack);
    var next := S.OnMessage(s, ack).next;
    ActsNext(x, next, k, now, Progress);
    SenderMovesOn(x, next, k, now);
    ProcessIs(x, s, ack, next, now);
  }

  /** A message handled in silence leaves the call to the send step. */
  lemma ProcessIs(x: Setting, s: S.Sender, m: Message, next: S.Sender, now: u32)
    requires S.Sound(x.sender, s) && S.Sound(x.sender, next) && S.OnMessage(s, m) == S.Handled(next, [])
    ensures S.Process(x.sender, s, Some(m), now, RouteAccepted) == S.Act(x.sender, next, now, RouteAccepted, Progress)
  {
    var step := S.Act(x.sender, next, now, RouteAccepted, Progress);
    assert [] + step.events == step.events;
  }

  lemma Finishes(x: Setting, s: S.Sender, r: R.Receiver, now: u32)
    requires Workable(x) && SenderAt(x, s, x.job.total)
    requires r.setup == x.job.setup && r.accepted == UpTo(x.job.total)
    ensures var step := S.Process(x.sender, s, Some(R.AckOf(x.receiver, r)), now, RouteAccepted);
      step.events == [S.Complete] && step.next.phase == Completed
  {
    HearsAll(x, s, r, x.job.total);
    S.MessageSound(x.sender, s, R.AckOf(x.receiver, r));
  }

  lemma SendsSetup(x: Setting, s: S.Sender, now: u32)
    requires Workable(x) && s == S.Sender(Starting, x.job, S.NO_TRACK, S.NO_TIMERS) && S.Sound(x.sender, s)
    ensures var step := S.Process(x.sender, s, None, now, RouteAccepted);
      step.events == [S.Pdu(SetupMsg(x.job.setup), Sent)] && SenderAt(x, step.next, 0)
  {
    S.ProcessSound(x.sender, s, None, now, RouteAccepted);
  }

  // The receiver's half.

  predicate InTime(x: Setting, before: u32, now: u32) { x.receiver.timeout == 0 || Since(now, before) < x.receiver.timeout }

  /** What the receiver does with a segment it wants. */
  function Taken(x: Setting, k: u16, ack: Message): seq<R.Event> {
    [R.Store(x.job.setup.OffsetOf(k), x.job.Payload(k), true)] + Tail(k + 1 == x.job.total, ack)
  }

  function Tail(done: bool, ack: Message): seq<R.Event> {
    if done then [R.Complete, R.Pdu(ack, Sent)] else [R.Pdu(ack, Sent)]
  }

  lemma Stores(x: Setting, r: R.Receiver, k: nat, before: u32, now: u32)
    requires Workable(x) && ReceiverAt(x, r, k, before) && k < x.job.total && InTime(x, before, now)
    ensures var step := R.Process(x.receiver, r, x.job.SegmentOf(k), now, WILLING);
      ReceiverAt(x, step.next, k + 1, now) && step.events == Taken(x, k, R.AckOf(x.receiver, step.next))
  {
    var r1 := r.(lastActivity := now);
    Wants(x, r, k, now);
    Offers(x, r1, k, now);
    var o := R.OfferSegment(x.receiver, r1, k, x.job.Payload(k), WILLING);
    assert R.OnMessage(x.receiver, r, x.job.SegmentOf(k), now, WILLING) == o;
  }

  lemma Wants(x: Setting, r: R.Receiver, k: nat, now: u32)
    requires Workable(x) && k < x.job.total && r.phase == Active && r.setup == x.job.setup && r.accepted == UpTo(k)
    ensures R.OnSegment(x.receiver, r, x.job.setup.sessionId, k, x.job.Payload(k), now, WILLING)
         == R.OfferSegment(x.receiver, r.(lastActivity := now), k, x.job.Payload(k), WILLING)
  {
    FrontierAt(x, r, k);
    FrontierAt(x, r.(lastActivity := now), k);
    S.PayloadFits(x.sender, x.job, k);
  }

  /** One more segment with the sink, and the transfer complete if it was the last. */
  lemma HoldsOneMore(x: Setting, r: R.Receiver, k: nat)
    requires Workable(x) && k < x.job.total && r.phase == Active && r.setup == x.job.setup && r.accepted == UpTo(k)
    ensures R.Stored(r, k) == r.(accepted := UpTo(k + 1), phase := if k + 1 == x.job.total then Completed else Active)
  {
    assert r.accepted + {k} == UpTo(k + 1);
    FrontierAt(x, r.(accepted := UpTo(k + 1)), k + 1);
  }

  lemma Offers(x: Setting, r: R.Receiver, k: nat, now: u32)
    requires Workable(x) && ReceiverAt(x, r, k, now) && k < x.job.total
    ensures var o := R.OfferSegment(x.receiver, r, k, x.job.Payload(k), WILLING);
      ReceiverAt(x, o.next, k + 1, now) && o.events == Taken(x, k, R.AckOf(x.receiver, o.next))
  {
    HoldsOneMore(x, r, k);
    OffersThen(x.receiver, r, k, x.job.Payload(k), R.Stored(r, k));
  }

  /** An accepted segment is stored, completion is told, and the acknowledgement goes out. */
  lemma OffersThen(c: R.Config, r: R.Receiver, k: nat, payload: seq<byte>, more: R.Receiver)
    requires more == R.Stored(r, k)
    ensures var o := R.OfferSegment(c, r, k, payload, WILLING);
      o.next == more
      && o.events == [R.Store(r.setup.OffsetOf(k), payload, true)] + Tail(more.phase == Completed, R.AckOf(c, more))
  {
    var ack := R.AckOf(c, more);
    PostsAck(more, ack, [R.Store(r.setup.OffsetOf(k), payload, true)]);
  }

  lemma PostsAck(r: R.Receiver, ack: Message, first: seq<R.Event>)
    ensures R.Post(r, ack, WILLING) == R.Outcome(r, [R.Pdu(ack, Sent)], true, Sent)
    ensures first + [R.Complete] + [R.Pdu(ack, Sent)] == first + [R.Complete, R.Pdu(ack, Sent)]
    ensures first + [] + [R.Pdu(ack, Sent)] == first + [R.Pdu(ack, Sent)]
  {}

  lemma AdmitsSetup(x: Setting, r: R.Receiver, now: u32)
    requires Workable(x) && R.Sound(x.receiver, r) && r.phase != Active
    ensures var step := R.Process(x.receiver, r, SetupMsg(x.job.setup), now, WILLING);
      && ReceiverAt(x, step.next, 0, now)
      && step.events == [R.Begin(x.job.setup.sessionId, x.job.setup.TotalSize(), x.job.setup.segmentSize, R.AdmitAccepted),
                         R.Pdu(R.AckOf(x.receiver, step.next), Sent)]
  {}
}
