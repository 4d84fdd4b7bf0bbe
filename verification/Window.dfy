/** A window of segments under way: sent, waiting in the receiver's slots, heard of, and not yet due again. */
module Window {
  import opened Integers
  import opened Forwarding
  import opened Protocol
  import opened Exchange
  import opened Lockstep
  import opened Turns
  import R = ReceiverSpec
  import RR = ReceiverRuns
  import S = SenderSpec
  import A = AckArithmetic
  import I = ReceiverIngress

  /** One round: when, and how often the transmitter is called in it. */
  datatype Beat = Beat(now: u32, calls: nat)

  // The transmitter.

  /** It has heard of everything below f, and has sent everything below q. */
  ghost predicate Sending(x: Setting, s: S.Sender, f: nat, q: nat) {
    && S.Sound(x.sender, s) && s.job == x.job && s.phase == Active && s.timers.setupSent
    && s.track.sent.Keys == UpTo(q) && s.track.counted == f && f !in s.track.reported
    && f < x.job.total && f <= q <= s.track.granted == Min(x.job.total, f + x.receiver.width)
  }

  /** No timer of a segment still out has run down. */
  ghost predicate InHand(x: Setting, t: S.Track, now: u32) {
    forall i: nat | t.Outstanding(i) :: Since(now, t.sent[i].at) < x.sender.timing.retransmit
  }

  lemma NothingDue(x: Setting, t: S.Track, now: u32)
    requires t.counted <= t.granted && InHand(x, t, now)
    ensures S.FirstDue(x.sender, t, now, t.counted) == t.granted
  {
    S.FirstDueIs(x.sender, t, now, t.counted);
  }

  lemma {:induction false} AllSent(t: S.Track, i: nat, q: nat)
    requires i <= q <= t.granted && t.sent.Keys == UpTo(q)
    ensures S.FirstUnsent(t, i) == q
    decreases q - i
  {
    if i < q { AllSent(t, i + 1, q); }
  }

  lemma SendsOne(x: Setting, s: S.Sender, f: nat, q: nat, now: u32, quiet: ProcessResult)
    requires Workable(x) && Sending(x, s, f, q) && q < s.track.granted
    ensures var step := S.Act(x.sender, s, now, RouteAccepted, quiet);
      && step.events == [S.Pdu(x.job.SegmentOf(q), Sent)]
      && step.next == s.(track := S.Admit(s.track, q, now), timers := s.timers.(probing := false))
  {
    AllSent(s.track, f, q);
    S.PayloadFits(x.sender, x.job, q);
    assert S.Act(x.sender, s, now, RouteAccepted, quiet) == S.SendSegment(x.sender, s, q, now, RouteAccepted);
  }

  lemma SendsNone(x: Setting, s: S.Sender, f: nat, q: nat, now: u32, quiet: ProcessResult)
    requires Workable(x) && Sending(x, s, f, q) && q == s.track.granted && InHand(x, s.track, now)
    ensures var step := S.Act(x.sender, s, now, RouteAccepted, quiet);
      step.events == [] && step.next == s.(timers := s.timers.(probing := false, probeRetries := 0))
  {
    AllSent(s.track, f, q);
    NothingDue(x, s.track, now);
    assert s.track.Outstanding(f);
    assert S.Act(x.sender, s, now, RouteAccepted, quiet) == S.ActProbing(x.sender, s, now, RouteAccepted, quiet);
  }

  /** The track once q to r have been sent at a time. */
  ghost predicate SentBetween(t: S.Track, u: S.Track, q: nat, r: nat, now: u32) {
    && u == t.(sent := u.sent) && t.sent.Keys == UpTo(q) && u.sent.Keys == UpTo(r) && q <= r
    && (forall i: nat | i < q :: u.sent[i] == t.sent[i])
    && (forall i: nat | q <= i < r :: u.sent[i].at == now)
  }

  lemma SentMore(t: S.Track, u: S.Track, v: S.Track, q: nat, r: nat, p: nat, now: u32)
    requires SentBetween(t, u, q, r, now) && SentBetween(u, v, r, p, now)
    ensures SentBetween(t, v, q, p, now)
  {}

  lemma AdmitSends(t: S.Track, q: nat, now: u32)
    requires t.sent.Keys == UpTo(q)
    ensures SentBetween(t, S.Admit(t, q, now), q, q + 1, now)
  {}

  lemma StillInHand(x: Setting, t: S.Track, u: S.Track, q: nat, r: nat, now: u32)
    requires InHand(x, t, now) && SentBetween(t, u, q, r, now) && t.Ordered() && x.sender.timing.retransmit > 0
    ensures InHand(x, u, now)
  {
    forall i: nat | u.Outstanding(i) ensures Since(now, u.sent[i].at) < x.sender.timing.retransmit {
      if i < q { assert t.Outstanding(i); }
    }
  }

  /** What one call does: the next segment, if there is one, and the same window as before. */
  ghost function Stepped(x: Setting, s: S.Sender, f: nat, q: nat, now: u32): (S.Step, nat) -> bool {
    (step: S.Step, r: nat) =>
      && Sending(x, step.next, f, r) && InHand(x, step.next.track, now) && SentBetween(s.track, step.next.track, q, r, now)
      && Pdus(step.events) == Script(Segment(x.job), q, r)
  }

  lemma StillSending(x: Setting, s: S.Sender, f: nat, q: nat, now: u32, next: S.Sender)
    requires Sending(x, s, f, q) && q < s.track.granted && S.Sound(x.sender, next)
    requires next == s.(track := S.Admit(s.track, q, now), timers := s.timers.(probing := false))
    ensures Sending(x, next, f, q + 1)
  {
    AdmitSends(s.track, q, now);
  }

  lemma SendStep(x: Setting, s: S.Sender, f: nat, q: nat, now: u32, step: S.Step)
    requires q < x.job.total <= 0x1_0000 && Sending(x, step.next, f, q + 1) && x.sender.timing.retransmit > 0
    requires s.track.Ordered() && s.track.sent.Keys == UpTo(q) && InHand(x, s.track, now)
    requires step.events == [S.Pdu(x.job.SegmentOf(q), Sent)] && step.next.track == S.Admit(s.track, q, now)
    ensures Stepped(x, s, f, q, now)(step, q + 1)
  {
    AdmitSends(s.track, q, now);
    StillInHand(x, s.track, step.next.track, q, q + 1, now);
    OneLine(x.job, q, step.events);
  }

  lemma OneLine(j: S.Job, q: u16, events: seq<S.Event>)
    requires events == [S.Pdu(j.SegmentOf(q), Sent)]
    ensures Pdus(events) == Script(Segment(j), q, q + 1)
  {
    Lockstep.Alone(j.SegmentOf(q));
    assert Script(Segment(j), q + 1, q + 1) == [];
  }

  lemma IdleStep(x: Setting, s: S.Sender, f: nat, q: nat, now: u32, step: S.Step)
    requires Sending(x, s, f, q) && InHand(x, s.track, now) && step.events == [] && S.Sound(x.sender, step.next)
    requires step.next == s.(timers := s.timers.(probing := false, probeRetries := 0))
    ensures Stepped(x, s, f, q, now)(step, q)
  {
    assert Pdus([]) == [] && Script(Segment(x.job), q, q) == [];
  }

  /** A transmitter that has gone on from a track. */
  ghost function GoneOn(x: Setting, t: S.Track, f: nat, q: nat, now: u32): (S.Sender, nat) -> bool {
    (s: S.Sender, r: nat) => Sending(x, s, f, r) && InHand(x, s.track, now) && SentBetween(t, s.track, q, r, now)
  }

  /** Each call sends the next segment while the grant lasts, and then nothing. */
  lemma ActsOnce(x: Setting, s: S.Sender, f: nat, q: nat, now: u32, quiet: ProcessResult)
    requires Workable(x) && x.sender.timing.retransmit > 0 && GoneOn(x, s.track, f, q, now)(s, q)
    requires s.track.counted <= s.track.granted <= 0x1_0000
    ensures Stepped(x, s, f, q, now)(S.Act(x.sender, s, now, RouteAccepted, quiet), Up(q, Min(x.job.total, f + x.receiver.width)))
  {
    var step := S.Act(x.sender, s, now, RouteAccepted, quiet);
    S.ActSound(x.sender, s, now, RouteAccepted, quiet);
    if q < s.track.granted {
      SendsOne(x, s, f, q, now, quiet);
      StillSending(x, s, f, q, now, step.next);
      SendStep(x, s, f, q, now, step);
    } else {
      SendsNone(x, s, f, q, now, quiet);
      IdleStep(x, s, f, q, now, step);
    }
  }

  // What it hears.

  /** What a receiver holds past its count. */
  ghost function Past(r: R.Receiver): set<nat> { set i | i in r.accepted && i >= r.Frontier() }

  /** A receiver that has accepted some of the first q segments, and a transmitter that has sent them. */
  ghost predicate Between(x: Setting, s: S.Sender, r: R.Receiver, q: nat) {
    && S.Sound(x.sender, s) && s.job == x.job && s.Open() && s.timers.setupSent && s.track.sent.Keys == UpTo(q)
    && A.Writable(x.receiver, r) && r.setup == x.job.setup && r.accepted <= UpTo(q)
    && s.track.counted <= r.Frontier() && s.track.granted <= r.GrantedEnd(x.receiver) && s.track.reported <= r.accepted
  }

  ghost function Tied(x: Setting, s: S.Sender, r: R.Receiver): nat -> bool { (q: nat) => Between(x, s, r, q) }

  lemma HearsBounds(x: Setting, s: S.Sender, r: R.Receiver, q: nat)
    requires Workable(x) && Tied(x, s, r)(q)
    ensures r.Frontier() <= q <= s.track.granted <= r.GrantedEnd(x.receiver) == Min(x.job.total, r.Frontier() + x.receiver.width)
    ensures s.track.counted <= r.Frontier() <= s.track.counted + WINDOW
  {
    R.FirstMissingIs(r.accepted, 0, r.Count());
    PrefixSent(s.track, r.accepted, r.Frontier(), q);
  }

  /** An acknowledgement of this receiver, and how far it moves the count and the grant. */
  ghost predicate Answers(x: Setting, t: S.Track, r: R.Receiver, ack: Message, advance: nat, span: nat) {
    ack == R.AckOf(x.receiver, r) && t.counted + advance == r.Frontier() && r.Frontier() + span == r.GrantedEnd(x.receiver)
  }

  /** The count and the grant come through. */
  lemma HearsCount(x: Setting, s: S.Sender, r: R.Receiver, q: nat, ack: Message, advance: nat, span: nat)
    requires Workable(x) && Tied(x, s, r)(q) && Answers(x, s.track, r, ack, advance, span)
    ensures S.ReadAck(x.job, s.track, ack.bitmap, ack.maxSequence, ack.base) == S.Read(advance, span)
  {
    HearsBounds(x, s, r, q);
    A.ReadBack(x.receiver, r, x.job, s.track);
  }

  /** And so does everything past the count. */
  lemma HearsReports(x: Setting, t: S.Track, r: R.Receiver, ack: Message, advance: nat, span: nat)
    requires A.Writable(x.receiver, r) && r.accepted <= t.sent.Keys && Answers(x, t, r, ack, advance, span)
    ensures S.TakeAck(t, ack.bitmap, advance, span).reported == t.reported + Past(r)
  {
    A.BitmapReadBack(x.receiver, r, t);
  }

  lemma TiedIs(x: Setting, s: S.Sender, r: R.Receiver, q: nat)
    requires Tied(x, s, r)(q)
    ensures s.Open() && s.timers.setupSent && s.job == x.job && r.setup == x.job.setup && s.track.granted <= r.GrantedEnd(x.receiver)
    ensures A.Writable(x.receiver, r) && r.accepted <= s.track.sent.Keys
  {}

  lemma PrefixSent(t: S.Track, accepted: set<nat>, f: nat, q: nat)
    requires t.Ordered() && t.sent.Keys == UpTo(q) && accepted <= UpTo(q) && forall k: nat | k < f :: k in accepted
    ensures f <= q <= t.granted
  {
    assert f > q ==> q in accepted;
    if q > 0 { assert q - 1 in t.sent; }
  }

  lemma HandlesAck(s: S.Sender, ack: Message, advance: nat, span: nat)
    requires s.Open() && s.timers.setupSent && ack.AckMsg? && ack.sessionId == s.job.setup.sessionId
    requires S.ReadAck(s.job, s.track, ack.bitmap, ack.maxSequence, ack.base) == S.Read(advance, span)
    ensures var next := S.Acknowledged(s, ack.bitmap, advance, span);
      S.OnMessage(s, ack) == S.Handled(next, if next.phase == Completed then [S.Complete] else [])
  {}

  /** Everything up to the frontier is counted, the grant moves with it, and what is past it is reported. */
  ghost function Heard(x: Setting, s: S.Sender, r: R.Receiver): S.Sender -> bool {
    (next: S.Sender) =>
      && next.job == x.job && next.timers.setupSent
      && next.phase == (if r.Frontier() == x.job.total then Completed else Active)
      && next.track.counted == r.Frontier() && next.track.granted == r.GrantedEnd(x.receiver)
      && next.track.sent == s.track.sent
      && next.track.reported == s.track.reported + Past(r)
  }

  /** How the acknowledgement is handled. */
  ghost function Handling(x: Setting, s: S.Sender, r: R.Receiver): S.Handling -> bool {
    (h: S.Handling) =>
      h.Handled? && Heard(x, s, r)(h.next) && h.events == (if r.Frontier() == x.job.total then [S.Complete] else [])
  }

  /** What it hears is all the receiver has, gaps and all. */
  lemma Hears(x: Setting, s: S.Sender, r: R.Receiver, q: nat)
    requires Workable(x) && Tied(x, s, r)(q)
    ensures Handling(x, s, r)(S.OnMessage(s, R.AckOf(x.receiver, r)))
  {
    HearsBounds(x, s, r, q);
    var ack, advance, span := R.AckOf(x.receiver, r), r.Frontier() - s.track.counted, r.GrantedEnd(x.receiver) - r.Frontier();
    assert Handling(x, s, r)(S.OnMessage(s, ack)) by {
      TiedIs(x, s, r, q);
      HearsCount(x, s, r, q, ack, advance, span);
      HearsReports(x, s.track, r, ack, advance, span);
      HeardIs(x, s, r, ack, advance, span);
    }
  }

  lemma HeardIs(x: Setting, s: S.Sender, r: R.Receiver, ack: Message, advance: nat, span: nat)
    requires s.Open() && s.timers.setupSent && s.job == x.job && ack.AckMsg? && ack.sessionId == s.job.setup.sessionId
    requires S.ReadAck(s.job, s.track, ack.bitmap, ack.maxSequence, ack.base) == S.Read(advance, span)
    requires s.track.counted + advance == r.Frontier() && r.Frontier() + span == r.GrantedEnd(x.receiver)
    requires s.track.granted <= r.GrantedEnd(x.receiver)
    requires S.TakeAck(s.track, ack.bitmap, advance, span).reported
          == s.track.reported + Past(r)
    ensures Handling(x, s, r)(S.OnMessage(s, ack))
  {
    HandlesAck(s, ack, advance, span);
    var next := S.Acknowledged(s, ack.bitmap, advance, span);
    assert Heard(x, s, r)(next);
    assert next.phase == Completed <==> r.Frontier() == x.job.total;
    assert S.OnMessage(s, ack).events == if r.Frontier() == x.job.total then [S.Complete] else [];
  }

  // The receiver's slots.

  predicate Waits(j: S.Job, m: Message, accepted: set<nat>, q: nat) {
    m.SegmentMsg? && m.index < q && m.index !in accepted && m == j.SegmentOf(m.index)
  }

  /** Each of the first q segments that is not accepted waits in one slot. */
  ghost predicate Holding(x: Pair, g: I.Ingress, accepted: set<nat>, q: nat) {
    && g.datagram.None? && I.Fit(x.store, g) && accepted <= UpTo(q) && |g.segments| + |accepted| == q
    && AllWait(x.ends.job, g.segments, accepted, q)
  }

  /** No two of them the same. */
  ghost predicate AllWait(j: S.Job, held: map<nat, Message>, accepted: set<nat>, q: nat) {
    && (forall k | k in held :: Waits(j, held[k], accepted, q))
    && (forall k, l | k in held && l in held && k != l :: held[k].index != held[l].index)
  }

  ghost function Slots(store: I.Storage, n: nat): set<nat> { set i | i in UpTo(n) && store.Installed(i) }

  lemma SlotsMore(store: I.Storage, n: nat)
    ensures Slots(store, n + 1) == Slots(store, n) + (if store.Installed(n) then {n} else {})
    ensures n !in Slots(store, n)
  {
  }

  lemma {:induction false} CountIs(store: I.Storage, n: nat)
    requires n <= store.Limit()
    ensures store.Count(n) == |Slots(store, n)|
    decreases n
  {
    if n == 0 {
      assert Slots(store, 0) == {};
    } else {
      CountIs(store, n - 1);
      SlotsMore(store, n - 1);
    }
  }

  /** With fewer packets waiting than slots, one is free. */
  lemma SomeFree(store: I.Storage, g: I.Ingress)
    requires |g.segments| < store.Count(store.Limit())
    ensures I.AnyFree(store, g)
  {
    CountIs(store, store.Limit());
    var slots := Slots(store, store.Limit());
    if slots <= g.segments.Keys { SubsetSize(slots, g.segments.Keys); }
    var i :| i in slots && i !in g.segments;
    assert I.Free(store, g, i);
  }

  lemma OneMoreWaits(j: S.Job, held: map<nat, Message>, accepted: set<nat>, q: nat, slot: nat, m: Message)
    requires AllWait(j, held, accepted, q) && slot !in held && Waits(j, m, accepted, q + 1) && m.index == q
    ensures AllWait(j, held[slot := m], accepted, q + 1) && |held[slot := m]| == |held| + 1
  {
    var more := held[slot := m];
    assert more.Keys == held.Keys + {slot};
    forall k | k in more ensures Waits(j, more[k], accepted, q + 1) && (k != slot ==> more[k].index < q) {
      if k != slot { assert more[k] == held[k] && Waits(j, held[k], accepted, q); }
    }
  }

  lemma FindsSlot(x: Pair, g: I.Ingress, q: u16) returns (slot: nat)
    requires Fitting(x) && q < x.ends.job.total && |g.segments| < x.ends.receiver.width && I.Fit(x.store, g)
    ensures slot !in g.segments && x.store.Installed(slot)
    ensures var m := x.ends.job.SegmentOf(q);
      I.Receive(x.store, g, m, WireSize(m)).0 == g.(segments := g.segments[slot := m])
  {
    var m := x.ends.job.SegmentOf(q);
    S.PayloadFits(x.ends.sender, x.ends.job, q);
    SomeFree(x.store, g);
    I.SegmentHasRoom(x.store, x.ends.receiver.timeout, x.ends.receiver, x.ends.job.setup, g, m);
    slot := I.FirstFit(x.store, g, WireSize(m), 0);
  }

  lemma ArrivesOne(x: Pair, g: I.Ingress, accepted: set<nat>, q: nat)
    requires Fitting(x) && Holding(x, g, accepted, q) && q < x.ends.job.total && |g.segments| < x.ends.receiver.width
    ensures var m := x.ends.job.SegmentOf(q); Held(x, accepted)(I.Receive(x.store, g, m, WireSize(m)).0, q + 1)
  {
    var slot := FindsSlot(x, g, q);
    assert q !in accepted;
    OneMoreWaits(x.ends.job, g.segments, accepted, q, slot, x.ends.job.SegmentOf(q));
  }

  ghost function Held(x: Pair, accepted: set<nat>): (I.Ingress, nat) -> bool {
    (g: I.Ingress, q: nat) => Holding(x, g, accepted, q)
  }

  ghost function Arriving(x: Pair): (I.Ingress, Message) -> I.Ingress {
    (g: I.Ingress, m: Message) => I.Receive(x.store, g, m, WireSize(m)).0
  }

  lemma {:induction false} ArriveIsFold(x: Pair, g: I.Ingress, ms: seq<Message>)
    ensures Arrive(x, g, ms) == FoldAll(Arriving(x), g, ms)
    decreases ms
  {
    if ms != [] { ArriveIsFold(x, I.Receive(x.store, g, ms[0], WireSize(ms[0])).0, ms[1..]); }
  }

  lemma ArriveAll(x: Pair, g: I.Ingress, accepted: set<nat>, q: nat, r: nat)
    requires Fitting(x) && Held(x, accepted)(g, q) && q <= r <= x.ends.job.total && r <= |accepted| + x.ends.receiver.width
    ensures Held(x, accepted)(Arrive(x, g, Script(Segment(x.ends.job), q, r)), r)
  {
    var take, at, line := Arriving(x), Held(x, accepted), Segment(x.ends.job);
    forall v, k: nat | q <= k < r && at(v, k) ensures at(take(v, line(k)), k + 1) { ArrivesOne(x, v, accepted, k); }
    FoldsScript(take, at, line, g, q, r);
    ArriveIsFold(x, g, Script(line, q, r));
  }

  lemma OneFewerWaits(j: S.Job, held: map<nat, Message>, accepted: set<nat>, q: nat, slot: nat)
    requires AllWait(j, held, accepted, q) && slot in held
    ensures held[slot].SegmentMsg? && AllWait(j, held - {slot}, accepted + {held[slot].index as nat}, q)
    ensures |held - {slot}| == |held| - 1
  {
    assert Waits(j, held[slot], accepted, q);
    assert (held - {slot}).Keys == held.Keys - {slot};
    forall k | k in held - {slot} ensures Waits(j, held[k], accepted + {held[slot].index as nat}, q) {
      assert Waits(j, held[k], accepted, q);
    }
  }

  lemma TakesOut(x: Pair, g: I.Ingress, accepted: set<nat>, q: nat) returns (i: u16)
    requires Holding(x, g, accepted, q) && |accepted| < q
    ensures var slot := I.FirstHeld(g, 0);
      && slot in g.segments && i < q && i !in accepted && g.segments[slot] == x.ends.job.SegmentOf(i)
      && Holding(x, g.(segments := g.segments - {slot}), accepted + {i as nat}, q)
  {
    I.HeldIsFound(x.store, g, 0);
    assert g.segments != map[];
    var k :| k in g.segments;
    assert k >= 0;
    var slot := I.FirstHeld(g, 0);
    assert Waits(x.ends.job, g.segments[slot], accepted, q);
    i := g.segments[slot].index;
    OneFewerWaits(x.ends.job, g.segments, accepted, q, slot);
  }

  // The receiver.

  /** Any segment of the grant that is not there yet is stored and acknowledged. */
  lemma StoresAny(x: Setting, r: R.Receiver, i: u16, now: u32)
    requires Workable(x) && r.phase == Active && r.setup == x.job.setup && !R.Expired(x.receiver, r, now)
    requires i < r.GrantedEnd(x.receiver) && i !in r.accepted && i < x.job.total
    ensures var step, more := R.Process(x.receiver, r, x.job.SegmentOf(i), now, WILLING), R.Stored(r.(lastActivity := now), i);
      && step.next == more
      && step.events == [R.Store(x.job.setup.OffsetOf(i), x.job.Payload(i), true)]
                        + Tail(more.phase == Completed, R.AckOf(x.receiver, more))
  {
    var r1 := r.(lastActivity := now);
    S.PayloadFits(x.sender, x.job, i);
    assert R.OnSegment(x.receiver, r, x.job.setup.sessionId, i, x.job.Payload(i), now, WILLING)
        == R.OfferSegment(x.receiver, r1, i, x.job.Payload(i), WILLING);
    OffersThen(x.receiver, r1, i, x.job.Payload(i), R.Stored(r1, i));
  }

  lemma StoredPhase(x: Setting, r: R.Receiver, i: nat)
    requires Workable(x) && R.Sound(x.receiver, r) && r.phase == Active && r.setup == x.job.setup
    requires i < r.GrantedEnd(x.receiver) && i !in r.accepted
    ensures var more := R.Stored(r, i);
      && R.Sound(x.receiver, more) && more == r.(accepted := r.accepted + {i}, phase := more.phase)
      && more.phase == (if |r.accepted| + 1 == x.job.total then Completed else Active)
      && r.Frontier() <= more.Frontier() && r.GrantedEnd(x.receiver) <= more.GrantedEnd(x.receiver)
  {
    R.StoredSound(x.receiver, r, i);
    var all := r.accepted + {i};
    R.FirstMissingIs(all, 0, x.job.total);
    R.FirstMissingIs(r.accepted, 0, x.job.total);
    WholeIff(all, R.FirstMissing(all, 0, x.job.total), x.job.total);
  }

  /** Nothing is missing exactly when there are as many as there can be. */
  lemma WholeIff(all: set<nat>, first: nat, n: nat)
    requires all <= UpTo(n) && first <= n && (forall k: nat | k < first :: k in all) && (first < n ==> first !in all)
    ensures first == n <==> |all| == n
    ensures first <= |all|
  {
    SubsetSize(UpTo(first), all);
    if first < n { SubsetSize(all, UpTo(n) - {first}); }
    SubsetSize(all, UpTo(n));
  }

  lemma FrontierFacts(x: Setting, r: R.Receiver)
    requires Workable(x) && A.Writable(x.receiver, r) && r.setup == x.job.setup
    ensures r.Frontier() <= |r.accepted| <= x.job.total && (r.Frontier() == x.job.total <==> |r.accepted| == x.job.total)
    ensures r.Frontier() <= r.GrantedEnd(x.receiver) == Min(x.job.total, r.Frontier() + x.receiver.width)
    ensures (forall k: nat | k < r.Frontier() :: k in r.accepted) && (r.Frontier() < x.job.total ==> r.Frontier() !in r.accepted)
  {
    R.FirstMissingIs(r.accepted, 0, r.Count());
    WholeIff(r.accepted, r.Frontier(), x.job.total);
    SubsetSize(r.accepted, UpTo(x.job.total));
  }

  // How long a segment can wait: fewer rounds than twice the window is wide.

  /** What can still be accepted before or together with segment i's window. */
  ghost function Ahead(accepted: set<nat>, i: nat, width: nat): nat { |UpTo(i + width) - accepted| }

  /** Segment i went out in round s, early enough for everything ahead of it to be accepted by round s + 2 * width. */
  ghost predicate SentIn(beats: seq<Beat>, at: u32, ahead: nat, width: nat, b: nat, s: nat) {
    s <= b && s < |beats| && at == beats[s].now && b + ahead <= s + 2 * width
  }

  ghost predicate Aged(beats: seq<Beat>, t: S.Track, accepted: set<nat>, width: nat, b: nat, q: nat) {
    forall i: nat | i < q && i !in accepted :: i in t.sent && Age(beats, t.sent[i].at, Ahead(accepted, i, width), width, b)
  }

  ghost function Waited(beats: seq<Beat>, t: S.Track, width: nat, b: nat, q: nat): set<nat> -> bool {
    (accepted: set<nat>) => Aged(beats, t, accepted, width, b, q)
  }

  ghost predicate Age(beats: seq<Beat>, at: u32, ahead: nat, width: nat, b: nat) {
    exists s: nat :: SentIn(beats, at, ahead, width, b, s)
  }

  /** Any two rounds fewer than twice the window apart are within the retransmission timeout. */
  ghost predicate Brisk(timeout: nat, width: nat, beats: seq<Beat>) {
    forall a: nat, b: nat | a <= b < |beats| && b < a + 2 * width :: Since(beats[b].now, beats[a].now) < timeout
  }

  lemma NotYetDue(timeout: nat, beats: seq<Beat>, at: u32, ahead: nat, width: nat, b: nat)
    requires Brisk(timeout, width, beats) && b < |beats| && ahead > 0 && Age(beats, at, ahead, width, b)
    ensures Since(beats[b].now, at) < timeout
  {
    var s: nat :| SentIn(beats, at, ahead, width, b, s);
    assert s <= b && b < s + 2 * width;
    assert at == beats[s].now;
  }

  lemma SelfAhead(accepted: set<nat>, i: nat, width: nat)
    requires i !in accepted && width > 0
    ensures Ahead(accepted, i, width) > 0
  {
    assert i in UpTo(i + width) - accepted;
  }

  lemma AheadFewer(accepted: set<nat>, e: nat, i: nat, width: nat)
    requires e !in accepted && e < i + width
    ensures Ahead(accepted + {e}, i, width) == Ahead(accepted, i, width) - 1
  {
    assert UpTo(i + width) - (accepted + {e}) == (UpTo(i + width) - accepted) - {e};
  }

  lemma AheadBound(accepted: set<nat>, f: nat, i: nat, width: nat)
    requires f <= i && forall k: nat | k < f :: k in accepted
    ensures Ahead(accepted, i, width) <= i + width - f
  {
    var rest := UpTo(i + width) - UpTo(f);
    SubsetSize(UpTo(i + width) - accepted, rest);
    assert UpTo(i + width) == rest + UpTo(f);
  }

  /** One round on, with one fewer ahead, what was sent in time still was. */
  lemma AgeOn(beats: seq<Beat>, at: u32, ahead: nat, width: nat, b: nat)
    requires ahead > 0 && Age(beats, at, ahead, width, b)
    ensures Age(beats, at, ahead - 1, width, b + 1)
  {
    var s: nat :| SentIn(beats, at, ahead, width, b, s);
    AgeSince(beats, at, ahead - 1, width, b + 1, s);
  }

  lemma AgeSince(beats: seq<Beat>, at: u32, ahead: nat, width: nat, b: nat, s: nat)
    requires SentIn(beats, at, ahead, width, b, s)
    ensures Age(beats, at, ahead, width, b)
  {}

  /** And what has just gone out has time enough. */
  lemma AgeNew(beats: seq<Beat>, accepted: set<nat>, width: nat, b: nat, f: nat, i: nat)
    requires b < |beats| && f <= i < f + width && (forall k: nat | k < f :: k in accepted)
    ensures Age(beats, beats[b].now, Ahead(accepted, i, width), width, b)
  {
    AheadBound(accepted, f, i, width);
    AgeSince(beats, beats[b].now, Ahead(accepted, i, width), width, b, b);
  }

  lemma AgesOn(beats: seq<Beat>, t: S.Track, u: S.Track, accepted: set<nat>, width: nat, b: nat, f: nat, q: nat, r: nat, e: nat)
    requires width > 0 && b < |beats| && Aged(beats, t, accepted, width, b, q) && q <= r && r <= f + width
    requires (forall k: nat | k < f :: k in accepted) && e < r && e !in accepted
    requires u.sent.Keys == UpTo(r) && (forall i: nat | i < q :: i in t.sent && u.sent[i] == t.sent[i])
    requires forall i: nat | q <= i < r :: u.sent[i].at == beats[b].now
    ensures Aged(beats, u, accepted + {e}, width, b + 1, r)
  {
    forall i: nat | i < r && i !in accepted + {e}
      ensures Age(beats, u.sent[i].at, Ahead(accepted + {e}, i, width), width, b + 1)
    {
      var at := u.sent[i].at;
      assert Age(beats, at, Ahead(accepted, i, width), width, b) by {
        if i >= q { AgeNew(beats, accepted, width, b, f, i); }
      }
      assert i >= f;
      OneAgesOn(beats, at, accepted, width, b, i, e);
    }
  }

  lemma OneAgesOn(beats: seq<Beat>, at: u32, accepted: set<nat>, width: nat, b: nat, i: nat, e: nat)
    requires width > 0 && Age(beats, at, Ahead(accepted, i, width), width, b)
    requires e !in accepted && i !in accepted && e < i + width
    ensures Age(beats, at, Ahead(accepted + {e}, i, width), width, b + 1)
  {
    SelfAhead(accepted, i, width);
    AheadFewer(accepted, e, i, width);
    AgeOn(beats, at, Ahead(accepted, i, width), width, b);
  }
}
