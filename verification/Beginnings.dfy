/** What starting a transfer commits the transmitter to, in terms of what its caller gave it. */
module Beginnings {
  import opened Integers
  import opened Forwarding
  import opened Protocol
  import opened Exchange
  import R = ReceiverSpec
  import RR = ReceiverRuns
  import S = SenderSpec
  import E = EndToEnd
  import I = ReceiverIngress
  import L = Lockstep
  import P = Pipeline
  import T = Turns
  import W = Window

  /** What a caller gives: the object, and how to announce it. */
  datatype Request = Request(image: seq<byte>, segmentSize: u16, id: u8, isn: u8)

  function Start(c: S.Config, s: S.Sender, q: Request): (S.Sender, S.StartResult) {
    S.Start(c, s, q.image, q.segmentSize, q.id, q.isn)
  }

  predicate Covers(n: nat, size: nat, segmentSize: nat) { n * segmentSize >= size }

  /** n segments cover the object and fewer do not. */
  ghost predicate Fewest(n: nat, size: nat, segmentSize: nat) {
    forall m: nat :: Covers(m, size, segmentSize) <==> m >= n
  }

  /** The job is the request's: its bytes, under its numbers, in the fewest segments of its size. */
  ghost predicate Asked(j: S.Job, q: Request) {
    && j.image == q.image && j.setup.sessionId == q.id && j.setup.initialSequence == q.isn
    && j.setup.segmentSize == q.segmentSize
    && Fewest(j.total, |q.image|, q.segmentSize) && j.setup.finalIndex + 1 == j.total
  }

  lemma FewestIs(n: nat, size: nat, segmentSize: nat)
    requires n > 0 && (n - 1) * segmentSize < size <= n * segmentSize
    ensures Fewest(n, size, segmentSize)
  {
    forall m: nat ensures Covers(m, size, segmentSize) <==> m >= n {
      if m >= n { Monotone(n, m, segmentSize); } else { Monotone(m, n - 1, segmentSize); }
    }
  }

  lemma Monotone(m: nat, n: nat, k: nat)
    requires m <= n
    ensures m * k <= n * k
  {}

  /** The count as it is computed is the fewest, and is past a limit just when the object is. */
  lemma CountIs(size: nat, segmentSize: nat, limit: nat)
    requires size > 0 && segmentSize > 0
    ensures var n := S.SegmentsFor(size, segmentSize);
      n > 0 && Fewest(n, size, segmentSize) && (n > limit <==> size > limit * segmentSize)
  {
    var n := S.SegmentsFor(size, segmentSize);
    S.SegmentsFit(size, segmentSize);
    FewestIs(n, size, segmentSize);
    assert Covers(limit, size, segmentSize) <==> limit >= n;
  }

  /** The object fits in as many segments as a 16-bit index can number. */
  predicate Sendable(q: Request) { 0 < |q.image| <= 0x1_0000 * q.segmentSize }

  /** A SETUP is ten bytes, and a segment goes behind four. */
  predicate PacketHolds(c: S.Config, q: Request) {
    c.capacity >= 10 && c.capacity >= 4 + q.segmentSize
  }

  /** When each answer is given. */
  lemma AnswerIs(c: S.Config, s: S.Sender, q: Request)
    ensures Start(c, s, q).1 ==
      if s.Open() then S.Busy
      else if !Sendable(q) then S.BadArgument
      else if !PacketHolds(c, q) then S.PacketTooSmall
      else S.Started
    ensures Start(c, s, q).1 != S.Started ==> Start(c, s, q).0 == s
  {
    if 0 < |q.image| && q.segmentSize > 0 {
      CountIs(|q.image|, q.segmentSize, MAXIMUM_SEGMENT_COUNT);
    }
  }

  /** What a start leads to: nothing sent, counted, granted or reported yet, and the job asked for. */
  lemma StartedIs(c: S.Config, s: S.Sender, q: Request)
    requires Start(c, s, q).1 == S.Started
    ensures var next := Start(c, s, q).0;
      && next == S.Sender(Starting, next.job, S.Track(0, 0, map[], {}), S.Timers(false, 0, 0, false, 0, 0))
      && Asked(next.job, q) && next.job.Framed(c)
  {
    CountIs(|q.image|, q.segmentSize, MAXIMUM_SEGMENT_COUNT);
    S.SegmentsFit(|q.image|, q.segmentSize);
    var setup := Start(c, s, q).0.job.setup;
    setup.OffsetIs(setup.finalIndex);
  }

  // What is then sent.

  /** A piece of the object as a SEGMENT, the last one cut short. */
  function Piece(q: Request): nat -> Message {
    (i: nat) =>
      if i * q.segmentSize < |q.image| && i < 0x1_0000 then
        SegmentMsg(q.id, i, q.image[i * q.segmentSize..Min((i + 1) * q.segmentSize, |q.image|)])
      else BadControl
  }

  /** Where the i-th of the fewest pieces starts and ends. */
  lemma PieceEnds(n: nat, size: nat, segmentSize: nat, i: nat) returns (from: nat, to: nat)
    requires Fewest(n, size, segmentSize) && i < n
    ensures from == i * segmentSize < size && to == Min((i + 1) * segmentSize, size)
    ensures from <= to && to - from == if i == n - 1 then size - (n - 1) * segmentSize else segmentSize
  {
    from, to := i * segmentSize, Min((i + 1) * segmentSize, size);
    assert Covers(i, size, segmentSize) <==> i >= n;
    assert Covers(i + 1, size, segmentSize) <==> i + 1 >= n;
    assert (i + 1) * segmentSize == i * segmentSize + segmentSize;
  }

  lemma SizeIs(c: S.Config, j: S.Job, q: Request, i: nat)
    requires Asked(j, q) && j.Framed(c)
    ensures j.setup.OffsetOf(i) == i * q.segmentSize
    ensures j.setup.SizeOf(i) == if i == j.total - 1 then |q.image| - (j.total - 1) * q.segmentSize else q.segmentSize
  {
    j.setup.OffsetIs(i);
    j.setup.OffsetIs(j.setup.finalIndex);
  }

  lemma PayloadIs(j: S.Job, i: nat, from: nat, to: nat)
    requires j.setup.OffsetOf(i) == from <= to <= |j.image| && j.setup.SizeOf(i) == to - from
    ensures j.Payload(i) == j.image[from..to]
  {}

  lemma PieceIs(q: Request, i: nat, from: nat, to: nat)
    requires i < 0x1_0000 && from == i * q.segmentSize < |q.image| && to == Min((i + 1) * q.segmentSize, |q.image|) >= from
    ensures Piece(q)(i) == SegmentMsg(q.id, i, q.image[from..to])
  {}

  lemma SegmentIs(c: S.Config, j: S.Job, q: Request, i: nat)
    requires Asked(j, q) && j.Framed(c) && i < j.total
    ensures L.Segment(j)(i) == Piece(q)(i)
  {
    var from, to := PieceEnds(j.total, |q.image|, q.segmentSize, i);
    SizeIs(c, j, q, i);
    PayloadIs(j, i, from, to);
    PieceIs(q, i, from, to);
  }

  lemma {:induction false} SameScript<M>(f: nat -> M, g: nat -> M, from: nat, to: nat)
    requires from <= to && forall i: nat | from <= i < to :: f(i) == g(i)
    ensures T.Script(f, from, to) == T.Script(g, from, to)
    decreases if from < to then to - from else 0
  {
    if from < to { SameScript(f, g, from + 1, to); }
  }

  /** The SETUP a request is announced with. */
  predicate Announces(setup: Setup, q: Request) {
    && setup.sessionId == q.id && setup.initialSequence == q.isn && setup.segmentSize == q.segmentSize
    && (setup.finalIndex + 1) * q.segmentSize >= |q.image| == setup.finalIndex * q.segmentSize + setup.finalSize
    && setup.finalSize > 0
  }

  lemma AskedAnnounces(c: S.Config, j: S.Job, q: Request)
    requires Asked(j, q) && j.Framed(c)
    ensures Announces(j.setup, q)
  {
    j.setup.OffsetIs(j.setup.finalIndex);
    assert Covers(j.total, |q.image|, q.segmentSize);
  }

  // The theorems about whole transfers, from the call that starts them.

  /** A started transmitter, and a world nothing of its session has reached, make a fresh start. */
  lemma StartsFresh(x: Setting, s: S.Sender, q: Request, w: E.World)
    requires S.Sound(x.sender, s) && Start(x.sender, s, q) == (w.sender, S.Started) && x.job == w.sender.job
    requires E.Untouched(x, w)
    ensures E.Fresh(x, w)
  {
    S.StartSound(x.sender, s, q.image, q.segmentSize, q.id, q.isn);
  }

  /** There always is one: a receiver that has done nothing, and nothing on the wire. */
  lemma CanStart(x: Setting, s: S.Sender, q: Request)
    requires S.Sound(x.sender, s) && Start(x.sender, s, q).1 == S.Started
    requires x.job == Start(x.sender, s, q).0.job && x.receiver.width <= WINDOW
    ensures E.Fresh(x, E.World(Start(x.sender, s, q).0, R.IDLE, [], {}, {}))
  {
    S.StartSound(x.sender, s, q.image, q.segmentSize, q.id, q.isn);
    assert RR.Files(R.IDLE.setup, [], []) && RR.Lists([], R.IDLE.accepted);
  }

  /** A transmitter that was started with an object and completes has had that object stored, byte for byte. */
  lemma GivenIsDelivered(x: Setting, s: S.Sender, q: Request, run: seq<E.World>, moves: seq<E.Move>)
    requires |run| == |moves| + 1 && E.Untouched(x, run[0])
    requires S.Sound(x.sender, s) && Start(x.sender, s, q) == (run[0].sender, S.Started) && x.job == run[0].sender.job
    requires forall k | 0 <= k < |moves| :: E.Enabled(x, run[k], moves[k]) && run[k + 1] == E.After(x, run[k], moves[k])
    requires run[|run| - 1].sender.phase == Completed
    ensures exists p | p in run[|run| - 1].wire ::
      && E.Confirms(x, p) && Announces(p.origin.stamp.setup, q)
      && E.Memory(p.origin.stamp.sink).Keys == UpTo(|q.image|)
      && forall k | k in E.Memory(p.origin.stamp.sink) :: E.Memory(p.origin.stamp.sink)[k] == q.image[k]
  {
    StartedIs(x.sender, s, q);
    AskedAnnounces(x.sender, x.job, q);
    StartsFresh(x, s, q, run[0]);
    E.CompleteMeansDelivered(x, run, moves);
  }

  /** The receiver was built with slots for segments of this size. */
  ghost predicate Accommodates(x: L.Pair, q: Request) {
    && I.Configures(x.store, x.ends.receiver.timeout, x.ends.receiver) && x.store.datagram >= SETUP_SIZE
    && q.segmentSize <= x.ends.receiver.maximumSegmentSize && x.ends.receiver.width > 0
  }

  lemma StartsReady(x: L.Pair, s: S.Sender, q: Request, w: L.World)
    requires S.Sound(x.ends.sender, s) && Start(x.ends.sender, s, q) == (w.sender, S.Started) && x.ends.job == w.sender.job
    requires Accommodates(x, q) && w.inbox.None? && w.ingress == I.EMPTY
    requires R.Sound(x.ends.receiver, w.receiver) && w.receiver.phase != Active
    ensures L.Fitting(x) && L.Ready(x, w)
  {
    StartedIs(x.ends.sender, s, q);
    S.StartSound(x.ends.sender, s, q.image, q.segmentSize, q.id, q.isn);
    AnswerIs(x.ends.sender, s, q);
  }

  /**
   * Started towards such a receiver over Links that lose nothing, the object is across after two rounds
   * more than it has segments: its SETUP was sent, then each piece of it once, in order.
   */
  lemma GivenGoesAcross(x: L.Pair, s: S.Sender, q: Request, w: L.World, beats: seq<W.Beat>)
    requires S.Sound(x.ends.sender, s) && Start(x.ends.sender, s, q) == (w.sender, S.Started) && x.ends.job == w.sender.job
    requires Accommodates(x, q) && w.inbox.None? && w.ingress == I.EMPTY
    requires R.Sound(x.ends.receiver, w.receiver) && w.receiver.phase != Active
    requires |beats| == x.ends.job.total + 2 && P.Timely(x, beats)
    ensures var all := T.PlayAll(P.Beater(x), w, beats);
      && P.Delivered(x, all.last)
      && Fewest(x.ends.job.total, |q.image|, q.segmentSize) && Announces(x.ends.job.setup, q)
      && all.sent == [SetupMsg(x.ends.job.setup)] + T.Script(Piece(q), 0, x.ends.job.total)
  {
    StartedIs(x.ends.sender, s, q);
    AskedAnnounces(x.ends.sender, x.ends.job, q);
    StartsReady(x, s, q, w);
    P.WindowDelivers(x, w, beats);
    forall i: nat | i < x.ends.job.total ensures L.Segment(x.ends.job)(i) == Piece(q)(i) {
      SegmentIs(x.ends.sender, x.ends.job, q, i);
    }
    SameScript(L.Segment(x.ends.job), Piece(q), 0, x.ends.job.total);
  }
}
