/**
 * One transfer over a network that loses, duplicates and reorders: everything ever handed to a Link
 * stays on the wire, and any of it may arrive at any time, any number of times, or never.
 */
module EndToEnd {
  import opened Integers
  import opened Forwarding
  import opened Protocol
  import opened Exchange
  import R = ReceiverSpec
  import RR = ReceiverRuns
  import S = SenderSpec
  import A = AckArithmetic
  import B = Bitmap16

  /** A receiver when it spoke: what it had accepted of which transfer, and what its sink held. */
  datatype Stamp = Stamp(setup: Setup, accepted: set<nat>, sink: seq<RR.Write>)
  datatype Origin = Transmitter | ReceiverAt(stamp: Stamp) | Elsewhere
  datatype Packet = Packet(message: Message, origin: Origin)

  /** stored: the segments of this session a sink has ever taken. */
  datatype World = World(
    sender: S.Sender, receiver: R.Receiver, sink: seq<RR.Write>, wire: set<Packet>, stored: set<nat>)

  datatype Move =
    | SenderTurn(inbox: Option<Packet>, now: u32, route: RouteResult)
    | SenderAbort(route: RouteResult)
    | ReceiverTurn(call: R.Call)
    | Intrude(message: Message)

  /** Traffic that is not this session's data: other sessions, sideband, noise, and any refusal or abort. */
  predicate Stranger(m: Message, id: u8) {
    match m
    case SetupMsg(setup) => setup.sessionId != id
    case SegmentMsg(sid, _, _) => sid != id
    case AckMsg(sid, _, _, _) => sid != id
    case _ => true
  }

  /** What a transmitter puts on the wire: admitted whole or in part. */
  ghost function Emitted(events: seq<S.Event>): set<Packet> {
    set e | e in events && e.Pdu? && (e.result == Sent || e.result == Partial) :: Packet(e.message, Transmitter)
  }

  ghost function Answered(events: seq<R.Event>, stamp: Stamp): set<Packet> {
    set e | e in events && e.Pdu? :: Packet(e.message, ReceiverAt(stamp))
  }

  ghost predicate Enabled(x: Setting, w: World, m: Move) {
    match m
    case SenderTurn(inbox, _, _) => S.Sound(x.sender, w.sender) && (inbox.Some? ==> inbox.value in w.wire)
    case SenderAbort(_) => true
    case ReceiverTurn(call) => call.Deliver? ==> exists p :: p in w.wire && p.message == call.m
    case Intrude(message) => Stranger(message, x.Id())
  }

  ghost function After(x: Setting, w: World, m: Move): World
    requires Enabled(x, w, m)
  {
    match m
    case SenderTurn(inbox, now, route) =>
      var step := S.Process(x.sender, w.sender, if inbox.None? then None else Some(inbox.value.message), now, route);
      w.(sender := step.next, wire := w.wire + Emitted(step.events))
    case SenderAbort(route) =>
      var (next, events, result) := S.AbortLocally(x.sender, w.sender, route);
      w.(sender := next, wire := w.wire + Emitted(events))
    case ReceiverTurn(call) =>
      var step := R.Apply(x.receiver, w.receiver, call);
      var sink := RR.Sink(w.sink, step.events);
      w.(receiver := step.next, sink := sink,
         wire := w.wire + Answered(step.events, Stamp(step.next.setup, step.next.accepted, sink)),
         stored := w.stored + (if Ours(x, w.receiver) then step.next.accepted else {}))
    case Intrude(message) => w.(wire := w.wire + {Packet(message, Elsewhere)})
  }

  /** The receiver is in a transfer of this session. */
  predicate Ours(x: Setting, r: R.Receiver) { r.Open() && r.setup.sessionId == x.Id() }

  /** A transfer just started; whatever came before was not of this session. */
  ghost predicate Fresh(x: Setting, w: World) {
    && w.sender == S.Sender(Starting, x.job, S.NO_TRACK, S.NO_TIMERS)
    && S.Sound(x.sender, w.sender)
    && Untouched(x, w)
  }

  /** No receiver or packet has anything of this session yet. */
  ghost predicate Untouched(x: Setting, w: World) {
    && x.receiver.width <= WINDOW && R.Sound(x.receiver, w.receiver) && RR.Filed(w.receiver, w.sink)
    && !Ours(x, w.receiver)
    && (forall p | p in w.wire :: Stranger(p.message, x.Id()))
    && w.stored == {}
  }

  ghost predicate IsRun(x: Setting, run: seq<World>, moves: seq<Move>) {
    && |run| == |moves| + 1 && Fresh(x, run[0])
    && forall k | 0 <= k < |moves| :: Enabled(x, run[k], moves[k]) && run[k + 1] == After(x, run[k], moves[k])
  }

  /** Every write is the piece of the object that belongs at its offset. */
  ghost predicate Faithful(sink: seq<RR.Write>, image: seq<byte>) {
    forall k | 0 <= k < |sink| ::
      && sink[k].offset + |sink[k].bytes| <= |image|
      && sink[k].bytes == image[sink[k].offset..sink[k].offset + |sink[k].bytes|]
  }

  /** The stamp is of this session's transfer, and its sink holds its accepted segments, each once, as in the object. */
  ghost predicate Honest(x: Setting, stamp: Stamp) {
    && stamp.setup == x.job.setup
    && A.Writable(x.receiver, Spoke(stamp))
    && RR.Filed(Spoke(stamp), stamp.sink) && Faithful(stamp.sink, x.job.image)
  }

  function Spoke(stamp: Stamp): R.Receiver { R.Receiver(Active, stamp.setup, stamp.accepted, 0) }

  ghost predicate WireInvariant(x: Setting, w: World, p: Packet) {
    match p.message
    case SetupMsg(setup) => setup.sessionId == x.Id() ==> setup == x.job.setup
    case SegmentMsg(id, index, payload) =>
      id == x.Id() ==>
        index < x.job.total && payload == x.job.Payload(index) && (w.sender.Open() ==> index in w.sender.track.sent)
    case AckMsg(id, _, _, _) =>
      id == x.Id() ==>
        && p.origin.ReceiverAt? && Honest(x, p.origin.stamp)
        && p.message == R.AckOf(x.receiver, Spoke(p.origin.stamp))
        && p.origin.stamp.accepted <= w.stored
        && (w.sender.Open() ==> forall i | i in p.origin.stamp.accepted :: i in w.sender.track.sent)
    case _ => true
  }

  ghost predicate Invariant(x: Setting, w: World) {
    && S.Sound(x.sender, w.sender) && w.sender.job == x.job && x.job.total > 0
    && x.receiver.width <= WINDOW && R.Sound(x.receiver, w.receiver) && RR.Filed(w.receiver, w.sink)
    && (Ours(x, w.receiver) ==>
          && w.receiver.setup == x.job.setup && Faithful(w.sink, x.job.image)
          && w.receiver.accepted <= w.stored
          && (w.sender.Open() ==> forall i | i in w.receiver.accepted :: i in w.sender.track.sent))
    && (forall p | p in w.wire :: WireInvariant(x, w, p))
    && (w.sender.phase == Completed ==> exists p :: p in w.wire && Confirms(x, p))
  }

  /** An acknowledgement written when the whole object was in the sink. */
  ghost predicate Confirms(x: Setting, p: Packet) {
    && p.message.AckMsg? && p.message.sessionId == x.Id()
    && p.origin.ReceiverAt? && Honest(x, p.origin.stamp)
    && p.origin.stamp.accepted == UpTo(x.job.total)
  }

  lemma FreshInvariant(x: Setting, w: World)
    requires Fresh(x, w)
    ensures Invariant(x, w)
  {}

  // Preservation, one kind of move at a time.

  /** The wire keeps its promises when the transmitter only adds to what it sent. */
  lemma WireKept(x: Setting, w: World, v: World)
    requires forall p | p in w.wire :: WireInvariant(x, w, p)
    requires v.sender.Open() ==> w.sender.Open() && forall i: nat | i in w.sender.track.sent :: i in v.sender.track.sent
    requires w.stored <= v.stored
    ensures forall p | p in w.wire :: WireInvariant(x, v, p)
  {
    forall p | p in w.wire ensures WireInvariant(x, v, p) { assert WireInvariant(x, w, p); }
  }

  /** Completion comes from an acknowledgement with nothing left to grant, so its writer had everything. */
  lemma CompletionConfirmed(x: Setting, w: World, p: Packet)
    requires Invariant(x, w) && p in w.wire && w.sender.phase != Completed
    requires S.OnMessage(w.sender, p.message).Handled? && S.OnMessage(w.sender, p.message).next.phase == Completed
    ensures Confirms(x, p)
  {
    assert WireInvariant(x, w, p);
    var stamp := p.origin.stamp;
    A.SpanIs(x.receiver, Spoke(stamp));
  }

  lemma SenderMoves(x: Setting, w: World, inbox: Option<Packet>, now: u32, route: RouteResult)
    requires Invariant(x, w) && Enabled(x, w, SenderTurn(inbox, now, route))
    ensures Invariant(x, After(x, w, SenderTurn(inbox, now, route)))
  {
    var v := After(x, w, SenderTurn(inbox, now, route));
    var message := if inbox.None? then None else Some(inbox.value.message);
    var step := S.Process(x.sender, w.sender, message, now, route);
    S.ProcessEmits(x.sender, w.sender, message, now, route);
    WireKept(x, w, v);
    forall p | p in Emitted(step.events) ensures WireInvariant(x, v, p) {
      var e :| e in step.events && e.Pdu? && (e.result == Sent || e.result == Partial) && p == Packet(e.message, Transmitter);
      assert S.Speaks(x.job, v.sender.track, e.message, e.result);
    }
    if v.sender.phase == Completed && w.sender.phase != Completed {
      CompletedByAck(x, w, message, now, route);
      CompletionConfirmed(x, w, inbox.value);
    }
    if w.sender.phase == Completed {
      var p :| p in w.wire && Confirms(x, p);
      assert p in v.wire;
    }
  }

  /** A call completes the transfer only through the message it received. */
  lemma CompletedByAck(x: Setting, w: World, message: Option<Message>, now: u32, route: RouteResult)
    requires S.Sound(x.sender, w.sender) && w.sender.phase != Completed
    requires S.Process(x.sender, w.sender, message, now, route).next.phase == Completed
    ensures message.Some? && S.OnMessage(w.sender, message.value).Handled?
    ensures S.OnMessage(w.sender, message.value).next.phase == Completed
  {
    if message.None? {
      S.ActEmits(x.sender, w.sender, now, route, IsIdle);
    } else {
      S.MessageSound(x.sender, w.sender, message.value);
      match S.OnMessage(w.sender, message.value)
      case Unhandled =>
      case Handled(next, events) => S.ActEmits(x.sender, next, now, route, Progress);
    }
  }

  lemma SenderAborts(x: Setting, w: World, route: RouteResult)
    requires Invariant(x, w)
    ensures Invariant(x, After(x, w, SenderAbort(route)))
  {
    var v := After(x, w, SenderAbort(route));
    WireKept(x, w, v);
    if w.sender.phase == Completed {
      var p :| p in w.wire && Confirms(x, p);
      assert p in v.wire;
    }
  }

  lemma Intrudes(x: Setting, w: World, m: Message)
    requires Invariant(x, w) && Stranger(m, x.Id())
    ensures Invariant(x, After(x, w, Intrude(m)))
  {
    var v := After(x, w, Intrude(m));
    WireKept(x, w, v);
    if w.sender.phase == Completed {
      var p :| p in w.wire && Confirms(x, p);
      assert p in v.wire;
    }
  }

  /** What the receiver's state and sink promise while they are this session's. */
  ghost predicate Loyal(x: Setting, w: World, r: R.Receiver, sink: seq<RR.Write>, stored: set<nat>) {
    && r.setup == x.job.setup && Faithful(sink, x.job.image) && r.accepted <= stored
    && (w.sender.Open() ==> forall i | i in r.accepted :: i in w.sender.track.sent)
  }

  lemma StoreKeepsFaith(x: Setting, w: World, call: R.Call, i: nat)
    requires Invariant(x, w) && Enabled(x, w, ReceiverTurn(call)) && Ours(x, w.receiver)
    requires RR.Takes(x.receiver, w.receiver, call, i)
    ensures var v := After(x, w, ReceiverTurn(call)); Loyal(x, w, v.receiver, v.sink, v.stored)
  {
    var v := After(x, w, ReceiverTurn(call));
    RR.CallEffect(x.receiver, w.receiver, call, w.sink);
    var p :| p in w.wire && p.message == call.m;
    assert WireInvariant(x, w, p);
    S.PayloadFits(x.sender, x.job, i);
    FaithfulMore(w.sink, x.job.image, RR.Write(x.job.setup.OffsetOf(i), call.m.payload));
  }

  lemma FaithfulMore(sink: seq<RR.Write>, image: seq<byte>, write: RR.Write)
    requires Faithful(sink, image) && write.offset + |write.bytes| <= |image|
    requires write.bytes == image[write.offset..write.offset + |write.bytes|]
    ensures Faithful(sink + [write], image)
  {}

  lemma ReceiverKeepsFaith(x: Setting, w: World, call: R.Call)
    requires Invariant(x, w) && Enabled(x, w, ReceiverTurn(call))
    requires Ours(x, w.receiver) || RR.Begins(x.receiver, w.receiver, call)
    requires R.Apply(x.receiver, w.receiver, call).next.setup.sessionId == x.Id()
    ensures var v := After(x, w, ReceiverTurn(call)); Loyal(x, w, v.receiver, v.sink, v.stored)
  {
    var v := After(x, w, ReceiverTurn(call));
    RR.CallEffect(x.receiver, w.receiver, call, w.sink);
    if RR.Begins(x.receiver, w.receiver, call) {
      var p :| p in w.wire && p.message == call.m;
      assert WireInvariant(x, w, p);
    } else if i: nat :| RR.Takes(x.receiver, w.receiver, call, i) {
      StoreKeepsFaith(x, w, call, i);
    }
  }

  lemma ReceiverMoves(x: Setting, w: World, call: R.Call)
    requires Invariant(x, w) && Enabled(x, w, ReceiverTurn(call))
    ensures Invariant(x, After(x, w, ReceiverTurn(call)))
  {
    var v := After(x, w, ReceiverTurn(call));
    var step := R.Apply(x.receiver, w.receiver, call);
    var stamp := Stamp(step.next.setup, step.next.accepted, v.sink);
    RR.AckOfNext(x.receiver, w.receiver, call);
    RR.CallEffect(x.receiver, w.receiver, call, w.sink);
    RR.FiledStep(x.receiver, w.receiver, call, w.sink);
    if Ours(x, v.receiver) { ReceiverKeepsFaith(x, w, call); }
    WireKept(x, w, v);
    forall p | p in Answered(step.events, stamp) ensures WireInvariant(x, v, p) {
      var e :| e in step.events && e.Pdu? && p == Packet(e.message, ReceiverAt(stamp));
      ReceiverSpeaks(x, w, call, e);
    }
    if w.sender.phase == Completed {
      var p :| p in w.wire && Confirms(x, p);
      assert p in v.wire;
    }
  }

  lemma ReceiverSpeaks(x: Setting, w: World, call: R.Call, e: R.Event)
    requires Invariant(x, w) && Enabled(x, w, ReceiverTurn(call))
    requires e in R.Apply(x.receiver, w.receiver, call).events && e.Pdu?
    ensures var v := After(x, w, ReceiverTurn(call));
      WireInvariant(x, v, Packet(e.message, ReceiverAt(Stamp(v.receiver.setup, v.receiver.accepted, v.sink))))
  {
    var v := After(x, w, ReceiverTurn(call));
    var step := R.Apply(x.receiver, w.receiver, call);
    RR.AckOfNext(x.receiver, w.receiver, call);
    if e.message.AckMsg? && e.message.sessionId == x.Id() {
      StillOurs(x, w, call);
      ReceiverKeepsFaith(x, w, call);
      RR.FiledStep(x.receiver, w.receiver, call, w.sink);
      HonestStamp(x, v, w);
    }
  }

  /** An open transfer whose state now carries this session's id was this session's before, or begins now. */
  lemma StillOurs(x: Setting, w: World, call: R.Call)
    requires x.receiver.width <= WINDOW && R.Sound(x.receiver, w.receiver)
    requires w.receiver.Open() || RR.Begins(x.receiver, w.receiver, call)
    requires R.Apply(x.receiver, w.receiver, call).next.setup.sessionId == x.Id()
    ensures Ours(x, w.receiver) || RR.Begins(x.receiver, w.receiver, call)
  {
    RR.CallEffect(x.receiver, w.receiver, call, w.sink);
  }

  lemma HonestStamp(x: Setting, v: World, w: World)
    requires R.Sound(x.receiver, v.receiver) && v.receiver.phase != Idle && RR.Filed(v.receiver, v.sink)
    requires Loyal(x, w, v.receiver, v.sink, v.stored)
    ensures var stamp := Stamp(v.receiver.setup, v.receiver.accepted, v.sink);
      Honest(x, stamp) && R.AckOf(x.receiver, Spoke(stamp)) == R.AckOf(x.receiver, v.receiver)
  {
    SameReading(x.receiver, v.receiver);
    SameFiling(v.receiver, v.sink);
  }

  /** The phase and the time of last activity show neither in the acknowledgement nor in the grant. */
  lemma SameReading(c: R.Config, r: R.Receiver)
    ensures var s := R.Receiver(Active, r.setup, r.accepted, 0);
      R.AckOf(c, s) == R.AckOf(c, r) && s.GrantedEnd(c) == r.GrantedEnd(c)
  {}

  lemma SameFiling(r: R.Receiver, sink: seq<RR.Write>)
    requires RR.Filed(r, sink)
    ensures RR.Filed(R.Receiver(Active, r.setup, r.accepted, 0), sink)
  {
    var order: seq<nat> :| RR.Lists(order, r.accepted) && RR.Files(r.setup, order, sink);
  }

  lemma MoveKeeps(x: Setting, w: World, m: Move)
    requires Invariant(x, w) && Enabled(x, w, m)
    ensures Invariant(x, After(x, w, m))
  {
    match m
    case SenderTurn(inbox, now, route) => SenderMoves(x, w, inbox, now, route);
    case SenderAbort(route) => SenderAborts(x, w, route);
    case ReceiverTurn(call) => ReceiverMoves(x, w, call);
    case Intrude(message) => Intrudes(x, w, message);
  }

  lemma {:induction false} RunInvariant(x: Setting, run: seq<World>, moves: seq<Move>, k: nat)
    requires IsRun(x, run, moves) && k < |run|
    ensures Invariant(x, run[k])
    decreases k
  {
    if k == 0 {
      FreshInvariant(x, run[0]);
    } else {
      RunInvariant(x, run, moves, k - 1);
      MoveKeeps(x, run[k - 1], moves[k - 1]);
    }
  }

  // What a completed transfer means.

  /** The bytes a sink would read back, later writes over earlier ones. */
  ghost function Memory(sink: seq<RR.Write>): map<nat, byte> {
    if sink == [] then map[]
    else
      var last := sink[|sink| - 1];
      Memory(sink[..|sink| - 1]) + Block(last.offset, last.bytes)
  }

  ghost function Block(offset: nat, bytes: seq<byte>): map<nat, byte> {
    var places := UpTo(offset + |bytes|);
    map k | k in places && offset <= k :: bytes[k - offset]
  }

  lemma {:induction false} FaithfulMemory(sink: seq<RR.Write>, image: seq<byte>)
    requires Faithful(sink, image)
    ensures forall k | k in Memory(sink) :: k < |image| && Memory(sink)[k] == image[k]
    decreases sink
  {
    if sink != [] { FaithfulMemory(sink[..|sink| - 1], image); }
  }

  lemma {:induction false} Remembers(sink: seq<RR.Write>, j: nat, k: nat)
    requires j < |sink| && sink[j].offset <= k < sink[j].offset + |sink[j].bytes|
    ensures k in Memory(sink)
    decreases sink
  {
    if j < |sink| - 1 { Remembers(sink[..|sink| - 1], j, k); }
  }

  /** Every byte before the end of segment n belongs to one of the segments up to n. */
  lemma {:induction false} SegmentAt(setup: Setup, n: nat, k: nat) returns (i: nat)
    requires n <= setup.finalIndex && k < setup.OffsetOf(n) + setup.SizeOf(n)
    ensures i <= n && setup.OffsetOf(i) <= k < setup.OffsetOf(i) + setup.SizeOf(i)
    decreases n
  {
    if k >= setup.OffsetOf(n) {
      i := n;
    } else {
      i := SegmentAt(setup, n - 1, k);
    }
  }

  lemma WholeMemory(x: Setting, stamp: Stamp)
    requires x.job.Framed(x.sender) && Honest(x, stamp) && stamp.accepted == UpTo(x.job.total)
    ensures Memory(stamp.sink).Keys == UpTo(|x.job.image|)
    ensures forall k | k in Memory(stamp.sink) :: Memory(stamp.sink)[k] == x.job.image[k]
    ensures |stamp.sink| == x.job.total
  {
    FaithfulMemory(stamp.sink, x.job.image);
    var order: seq<nat> :| RR.Lists(order, stamp.accepted) && RR.Files(stamp.setup, order, stamp.sink);
    ListsLength(order, stamp.accepted);
    forall k: nat | k < |x.job.image| ensures k in Memory(stamp.sink) { ByteHeld(x, stamp, order, k); }
  }

  lemma ByteHeld(x: Setting, stamp: Stamp, order: seq<nat>, k: nat)
    requires x.job.Framed(x.sender) && stamp.setup == x.job.setup && stamp.accepted == UpTo(x.job.total)
    requires RR.Lists(order, stamp.accepted) && RR.Files(stamp.setup, order, stamp.sink) && k < |x.job.image|
    ensures k in Memory(stamp.sink)
  {
    var i := SegmentAt(x.job.setup, x.job.setup.finalIndex, k);
    assert i in stamp.accepted;
    var j :| 0 <= j < |order| && order[j] == i;
    Remembers(stamp.sink, j, k);
  }

  lemma {:induction false} ListsLength(order: seq<nat>, s: set<nat>)
    requires RR.Lists(order, s)
    ensures |order| == |s|
    decreases order
  {
    if order == [] {
      assert s == {};
    } else {
      var n := |order| - 1;
      var rest := s - {order[n]};
      forall i: nat ensures i in rest <==> i in order[..n] {
        if i in order[..n] { assert i in order; }
      }
      ListsLength(order[..n], rest);
    }
  }

  /**
   * End-to-end safety, for objects of any size the transmitter accepts: if the transmitter ends up
   * completed, it did so on an acknowledgement its peer wrote when the sink had taken every segment
   * of this transfer exactly once, and what the sink held then is the object, byte for byte.
   */
  lemma CompleteMeansDelivered(x: Setting, run: seq<World>, moves: seq<Move>)
    requires IsRun(x, run, moves) && run[|run| - 1].sender.phase == Completed
    ensures exists p | p in run[|run| - 1].wire ::
      && Confirms(x, p)
      && |p.origin.stamp.sink| == x.job.total
      && Memory(p.origin.stamp.sink).Keys == UpTo(|x.job.image|)
      && forall k | k in Memory(p.origin.stamp.sink) :: Memory(p.origin.stamp.sink)[k] == x.job.image[k]
  {
    RunInvariant(x, run, moves, |run| - 1);
    var p :| p in run[|run| - 1].wire && Confirms(x, p);
    WholeMemory(x, p.origin.stamp);
  }

  /** At every point of every run, a sink of this session holds only right bytes in right places. */
  lemma SinkNeverWrong(x: Setting, run: seq<World>, moves: seq<Move>, k: nat)
    requires IsRun(x, run, moves) && k < |run| && Ours(x, run[k].receiver)
    ensures RR.Filed(run[k].receiver, run[k].sink)
    ensures forall b | b in Memory(run[k].sink) :: b < |x.job.image| && Memory(run[k].sink)[b] == x.job.image[b]
  {
    RunInvariant(x, run, moves, k);
    FaithfulMemory(run[k].sink, x.job.image);
  }

  // Short objects: progress is never imagined either.

  /** Everything counted or reported is among the stored. */
  ghost predicate Real(t: S.Track, stored: set<nat>) {
    && (forall i: nat | i < t.counted :: i in stored)
    && (forall i: nat | i in t.reported :: i in stored)
  }

  /** Everything counted or reported was stored by a sink of this session. */
  ghost predicate Grounded(w: World) { Real(w.sender.track, w.stored) }

  /** Reading an acknowledgement of a short object adds nothing that its writer had not accepted. */
  lemma ReadingIsReal(c: R.Config, r: R.Receiver, j: S.Job, t: S.Track, stored: set<nat>)
    requires A.Possible(c, r, j, t) && j.total < 256 + c.width
    requires Real(t, stored) && r.accepted <= stored && A.Reading(c, r, j, t).Read?
    ensures var reading := A.Reading(c, r, j, t);
      Real(S.TakeAck(t, R.AckOf(c, r).bitmap, reading.advance, reading.span), stored)
  {
    A.ShortNeverMisread(c, r, j, t);
    A.BitsAre(c, r);
    R.FirstMissingIs(r.accepted, 0, r.Count());
  }

  /** Only an acknowledgement of this session changes what is counted or reported. */
  lemma MessageGrounded(x: Setting, w: World, m: Message)
    requires S.OnMessage(w.sender, m).Handled? && Grounded(w)
    requires m.AckMsg? && w.sender.Open() && m.sessionId == w.sender.job.setup.sessionId && w.sender.timers.setupSent ==>
      var reading := S.ReadAck(w.sender.job, w.sender.track, m.bitmap, m.maxSequence, m.base);
      reading.Read? ==> Real(S.TakeAck(w.sender.track, m.bitmap, reading.advance, reading.span), w.stored)
    ensures Real(S.OnMessage(w.sender, m).next.track, w.stored)
  {}

  lemma AckGrounded(x: Setting, w: World, p: Packet)
    requires Invariant(x, w) && Grounded(w) && p in w.wire
    requires x.job.total < 256 + x.receiver.width
    requires S.OnMessage(w.sender, p.message).Handled?
    ensures Real(S.OnMessage(w.sender, p.message).next.track, w.stored)
  {
    if p.message.AckMsg? && w.sender.Open() && p.message.sessionId == x.Id() && w.sender.timers.setupSent {
      assert WireInvariant(x, w, p);
      var r, t := Spoke(p.origin.stamp), w.sender.track;
      NotAhead(x, w, r, t);
      if A.Reading(x.receiver, r, x.job, t).Read? { ReadingIsReal(x.receiver, r, x.job, t, w.stored); }
    }
    MessageGrounded(x, w, p.message);
  }

  lemma NotAhead(x: Setting, w: World, r: R.Receiver, t: S.Track)
    requires A.Writable(x.receiver, r) && t.Ordered() && forall i | i in r.accepted :: i in t.sent
    ensures r.Frontier() <= t.granted
  {
    R.FirstMissingIs(r.accepted, 0, r.Count());
    assert t.granted !in r.accepted;
  }

  lemma MoveGrounded(x: Setting, w: World, m: Move)
    requires Invariant(x, w) && Grounded(w) && Enabled(x, w, m)
    requires x.job.total < 256 + x.receiver.width
    ensures Grounded(After(x, w, m))
  {
    match m
    case SenderTurn(inbox, now, route) =>
      if inbox.None? {
        S.ActEmits(x.sender, w.sender, now, route, IsIdle);
      } else {
        S.MessageSound(x.sender, w.sender, inbox.value.message);
        match S.OnMessage(w.sender, inbox.value.message)
        case Unhandled =>
        case Handled(next, events) =>
          AckGrounded(x, w, inbox.value);
          S.ActEmits(x.sender, next, now, route, Progress);
      }
    case _ =>
  }

  /**
   * For objects shorter than 256 segments plus the receiver's window, every segment the transmitter
   * counts as acknowledged or has reported to it is one a sink of this session has stored.
   */
  lemma {:induction false} ProgressIsReal(x: Setting, run: seq<World>, moves: seq<Move>, k: nat)
    requires IsRun(x, run, moves) && k < |run| && x.job.total < 256 + x.receiver.width
    ensures Grounded(run[k])
    decreases k
  {
    if k > 0 {
      ProgressIsReal(x, run, moves, k - 1);
      RunInvariant(x, run, moves, k - 1);
      MoveGrounded(x, run[k - 1], moves[k - 1]);
    }
  }
}
