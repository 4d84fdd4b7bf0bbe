/**
 * The size of object from which a transmitter can take an old acknowledgement for a new one: shown on
 * whole runs, by playing the run that does it.
 */
module Misreading {
  import opened Integers
  import opened Forwarding
  import opened Protocol
  import opened Exchange
  import R = ReceiverSpec
  import S = SenderSpec
  import A = AckArithmetic
  import E = EndToEnd

  predicate OnWire(w: E.World, m: Message) { exists p :: p in w.wire && p.message == m }

  /** The receiver as it answers the SETUP. */
  function Opened(x: Setting): R.Receiver { R.Receiver(Active, x.job.setup, {}, 0) }

  /** k segments are with the sink, the transmitter has heard of one fewer, and the first answer is still about. */
  ghost predicate Holding(x: Setting, w: E.World, k: nat) {
    && SenderAt(x, w.sender, k) && ReceiverAt(x, w.receiver, k, 0) && w.stored == UpTo(k)
    && OnWire(w, R.AckOf(x.receiver, w.receiver)) && OnWire(w, R.AckOf(x.receiver, Opened(x)))
  }

  // The moves of the run.

  ghost function Hear(x: Setting, w: E.World, m: Message): E.Move
    requires OnWire(w, m)
  {
    var p :| p in w.wire && p.message == m;
    E.SenderTurn(Some(p), 0, RouteAccepted)
  }

  function Hand(m: Message): E.Move { E.ReceiverTurn(R.Deliver(m, 0, WILLING)) }

  /** What a turn of the transmitter that sends one message changes. */
  lemma Speaks(x: Setting, w: E.World, inbox: Option<E.Packet>, m: Message, next: S.Sender)
    requires E.Enabled(x, w, E.SenderTurn(inbox, 0, RouteAccepted))
    requires var step := S.Process(x.sender, w.sender, if inbox.None? then None else Some(inbox.value.message), 0, RouteAccepted);
      step.events == [S.Pdu(m, Sent)] && step.next == next
    ensures var v := E.After(x, w, E.SenderTurn(inbox, 0, RouteAccepted));
      && v.sender == next && v.receiver == w.receiver && v.stored == w.stored && w.wire <= v.wire && OnWire(v, m)
  {
    var events := [S.Pdu(m, Sent)];
    assert events[0] in events;
    assert E.Packet(m, E.Transmitter) in E.Emitted(events);
  }

  /** What a turn of the receiver that answers with one message changes. */
  lemma Answers(x: Setting, w: E.World, m: Message, ack: Message, next: R.Receiver)
    requires E.Enabled(x, w, Hand(m))
    requires var step := R.Process(x.receiver, w.receiver, m, 0, WILLING);
      step.next == next && R.Pdu(ack, Sent) in step.events
    ensures var v := E.After(x, w, Hand(m));
      && v.sender == w.sender && v.receiver == next && w.wire <= v.wire && OnWire(v, ack)
      && v.stored == w.stored + (if E.Ours(x, w.receiver) then next.accepted else {})
  {
    var v := E.After(x, w, Hand(m));
    var p := E.Packet(ack, E.ReceiverAt(E.Stamp(next.setup, next.accepted, v.sink)));
    assert p in v.wire && p.message == ack;
  }

  lemma StillOnWire(w: E.World, v: E.World, m: Message)
    requires OnWire(w, m) && w.wire <= v.wire
    ensures OnWire(v, m)
  {}

  // The run, grown a move at a time.

  lemma Extend(x: Setting, run: seq<E.World>, moves: seq<E.Move>, m: E.Move)
    requires E.IsRun(x, run, moves) && E.Enabled(x, run[|run| - 1], m)
    ensures E.IsRun(x, run + [E.After(x, run[|run| - 1], m)], moves + [m])
  {
    var longer, more := run + [E.After(x, run[|run| - 1], m)], moves + [m];
    forall k | 0 <= k < |more| ensures E.Enabled(x, longer[k], more[k]) && longer[k + 1] == E.After(x, longer[k], more[k]) {
      if k < |moves| {
        assert longer[k] == run[k] && longer[k + 1] == run[k + 1] && more[k] == moves[k];
      } else {
        assert longer[k] == run[|run| - 1] && more[k] == m;
      }
    }
  }

  function Start(x: Setting): E.World {
    E.World(S.Sender(Starting, x.job, S.NO_TRACK, S.NO_TIMERS), R.IDLE, [], {}, {})
  }

  lemma StartFresh(x: Setting)
    requires Workable(x)
    ensures E.Fresh(x, Start(x))
  {
    assert E.RR.Lists([], {}) && E.RR.Files(R.IDLE.setup, [], []);
  }

  /** The SETUP is sent, delivered and answered. */
  lemma Opening(x: Setting) returns (run: seq<E.World>, moves: seq<E.Move>)
    requires Workable(x)
    ensures E.IsRun(x, run, moves) && Holding(x, run[|run| - 1], 0)
  {
    var w, m := Start(x), SetupMsg(x.job.setup);
    StartFresh(x);
    SendsSetup(x, w.sender, 0);
    var move := E.SenderTurn(None, 0, RouteAccepted);
    Speaks(x, w, None, m, S.Process(x.sender, w.sender, None, 0, RouteAccepted).next);
    var v := E.After(x, w, move);
    AdmitsSetup(x, v.receiver, 0);
    var step := R.Process(x.receiver, v.receiver, m, 0, WILLING);
    assert step.next == Opened(x);
    Answers(x, v, m, R.AckOf(x.receiver, Opened(x)), Opened(x));
    run, moves := ExtendTwice(x, [w], [], move, Hand(m));
  }

  /** The transmitter hears of all k segments and sends the next. */
  lemma HearsAndSends(x: Setting, w: E.World, k: nat)
    requires Workable(x) && Holding(x, w, k) && k < x.job.total
    ensures OnWire(w, R.AckOf(x.receiver, w.receiver))
    ensures var v := E.After(x, w, Hear(x, w, R.AckOf(x.receiver, w.receiver)));
      && SenderAt(x, v.sender, k + 1) && OnWire(v, x.job.SegmentOf(k))
      && v.receiver == w.receiver && v.stored == w.stored && w.wire <= v.wire
  {
    var ack := R.AckOf(x.receiver, w.receiver);
    SendsNext(x, w.sender, w.receiver, k, 0);
    Speaks(x, w, Hear(x, w, ack).inbox, x.job.SegmentOf(k), S.Process(x.sender, w.sender, Some(ack), 0, RouteAccepted).next);
  }

  /** The receiver stores it and answers. */
  lemma StoresAndAnswers(x: Setting, w: E.World, k: nat)
    requires Workable(x) && k < x.job.total && SenderAt(x, w.sender, k + 1) && ReceiverAt(x, w.receiver, k, 0)
    requires w.stored == UpTo(k) && OnWire(w, x.job.SegmentOf(k)) && OnWire(w, R.AckOf(x.receiver, Opened(x)))
    ensures Holding(x, E.After(x, w, Hand(x.job.SegmentOf(k))), k + 1)
  {
    var m := x.job.SegmentOf(k);
    Stores(x, w.receiver, k, 0, 0);
    var step := R.Process(x.receiver, w.receiver, m, 0, WILLING);
    var ack := R.AckOf(x.receiver, step.next);
    assert R.Pdu(ack, Sent) in Tail(k + 1 == x.job.total, ack);
    Answers(x, w, m, ack, step.next);
    StillOnWire(w, E.After(x, w, Hand(m)), R.AckOf(x.receiver, Opened(x)));
    assert UpTo(k) + UpTo(k + 1) == UpTo(k + 1);
  }

  lemma NextRound(x: Setting, w: E.World, k: nat, hear: E.Move, hand: E.Move)
    requires Workable(x) && Holding(x, w, k) && k < x.job.total
    requires hear == Hear(x, w, R.AckOf(x.receiver, w.receiver)) && hand == Hand(x.job.SegmentOf(k))
    ensures E.Enabled(x, w, hear) && E.Enabled(x, E.After(x, w, hear), hand)
    ensures Holding(x, E.After(x, E.After(x, w, hear), hand), k + 1)
  {
    HearsAndSends(x, w, k);
    var v := E.After(x, w, hear);
    StillOnWire(w, v, R.AckOf(x.receiver, Opened(x)));
    StoresAndAnswers(x, v, k);
  }

  lemma {:induction false} Reaches(x: Setting, k: nat) returns (run: seq<E.World>, moves: seq<E.Move>)
    requires Workable(x) && k <= x.job.total
    ensures E.IsRun(x, run, moves) && Holding(x, run[|run| - 1], k)
    decreases k
  {
    if k == 0 {
      run, moves := Opening(x);
    } else {
      run, moves := Reaches(x, k - 1);
      var w := run[|run| - 1];
      var hear, hand := Hear(x, w, R.AckOf(x.receiver, w.receiver)), Hand(x.job.SegmentOf(k - 1));
      NextRound(x, w, k - 1, hear, hand);
      run, moves := ExtendTwice(x, run, moves, hear, hand);
    }
  }

  lemma ExtendTwice(x: Setting, run: seq<E.World>, moves: seq<E.Move>, m: E.Move, n: E.Move)
    returns (run': seq<E.World>, moves': seq<E.Move>)
    requires E.IsRun(x, run, moves) && E.Enabled(x, run[|run| - 1], m)
    requires E.Enabled(x, E.After(x, run[|run| - 1], m), n)
    ensures E.IsRun(x, run', moves') && run'[|run'| - 1] == E.After(x, E.After(x, run[|run| - 1], m), n)
  {
    var v := E.After(x, run[|run| - 1], m);
    Extend(x, run, moves, m);
    Extend(x, run + [v], moves + [m], n);
    run', moves' := run + [v] + [E.After(x, v, n)], moves + [m] + [n];
  }

  // The old acknowledgement.

  /** With 255 segments counted and 256 sent, the answer to the SETUP counts one more. */
  lemma OldReadsAsNew(x: Setting, t: S.Track)
    requires Workable(x) && t.counted == 255 && t.sent.Keys == UpTo(256) && x.job.total >= 256 + x.receiver.width
    ensures A.Reading(x.receiver, Opened(x), x.job, t) == S.Read(1, x.receiver.width)
  {
    var r := Opened(x);
    FrontierAt(x, r, 0);
    A.ReadingIs(x.receiver, r, x.job, t);
    assert r.GrantedEnd(x.receiver) == x.receiver.width;
    assert (0 - 255) % 0x100 == 1;
    assert 255 in t.sent;
  }

  lemma CountsOneMore(x: Setting, s: S.Sender)
    requires Workable(x) && SenderAt(x, s, 256) && x.job.total >= 256 + x.receiver.width
    ensures S.Process(x.sender, s, Some(R.AckOf(x.receiver, Opened(x))), 0, RouteAccepted).next.track.counted == 256
  {
    var ack := R.AckOf(x.receiver, Opened(x));
    OldReadsAsNew(x, s.track);
    S.MessageSound(x.sender, s, ack);
    var next := S.OnMessage(s, ack).next;
    S.ActEmits(x.sender, next, 0, RouteAccepted, Progress);
  }

  /** A segment no sink has stored is counted. */
  lemma Imagines(x: Setting, v: E.World, again: E.Move)
    requires Workable(x) && x.job.total >= 256 + x.receiver.width
    requires SenderAt(x, v.sender, 256) && v.stored == UpTo(255) && OnWire(v, R.AckOf(x.receiver, Opened(x)))
    requires again == Hear(x, v, R.AckOf(x.receiver, Opened(x)))
    ensures E.Enabled(x, v, again) && !E.Grounded(E.After(x, v, again))
  {
    CountsOneMore(x, v.sender);
    var u := E.After(x, v, again);
    assert u.sender.track.counted == 256 && 255 !in u.stored;
  }

  lemma LongIsImagined(x: Setting) returns (run: seq<E.World>, moves: seq<E.Move>)
    requires Workable(x) && x.job.total >= 256 + x.receiver.width
    ensures E.IsRun(x, run, moves) && !E.Grounded(run[|run| - 1])
  {
    run, moves := Reaches(x, 255);
    var w := run[|run| - 1];
    HearsAndSends(x, w, 255);
    var hear := Hear(x, w, R.AckOf(x.receiver, w.receiver));
    var v := E.After(x, w, hear);
    StillOnWire(w, v, R.AckOf(x.receiver, Opened(x)));
    var again := Hear(x, v, R.AckOf(x.receiver, Opened(x)));
    Imagines(x, v, again);
    run, moves := ExtendTwice(x, run, moves, hear, again);
  }

  /**
   * The exact limit: some run ends with a segment counted or reported that no sink of the session has
   * stored if and only if the object has at least 256 segments more than the receiver's window is wide.
   */
  lemma ImaginedIffLong(x: Setting)
    requires Workable(x)
    ensures (exists run: seq<E.World>, moves: seq<E.Move> :: E.IsRun(x, run, moves) && !E.Grounded(run[|run| - 1]))
      <==> x.job.total >= 256 + x.receiver.width
  {
    if x.job.total >= 256 + x.receiver.width {
      var run, moves := LongIsImagined(x);
    } else {
      forall run: seq<E.World>, moves: seq<E.Move> | E.IsRun(x, run, moves) ensures E.Grounded(run[|run| - 1]) {
        E.ProgressIsReal(x, run, moves, |run| - 1);
      }
    }
  }
}
