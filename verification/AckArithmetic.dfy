/** What a transmitter reads out of the wrapping 8-bit fields of an acknowledgement a receiver wrote. */
module AckArithmetic {
  import opened Integers
  import opened Protocol
  import R = ReceiverSpec
  import S = SenderSpec
  import B = Bitmap16

  /** The part of a receiver an acknowledgement is made from: set up, and nothing accepted past its grant. */
  ghost predicate Writable(c: R.Config, r: R.Receiver) {
    && 1 <= c.width <= WINDOW
    && (forall i | i in r.accepted :: i < r.GrantedEnd(c))
  }

  /** The span comes back exactly, and is empty only once the receiver has everything. */
  lemma SpanIs(c: R.Config, r: R.Receiver)
    requires Writable(c, r)
    ensures var ack := R.AckOf(c, r);
      && r.Frontier() <= r.GrantedEnd(c) <= r.Frontier() + WINDOW
      && Minus8(ack.maxSequence, ack.base) == r.GrantedEnd(c) - r.Frontier()
      && (Minus8(ack.maxSequence, ack.base) == 0 ==> r.accepted == UpTo(r.Count()))
  {
    R.FirstMissingIs(r.accepted, 0, r.Count());
    if r.GrantedEnd(c) > r.Frontier() { SpanArithmetic(r.setup, r.Frontier(), r.GrantedEnd(c)); }
  }

  lemma SpanArithmetic(setup: Setup, count: nat, end: nat)
    requires count < end <= count + WINDOW
    ensures Minus8(SequenceFor(setup, end - 1), BaseSequence(setup, count)) == end - count
  {
    BaseIs(setup, count);
    BaseIs(setup, end);
    MinusIs(setup.initialSequence + end - 1, setup.initialSequence + count - 1);
  }

  /** An 8-bit difference of wrapped integers is the wrapped difference. */
  lemma MinusIs(x: int, y: int)
    ensures Minus8(x % 0x100, y % 0x100) == (x - y) % 0x100
  {}

  /** The bits are the accepted segments of the span, counted from the receiver's own count. */
  lemma BitsAre(c: R.Config, r: R.Receiver)
    requires Writable(c, r)
    ensures forall o: nat :: o in B.Bits(R.AckOf(c, r).bitmap) <==>
      o < r.GrantedEnd(c) - r.Frontier() && r.Frontier() + o in r.accepted
  {
    R.FirstMissingIs(r.accepted, 0, r.Count());
  }

  /**
   * All an acknowledgement says: up to where everything has been accepted, which of the segments granted past
   * there have been, and how far the grant reaches, each as an 8-bit sequence number one before.
   */
  lemma AckSays(c: R.Config, r: R.Receiver, count: nat)
    requires Writable(c, r) && count <= r.setup.finalIndex + 1
    requires (forall i: nat | i < count :: i in r.accepted) && (count <= r.setup.finalIndex ==> count !in r.accepted)
    ensures var ack, end := R.AckOf(c, r), Min(r.setup.finalIndex + 1, count + c.width);
      && ack.AckMsg? && ack.sessionId == r.setup.sessionId
      && ack.base == (r.setup.initialSequence + count - 1) % 0x100
      && ack.maxSequence == (r.setup.initialSequence + end - 1) % 0x100
      && forall o: nat :: o in B.Bits(ack.bitmap) <==> count + o < end && count + o in r.accepted
  {
    R.FirstMissingUnique(r.accepted, r.Count(), count);
    assert r.GrantedEnd(c) == Min(r.setup.finalIndex + 1, count + c.width);
    BitsAre(c, r);
    BaseIs(r.setup, count);
    BaseIs(r.setup, r.GrantedEnd(c));
  }

  /** The advance is the difference of the counts, wrapped. */
  lemma AdvanceIs(c: R.Config, r: R.Receiver, counted: nat)
    ensures Minus8(R.AckOf(c, r).base, BaseSequence(r.setup, counted)) == (r.Frontier() - counted) % 0x100
  {
    BaseIs(r.setup, counted);
    BaseIs(r.setup, r.Frontier());
    MinusIs(r.setup.initialSequence + r.Frontier() - 1, r.setup.initialSequence + counted - 1);
  }

  ghost function Reading(c: R.Config, r: R.Receiver, j: S.Job, t: S.Track): S.Reading {
    var ack := R.AckOf(c, r);
    S.ReadAck(j, t, ack.bitmap, ack.maxSequence, ack.base)
  }

  /** Some segment the acknowledgement would count was never sent. */
  ghost predicate Uncovered(t: S.Track, advance: nat) {
    exists i: nat :: t.counted <= i < t.counted + advance && i !in t.sent
  }

  /** The reading in terms of the two counts and the grant. */
  lemma ReadingIs(c: R.Config, r: R.Receiver, j: S.Job, t: S.Track)
    requires Writable(c, r) && j.setup == r.setup
    ensures r.Frontier() <= r.GrantedEnd(c)
    ensures
      var advance, span := (r.Frontier() - t.counted) % 0x100, r.GrantedEnd(c) - r.Frontier();
      Reading(c, r, j, t) ==
        if advance > WINDOW || t.counted + advance + span > j.total || Uncovered(t, advance) then S.Ignored
        else S.Read(advance, span)
  {
    SpanIs(c, r);
    BitsAre(c, r);
    AdvanceIs(c, r, t.counted);
  }

  /** The transmitter moved its count to where the receiver's count really was. */
  ghost predicate ReadTrue(r: R.Receiver, t: S.Track, reading: S.Reading) {
    reading.Ignored? || t.counted + reading.advance == r.Frontier()
  }

  /**
   * The documented window: as long as the receiver's count, when it wrote the acknowledgement, is at
   * most 239 behind and at most 16 ahead of the transmitter's, the acknowledgement is either ignored
   * as stale or read back as written: advance, span and bitmap. It is not ignored when it is news
   * about segments that were all sent.
   */
  lemma ReadBack(c: R.Config, r: R.Receiver, j: S.Job, t: S.Track)
    requires Writable(c, r) && t.Ordered() && j.setup == r.setup && j.total == r.Count()
    requires -239 <= r.Frontier() - t.counted <= 16
    requires forall i | i in r.accepted :: i in t.sent
    ensures
      var count, end := r.Frontier(), r.GrantedEnd(c);
      count <= end && Reading(c, r, j, t) == if count < t.counted then S.Ignored else S.Read(count - t.counted, end - count)
    ensures
      var count, end := r.Frontier(), r.GrantedEnd(c);
      t.counted <= count <= end ==>
        S.TakeAck(t, R.AckOf(c, r).bitmap, count - t.counted, end - count).reported
        == t.reported + (set i | i in r.accepted && i >= count)
  {
    R.FirstMissingIs(r.accepted, 0, r.Count());
    BitmapReadBack(c, r, t);
    ReadingIs(c, r, j, t);
    Unwrapped(r.Frontier() - t.counted);
    if r.Frontier() >= t.counted { AllCovered(r, t); }
  }

  /** What a bitmap reports of the segments sent, numbering from a count. */
  ghost function Reported(sent: map<nat, S.Entry>, bits: set<nat>, count: nat): set<nat> {
    set i | i in sent && i >= count && i - count in bits
  }

  lemma TakesReported(t: S.Track, bitmap: u16, count: nat, span: nat)
    requires t.counted <= count
    ensures S.TakeAck(t, bitmap, count - t.counted, span).reported == t.reported + Reported(t.sent, B.Bits(bitmap), count)
  {}

  /** Offsets from a count, numbered back from the same count. */
  lemma Renumbered(sent: map<nat, S.Entry>, accepted: set<nat>, bits: set<nat>, count: nat, end: nat)
    requires count <= end && accepted <= sent.Keys && forall i | i in accepted :: i < end
    requires forall o: nat :: o in bits <==> o < end - count && count + o in accepted
    ensures Reported(sent, bits, count) == set i | i in accepted && i >= count
  {
    forall i: nat | i >= count ensures i - count in bits <==> i in accepted {
      assert count + (i - count) == i;
    }
  }

  /** What is reported is exactly what the receiver holds past its count. */
  lemma BitmapReadBack(c: R.Config, r: R.Receiver, t: S.Track)
    requires Writable(c, r) && r.Frontier() <= r.GrantedEnd(c) && r.accepted <= t.sent.Keys
    ensures
      var count, end := r.Frontier(), r.GrantedEnd(c);
      t.counted <= count ==>
        S.TakeAck(t, R.AckOf(c, r).bitmap, count - t.counted, end - count).reported
        == t.reported + (set i | i in r.accepted && i >= count)
  {
    var count, end, bitmap := r.Frontier(), r.GrantedEnd(c), R.AckOf(c, r).bitmap;
    BitsAre(c, r);
    if t.counted <= count {
      Renumbered(t.sent, r.accepted, B.Bits(bitmap), count, end);
      TakesReported(t, bitmap, count, end - count);
    }
  }

  /** Within the window a wrapped difference tells which side it was on. */
  lemma Unwrapped(d: int)
    requires -239 <= d <= 16
    ensures if d >= 0 then d % 0x100 == d else d % 0x100 > WINDOW
  {}

  lemma AllCovered(r: R.Receiver, t: S.Track)
    requires r.Frontier() >= t.counted && forall i | i in r.accepted :: i in t.sent
    requires forall k: nat | k < r.Frontier() :: k in r.accepted
    ensures !Uncovered(t, r.Frontier() - t.counted)
  {}

  /** One further behind and a long enough object, and a stale acknowledgement reads as sixteen new segments. */
  lemma ReadBackIsTight(c: R.Config, r: R.Receiver, j: S.Job, t: S.Track)
    requires Writable(c, r) && t.Ordered() && j.setup == r.setup && j.total == r.Count()
    requires r.Frontier() - t.counted == -240 && r.GrantedEnd(c) + 256 <= j.total
    requires forall i: nat | t.counted <= i < t.counted + 16 :: i in t.sent
    ensures Reading(c, r, j, t).Read? && Reading(c, r, j, t).advance == 16
  {
    ReadingIs(c, r, j, t);
  }

  /** Bounds that the two counts keep while this receiver's acknowledgements are about. */
  ghost predicate Possible(c: R.Config, r: R.Receiver, j: S.Job, t: S.Track) {
    && Writable(c, r) && t.Ordered() && t.granted <= j.total && j.setup == r.setup && j.total == r.Count()
    && r.Frontier() <= t.counted + 16
  }

  /** Short objects are never misread, however stale the acknowledgement. */
  lemma ShortNeverMisread(c: R.Config, r: R.Receiver, j: S.Job, t: S.Track)
    requires Possible(c, r, j, t) && j.total < 256 + c.width
    ensures ReadTrue(r, t, Reading(c, r, j, t))
  {
    R.FirstMissingIs(r.accepted, 0, r.Count());
    var reading := Reading(c, r, j, t);
    if reading.Read? {
      ReadMeans(c, r, j, t, reading);
      NoWrap(r.Frontier(), t.counted, reading.advance, r.GrantedEnd(c), j.total, c.width);
    }
  }

  lemma ReadMeans(c: R.Config, r: R.Receiver, j: S.Job, t: S.Track, reading: S.Reading)
    requires Writable(c, r) && j.setup == r.setup && reading == Reading(c, r, j, t) && reading.Read?
    ensures r.Frontier() <= r.GrantedEnd(c)
    ensures reading.advance == (r.Frontier() - t.counted) % 0x100 && reading.advance <= WINDOW
    ensures t.counted + reading.advance + (r.GrantedEnd(c) - r.Frontier()) <= j.total
  {
    ReadingIs(c, r, j, t);
  }

  lemma NoWrap(count: nat, counted: nat, advance: nat, end: nat, total: nat, width: nat)
    requires count <= total < 256 + width && end == Min(total, count + width) && width <= WINDOW
    requires count <= counted + 16 && advance == (count - counted) % 0x100 && advance <= WINDOW
    requires counted + advance + (end - count) <= total
    ensures counted + advance == count
  {
    var turns := (count - counted) / 0x100;
    assert count - counted == 0x100 * turns + advance;
    assert turns >= 0 || counted + advance >= count + 0x100;
  }
}
