/**
 * A fixed array used as a FIFO by one producer and one consumer. The class is the buffer used by one
 * thread; the machine below it runs both threads at the grain of single loads, stores and slot accesses.
 */
module RingBuffer {
  /** The template's capacity, and the largest value of its unsigned index type. */
  datatype Shape = Shape(capacity: nat, top: nat)
  {
    predicate Valid() { capacity > 0 && top > 0 }

    /** Items that fit: a capacity the index type cannot count to is cut to what it can. */
    function Room(): nat { if capacity <= top then capacity else top }

    /** The next index, in the index type's own arithmetic. */
    function Next(i: nat): nat { if i == capacity then 0 else if i == top then 0 else i + 1 }

    /** The k-th index from i on, round the ring. */
    function At(i: nat, k: nat): nat { if i + k <= Room() then i + k else i + k - (Room() + 1) }

    function Pending(write: nat, read: nat): int { if write >= read then write - read else write + (Room() + 1) - read }

    /** What size() returns for a pair of indices. */
    function SizeOf(write: nat, read: nat): int {
      if write >= read then write - read else (capacity + 1 - read + write) % (top + 1)
    }
  }

  /** The slots between the indices hold the queue, oldest first. */
  ghost predicate Holds<T>(s: Shape, buffer: seq<T>, write: nat, read: nat, queue: seq<T>) {
    && s.Valid() && |buffer| == s.capacity + 1
    && write <= s.Room() && read <= s.Room()
    && |queue| == s.Pending(write, read)
    && forall k: nat | k < |queue| :: buffer[s.At(read, k)] == queue[k]
  }

  lemma FullIs<T>(s: Shape, buffer: seq<T>, write: nat, read: nat, queue: seq<T>)
    requires Holds(s, buffer, write, read, queue)
    ensures s.Next(write) == read <==> |queue| == s.Room()
    ensures write == read <==> queue == []
    ensures |queue| <= s.Room() <= s.capacity
    ensures s.At(read, |queue|) == write
  {}

  lemma PutHolds<T>(s: Shape, buffer: seq<T>, write: nat, read: nat, queue: seq<T>, item: T)
    requires Holds(s, buffer, write, read, queue) && |queue| < s.Room() && buffer[write] == item
    ensures Holds(s, buffer, s.Next(write), read, queue + [item])
  {
    FullIs(s, buffer, write, read, queue);
  }

  lemma SlotHolds<T>(s: Shape, buffer: seq<T>, write: nat, read: nat, queue: seq<T>, item: T)
    requires Holds(s, buffer, write, read, queue) && |queue| < s.Room()
    ensures Holds(s, buffer[write := item], write, read, queue)
  {
    FullIs(s, buffer, write, read, queue);
  }

  lemma TakeHolds<T>(s: Shape, buffer: seq<T>, write: nat, read: nat, queue: seq<T>)
    requires Holds(s, buffer, write, read, queue) && queue != []
    ensures buffer[read] == queue[0]
    ensures Holds(s, buffer, write, s.Next(read), queue[1..])
  {
    assert s.At(read, 0) == read;
    forall k: nat | k < |queue[1..]| ensures buffer[s.At(s.Next(read), k)] == queue[1..][k] {
      assert s.At(s.Next(read), k) == s.At(read, k + 1);
    }
  }

  // size() and a capacity beyond the index type.

  lemma AtLeast(d: int, m: int)
    requires d >= 1 && m > 0
    ensures d * m >= m
  {}

  lemma ModIs(x: int, q: int, m: int, r: int)
    requires 0 <= r < m && x == q * m + r
    ensures x % m == r
  {
    var d := x / m - q;
    assert d * m == x / m * m - q * m;
    assert x / m * m == x - x % m;
    assert -d * m == -(d * m);
    if d >= 1 {
      AtLeast(d, m);
    } else if d <= -1 {
      AtLeast(-d, m);
    }
  }

  /** The index type can count the capacity, or misses it by a multiple of its range. */
  predicate Countable(s: Shape) { s.capacity <= s.top || (s.capacity - s.top) % (s.top + 1) == 0 }

  lemma CountableIsExact(s: Shape, write: nat, read: nat)
    requires s.Valid() && Countable(s) && write <= s.Room() && read <= s.Room()
    ensures s.SizeOf(write, read) == s.Pending(write, read)
  {
    var q := if s.capacity <= s.top then 0 else (s.capacity - s.top) / (s.top + 1);
    if write < read { ModIs(s.capacity + 1 - read + write, q, s.top + 1, s.Pending(write, read)); }
  }

  lemma UncountableIsNot(s: Shape)
    requires s.Valid() && !Countable(s)
    ensures s.SizeOf(0, 1) != s.Pending(0, 1)
  {
    var m := s.top + 1;
    assert s.SizeOf(0, 1) == s.capacity % m;
    if s.capacity % m == s.top { ModIs(s.capacity - s.top, s.capacity / m, m, 0); }
  }

  /** The first pending item goes to the end of those already out. */
  lemma OneMoved<T>(before: seq<T>, after: seq<T>, count: nat, pending: seq<T>, item: T, rest: seq<T>)
    requires count < |before| && after == before[count := item] && pending == [item] + rest
    ensures after[..count + 1] + rest == before[..count] + pending && after[count + 1..] == before[count + 1..]
  {
    assert after[..count + 1] == before[..count] + [item];
    assert (before[..count] + [item]) + rest == before[..count] + ([item] + rest);
  }

  /** The buffer as one thread sees it. */
  class RingBuffer<T(0)> {
    const shape: Shape
    const buffer: array<T>
    var writeIndex: nat
    var readIndex: nat
    ghost var contents: seq<T>

    ghost predicate Valid()
      reads this, buffer
    {
      Holds(shape, buffer[..], writeIndex, readIndex, contents)
    }

    constructor (form: Shape)
      requires form.Valid()
      ensures Valid() && contents == [] && shape == form && fresh(buffer)
    {
      shape := form;
      buffer := new T[form.capacity + 1];
      writeIndex, readIndex := 0, 0;
      contents := [];
    }

    method IsEmpty() returns (empty: bool)
      requires Valid()
      ensures empty <==> contents == []
    {
      FullIs(shape, buffer[..], writeIndex, readIndex, contents);
      empty := writeIndex == readIndex;
    }

    method IsFull() returns (full: bool)
      requires Valid()
      ensures full <==> |contents| == shape.Room()
    {
      FullIs(shape, buffer[..], writeIndex, readIndex, contents);
      full := shape.Next(writeIndex) == readIndex;
    }

    method Size() returns (size: nat)
      requires Valid()
      ensures shape.capacity <= shape.top ==> size == |contents|
      ensures size == shape.SizeOf(writeIndex, readIndex)
    {
      var writer, reader := writeIndex, readIndex;
      if writer >= reader {
        return writer - reader;
      }
      if shape.capacity <= shape.top { ModIs(shape.capacity + 1 - reader + writer, 0, shape.top + 1, |contents|); }
      size := (shape.capacity + 1 - reader + writer) % (shape.top + 1);
    }

    method Enqueue(item: T) returns (added: bool)
      requires Valid()
      modifies this`writeIndex, this`contents, buffer
      ensures Valid()
      ensures added <==> old(|contents|) < shape.Room()
      ensures contents == if added then old(contents) + [item] else old(contents)
    {
      var full := IsFull();
      FullIs(shape, buffer[..], writeIndex, readIndex, contents);
      if full { return false; }
      SlotHolds(shape, buffer[..], writeIndex, readIndex, contents, item);
      buffer[writeIndex] := item;
      assert buffer[..] == old(buffer[..])[writeIndex := item];
      PutHolds(shape, buffer[..], writeIndex, readIndex, contents, item);
      writeIndex := shape.Next(writeIndex);
      contents := contents + [item];
      added := true;
    }

    /** Items are added in order until one does not fit. */
    method EnqueueAll(items: seq<T>) returns (added: bool)
      requires Valid()
      modifies this`writeIndex, this`contents, buffer
      ensures Valid()
      ensures added <==> old(|contents|) + |items| <= shape.Room()
      ensures contents == if added then old(contents) + items else old(contents) + items[..shape.Room() - old(|contents|)]
    {
      FullIs(shape, buffer[..], writeIndex, readIndex, contents);
      for i := 0 to |items|
        invariant Valid() && contents == old(contents) + items[..i] && |contents| <= shape.Room()
      {
        var ok := Enqueue(items[i]);
        if !ok { return false; }
      }
      assert items[..|items|] == items;
      added := true;
    }

    /** before is what the caller's variable holds; it is left alone when there is nothing to take. */
    method Dequeue(before: T) returns (taken: bool, item: T)
      requires Valid()
      modifies this`readIndex, this`contents
      ensures Valid()
      ensures taken <==> old(contents) != []
      ensures if taken then old(contents) == [item] + contents else contents == old(contents) && item == before
    {
      var empty := IsEmpty();
      if empty { return false, before; }
      TakeHolds(shape, buffer[..], writeIndex, readIndex, contents);
      item := buffer[readIndex];
      readIndex := shape.Next(readIndex);
      contents := contents[1..];
      taken := true;
    }

    /** The oldest items, as many as there are and fit. */
    method DequeueMany(output: array<T>) returns (count: nat)
      requires Valid() && output != buffer
      modifies this`readIndex, this`contents, output
      ensures Valid() && buffer[..] == old(buffer[..])
      ensures count == if old(|contents|) < output.Length then old(|contents|) else output.Length
      ensures output[..count] + contents == old(contents) && output[count..] == old(output[count..])
    {
      count := 0;
      while count < output.Length
        invariant Valid() && buffer[..] == old(buffer[..])
        invariant count <= output.Length && output[..count] + contents == old(contents)
        invariant output[count..] == old(output[count..])
      {
        ghost var before, pending := output[..], contents;
        var taken, item := Dequeue(output[count]);
        if !taken { return; }
        output[count] := item;
        OneMoved(before, output[..], count, pending, item, contents);
        count := count + 1;
      }
    }

    method Peek(before: T) returns (seen: bool, item: T)
      requires Valid()
      ensures seen <==> contents != []
      ensures item == if seen then contents[0] else before
    {
      var empty := IsEmpty();
      if empty { return false, before; }
      TakeHolds(shape, buffer[..], writeIndex, readIndex, contents);
      item := buffer[readIndex];
      seen := true;
    }

    method Clear(blank: T)
      requires Valid()
      modifies this`readIndex, this`contents
      ensures Valid() && contents == []
    {
      var empty := IsEmpty();
      while !empty
        invariant Valid() && (empty <==> contents == [])
        decreases |contents|
      {
        var taken, item := Dequeue(blank);
        empty := IsEmpty();
      }
    }
  }

  // Two threads.

  /** What a call amounts to, in the order the calls take effect. */
  datatype Event<T> = Put(item: T) | Full(item: T) | Took(item: T) | Looked(item: T) | Empty
  {
    predicate ByProducer() { Put? || Full? }
  }

  /**
   * Where the producer is in enqueue: asked, after the first of the two loads of isFull (in either order),
   * past or refused by the comparison, about to write the slot, about to advance the index, done.
   */
  datatype Producer<T> =
    | Idle
    | Asked(item: T)
    | HasWrite(item: T, index: nat)
    | HasRead(item: T, index: nat)
    | Refused(item: T)
    | Passed(item: T)
    | AtSlot(item: T, index: nat)
    | Written(item: T)
    | Advancing(item: T, index: nat)
    | Done(item: T)

  /** Where the consumer is in dequeue, or in peek when keep is set. */
  datatype Consumer<T> =
    | Resting
    | Wanting(keep: bool)
    | KnowsWrite(keep: bool, index: nat)
    | KnowsRead(keep: bool, index: nat)
    | Denied
    | Allowed(keep: bool)
    | Reading(keep: bool, index: nat)
    | Carrying(item: T)
    | Leaving(item: T, index: nat)
    | Gone(item: T)
    | Peeked(item: T)

  /** The shared memory, both threads, the calls in the order they took effect, and what each thread was told. */
  datatype World<T> = World(
    buffer: seq<T>, write: nat, read: nat, producer: Producer<T>, consumer: Consumer<T>,
    log: seq<Event<T>>, produced: seq<Event<T>>, consumed: seq<Event<T>>)

  /** One atomic step of a thread; swapped chooses the order of the two loads of isFull and isEmpty. */
  datatype Move<T> = Enqueue(item: T) | Produce(swapped: bool) | Dequeue(keep: bool) | Consume(swapped: bool)

  function Log<T>(w: World<T>, e: Event<T>): World<T> { w.(log := w.log + [e]) }

  /** The refusal takes effect at the load of the read index. */
  function LoadRead<T>(s: Shape, w: World<T>, item: T): World<T> {
    if s.Next(w.write) == w.read then Log(w, Full(item)) else w
  }

  function StepProducer<T>(s: Shape, w: World<T>, swapped: bool): World<T>
    requires |w.buffer| == s.capacity + 1
  {
    match w.producer
    case Idle => w
    case Asked(item) =>
      if swapped then LoadRead(s, w, item).(producer := HasRead(item, w.read))
      else w.(producer := HasWrite(item, w.write))
    case HasWrite(item, index) =>
      LoadRead(s, w, item).(producer := if s.Next(index) == w.read then Refused(item) else Passed(item))
    case HasRead(item, index) =>
      w.(producer := if s.Next(w.write) == index then Refused(item) else Passed(item))
    case Refused(item) => w.(producer := Idle, produced := w.produced + [Full(item)])
    case Passed(item) => w.(producer := AtSlot(item, w.write))
    case AtSlot(item, index) =>
      if index < |w.buffer| then w.(producer := Written(item), buffer := w.buffer[index := item]) else w
    case Written(item) => w.(producer := Advancing(item, w.write))
    case Advancing(item, index) => Log(w, Put(item)).(producer := Done(item), write := s.Next(index))
    case Done(item) => w.(producer := Idle, produced := w.produced + [Put(item)])
  }

  /** Finding nothing takes effect at the load of the write index. */
  function LoadWrite<T>(w: World<T>): World<T> { if w.write == w.read then Log(w, Empty) else w }

  function StepConsumer<T>(s: Shape, w: World<T>, swapped: bool): World<T> {
    match w.consumer
    case Resting => w
    case Wanting(keep) =>
      if swapped then w.(consumer := KnowsRead(keep, w.read))
      else LoadWrite(w).(consumer := KnowsWrite(keep, w.write))
    case KnowsWrite(keep, index) => w.(consumer := if index == w.read then Denied else Allowed(keep))
    case KnowsRead(keep, index) => LoadWrite(w).(consumer := if w.write == index then Denied else Allowed(keep))
    case Denied => w.(consumer := Resting, consumed := w.consumed + [Empty])
    case Allowed(keep) => w.(consumer := Reading(keep, w.read))
    case Reading(keep, index) =>
      if index >= |w.buffer| then w
      else if keep then Log(w, Looked(w.buffer[index])).(consumer := Peeked(w.buffer[index]))
      else w.(consumer := Carrying(w.buffer[index]))
    case Carrying(item) => w.(consumer := Leaving(item, w.read))
    case Leaving(item, index) => Log(w, Took(item)).(consumer := Gone(item), read := s.Next(index))
    case Gone(item) => w.(consumer := Resting, consumed := w.consumed + [Took(item)])
    case Peeked(item) => w.(consumer := Resting, consumed := w.consumed + [Looked(item)])
  }

  function Step<T>(s: Shape, w: World<T>, m: Move<T>): World<T>
    requires |w.buffer| == s.capacity + 1
  {
    match m
    case Enqueue(item) => if w.producer.Idle? then w.(producer := Asked(item)) else w
    case Produce(swapped) => StepProducer(s, w, swapped)
    case Dequeue(keep) => if w.consumer.Resting? then w.(consumer := Wanting(keep)) else w
    case Consume(swapped) => StepConsumer(s, w, swapped)
  }

  /** Every interleaving: the world after any moves, from an empty buffer. */
  function Run<T>(s: Shape, start: seq<T>, moves: seq<Move<T>>): (w: World<T>)
    requires |start| == s.capacity + 1
    ensures |w.buffer| == s.capacity + 1
    decreases moves
  {
    if moves == [] then World(start, 0, 0, Idle, Resting, [], [], [])
    else Step(s, Run(s, start, moves[..|moves| - 1]), moves[|moves| - 1])
  }

  // The bounded FIFO the log has to be a history of.

  datatype Queue<T> = Illegal | Legal(items: seq<T>)

  /** The queue after one call, when a bounded FIFO could have answered so. */
  ghost function Serve<T>(room: nat, q: seq<T>, e: Event<T>): Queue<T> {
    match e
    case Put(item) => if |q| < room then Legal(q + [item]) else Illegal
    case Full(_) => if |q| == room then Legal(q) else Illegal
    case Took(item) => if q != [] && item == q[0] then Legal(q[1..]) else Illegal
    case Looked(item) => if q != [] && item == q[0] then Legal(q) else Illegal
    case Empty => if q == [] then Legal(q) else Illegal
  }

  ghost function Replay<T>(room: nat, log: seq<Event<T>>): Queue<T> {
    if log == [] then Legal([])
    else
      match Replay(room, log[..|log| - 1])
      case Illegal => Illegal
      case Legal(q) => Serve(room, q, log[|log| - 1])
  }

  /** The calls of one thread, in order. */
  function Only<T>(log: seq<Event<T>>, producer: bool): seq<Event<T>> {
    if log == [] then []
    else
      var e := log[|log| - 1];
      Only(log[..|log| - 1], producer) + (if e.ByProducer() == producer then [e] else [])
  }

  lemma Logged<T>(room: nat, log: seq<Event<T>>, e: Event<T>, producer: bool)
    requires Replay(room, log).Legal?
    ensures Replay(room, log + [e]) == Serve(room, Replay(room, log).items, e)
    ensures Only(log + [e], producer) == Only(log, producer) + (if e.ByProducer() == producer then [e] else [])
  {
    assert (log + [e])[..|log + [e]| - 1] == log;
  }

  // What holds between any two atomic steps.

  ghost predicate ProducerAt<T>(s: Shape, p: Producer<T>, buffer: seq<T>, write: nat, size: nat)
    requires write < |buffer|
  {
    match p
    case HasWrite(_, index) => index == write
    case HasRead(_, index) => s.Next(write) == index || size < s.Room()
    case Passed(_) => size < s.Room()
    case AtSlot(_, index) => size < s.Room() && index == write
    case Written(item) => size < s.Room() && buffer[write] == item
    case Advancing(item, index) => size < s.Room() && index == write && buffer[write] == item
    case _ => true
  }

  ghost predicate ConsumerAt<T>(c: Consumer<T>, read: nat, queue: seq<T>) {
    match c
    case KnowsWrite(_, index) => index == read || queue != []
    case KnowsRead(_, index) => index == read
    case Allowed(_) => queue != []
    case Reading(_, index) => queue != [] && index == read
    case Carrying(item) => queue != [] && item == queue[0]
    case Leaving(item, index) => queue != [] && index == read && item == queue[0]
    case _ => true
  }

  /** A call that has taken effect but not yet returned. */
  function ProducerDue<T>(s: Shape, p: Producer<T>, write: nat): seq<Event<T>> {
    match p
    case HasRead(item, index) => if s.Next(write) == index then [Full(item)] else []
    case Refused(item) => [Full(item)]
    case Done(item) => [Put(item)]
    case _ => []
  }

  function ConsumerDue<T>(c: Consumer<T>, read: nat): seq<Event<T>> {
    match c
    case KnowsWrite(_, index) => if index == read then [Empty] else []
    case Denied => [Empty]
    case Gone(item) => [Took(item)]
    case Peeked(item) => [Looked(item)]
    case _ => []
  }

  ghost predicate Invariant<T>(s: Shape, w: World<T>) {
    && Replay(s.Room(), w.log).Legal?
    && var queue := Replay(s.Room(), w.log).items;
    && Holds(s, w.buffer, w.write, w.read, queue)
    && ProducerAt(s, w.producer, w.buffer, w.write, |queue|) && ConsumerAt(w.consumer, w.read, queue)
    && Only(w.log, true) == w.produced + ProducerDue(s, w.producer, w.write)
    && Only(w.log, false) == w.consumed + ConsumerDue(w.consumer, w.read)
  }

  lemma Refuses<T>(s: Shape, w: World<T>, item: T)
    requires Invariant(s, w)
    ensures var v := LoadRead(s, w, item);
      && v == w.(log := v.log) && Replay(s.Room(), v.log) == Replay(s.Room(), w.log)
      && Only(v.log, false) == Only(w.log, false)
      && Only(v.log, true) == Only(w.log, true) + (if s.Next(w.write) == w.read then [Full(item)] else [])
  {
    FullIs(s, w.buffer, w.write, w.read, Replay(s.Room(), w.log).items);
    Logged(s.Room(), w.log, Full(item), true);
    Logged(s.Room(), w.log, Full(item), false);
  }

  lemma FindsNothing<T>(s: Shape, w: World<T>)
    requires Invariant(s, w)
    ensures var v := LoadWrite(w);
      && v == w.(log := v.log) && Replay(s.Room(), v.log) == Replay(s.Room(), w.log)
      && Only(v.log, true) == Only(w.log, true)
      && Only(v.log, false) == Only(w.log, false) + (if w.write == w.read then [Empty] else [])
  {
    FullIs(s, w.buffer, w.write, w.read, Replay(s.Room(), w.log).items);
    Logged(s.Room(), w.log, Empty, true);
    Logged(s.Room(), w.log, Empty, false);
  }

  lemma ProducerLoads<T>(s: Shape, w: World<T>, swapped: bool)
    requires Invariant(s, w) && (w.producer.Asked? || w.producer.HasWrite?)
    ensures Invariant(s, StepProducer(s, w, swapped))
  {
    FullIs(s, w.buffer, w.write, w.read, Replay(s.Room(), w.log).items);
    Refuses(s, w, w.producer.item);
    var v := StepProducer(s, w, swapped);
    assert Replay(s.Room(), v.log) == Replay(s.Room(), w.log);
  }

  lemma ProducerWrites<T>(s: Shape, w: World<T>, swapped: bool)
    requires Invariant(s, w) && w.producer.AtSlot?
    ensures Invariant(s, StepProducer(s, w, swapped))
  {
    SlotHolds(s, w.buffer, w.write, w.read, Replay(s.Room(), w.log).items, w.producer.item);
  }

  lemma ProducerAdvances<T>(s: Shape, w: World<T>, swapped: bool)
    requires Invariant(s, w) && w.producer.Advancing?
    ensures Invariant(s, StepProducer(s, w, swapped))
  {
    var queue, item := Replay(s.Room(), w.log).items, w.producer.item;
    PutHolds(s, w.buffer, w.write, w.read, queue, item);
    Logged(s.Room(), w.log, Put(item), true);
    Logged(s.Room(), w.log, Put(item), false);
    var v := StepProducer(s, w, swapped);
    assert Replay(s.Room(), v.log) == Legal(queue + [item]);
    assert ConsumerAt(w.consumer, w.read, queue + [item]);
  }

  lemma ProducerKeeps<T>(s: Shape, w: World<T>, swapped: bool)
    requires Invariant(s, w)
    ensures Invariant(s, StepProducer(s, w, swapped))
  {
    match w.producer
    case Asked(_) => ProducerLoads(s, w, swapped);
    case HasWrite(_, _) => ProducerLoads(s, w, swapped);
    case AtSlot(_, _) => ProducerWrites(s, w, swapped);
    case Advancing(_, _) => ProducerAdvances(s, w, swapped);
    case _ =>
  }

  lemma ConsumerStarts<T>(s: Shape, w: World<T>, swapped: bool)
    requires Invariant(s, w) && w.consumer.Wanting?
    ensures Invariant(s, StepConsumer(s, w, swapped))
  {
    var queue := Replay(s.Room(), w.log).items;
    FullIs(s, w.buffer, w.write, w.read, queue);
    FindsNothing(s, w);
    assert Replay(s.Room(), StepConsumer(s, w, swapped).log) == Legal(queue);
  }

  lemma ConsumerCompares<T>(s: Shape, w: World<T>, swapped: bool)
    requires Invariant(s, w) && w.consumer.KnowsRead?
    ensures Invariant(s, StepConsumer(s, w, swapped))
  {
    var queue := Replay(s.Room(), w.log).items;
    FullIs(s, w.buffer, w.write, w.read, queue);
    FindsNothing(s, w);
    assert Replay(s.Room(), StepConsumer(s, w, swapped).log) == Legal(queue);
  }

  lemma ConsumerReads<T>(s: Shape, w: World<T>, swapped: bool)
    requires Invariant(s, w) && w.consumer.Reading?
    ensures Invariant(s, StepConsumer(s, w, swapped))
  {
    var queue := Replay(s.Room(), w.log).items;
    TakeHolds(s, w.buffer, w.write, w.read, queue);
    Logged(s.Room(), w.log, Looked(queue[0]), true);
    Logged(s.Room(), w.log, Looked(queue[0]), false);
    var v := StepConsumer(s, w, swapped);
    assert Replay(s.Room(), v.log) == Legal(queue);
  }

  lemma ConsumerAdvances<T>(s: Shape, w: World<T>, swapped: bool)
    requires Invariant(s, w) && w.consumer.Leaving?
    ensures Invariant(s, StepConsumer(s, w, swapped))
  {
    var queue, item := Replay(s.Room(), w.log).items, w.consumer.item;
    TakeHolds(s, w.buffer, w.write, w.read, queue);
    Logged(s.Room(), w.log, Took(item), true);
    Logged(s.Room(), w.log, Took(item), false);
    var v := StepConsumer(s, w, swapped);
    assert Replay(s.Room(), v.log) == Legal(queue[1..]);
    assert ProducerAt(s, w.producer, w.buffer, w.write, |queue[1..]|);
  }

  lemma ConsumerKeeps<T>(s: Shape, w: World<T>, swapped: bool)
    requires Invariant(s, w)
    ensures Invariant(s, StepConsumer(s, w, swapped))
  {
    match w.consumer
    case Wanting(_) => ConsumerStarts(s, w, swapped);
    case KnowsRead(_, _) => ConsumerCompares(s, w, swapped);
    case Reading(_, _) => ConsumerReads(s, w, swapped);
    case Leaving(_, _) => ConsumerAdvances(s, w, swapped);
    case _ =>
  }

  lemma {:induction false} EveryInterleaving<T>(s: Shape, start: seq<T>, moves: seq<Move<T>>)
    requires s.Valid() && |start| == s.capacity + 1
    ensures Invariant(s, Run(s, start, moves))
    decreases moves
  {
    if moves != [] {
      var before := moves[..|moves| - 1];
      EveryInterleaving(s, start, before);
      match moves[|moves| - 1]
      case Produce(swapped) => ProducerKeeps(s, Run(s, start, before), swapped);
      case Consume(swapped) => ConsumerKeeps(s, Run(s, start, before), swapped);
      case _ =>
    }
  }

  // What that means to the callers.

  function Puts<T>(log: seq<Event<T>>): seq<T> {
    if log == [] then []
    else Puts(log[..|log| - 1]) + (if log[|log| - 1].Put? then [log[|log| - 1].item] else [])
  }

  function Takes<T>(log: seq<Event<T>>): seq<T> {
    if log == [] then []
    else Takes(log[..|log| - 1]) + (if log[|log| - 1].Took? then [log[|log| - 1].item] else [])
  }

  lemma {:induction false} TakesArePuts<T>(room: nat, log: seq<Event<T>>)
    requires Replay(room, log).Legal?
    ensures Puts(log) == Takes(log) + Replay(room, log).items
    ensures |Replay(room, log).items| <= room
    decreases log
  {
    if log != [] { TakesArePuts(room, log[..|log| - 1]); }
  }

  /** What an answer says of the calls before it: how many items had been put and not taken, and which was the oldest. */
  ghost predicate True<T>(room: nat, before: seq<Event<T>>, e: Event<T>) {
    var held := |Puts(before)| - |Takes(before)|;
    match e
    case Put(_) => held < room
    case Full(_) => held == room
    case Took(item) => held > 0 && item == Puts(before)[|Takes(before)|]
    case Looked(item) => held > 0 && item == Puts(before)[|Takes(before)|]
    case Empty => held == 0
  }

  lemma {:induction false} AnswersAreTrue<T>(room: nat, log: seq<Event<T>>)
    requires Replay(room, log).Legal?
    ensures forall k | 0 <= k < |log| :: True(room, log[..k], log[k])
    decreases log
  {
    if log != [] {
      var before := log[..|log| - 1];
      AnswersAreTrue(room, before);
      TakesArePuts(room, before);
      forall k | 0 <= k < |log| ensures True(room, log[..k], log[k]) {
        if k < |before| { assert before[..k] == log[..k] && before[k] == log[k]; }
      }
    }
  }

  lemma OneMore<T>(log: seq<Event<T>>, e: Event<T>)
    ensures Puts(log + [e]) == Puts(log) + (if e.Put? then [e.item] else [])
    ensures Takes(log + [e]) == Takes(log) + (if e.Took? then [e.item] else [])
  {
    assert (log + [e])[..|log + [e]| - 1] == log;
  }

  lemma {:induction false} OnlyPuts<T>(log: seq<Event<T>>)
    ensures Puts(log) == Puts(Only(log, true)) && Takes(log) == Takes(Only(log, false))
    decreases log
  {
    if log != [] {
      var rest, e := log[..|log| - 1], log[|log| - 1];
      OnlyPuts(rest);
      OneMore(Only(rest, e.ByProducer()), e);
      assert Only(log, e.ByProducer()) == Only(rest, e.ByProducer()) + [e];
      assert Only(log, !e.ByProducer()) == Only(rest, !e.ByProducer());
    }
  }

  /** What a thread was told, with a call that has taken effect and is about to return. */
  function Told<T>(s: Shape, w: World<T>, producer: bool): seq<Event<T>> {
    if producer then w.produced + ProducerDue(s, w.producer, w.write) else w.consumed + ConsumerDue(w.consumer, w.read)
  }

  /**
   * Linearizability: under every interleaving the answers each thread got are, in its own order, the
   * answers of one bounded FIFO serving the calls in the order they took effect; each takes effect at
   * one of its own steps. So the items taken are a prefix of the items put, at most the room is pending.
   */
  lemma Linearizable<T>(s: Shape, start: seq<T>, moves: seq<Move<T>>)
    requires s.Valid() && |start| == s.capacity + 1
    ensures var w := Run(s, start, moves);
      && Replay(s.Room(), w.log).Legal? && (forall k | 0 <= k < |w.log| :: True(s.Room(), w.log[..k], w.log[k]))
      && Only(w.log, true) == Told(s, w, true) && Only(w.log, false) == Told(s, w, false)
      && Takes(Told(s, w, false)) <= Puts(Told(s, w, true))
      && |Puts(Told(s, w, true))| - |Takes(Told(s, w, false))| <= s.Room() <= s.capacity
    ensures s.Room() == if s.capacity <= s.top then s.capacity else s.top
  {
    EveryInterleaving(s, start, moves);
    var w := Run(s, start, moves);
    TakesArePuts(s.Room(), w.log);
    AnswersAreTrue(s.Room(), w.log);
    OnlyPuts(w.log);
  }

  /** The producer is about to write the slot the consumer is about to read. */
  predicate Clash<T>(w: World<T>) {
    w.producer.AtSlot? && w.consumer.Reading? && w.producer.index == w.consumer.index
  }

  /**
   * No slot is written while it is being read, nor while it holds an item not yet taken: the two
   * threads never meet at a slot, and a write leaves every pending item where it is.
   */
  lemma SlotsNeverClash<T>(s: Shape, start: seq<T>, moves: seq<Move<T>>)
    requires s.Valid() && |start| == s.capacity + 1
    ensures var w := Run(s, start, moves);
      && !Clash(w) && Replay(s.Room(), w.log).Legal?
      && (w.producer.AtSlot? ==> forall k: nat | k < |Replay(s.Room(), w.log).items| :: s.At(w.read, k) != w.producer.index)
  {
    EveryInterleaving(s, start, moves);
    var w := Run(s, start, moves);
    FullIs(s, w.buffer, w.write, w.read, Replay(s.Room(), w.log).items);
  }

  // size(), at every moment the threads can bring about.

  predicate AtRest<T>(w: World<T>) { w.producer.Idle? && w.consumer.Resting? }

  lemma OneMove<T>(s: Shape, start: seq<T>, moves: seq<Move<T>>, m: Move<T>)
    requires |start| == s.capacity + 1
    ensures Run(s, start, moves + [m]) == Step(s, Run(s, start, moves), m)
  {
    assert (moves + [m])[..|moves + [m]| - 1] == moves;
  }

  /** Some more turns of the producer, or of the consumer, each loading the index it writes first. */
  lemma {:induction false} Produces<T>(s: Shape, start: seq<T>, moves: seq<Move<T>>, w: World<T>) returns (more: seq<Move<T>>)
    requires s.Valid() && |start| == s.capacity + 1 && Run(s, start, moves) == w
    requires w.consumer.Resting? && w.write <= s.Room() && s.Next(w.write) != w.read
    requires match w.producer
      case Asked(_) => true case HasWrite(_, index) => index == w.write case Passed(_) => true
      case AtSlot(_, index) => index == w.write case Written(_) => true case Advancing(_, index) => index == w.write
      case _ => false
    ensures var v := Run(s, start, more); AtRest(v) && v.write == s.Next(w.write) && v.read == w.read
    decreases match w.producer
      case Asked(_) => 6 case HasWrite(_, _) => 5 case Passed(_) => 4 case AtSlot(_, _) => 3 case Written(_) => 2 case _ => 1
  {
    OneMove(s, start, moves, Produce(false));
    var v := StepProducer(s, w, false);
    if w.producer.Advancing? {
      OneMove(s, start, moves + [Produce(false)], Produce(false));
      more := moves + [Produce(false)] + [Produce(false)];
    } else {
      more := Produces(s, start, moves + [Produce(false)], v);
    }
  }

  lemma {:induction false} Consumes<T>(s: Shape, start: seq<T>, moves: seq<Move<T>>, w: World<T>) returns (more: seq<Move<T>>)
    requires s.Valid() && |start| == s.capacity + 1 && Run(s, start, moves) == w
    requires w.producer.Idle? && w.read <= s.Room() && w.write != w.read
    requires match w.consumer
      case Wanting(keep) => !keep case KnowsWrite(keep, index) => !keep && index == w.write case Allowed(keep) => !keep
      case Reading(keep, index) => !keep && index == w.read case Carrying(_) => true case Leaving(_, index) => index == w.read
      case _ => false
    ensures var v := Run(s, start, more); AtRest(v) && v.write == w.write && v.read == s.Next(w.read)
    decreases match w.consumer
      case Wanting(_) => 6 case KnowsWrite(_, _) => 5 case Allowed(_) => 4 case Reading(_, _) => 3 case Carrying(_) => 2 case _ => 1
  {
    OneMove(s, start, moves, Consume(false));
    var v := StepConsumer(s, w, false);
    if w.consumer.Leaving? {
      OneMove(s, start, moves + [Consume(false)], Consume(false));
      more := moves + [Consume(false)] + [Consume(false)];
    } else {
      more := Consumes(s, start, moves + [Consume(false)], v);
    }
  }

  /** One call to enqueue into a buffer that is not full, and one to dequeue from one that is not empty. */
  lemma EnqueueOnce<T>(s: Shape, start: seq<T>, moves: seq<Move<T>>) returns (more: seq<Move<T>>)
    requires s.Valid() && |start| == s.capacity + 1
    requires var w := Run(s, start, moves); AtRest(w) && w.write <= s.Room() && s.Next(w.write) != w.read
    ensures var w, v := Run(s, start, moves), Run(s, start, more);
      AtRest(v) && v.write == s.Next(w.write) && v.read == w.read
  {
    OneMove(s, start, moves, Enqueue(start[0]));
    more := Produces(s, start, moves + [Enqueue(start[0])], Run(s, start, moves).(producer := Asked(start[0])));
  }

  lemma DequeueOnce<T>(s: Shape, start: seq<T>, moves: seq<Move<T>>) returns (more: seq<Move<T>>)
    requires s.Valid() && |start| == s.capacity + 1
    requires var w := Run(s, start, moves); AtRest(w) && w.read <= s.Room() && w.write != w.read
    ensures var w, v := Run(s, start, moves), Run(s, start, more);
      AtRest(v) && v.write == w.write && v.read == s.Next(w.read)
  {
    OneMove(s, start, moves, Dequeue(false));
    more := Consumes(s, start, moves + [Dequeue(false)], Run(s, start, moves).(consumer := Wanting(false)));
  }

  /** Filling and emptying one at a time brings both indices to any place. */
  lemma {:induction false} EmptyAt<T>(s: Shape, start: seq<T>, read: nat) returns (moves: seq<Move<T>>)
    requires s.Valid() && |start| == s.capacity + 1 && read <= s.Room()
    ensures var w := Run(s, start, moves); AtRest(w) && w.write == read && w.read == read
    decreases read
  {
    if read == 0 {
      moves := [];
    } else {
      moves := EmptyAt(s, start, read - 1);
      moves := EnqueueOnce(s, start, moves);
      moves := DequeueOnce(s, start, moves);
    }
  }

  lemma {:induction false} HoldingMany<T>(s: Shape, start: seq<T>, read: nat, n: nat) returns (moves: seq<Move<T>>)
    requires s.Valid() && |start| == s.capacity + 1 && read <= s.Room() && n <= s.Room()
    ensures var w := Run(s, start, moves); AtRest(w) && w.write == s.At(read, n) && w.read == read
    decreases n
  {
    if n == 0 {
      moves := EmptyAt(s, start, read);
    } else {
      moves := HoldingMany(s, start, read, n - 1);
      moves := EnqueueOnce(s, start, moves);
    }
  }

  /** Every pair of indices up to the room comes about between calls. */
  lemma EveryPairReached<T>(s: Shape, start: seq<T>, write: nat, read: nat) returns (moves: seq<Move<T>>)
    requires s.Valid() && |start| == s.capacity + 1 && write <= s.Room() && read <= s.Room()
    ensures var w := Run(s, start, moves); AtRest(w) && w.write == write && w.read == read
  {
    moves := HoldingMany(s, start, read, s.Pending(write, read));
  }

  /** size() would answer with the number of items. */
  ghost predicate SizeExact<T>(s: Shape, w: World<T>) {
    Replay(s.Room(), w.log).Legal? && s.SizeOf(w.write, w.read) == |Replay(s.Room(), w.log).items|
  }

  /**
   * size() is the number of items whenever neither thread is in a call, after any calls, exactly when the
   * index type can count the capacity or misses it by a multiple of its range; and then it is at every
   * other moment too at which it loads both indices.
   */
  lemma SizeIsExactIff<T(!new)>(s: Shape, start: seq<T>)
    requires s.Valid() && |start| == s.capacity + 1
    ensures (forall moves: seq<Move<T>> | AtRest(Run(s, start, moves)) :: SizeExact(s, Run(s, start, moves))) <==> Countable(s)
    ensures Countable(s) ==> forall moves: seq<Move<T>> :: SizeExact(s, Run(s, start, moves))
  {
    if Countable(s) {
      forall moves: seq<Move<T>> ensures SizeExact(s, Run(s, start, moves)) {
        EveryInterleaving(s, start, moves);
        CountableIsExact(s, Run(s, start, moves).write, Run(s, start, moves).read);
      }
    } else {
      var moves := EveryPairReached(s, start, 0, 1);
      EveryInterleaving(s, start, moves);
      UncountableIsNot(s);
      assert !SizeExact(s, Run(s, start, moves));
    }
  }

  // size() as it is, loading the write index and then the read index, while the threads move on in between.

  lemma NextIs(s: Shape, i: nat, count: nat)
    requires s.Valid() && i == count % (s.Room() + 1)
    ensures s.Next(i) == (count + 1) % (s.Room() + 1)
  {
    var m, q := s.Room() + 1, count / (s.Room() + 1);
    assert count == q * m + i;
    if i == s.Room() {
      assert count + 1 == (q + 1) * m + 0;
      ModIs(count + 1, q + 1, m, 0);
    } else {
      ModIs(count + 1, q, m, i + 1);
    }
  }

  /** Each index is the number of calls that moved it, round the ring. */
  ghost predicate Counted<T>(s: Shape, w: World<T>) {
    w.write == |Puts(w.log)| % (s.Room() + 1) && w.read == |Takes(w.log)| % (s.Room() + 1)
  }

  /** What a step adds to the log, and the index it moves with it. */
  ghost predicate Adds<T>(s: Shape, w: World<T>, v: World<T>, added: seq<Event<T>>) {
    && |added| <= 1 && v.log == w.log + added
    && v.write == (if added != [] && added[0].Put? then s.Next(w.write) else w.write)
    && v.read == (if added != [] && added[0].Took? then s.Next(w.read) else w.read)
  }

  lemma AddsNothing<T>(s: Shape, w: World<T>, v: World<T>)
    requires v.log == w.log && v.write == w.write && v.read == w.read
    ensures Adds(s, w, v, [])
  {
    assert w.log + [] == w.log;
  }

  lemma ProducerAdds<T>(s: Shape, w: World<T>, swapped: bool) returns (added: seq<Event<T>>)
    requires |w.buffer| == s.capacity + 1 && (w.producer.Advancing? ==> w.producer.index == w.write)
    ensures Adds(s, w, StepProducer(s, w, swapped), added) && forall e | e in added :: e.ByProducer()
  {
    var v := StepProducer(s, w, swapped);
    if w.producer.Advancing? {
      added := [Put(w.producer.item)];
    } else if v.log != w.log {
      added := [Full(w.producer.item)];
    } else {
      added := [];
      AddsNothing(s, w, v);
    }
  }

  lemma ConsumerAdds<T>(s: Shape, w: World<T>, swapped: bool) returns (added: seq<Event<T>>)
    requires w.consumer.Leaving? ==> w.consumer.index == w.read
    ensures Adds(s, w, StepConsumer(s, w, swapped), added) && forall e | e in added :: !e.ByProducer()
  {
    var v := StepConsumer(s, w, swapped);
    if w.consumer.Leaving? {
      added := [Took(w.consumer.item)];
    } else if w.consumer.Reading? && v.log != w.log {
      added := [Looked(w.buffer[w.consumer.index])];
    } else if v.log != w.log {
      added := [Empty];
    } else {
      added := [];
      AddsNothing(s, w, v);
    }
  }

  lemma StepAdds<T>(s: Shape, w: World<T>, m: Move<T>) returns (added: seq<Event<T>>)
    requires Invariant(s, w)
    ensures Adds(s, w, Step(s, w, m), added) && forall e | e in added :: e.ByProducer() == !ByConsumer(m)
  {
    match m
    case Produce(swapped) => added := ProducerAdds(s, w, swapped);
    case Consume(swapped) => added := ConsumerAdds(s, w, swapped);
    case _ =>
      added := [];
      AddsNothing(s, w, Step(s, w, m));
  }

  lemma OneEventCounts<T>(log: seq<Event<T>>, e: Event<T>)
    ensures if e.Put? then |Puts(log + [e])| == |Puts(log)| + 1 else Puts(log + [e]) == Puts(log)
    ensures if e.Took? then |Takes(log + [e])| == |Takes(log)| + 1 else Takes(log + [e]) == Takes(log)
  {
    OneMore(log, e);
    assert Puts(log) + [] == Puts(log) && Takes(log) + [] == Takes(log);
  }

  lemma AddedCounts<T>(s: Shape, w: World<T>, v: World<T>, added: seq<Event<T>>)
    requires s.Valid() && Counted(s, w) && Adds(s, w, v, added)
    ensures Counted(s, v) && |Puts(w.log)| <= |Puts(v.log)| && |Takes(w.log)| <= |Takes(v.log)|
    ensures (forall e | e in added :: !e.ByProducer()) ==> Puts(v.log) == Puts(w.log)
    ensures (forall e | e in added :: e.ByProducer()) ==> Takes(v.log) == Takes(w.log)
  {
    if added == [] {
      assert v.log == w.log;
    } else {
      var e := added[0];
      assert added == [e] && e in added;
      OneEventCounts(w.log, e);
      if e.Put? { NextIs(s, w.write, |Puts(w.log)|); }
      if e.Took? { NextIs(s, w.read, |Takes(w.log)|); }
    }
  }

  /** One step adds at most one put, by the producer, or one item taken, by the consumer. */
  lemma StepCounts<T>(s: Shape, w: World<T>, m: Move<T>)
    requires Invariant(s, w) && Counted(s, w)
    ensures var v := Step(s, w, m);
      && Counted(s, v)
      && |Puts(w.log)| <= |Puts(v.log)| && |Takes(w.log)| <= |Takes(v.log)|
      && (ByConsumer(m) ==> Puts(v.log) == Puts(w.log)) && (!ByConsumer(m) ==> Takes(v.log) == Takes(w.log))
  {
    var added := StepAdds(s, w, m);
    AddedCounts(s, w, Step(s, w, m), added);
  }

  predicate ByConsumer<T>(m: Move<T>) { m.Dequeue? || m.Consume? }

  lemma {:induction false} EveryRunCounts<T>(s: Shape, start: seq<T>, moves: seq<Move<T>>)
    requires s.Valid() && |start| == s.capacity + 1
    ensures Counted(s, Run(s, start, moves))
    decreases moves
  {
    if moves != [] {
      var before := moves[..|moves| - 1];
      EveryRunCounts(s, start, before);
      EveryInterleaving(s, start, before);
      StepCounts(s, Run(s, start, before), moves[|moves| - 1]);
    }
  }

  lemma {:induction false} CountsGrow<T>(s: Shape, start: seq<T>, moves: seq<Move<T>>, more: seq<Move<T>>)
    requires s.Valid() && |start| == s.capacity + 1
    ensures var w, v := Run(s, start, moves), Run(s, start, moves + more);
      && |Puts(w.log)| <= |Puts(v.log)| && |Takes(w.log)| <= |Takes(v.log)|
      && ((forall m | m in more :: ByConsumer(m)) ==> Puts(v.log) == Puts(w.log))
      && ((forall m | m in more :: !ByConsumer(m)) ==> Takes(v.log) == Takes(w.log))
    decreases more
  {
    if more == [] {
      assert moves + more == moves;
    } else {
      var before, m := more[..|more| - 1], more[|more| - 1];
      CountsGrow(s, start, moves, before);
      assert moves + more == (moves + before) + [m];
      OneMove(s, start, moves + before, m);
      EveryRunCounts(s, start, moves + before);
      EveryInterleaving(s, start, moves + before);
      StepCounts(s, Run(s, start, moves + before), m);
    }
  }

  /** The number of items in the buffer. */
  ghost function Items<T>(s: Shape, w: World<T>): int { |Puts(w.log)| - |Takes(w.log)| }

  lemma PendingWraps(s: Shape, write: nat, read: nat, puts: nat, takes: nat)
    requires s.Valid() && write == puts % (s.Room() + 1) && read == takes % (s.Room() + 1)
    ensures 0 <= s.Pending(write, read) <= s.Room() && s.Pending(write, read) == (puts - takes) % (s.Room() + 1)
  {
    var m := s.Room() + 1;
    var p, t := puts / m, takes / m;
    assert puts == p * m + write && takes == t * m + read;
    if write >= read {
      assert puts - takes == (p - t) * m + (write - read);
      ModIs(puts - takes, p - t, m, write - read);
    } else {
      assert puts - takes == (p - t - 1) * m + s.Pending(write, read);
      ModIs(puts - takes, p - t - 1, m, s.Pending(write, read));
    }
  }

  lemma InBounds<T>(s: Shape, start: seq<T>, moves: seq<Move<T>>)
    requires s.Valid() && |start| == s.capacity + 1
    ensures var w := Run(s, start, moves);
      w.write <= s.Room() && w.read <= s.Room() && 0 <= Items(s, w) <= s.Room() && Counted(s, w)
  {
    EveryInterleaving(s, start, moves);
    TakesArePuts(s.Room(), Run(s, start, moves).log);
    EveryRunCounts(s, start, moves);
  }

  /** A number below the room is itself when wrapped into it; a negative one is not. */
  lemma WrappedIs(s: Shape, left: int)
    requires left <= s.Room()
    ensures left % (s.Room() + 1) == left <==> left >= 0
  {
    if left >= 0 { ModIs(left, 0, s.Room() + 1, left); }
  }

  /**
   * Whatever both threads do between the two loads, size() answers with the number of items at the first
   * load less those taken by the second, wrapped into the room: that number itself exactly when no more were
   * taken in between than there were.
   */
  lemma SizeBetweenLoads<T>(s: Shape, start: seq<T>, moves: seq<Move<T>>, more: seq<Move<T>>)
    requires s.Valid() && |start| == s.capacity + 1 && Countable(s)
    ensures var w, v := Run(s, start, moves), Run(s, start, moves + more);
      var left := Items(s, w) - (|Takes(v.log)| - |Takes(w.log)|);
      && 0 <= s.SizeOf(w.write, v.read) <= s.Room()
      && s.SizeOf(w.write, v.read) == left % (s.Room() + 1)
      && (s.SizeOf(w.write, v.read) == left <==> left >= 0)
  {
    var w, v := Run(s, start, moves), Run(s, start, moves + more);
    InBounds(s, start, moves);
    InBounds(s, start, moves + more);
    CountsGrow(s, start, moves, more);
    CountableIsExact(s, w.write, v.read);
    PendingWraps(s, w.write, v.read, |Puts(w.log)|, |Takes(v.log)|);
    WrappedIs(s, |Puts(w.log)| - |Takes(v.log)|);
  }

  /**
   * Asked by the producer, while only the consumer moves, size() is the number of items at its second load;
   * asked by the consumer, the number at its first. So the producer is never told of more room than there is,
   * nor the consumer of more items.
   */
  lemma SizeForThreads<T>(s: Shape, start: seq<T>, moves: seq<Move<T>>, more: seq<Move<T>>)
    requires s.Valid() && |start| == s.capacity + 1 && Countable(s)
    ensures var w, v := Run(s, start, moves), Run(s, start, moves + more);
      && ((forall m | m in more :: ByConsumer(m)) ==> s.SizeOf(w.write, v.read) == Items(s, v) <= Items(s, w))
      && ((forall m | m in more :: !ByConsumer(m)) ==> s.SizeOf(w.write, v.read) == Items(s, w) <= Items(s, v))
  {
    SizeBetweenLoads(s, start, moves, more);
    CountsGrow(s, start, moves, more);
    InBounds(s, start, moves);
    InBounds(s, start, moves + more);
  }
}
