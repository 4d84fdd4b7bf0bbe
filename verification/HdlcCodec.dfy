/**
 * The encoder and the two decoders of HDLC frames as written: one over a fixed buffer that stops at each
 * frame until it is consumed, one over a growing buffer that is fed chunks.
 */
module HdlcCodec {
  import opened Integers
  import opened Words
  import C = Crc
  import opened Hdlc
  import opened HdlcCrc

  /** The checksum as the frame code asks for it. */
  method Compute(payload: seq<u8>) returns (crc: u16)
    ensures crc == Sum(payload)
  {
    C.CcittFalseQualifies();
    PowersOfTwo();
    crc := C.CrcBitwise(C.CCITT_FALSE, payload, C.CCITT_FALSE.initial, C.WHOLE);
    NumberIs(SumBits(payload));
    SameBits(crc, Sum(payload), 16);
  }

  /** The checksum written out a second time, over a register that is masked after every shift. */
  method Crc16CcittFalse(data: seq<u8>) returns (result: u16)
    ensures result == Sum(data)
  {
    C.CcittFalseQualifies();
    PowersOfTwo();
    result := 0xFFFF;
    ghost var poly, start := C.CCITT_FALSE.Poly(), Bits(0xFFFF, 16);
    for i := 0 to |data|
      invariant Bits(result, 16) == C.Feed(poly, start, data[..i])
    {
      C.FeedNext(poly, start, data, i);
      result := MaskedByte(result, data[i]);
    }
    assert data[..|data|] == data;
    ClosingXor(data);
    NumberIs(SumBits(data));
    SameBits(result, Sum(data), 16);
  }

  /** This algorithm's final exclusive or is with nothing. */
  lemma ClosingXor(data: seq<u8>)
    ensures C.CCITT_FALSE.Valid() && SumBits(data) == C.Feed(C.CCITT_FALSE.Poly(), Bits(0xFFFF, 16), data)
  {
    C.CcittFalseQualifies();
    ZeroIs(16);
  }

  method MaskedByte(r: u16, byte: u8) returns (result: u16)
    ensures Bits(result, 16) == C.Feed(C.CCITT_FALSE.Poly(), Bits(r, 16), [byte])
  {
    C.CcittFalseQualifies();
    PowersOfTwo();
    result := C.LoadByte(C.CCITT_FALSE, r, byte);
    ghost var loaded := Bits(result, 16);
    for bit := 0 to 8
      invariant Bits(result, 16) == C.Shifts(C.CCITT_FALSE.Poly(), loaded, bit)
    {
      C.ShiftsMore(C.CCITT_FALSE.Poly(), loaded, bit);
      result := MaskedShift(result);
    }
    assert [byte][1..] == [];
  }

  /** Shifting first and cutting the carry off last comes to the same. */
  lemma WideShift(a: C.Algorithm, r: nat)
    requires a.Valid() && r < Pow2(a.width)
    ensures Bits(if r >= Pow2(a.width - 1) then Xor(2 * r, a.polynomial) else 2 * r, a.width)
         == C.Shift(a.Poly(), Bits(r, a.width))
  {
    DoubleIs(r, a.width);
    FirstBit(r, a.width - 1);
    if r >= Pow2(a.width - 1) {
      HighIgnored(2 * r - Pow2(a.width), a.width);
      XorIs(2 * r, a.polynomial, a.width);
    }
  }

  lemma HighestBit()
    ensures Pow2(15) == 0x8000
  {
    PowersOfTwo();
  }

  method MaskedShift(r: u16) returns (result: u16)
    ensures Bits(result, 16) == C.Shift(C.CCITT_FALSE.Poly(), Bits(r, 16))
  {
    C.CcittFalseQualifies();
    PowersOfTwo();
    HighestBit();
    WideShift(C.CCITT_FALSE, r);
    var polynomial := 0x1021;
    var wide := if r >= 0x8000 then Xor(2 * r, polynomial) else 2 * r;
    CutCarry(wide);
    result := wide % 0x1_0000;
  }

  // Encoding.

  method StuffedSize(byte: u8) returns (size: nat)
    ensures size == |StuffByte(byte)|
  {
    size := if byte == FLAG || byte == ESCAPE then 2 else 1;
  }

  lemma StuffNext(s: seq<u8>, i: nat)
    requires i < |s|
    ensures Stuff(s[..i + 1]) == Stuff(s[..i]) + StuffByte(s[i])
  {
    assert s[..i + 1][..i] == s[..i];
  }

  lemma {:induction false} StuffFits(s: seq<u8>, i: nat)
    requires i <= |s|
    ensures |Stuff(s[..i])| <= |Stuff(s)|
    decreases |s| - i
  {
    if i < |s| {
      StuffNext(s, i);
      StuffFits(s, i + 1);
    } else {
      assert s[..i] == s;
    }
  }

  /** The exact size of an encoded frame, or zero when there is nothing to send. */
  method EncodedSize(ghost k: Link, payload: seq<u8>) returns (size: nat)
    requires OverCrc(k)
    ensures size == if payload == [] then 0 else |Encode(k, payload)|
  {
    if payload == [] {
      return 0;
    }
    ghost var body := payload + Trailer(k, payload);
    size := 2;
    for i := 0 to |payload|
      invariant size == 2 + |Stuff(body[..i])|
    {
      StuffNext(body, i);
      var more := StuffedSize(payload[i]);
      size := size + more;
    }
    var crc := Compute(payload);
    assert k.sum(payload) == crc;
    StuffNext(body, |payload|);
    StuffNext(body, |payload| + 1);
    var low := StuffedSize(crc % 0x100);
    var high := StuffedSize(crc / 0x100);
    assert body[..|payload| + 2] == body;
    size := size + low + high;
  }

  /** One byte, escaped if need be, at the moving index. */
  method Put(frame: array<u8>, index: nat, byte: u8) returns (next: nat)
    requires index + |StuffByte(byte)| <= frame.Length
    modifies frame
    ensures next == index + |StuffByte(byte)|
    ensures frame[..next] == old(frame[..index]) + StuffByte(byte) && frame[next..] == old(frame[next..])
  {
    if byte == FLAG || byte == ESCAPE {
      frame[index] := ESCAPE;
      frame[index + 1] := Toggle(byte);
      next := index + 2;
    } else {
      frame[index] := byte;
      next := index + 1;
    }
  }

  /** Bytes from the caller, one after another. */
  method PutAll(frame: array<u8>, start: nat, bytes: seq<u8>) returns (next: nat)
    requires start + |Stuff(bytes)| <= frame.Length
    modifies frame
    ensures next == start + |Stuff(bytes)|
    ensures frame[..next] == old(frame[..start]) + Stuff(bytes) && frame[next..] == old(frame[next..])
  {
    next := start;
    assert bytes[..0] == [];
    for i := 0 to |bytes|
      invariant next == start + |Stuff(bytes[..i])| <= frame.Length
      invariant frame[..next] == old(frame[..start]) + Stuff(bytes[..i]) && frame[next..] == old(frame[next..])
    {
      StuffNext(bytes, i);
      StuffFits(bytes, i + 1);
      ghost var before := next;
      next := Put(frame, next, bytes[i]);
      assert old(frame[before..])[next - before..] == old(frame[next..]);
      Associative(old(frame[..start]), Stuff(bytes[..i]), StuffByte(bytes[i]));
    }
    assert bytes[..|bytes|] == bytes;
  }

  /** A whole frame in the caller's storage, or nothing at all. */
  method EncodeFrame(ghost k: Link, payload: seq<u8>, frame: array<u8>) returns (size: nat)
    requires OverCrc(k)
    modifies frame
    ensures size <= frame.Length && frame[size..] == old(frame[size..])
    ensures if payload == [] || frame.Length < |Encode(k, payload)| then size == 0 else frame[..size] == Encode(k, payload)
  {
    var required := EncodedSize(k, payload);
    if frame.Length == 0 || required == 0 || frame.Length < required {
      return 0;
    }
    size := WriteFrame(k, payload, frame);
  }

  method WriteFrame(ghost k: Link, payload: seq<u8>, frame: array<u8>) returns (size: nat)
    requires OverCrc(k) && |Encode(k, payload)| <= frame.Length
    modifies frame
    ensures size <= frame.Length && frame[..size] == Encode(k, payload) && frame[size..] == old(frame[size..])
  {
    var crc := Compute(payload);
    var trailer: seq<u8> := [crc % 0x100, crc / 0x100];
    EncodeParts(k, payload, crc, trailer);
    size := PutBody(frame, payload, trailer);
    assert old(frame[size..])[1..] == old(frame[size + 1..]);
    size := PutFlag(frame, size);
  }

  method PutFlag(frame: array<u8>, index: nat) returns (next: nat)
    requires index < frame.Length
    modifies frame
    ensures next == index + 1 && frame[..next] == old(frame[..index]) + [FLAG]
    ensures frame[next..] == old(frame[index..])[1..]
  {
    frame[index] := FLAG;
    next := index + 1;
  }

  method PutBody(frame: array<u8>, payload: seq<u8>, trailer: seq<u8>) returns (size: nat)
    requires 1 + |Stuff(payload)| + |Stuff(trailer)| <= frame.Length
    modifies frame
    ensures size == 1 + |Stuff(payload)| + |Stuff(trailer)|
    ensures frame[..size] == ([FLAG] + Stuff(payload)) + Stuff(trailer)
    ensures frame[size..] == old(frame[size..])
  {
    frame[0] := FLAG;
    assert frame[..1] == [FLAG];
    size := PutAll(frame, 1, payload);
    size := PutAll(frame, size, trailer);
  }

  lemma EncodeParts(k: Link, payload: seq<u8>, crc: u16, trailer: seq<u8>)
    requires OverCrc(k) && crc == Sum(payload) && trailer == [crc % 0x100, crc / 0x100]
    ensures Encode(k, payload) == (([FLAG] + Stuff(payload)) + Stuff(trailer)) + [FLAG]
  {
    assert k.sum(payload) == crc;
    StuffAppend(payload, trailer);
    Associative([FLAG], Stuff(payload), Stuff(trailer));
  }

  lemma {:induction false} StuffAppend(x: seq<u8>, y: seq<u8>)
    ensures Stuff(x + y) == Stuff(x) + Stuff(y)
    decreases y
  {
    if y == [] {
      assert x + y == x;
    } else {
      assert (x + y)[..|x + y| - 1] == x + y[..|y| - 1];
      StuffAppend(x, y[..|y| - 1]);
    }
  }

  method Append(encoded: seq<u8>, byte: u8) returns (more: seq<u8>)
    ensures more == encoded + StuffByte(byte)
  {
    if byte == FLAG || byte == ESCAPE {
      more := encoded + [ESCAPE];
      more := more + [Toggle(byte)];
    } else {
      more := encoded + [byte];
    }
  }

  /** The frame in a new buffer; this one also encodes an empty payload. */
  method EncodeHdlcFrame(ghost k: Link, frame: seq<u8>) returns (encoded: seq<u8>)
    requires OverCrc(k)
    ensures encoded == Encode(k, frame)
  {
    var crc := Crc16CcittFalse(frame);
    assert k.sum(frame) == crc;
    var protected: seq<u8> := frame + [crc % 0x100, crc / 0x100];
    encoded := [FLAG];
    for i := 0 to |protected|
      invariant encoded == [FLAG] + Stuff(protected[..i])
    {
      StuffNext(protected, i);
      Associative([FLAG], Stuff(protected[..i]), StuffByte(protected[i]));
      encoded := Append(encoded, protected[i]);
    }
    assert protected[..|protected|] == protected;
    encoded := encoded + [FLAG];
  }

  // Decoding into a fixed buffer.

  /** The last two bytes read as a number are the sum of the rest exactly when the body is valid. */
  lemma ValidWhenEqual(k: Link, body: seq<u8>, crc: u16)
    requires OverCrc(k) && |body| > CRC_SIZE && crc == Sum(body[..|body| - CRC_SIZE])
    ensures var low: nat, high: nat := body[|body| - CRC_SIZE], body[|body| - 1];
      ValidBody(k, body) <==> low + high * 0x100 == crc
  {
    assert k.sum(body[..|body| - CRC_SIZE]) == crc;
    assert body[|body| - CRC_SIZE..] == [body[|body| - CRC_SIZE], body[|body| - 1]];
  }

  class HdlcDecoder {
    const capacity: nat
    const buffer: array<u8>
    var size: nat
    var inFrame: bool
    var escaped: bool
    var ready: bool
    ghost const link: Link

    ghost predicate Valid()
      reads this, buffer
    {
      && OverCrc(link) && link.capacity == capacity
      && buffer.Length == capacity + CRC_SIZE && size <= buffer.Length
      && (!inFrame ==> size == 0 && !escaped && !ready)
      && (ready ==> !escaped)
    }

    /** What it holds of the stream, between frames. */
    ghost function State(): Decoder
      reads this, buffer
      requires Valid()
    {
      if ready then CLEAN else Decoder(buffer[..size], inFrame, escaped)
    }

    constructor (ghost k: Link, frameCapacity: nat)
      requires OverCrc(k) && k.capacity == frameCapacity
      ensures Valid() && State() == FRESH && !ready && link == k
      ensures fresh(buffer)
    {
      capacity := frameCapacity;
      buffer := new u8[frameCapacity + CRC_SIZE];
      size, inFrame, escaped, ready := 0, false, false, false;
      link := k;
    }

    method HasValidCrc() returns (valid: bool)
      requires Valid()
      ensures valid <==> ValidBody(link, buffer[..size])
    {
      if size <= CRC_SIZE {
        return false;
      }
      var payloadSize := size - CRC_SIZE;
      var low: nat, high: nat := buffer[payloadSize], buffer[payloadSize + 1];
      var received := low + high * 0x100;
      ghost var body := buffer[..size];
      assert body[..payloadSize] == buffer[..payloadSize];
      var crc := Compute(buffer[..payloadSize]);
      ValidWhenEqual(link, body, crc);
      valid := received == crc;
    }

    /** The frame that is ready. */
    function Frame(): seq<u8>
      reads this, buffer
      requires Valid()
    {
      buffer[..size]
    }

    /** One byte. While a frame waits to be consumed, bytes are dropped. */
    method Accept(byte: u8) returns (complete: bool)
      requires Valid()
      modifies this`size, this`inFrame, this`escaped, this`ready, buffer
      ensures Valid() && complete == ready
      ensures old(ready) ==> ready && Frame() == old(Frame())
      ensures !old(ready) ==>
        && State() == Push(link, old(State()), byte)
        && (if byte == FLAG then Closed(link, old(State())) else []) == (if ready then [Frame()] else [])
    {
      if ready {
        return true;
      }
      if byte == FLAG {
        complete := CloseFrame();
        return;
      }
      complete := false;
      if !inFrame {
        return;
      }
      var plain := byte;
      if escaped {
        plain := Toggle(byte);
        escaped := false;
      } else if byte == ESCAPE {
        escaped := true;
        return;
      }
      if size >= buffer.Length {
        size, inFrame, escaped := 0, false, false;
        return;
      }
      buffer[size] := plain;
      size := size + 1;
    }

    method CloseFrame() returns (complete: bool)
      requires Valid() && !ready
      modifies this`size, this`inFrame, this`escaped, this`ready
      ensures Valid() && complete == ready && State() == CLEAN
      ensures Closed(link, old(State())) == if ready then [Frame()] else []
    {
      ghost var before := State();
      complete := inFrame && !escaped;
      if complete {
        complete := HasValidCrc();
      }
      ghost var closed := if complete then [before.body[..size - CRC_SIZE]] else [];
      ClosedIs(link, before, complete, closed);
      inFrame, escaped := true, false;
      if complete {
        size := size - CRC_SIZE;
        ready := true;
        assert buffer[..size] == before.body[..size];
      } else {
        size := 0;
      }
    }

    static lemma ClosedIs(k: Link, d: Decoder, complete: bool, closed: seq<seq<u8>>)
      requires complete <==> d.inFrame && !d.escaped && ValidBody(k, d.body)
      requires closed == if complete then [d.body[..|d.body| - CRC_SIZE]] else []
      ensures closed == Closed(k, d)
    {}

    method Consume()
      requires Valid() && ready
      modifies this`size, this`ready
      ensures Valid() && !ready && State() == old(State())
    {
      size, ready := 0, false;
    }

    /** Every frame is taken as soon as it is there. */
    method Drain(stream: seq<u8>) returns (frames: seq<seq<u8>>)
      requires Valid() && !ready
      modifies this`size, this`inFrame, this`escaped, this`ready, buffer
      ensures Valid() && !ready
      ensures frames == Frames(link, old(State()), stream) && State() == After(link, old(State()), stream)
    {
      frames := [];
      ghost var start := State();
      for i := 0 to |stream|
        invariant Valid() && !ready
        invariant frames == Frames(link, start, stream[..i]) && State() == After(link, start, stream[..i])
      {
        assert stream[..i + 1][..i] == stream[..i];
        var complete := Accept(stream[i]);
        if complete {
          frames := frames + [Frame()];
          Consume();
        }
      }
      assert stream[..|stream|] == stream;
    }
  }

  // Decoding chunks into a growing buffer.

  class HdlcStreamDecoder {
    const maximum: nat
    var frame: seq<u8>
    var inFrame: bool
    var escaped: bool
    ghost const link: Link

    ghost predicate Valid()
      reads this
    {
      OverCrc(link) && link.capacity == maximum && (!inFrame ==> frame == [] && !escaped)
      && |frame| <= maximum + CRC_SIZE
    }

    ghost function State(): Decoder
      reads this
    {
      Decoder(frame, inFrame, escaped)
    }

    constructor (ghost k: Link, maximumFrameSize: nat)
      requires OverCrc(k) && k.capacity == maximumFrameSize
      ensures Valid() && State() == FRESH && link == k
    {
      maximum := maximumFrameSize;
      frame, inFrame, escaped := [], false, false;
      link := k;
    }

    method Feed(data: seq<u8>) returns (frames: seq<seq<u8>>)
      requires Valid()
      modifies this`frame, this`inFrame, this`escaped
      ensures Valid()
      ensures frames == Frames(link, old(State()), data) && State() == After(link, old(State()), data)
    {
      frames := [];
      ghost var start := State();
      for i := 0 to |data|
        invariant Valid()
        invariant frames == Frames(link, start, data[..i]) && State() == After(link, start, data[..i])
      {
        assert data[..i + 1][..i] == data[..i];
        var byte := data[i];
        if byte == FLAG {
          var closed := CloseFrame();
          frames := frames + closed;
        } else {
          Extend(byte);
        }
      }
      assert data[..|data|] == data;
    }

    method CloseFrame() returns (closed: seq<seq<u8>>)
      requires Valid()
      modifies this`frame, this`inFrame, this`escaped
      ensures Valid() && State() == CLEAN && closed == Closed(link, old(State()))
    {
      closed := [];
      if inFrame && frame != [] && !escaped {
        if |frame| > CRC_SIZE {
          closed := Check();
        }
      }
      frame, inFrame, escaped := [], true, false;
    }

    method Check() returns (closed: seq<seq<u8>>)
      requires Valid() && |frame| > CRC_SIZE
      ensures closed == if ValidBody(link, frame) then [frame[..|frame| - CRC_SIZE]] else []
    {
      var body := frame[..|frame| - CRC_SIZE];
      var low: nat, high: nat := frame[|frame| - CRC_SIZE], frame[|frame| - 1];
      var received := low + high * 0x100;
      var expected := Crc16CcittFalse(body);
      ValidWhenEqual(link, frame, expected);
      closed := if received == expected then [body] else [];
    }

    /** A byte that is not a flag; a body found too long after it was added is dropped. */
    method Extend(byte: u8)
      requires Valid() && byte != FLAG
      modifies this`frame, this`inFrame, this`escaped
      ensures Valid() && State() == Push(link, old(State()), byte)
    {
      if !inFrame {
        return;
      }
      if escaped {
        frame := frame + [Toggle(byte)];
        escaped := false;
      } else if byte == ESCAPE {
        escaped := true;
      } else {
        frame := frame + [byte];
      }
      if |frame| > maximum + CRC_SIZE {
        frame, inFrame, escaped := [], false, false;
      }
    }
  }

  lemma {:induction false} ConcatMore(chunks: seq<seq<u8>>, chunk: seq<u8>)
    ensures C.Concat(chunks + [chunk]) == C.Concat(chunks) + chunk
    decreases chunks
  {
    if chunks == [] {
      assert [chunk][1..] == [] && C.Concat([chunk]) == chunk + [];
    } else {
      assert (chunks + [chunk])[1..] == chunks[1..] + [chunk];
      ConcatMore(chunks[1..], chunk);
      assert chunks[0] + (C.Concat(chunks[1..]) + chunk) == (chunks[0] + C.Concat(chunks[1..])) + chunk;
    }
  }

  /** The two decoders, built alike and given the same bytes, one at once and one in any chunks, yield the same frames. */
  method DecodersAgree(ghost k: Link, capacity: nat, data: seq<u8>, chunks: seq<seq<u8>>)
    returns (left: seq<seq<u8>>, right: seq<seq<u8>>)
    requires OverCrc(k) && k.capacity == capacity && data == C.Concat(chunks)
    ensures left == right == AcceptAll(k, Interior(Pieces(data)))
  {
    var fixed := new HdlcDecoder(k, capacity);
    var growing := new HdlcStreamDecoder(k, capacity);
    left := fixed.Drain(data);
    right := [];
    for i := 0 to |chunks|
      invariant growing.Valid() && growing.link == k
      invariant right == Frames(k, FRESH, C.Concat(chunks[..i])) && growing.State() == After(k, FRESH, C.Concat(chunks[..i]))
    {
      assert chunks[..i + 1] == chunks[..i] + [chunks[i]];
      ConcatMore(chunks[..i], chunks[i]);
      Continues(k, FRESH, C.Concat(chunks[..i]), chunks[i]);
      var more := growing.Feed(chunks[i]);
      right := right + more;
    }
    assert chunks[..|chunks|] == chunks;
    DecoderIsExact(k, data);
  }
}
