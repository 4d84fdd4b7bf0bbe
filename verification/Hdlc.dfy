/**
 * Byte-stuffed frames with a two-byte checksum: what is sent for a payload, and what a decoder makes of
 * any stream. Nothing here depends on which checksum it is, only on both ends using the same one.
 */
module Hdlc {
  import opened Integers
  import opened Words

  const FLAG: u8 := 0x7E
  const ESCAPE: u8 := 0x7D
  const ESCAPE_XOR: u8 := 0x20
  const CRC_SIZE: nat := 2

  function Toggle(b: u8): (t: u8) {
    PowersOfTwo();
    XorBound(b, ESCAPE_XOR, 8);
    Xor(b, ESCAPE_XOR)
  }

  predicate Special(b: u8) { b == FLAG || b == ESCAPE }

  /** Toggling undoes itself, and takes the special bytes to ordinary ones. */
  lemma ToggleIs(b: u8)
    ensures Toggle(Toggle(b)) == b
    ensures Special(b) ==> !Special(Toggle(b))
  {
    XorTwice(b, ESCAPE_XOR);
    TogglesTo();
  }

  lemma TogglesTo()
    ensures Toggle(FLAG) == 0x5E && Toggle(ESCAPE) == 0x5D
  {
    assert Xor(3, 1) == 2 && Xor(7, 2) == 5;
    assert Xor(0xF, 4) == 0xB && Xor(0x1F, 8) == 0x17;
    assert Xor(0x3F, 0x10) == 0x2F && Xor(0x3E, 0x10) == 0x2E;
  }

  /** The capacity of a decoder, in bytes of payload, and the checksum both ends use. */
  datatype Link = Link(capacity: nat, sum: seq<u8> -> u16)

  /** Low byte first. */
  function Trailer(k: Link, payload: seq<u8>): (t: seq<u8>)
    ensures |t| == CRC_SIZE
  {
    [k.sum(payload) % 0x100, k.sum(payload) / 0x100]
  }

  // Sending.

  function StuffByte(b: u8): seq<u8> { if Special(b) then [ESCAPE, Toggle(b)] else [b] }

  function Stuff(s: seq<u8>): seq<u8> {
    if s == [] then [] else Stuff(s[..|s| - 1]) + StuffByte(s[|s| - 1])
  }

  function Encode(k: Link, payload: seq<u8>): seq<u8> {
    [FLAG] + Stuff(payload + Trailer(k, payload)) + [FLAG]
  }

  // Receiving, a byte at a time.

  /** The bytes of the frame so far, whether there is one, and whether an escape is waiting. */
  datatype Decoder = Decoder(body: seq<u8>, inFrame: bool, escaped: bool)

  const FRESH := Decoder([], false, false)
  const CLEAN := Decoder([], true, false)

  predicate ValidBody(k: Link, body: seq<u8>) {
    |body| > CRC_SIZE && body[|body| - CRC_SIZE..] == Trailer(k, body[..|body| - CRC_SIZE])
  }

  /** The payload a flag completes, if it completes one. */
  function Closed(k: Link, d: Decoder): seq<seq<u8>> {
    if d.inFrame && !d.escaped && ValidBody(k, d.body) then [d.body[..|d.body| - CRC_SIZE]] else []
  }

  /** One byte, with room for a frame of capacity bytes and its CRC. */
  function Push(k: Link, d: Decoder, b: u8): Decoder {
    if b == FLAG then CLEAN
    else if !d.inFrame then d
    else if !d.escaped && b == ESCAPE then d.(escaped := true)
    else if |d.body| >= k.capacity + CRC_SIZE then FRESH
    else Decoder(d.body + [if d.escaped then Toggle(b) else b], true, false)
  }

  function After(k: Link, d: Decoder, stream: seq<u8>): Decoder {
    if stream == [] then d else Push(k, After(k, d, stream[..|stream| - 1]), stream[|stream| - 1])
  }

  /** The payloads a stream yields, in order. */
  function Frames(k: Link, d: Decoder, stream: seq<u8>): seq<seq<u8>> {
    if stream == [] then []
    else
      Frames(k, d, stream[..|stream| - 1])
      + (if stream[|stream| - 1] == FLAG then Closed(k, After(k, d, stream[..|stream| - 1])) else [])
  }

  lemma {:induction false} Continues(k: Link, d: Decoder, first: seq<u8>, second: seq<u8>)
    ensures After(k, d, first + second) == After(k, After(k, d, first), second)
    ensures Frames(k, d, first + second)
         == Frames(k, d, first) + Frames(k, After(k, d, first), second)
    decreases second
  {
    if second == [] {
      assert first + second == first;
    } else {
      var n := |second| - 1;
      assert (first + second)[..|first + second| - 1] == first + second[..n];
      Continues(k, d, first, second[..n]);
    }
  }

  lemma AtFlag(k: Link, d: Decoder)
    ensures After(k, d, [FLAG]) == CLEAN && Frames(k, d, [FLAG]) == Closed(k, d)
  {
    assert [FLAG][..0] == [];
  }

  // A stream as a whole: the pieces between its flags.

  /** What the escapes of a piece stand for, and whether its last byte is an escape of nothing. */
  datatype Plain = Plain(body: seq<u8>, dangling: bool)

  function Unstuff(piece: seq<u8>): Plain {
    if piece == [] then Plain([], false)
    else if piece[0] != ESCAPE then
      var rest := Unstuff(piece[1..]);
      Plain([piece[0]] + rest.body, rest.dangling)
    else if |piece| == 1 then Plain([], true)
    else
      var rest := Unstuff(piece[2..]);
      Plain([Toggle(piece[1])] + rest.body, rest.dangling)
  }

  /** The payload of a piece that is a whole frame of allowed size with the right CRC. */
  function Accept(k: Link, piece: seq<u8>): seq<seq<u8>> {
    var plain := Unstuff(piece);
    if plain.dangling || |plain.body| > k.capacity + CRC_SIZE || !ValidBody(k, plain.body) then []
    else [plain.body[..|plain.body| - CRC_SIZE]]
  }

  function AcceptAll(k: Link, pieces: seq<seq<u8>>): seq<seq<u8>> {
    if pieces == [] then [] else AcceptAll(k, pieces[..|pieces| - 1]) + Accept(k, pieces[|pieces| - 1])
  }

  /** The stretches of a stream before, between and after its flags. */
  function Pieces(stream: seq<u8>): (pieces: seq<seq<u8>>)
    ensures pieces != []
  {
    if stream == [] then [[]]
    else
      var rest, b := Pieces(stream[..|stream| - 1]), stream[|stream| - 1];
      if b == FLAG then rest + [[]] else rest[..|rest| - 1] + [rest[|rest| - 1] + [b]]
  }

  lemma {:induction false} NoFlagInPieces(stream: seq<u8>)
    ensures forall piece | piece in Pieces(stream) :: FLAG !in piece
    decreases stream
  {
    if stream != [] {
      var rest := Pieces(stream[..|stream| - 1]);
      NoFlagInPieces(stream[..|stream| - 1]);
      assert rest[|rest| - 1] in rest;
      forall piece | piece in Pieces(stream) ensures FLAG !in piece {
        if piece in rest { } else { }
      }
    }
  }

  /** An escape in front of a byte, or a byte, is one more byte of the body. */
  lemma {:induction false} UnstuffMore(piece: seq<u8>, b: u8)
    ensures var plain, more := Unstuff(piece), Unstuff(piece + [b]);
      more == if plain.dangling then Plain(plain.body + [Toggle(b)], false)
              else if b == ESCAPE then Plain(plain.body, true)
              else Plain(plain.body + [b], false)
    decreases piece
  {
    if piece == [] {
      assert [b][1..] == [];
    } else if piece[0] != ESCAPE {
      assert (piece + [b])[1..] == piece[1..] + [b];
      UnstuffMore(piece[1..], b);
    } else if |piece| == 1 {
      assert (piece + [b])[2..] == [];
    } else {
      assert (piece + [b])[2..] == piece[2..] + [b];
      UnstuffMore(piece[2..], b);
    }
  }

  /** Inside a frame, the decoder holds what the bytes since the flag stand for, until there is too much. */
  lemma {:induction false} HoldsPiece(k: Link, piece: seq<u8>)
    requires FLAG !in piece
    ensures var plain := Unstuff(piece);
      After(k, CLEAN, piece)
      == if |plain.body| > k.capacity + CRC_SIZE then FRESH else Decoder(plain.body, true, plain.dangling)
    ensures Frames(k, CLEAN, piece) == []
    decreases piece
  {
    if piece != [] {
      var rest, b := piece[..|piece| - 1], piece[|piece| - 1];
      HoldsPiece(k, rest);
      UnstuffMore(rest, b);
      assert piece == rest + [b];
    }
  }

  /** Outside a frame, bytes that are not flags are skipped. */
  lemma {:induction false} SkipsPiece(k: Link, piece: seq<u8>)
    requires FLAG !in piece
    ensures After(k, FRESH, piece) == FRESH && Frames(k, FRESH, piece) == []
    decreases piece
  {
    if piece != [] { SkipsPiece(k, piece[..|piece| - 1]); }
  }

  /** What the decoder makes of a piece when its closing flag comes. */
  lemma PieceCloses(k: Link, piece: seq<u8>)
    requires FLAG !in piece
    ensures Closed(k, After(k, CLEAN, piece)) == Accept(k, piece)
    ensures Closed(k, After(k, FRESH, piece)) == []
  {
    SkipsPiece(k, piece);
    HoldsPiece(k, piece);
  }

  /** The pieces that have a flag on both sides. */
  function Interior(pieces: seq<seq<u8>>): seq<seq<u8>> { if |pieces| <= 1 then [] else pieces[1..|pieces| - 1] }

  function Before(pieces: seq<seq<u8>>): Decoder { if |pieces| <= 1 then FRESH else CLEAN }

  lemma FlagEndsPiece(k: Link, pieces: seq<seq<u8>>, last: seq<u8>)
    requires pieces != [] && last == pieces[|pieces| - 1] && FLAG !in last
    ensures AcceptAll(k, Interior(pieces + [[]]))
         == AcceptAll(k, Interior(pieces)) + Closed(k, After(k, Before(pieces), last))
  {
    PieceCloses(k, last);
    var more := Interior(pieces + [[]]);
    if |pieces| == 1 {
      assert more == [];
    } else {
      assert more == Interior(pieces) + [last];
      assert more[..|more| - 1] == Interior(pieces);
    }
  }

  /** In the middle of a stream: what the decoder does with the last piece, and has done with those before. */
  lemma {:induction false} DecodesPieces(k: Link, stream: seq<u8>, pieces: seq<seq<u8>>, last: seq<u8>)
    requires pieces == Pieces(stream) && last == pieces[|pieces| - 1]
    ensures After(k, FRESH, stream) == After(k, Before(pieces), last)
    ensures Frames(k, FRESH, stream) == AcceptAll(k, Interior(pieces))
    decreases stream
  {
    if stream != [] {
      var rest, b := stream[..|stream| - 1], stream[|stream| - 1];
      var shorter := Pieces(rest);
      var partial := shorter[|shorter| - 1];
      DecodesPieces(k, rest, shorter, partial);
      NoFlagInPieces(rest);
      if b == FLAG {
        FlagEndsPiece(k, shorter, partial);
      } else {
        assert last == partial + [b] && last[..|last| - 1] == partial;
        assert Interior(pieces) == Interior(shorter);
      }
    }
  }

  /**
   * On every stream of bytes the decoder yields exactly the payloads of the pieces that lie between two
   * flags, are whole frames within the capacity and carry the right CRC, in order.
   */
  lemma DecoderIsExact(k: Link, stream: seq<u8>)
    ensures Frames(k, FRESH, stream) == AcceptAll(k, Interior(Pieces(stream)))
  {
    var pieces := Pieces(stream);
    DecodesPieces(k, stream, pieces, pieces[|pieces| - 1]);
  }

  /**
   * A piece yields a payload exactly when its bytes, freed of escapes, are that payload and its checksum, low byte
   * first, and the payload is neither empty nor past the capacity.
   */
  lemma YieldsIff(k: Link, piece: seq<u8>, p: seq<u8>)
    ensures Accept(k, piece) == [p] <==>
      && Unstuff(piece) == Plain(p + [k.sum(p) % 0x100, k.sum(p) / 0x100], false)
      && 0 < |p| <= k.capacity
    ensures |Accept(k, piece)| <= 1
  {
    var body, whole := Unstuff(piece).body, p + [k.sum(p) % 0x100, k.sum(p) / 0x100];
    assert whole[..|whole| - CRC_SIZE] == p && whole[|whole| - CRC_SIZE..] == Trailer(k, p);
    if |body| >= CRC_SIZE { assert body == body[..|body| - CRC_SIZE] + body[|body| - CRC_SIZE..]; }
  }

  /** The two bytes that may not appear as they are, and what is sent for them. */
  lemma EscapesAre(b: u8)
    ensures Stuff([b]) == if b == 0x7E then [0x7D, 0x5E] else if b == 0x7D then [0x7D, 0x5D] else [b]
  {
    TogglesTo();
    assert [b][..0] == [];
    assert Stuff([b]) == Stuff([]) + StuffByte(b);
  }

  // Round trips.

  /** Stuffing hides every flag and is undone by unstuffing. */
  lemma {:induction false} StuffRoundTrip(s: seq<u8>)
    ensures FLAG !in Stuff(s) && Unstuff(Stuff(s)) == Plain(s, false)
    decreases s
  {
    if s != [] {
      var rest, b := s[..|s| - 1], s[|s| - 1];
      StuffRoundTrip(rest);
      ToggleIs(b);
      assert s == rest + [b];
      if Special(b) {
        assert Stuff(s) == (Stuff(rest) + [ESCAPE]) + [Toggle(b)];
        UnstuffMore(Stuff(rest), ESCAPE);
        UnstuffMore(Stuff(rest) + [ESCAPE], Toggle(b));
      } else {
        UnstuffMore(Stuff(rest), b);
      }
    }
  }

  /** A stuffed body between flags, wherever the decoder was before. */
  lemma BodyDecodes(k: Link, d: Decoder, body: seq<u8>)
    ensures var frame := [FLAG] + Stuff(body) + [FLAG];
      && After(k, d, frame) == CLEAN
      && Frames(k, d, frame) == Closed(k, d) + (if |body| > k.capacity + CRC_SIZE then [] else Closed(k, Decoder(body, true, false)))
  {
    var s := Stuff(body);
    AtFlag(k, d);
    StuffRoundTrip(body);
    HoldsPiece(k, s);
    AtFlag(k, After(k, CLEAN, s));
    Continues(k, d, [FLAG], s);
    Continues(k, d, [FLAG] + s, [FLAG]);
  }

  /** Whatever the decoder was doing, an encoded frame within the capacity ends that and yields its payload. */
  lemma FrameDecodes(k: Link, d: Decoder, payload: seq<u8>)
    requires 0 < |payload| <= k.capacity
    ensures After(k, d, Encode(k, payload)) == CLEAN
    ensures Frames(k, d, Encode(k, payload)) == Closed(k, d) + [payload]
  {
    var body := payload + Trailer(k, payload);
    BodyDecodes(k, d, body);
    assert body[..|body| - CRC_SIZE] == payload && body[|body| - CRC_SIZE..] == Trailer(k, payload);
  }

  lemma Associative<T>(x: seq<T>, y: seq<T>, z: seq<T>)
    ensures (x + y) + z == x + (y + z)
  {}

  lemma NothingBefore<T>(x: seq<T>)
    ensures [] + x == x
  {}

  function EncodeAll(k: Link, payloads: seq<seq<u8>>): seq<u8> {
    if payloads == [] then [] else EncodeAll(k, payloads[..|payloads| - 1]) + Encode(k, payloads[|payloads| - 1])
  }

  lemma OneMoreFrame(k: Link, d: Decoder, before: seq<u8>, out: seq<seq<u8>>, payload: seq<u8>)
    requires 0 < |payload| <= k.capacity && Frames(k, d, before) == out
    ensures Frames(k, d, before + Encode(k, payload)) == out + (Closed(k, After(k, d, before)) + [payload])
    ensures After(k, d, before + Encode(k, payload)) == CLEAN
  {
    Continues(k, d, before, Encode(k, payload));
    FrameDecodes(k, After(k, d, before), payload);
  }

  lemma {:induction false} StreamFrom(k: Link, d: Decoder, payloads: seq<seq<u8>>)
    requires forall p | p in payloads :: 0 < |p| <= k.capacity
    requires payloads != []
    ensures Frames(k, d, EncodeAll(k, payloads)) == Closed(k, d) + payloads
    ensures After(k, d, EncodeAll(k, payloads)) == CLEAN
    decreases payloads
  {
    var rest, last := payloads[..|payloads| - 1], payloads[|payloads| - 1];
    assert payloads == rest + [last] && last in payloads;
    OneMoreFrame(k, d, EncodeAll(k, rest), Frames(k, d, EncodeAll(k, rest)), last);
    if rest == [] {
      NothingBefore(Closed(k, d) + [last]);
    } else {
      StreamFrom(k, d, rest);
      NothingBefore([last]);
      Associative(Closed(k, d), rest, [last]);
    }
  }

  /** Payloads encoded one after another come out exactly, in order. */
  lemma StreamRoundTrip(k: Link, payloads: seq<seq<u8>>)
    requires forall p | p in payloads :: 0 < |p| <= k.capacity
    ensures Frames(k, FRESH, EncodeAll(k, payloads)) == payloads
  {
    if payloads != [] { StreamFrom(k, FRESH, payloads); }
  }

  /** And after any noise at all: the first flag at most completes a frame of the noise. */
  lemma Resynchronizes(k: Link, noise: seq<u8>, payloads: seq<seq<u8>>)
    requires payloads != [] && forall p | p in payloads :: 0 < |p| <= k.capacity
    ensures Frames(k, FRESH, noise + EncodeAll(k, payloads)) == Frames(k, FRESH, noise + [FLAG]) + payloads
  {
    var d, before := After(k, FRESH, noise), Frames(k, FRESH, noise);
    Continues(k, FRESH, noise, EncodeAll(k, payloads));
    StreamFrom(k, d, payloads);
    Continues(k, FRESH, noise, [FLAG]);
    AtFlag(k, d);
    Associative(before, Closed(k, d), payloads);
  }

  /** A frame whose body is not a payload with its own CRC yields nothing. */
  lemma InvalidDropped(k: Link, body: seq<u8>)
    requires !ValidBody(k, body)
    ensures Frames(k, FRESH, [FLAG] + Stuff(body) + [FLAG]) == []
  {
    BodyDecodes(k, FRESH, body);
  }
}
