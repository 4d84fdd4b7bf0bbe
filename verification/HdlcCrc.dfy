/** The CRC the UART Link puts on its frames, and the damage it keeps from getting through. */
module HdlcCrc {
  import opened Integers
  import opened Words
  import opened Crc
  import opened CrcCheck
  import opened Hdlc

  ghost function SumBits(payload: seq<u8>): (e: seq<bool>)
    ensures |e| == 16
  {
    CcittFalseQualifies();
    CrcBits(CCITT_FALSE, payload)
  }

  /** The CRC of a payload as a number. */
  ghost function Sum(payload: seq<u8>): u16 {
    NumberIs(SumBits(payload));
    PowersOfTwo();
    Number(SumBits(payload))
  }

  /** The link checks this CRC. */
  ghost predicate OverCrc(k: Link) { forall payload :: k.sum(payload) == Sum(payload) }

  /** A link built on this CRC does. */
  lemma CrcLink(c: nat)
    ensures OverCrc(Link(c, p => Sum(p)))
  {
    assert forall p :: Link(c, p => Sum(p)).sum(p) == Sum(p);
  }

  lemma SameSum(k: Link, x: seq<u8>, y: seq<u8>)
    requires OverCrc(k) && Trailer(k, x) == Trailer(k, y)
    ensures SumBits(x) == SumBits(y)
  {
    NumberIs(SumBits(x));
    NumberIs(SumBits(y));
    assert Sum(x) == Sum(y);
  }

  /** Damage to a payload within two consecutive bytes never gets through. */
  lemma DamagedPayloadDropped(k: Link, sent: seq<u8>, got: seq<u8>, at: nat)
    requires OverCrc(k) && |sent| == |got| && at + 2 <= |sent| && sent != got && sent[..at] == got[..at] && sent[at + 2..] == got[at + 2..]
    ensures Frames(k, FRESH, [FLAG] + Stuff(got + Trailer(k, sent)) + [FLAG]) == []
  {
    CcittFalseQualifies();
    var body := got + Trailer(k, sent);
    assert body[..|body| - CRC_SIZE] == got && body[|body| - CRC_SIZE..] == Trailer(k, sent);
    BytesAreDetected(CCITT_FALSE, sent, got, at, 2);
    if ValidBody(k, body) { SameSum(k, sent, got); }
    InvalidDropped(k, body);
  }

  lemma TrailerParity(k: Link, payload: seq<u8>)
    requires OverCrc(k)
    ensures Odd(AllBits(Trailer(k, payload))) == Odd(SumBits(payload))
  {
    NumberIs(SumBits(payload));
    TwoBytesParity(k.sum(payload));
  }

  lemma TwoBytesParity(sum: u16)
    ensures Odd(AllBits([sum % 0x100, sum / 0x100])) == Odd(Bits(sum, 16))
  {
    var low, high := Bits(sum % 0x100, 8), Bits(sum / 0x100, 8);
    SplitBits(sum);
    OddAppend(high, low);
    OddAppend(low, high);
    assert AllBits([sum / 0x100]) == high by { assert [sum / 0x100][1..] == []; }
    assert [sum % 0x100, sum / 0x100][1..] == [sum / 0x100];
  }

  lemma SumParity(payload: seq<u8>)
    ensures Odd(SumBits(payload)) == (Odd(AllBits(payload)) != Odd(Bits(0xFFFF, 16)))
  {
    CcittFalseQualifies();
    CrcParity(CCITT_FALSE, payload);
    ZeroIs(16);
    OddZeros(16);
  }

  /** A valid body has one parity whatever its payload. */
  lemma BodyParity(k: Link, body: seq<u8>)
    requires OverCrc(k) && ValidBody(k, body)
    ensures Odd(AllBits(body)) == Odd(Bits(0xFFFF, 16))
  {
    var payload, trailer := body[..|body| - CRC_SIZE], body[|body| - CRC_SIZE..];
    SumParity(payload);
    TrailerParity(k, payload);
    assert body == payload + trailer;
    AllBitsAppend(payload, trailer);
    OddAppend(AllBits(payload), AllBits(trailer));
  }

  /** Nor does damage to any odd number of bits, anywhere in the payload or the CRC. */
  lemma OddDamageDropped(k: Link, sent: seq<u8>, got: seq<u8>)
    requires OverCrc(k) && ValidBody(k, sent) && |sent| == |got| && Odd(XorBits(AllBits(sent), AllBits(got)))
    ensures Frames(k, FRESH, [FLAG] + Stuff(got) + [FLAG]) == []
  {
    OddXor(AllBits(sent), AllBits(got));
    BodyParity(k, sent);
    if ValidBody(k, got) { BodyParity(k, got); }
    InvalidDropped(k, got);
  }

  lemma DigitsSum()
    ensures Sum(DIGITS) == 0x29B1
  {
    CheckValue();
    NumberIs(SumBits(DIGITS));
    PowersOfTwo();
    SameBits(Sum(DIGITS), 0x29B1, 16);
  }

  /** Bytes that are neither flag nor escape go out as they are. */
  lemma {:induction false} PlainStuff(s: seq<u8>)
    requires forall i | 0 <= i < |s| :: !Special(s[i])
    ensures Stuff(s) == s
    decreases s
  {
    if s != [] { PlainStuff(s[..|s| - 1]); }
  }

  lemma PlainFrame(k: Link, payload: seq<u8>, low: u8, high: u8)
    requires k.sum(payload) == low + 0x100 * high && !Special(low) && !Special(high)
    requires forall i | 0 <= i < |payload| :: !Special(payload[i])
    ensures Encode(k, payload) == [0x7E] + payload + [low, high, 0x7E]
  {
    assert Trailer(k, payload) == [low, high];
    PlainStuff(payload + [low, high]);
    assert [FLAG] + (payload + [low, high]) + [FLAG] == [0x7E] + payload + [low, high, 0x7E];
  }

  /** The digits one to nine. */
  predicate IsDigits(s: seq<u8>) { |s| == 9 && forall i | 0 <= i < 9 :: s[i] == 0x31 + i }

  lemma SummedDigits(k: Link, digits: seq<u8>)
    requires OverCrc(k) && IsDigits(digits)
    ensures k.sum(digits) == 0x29B1
  {
    assert digits == DIGITS;
    DigitsSum();
    assert k.sum(digits) == Sum(digits);
  }

  /** What goes out for the digits: the check value follows them, low byte first, between two flags. */
  lemma DigitsFrame(k: Link, digits: seq<u8>)
    requires OverCrc(k) && IsDigits(digits)
    ensures Encode(k, digits) == [0x7E] + digits + [0xB1, 0x29, 0x7E]
  {
    SummedDigits(k, digits);
    PlainFrame(k, digits, 0xB1, 0x29);
  }
}
