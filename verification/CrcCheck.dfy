/** The algorithm of the Link's frames pinned down: its polynomial, and its CRC of the digits one to nine. */
module CrcCheck {
  import opened Integers
  import opened Words
  import opened Crc

  /** The coefficient of x^e in a polynomial whose own highest power is left out, highest first. */
  predicate Coefficient(poly: seq<bool>, e: nat)
    requires e < |poly|
  {
    poly[|poly| - 1 - e]
  }

  lemma OneIs(n: nat)
    requires n > 0
    ensures Bits(1, n) == Zeros(n - 1) + [true]
  {
    ZeroIs(n - 1);
  }

  /** x^16 + x^12 + x^5 + 1. */
  lemma PolynomialIs()
    ensures |CCITT_FALSE.Poly()| == 16
    ensures forall e: nat | e < 16 :: Coefficient(CCITT_FALSE.Poly(), e) <==> e == 12 || e == 5 || e == 0
  {
    PowersOfTwo();
    assert Pow2(5) == 32 && Pow2(12) == 4096;
    JoinedBits(1, 0x21, 4, 12);
    JoinedBits(1, 1, 7, 5);
    OneIs(4);
    OneIs(7);
    OneIs(5);
    assert CCITT_FALSE.Poly() == Bits(1, 4) + (Bits(1, 7) + Bits(1, 5));
  }

  // The division on numbers, a bit at a time.

  lemma {:induction false} XorNothing(a: nat)
    ensures Xor(a, 0) == a
    decreases a
  {
    if a > 0 { XorNothing(a / 2); }
  }

  function FlipLow(a: nat): nat { if a % 2 == 0 then a + 1 else a - 1 }

  lemma FlipIs(a: nat)
    ensures FlipLow(a) == Xor(a, 1)
  {
    XorNothing(a / 2);
  }

  /** Exclusive or with 2^k + low', where low' is below that power. */
  lemma {:induction false} XorWith(a: nat, low: nat, low': nat, k: nat)
    requires low < Pow2(k) && low' < Pow2(k)
    ensures Xor(a * Pow2(k) + low, Pow2(k) + low') == FlipLow(a) * Pow2(k) + Xor(low, low')
    decreases k
  {
    if k > 0 {
      XorWith(a, low / 2, low' / 2, k - 1);
      HalfOfSum(a, Pow2(k - 1), low);
      DoubleHalves(FlipLow(a), Pow2(k - 1));
    } else {
      assert Pow2(0) == 1 && low == low' == 0 && Xor(low, low') == 0;
      FlipIs(a);
    }
  }

  /** Three bits flipped, the powers p, q and one. */
  lemma ThreeFlips(top: nat, rest: nat, p: nat, k: nat, middle: nat, low: nat, q: nat, j: nat)
    requires p == Pow2(k) && q == Pow2(j) && 1 < q && low < q
    requires rest == middle * q + low < p && q + 1 < p
    ensures Xor(top * p + rest, p + (q + 1)) == FlipLow(top) * p + (FlipLow(middle) * q + FlipLow(low))
  {
    XorWith(top, rest, q + 1, k);
    XorWith(middle, low, 1, j);
    FlipIs(low);
  }

  /** What subtracting the polynomial leaves of a register that has just been shifted. */
  function Subtracted(d: nat): int {
    d + 1 + (if d / 0x1000 % 2 == 0 then 0x1000 else -0x1000) + (if d / 0x20 % 2 == 0 then 0x20 else -0x20)
  }

  lemma FlipsAdd(d: nat)
    requires d % 2 == 0
    ensures Subtracted(d) == FlipLow(d / 0x1000) * 0x1000 + (FlipLow(d / 0x20 % 0x80) * 0x20 + FlipLow(d % 0x20))
  {
    assert d / 0x20 % 0x80 % 2 == d / 0x20 % 2;
  }

  lemma SubtractedIs(d: nat)
    requires d % 2 == 0
    ensures Subtracted(d) == Xor(d, 0x1021)
  {
    assert Pow2(3) == 8 && Pow2(9) == 0x200;
    assert Pow2(5) == 0x20 && Pow2(12) == 0x1000;
    ThreeFlips(d / 0x1000, d % 0x1000, 0x1000, 12, d / 0x20 % 0x80, d % 0x20, 0x20, 5);
    FlipsAdd(d);
  }

  lemma SubtractedFits(d: nat)
    requires d % 2 == 0 && d < 0x1_0000
    ensures 0 <= Subtracted(d) < 0x1_0000
  {
    assert d / 0x1000 < 16;
  }

  /** The register after one bit of the message. */
  function Divided(r: u16, bit: bool): u16 {
    var d := if r >= 0x8000 then 2 * r - 0x1_0000 else 2 * r;
    SubtractedFits(d);
    if (r >= 0x8000) != bit then Subtracted(d) else d
  }

  lemma ShiftIs(a: Algorithm, r: nat, bit: bool, d: nat)
    requires a.Valid() && r < Pow2(a.width) && d == if r >= Pow2(a.width - 1) then 2 * r - Pow2(a.width) else 2 * r
    ensures Bits(if (r >= Pow2(a.width - 1)) != bit then Xor(d, a.polynomial) else d, a.width)
         == Shift(a.Poly(), XorBits(Bits(r, a.width), Top([bit], a.width)))
  {
    DoubleIs(r, a.width);
    FirstBit(r, a.width - 1);
    XorIs(d, a.polynomial, a.width);
    assert XorBits(Bits(r, a.width), Top([bit], a.width))[1..] == Bits(r, a.width)[1..];
  }

  /** A register of sixteen bits and the polynomial of the frames. */
  ghost predicate Framing(a: Algorithm) {
    a.Valid() && Pow2(a.width) == 0x1_0000 && Pow2(a.width - 1) == 0x8000 && a.polynomial == 0x1021
  }

  /** Dividing a number is dividing its bits. */
  lemma DividedIs(a: Algorithm, r: u16, bit: bool, next: u16)
    requires Framing(a) && next == Divided(r, bit)
    ensures Bits(next, a.width) == Shift(a.Poly(), XorBits(Bits(r, a.width), Top([bit], a.width)))
  {
    var d := if r >= 0x8000 then 2 * r - 0x1_0000 else 2 * r;
    SubtractedIs(d);
    ShiftIs(a, r, bit, d);
  }

  lemma HalfOfAll()
    ensures Pow2(15) == 0x8000
  {
    PowersOfTwo();
  }

  /** The four bits of a number below sixteen. */
  function Nibble(n: nat): seq<bool> { [n / 8 % 2 == 1, n / 4 % 2 == 1, n / 2 % 2 == 1, n % 2 == 1] }

  lemma NibbleIs(n: nat)
    ensures Bits(n, 4) == Nibble(n)
  {
    assert Bits(n, 4) == Bits(n / 2, 3) + [n % 2 == 1];
    assert Bits(n / 2, 3) == Bits(n / 4, 2) + [n / 2 % 2 == 1] by { assert n / 2 / 2 == n / 4; }
    assert Bits(n / 4, 2) == Bits(n / 8, 1) + [n / 4 % 2 == 1] by { assert n / 4 / 2 == n / 8; }
    assert Bits(n / 8, 1) == [] + [n / 8 % 2 == 1];
  }

  lemma OneShift(poly: seq<bool>, r: seq<bool>, bits: seq<bool>, s: seq<bool>)
    requires |r| == |poly| > 0 && bits != [] && Shift(poly, XorBits(r, Top([bits[0]], |r|))) == s
    ensures FeedBits(poly, r, bits) == FeedBits(poly, s, bits[1..])
  {
    assert bits[..1] == [bits[0]];
  }

  /** Four divisions, one for each bit. */
  lemma FourShifts(poly: seq<bool>, b: seq<bool>, r0: seq<bool>, r1: seq<bool>, r2: seq<bool>, r3: seq<bool>, r4: seq<bool>)
    requires |b| == 4 && |r0| == |r1| == |r2| == |r3| == |poly| > 0
    requires Shift(poly, XorBits(r0, Top([b[0]], |r0|))) == r1 && Shift(poly, XorBits(r1, Top([b[1]], |r1|))) == r2
    requires Shift(poly, XorBits(r2, Top([b[2]], |r2|))) == r3 && Shift(poly, XorBits(r3, Top([b[3]], |r3|))) == r4
    ensures FeedBits(poly, r0, b) == r4
  {
    OneShift(poly, r0, b, r1);
    OneShift(poly, r1, b[1..], r2);
    OneShift(poly, r2, b[2..], r3);
    OneShift(poly, r3, b[3..], r4);
    assert b[1..][1..] == b[2..] && b[2..][1..] == b[3..] && b[3..][1..] == [];
  }

  lemma FourBits(a: Algorithm, n: nat, r0: u16, r1: u16, r2: u16, r3: u16, r4: u16)
    requires Framing(a)
    requires r1 == Divided(r0, n / 8 % 2 == 1) && r2 == Divided(r1, n / 4 % 2 == 1)
    requires r3 == Divided(r2, n / 2 % 2 == 1) && r4 == Divided(r3, n % 2 == 1)
    ensures FeedBits(a.Poly(), Bits(r0, a.width), Nibble(n)) == Bits(r4, a.width)
  {
    var w := a.width;
    DividedIs(a, r0, n / 8 % 2 == 1, r1);
    DividedIs(a, r1, n / 4 % 2 == 1, r2);
    DividedIs(a, r2, n / 2 % 2 == 1, r3);
    DividedIs(a, r3, n % 2 == 1, r4);
    FourShifts(a.Poly(), Nibble(n), Bits(r0, w), Bits(r1, w), Bits(r2, w), Bits(r3, w), Bits(r4, w));
  }

  lemma HalvesOfByte(byte: u8)
    ensures Bits(byte, 8) == Bits(byte / 16, 4) + Bits(byte % 16, 4)
  {
    assert Pow2(4) == 16;
    JoinedBits(byte / 16, byte % 16, 4, 4);
  }

  /** A byte is its high four bits and its low four. */
  lemma NibblesOfByte(byte: u8)
    ensures AllBits([byte]) == Nibble(byte / 16) + Nibble(byte % 16)
  {
    OneByte(byte);
    HalvesOfByte(byte);
    NibbleIs(byte / 16);
    NibbleIs(byte % 16);
  }

  lemma FeedHalves(poly: seq<bool>, r: seq<bool>, byte: u8, high: seq<bool>, low: seq<bool>)
    requires |r| == |poly| >= 8 && AllBits([byte]) == high + low
    ensures Feed(poly, r, [byte]) == FeedBits(poly, FeedBits(poly, r, high), low)
  {
    FeedIsBits(poly, r, [byte]);
    BitsAppend(poly, r, high, low);
  }

  lemma OneByte(byte: u8)
    ensures AllBits([byte]) == Bits(byte, 8)
  {
    assert [byte][1..] == [] && AllBits([]) == [];
  }

  lemma DigitFed(poly: seq<bool>, r: seq<bool>, digit: nat)
    requires |r| == |poly| >= 8 && digit < 10
    ensures Feed(poly, r, [0x30 + digit]) == FeedBits(poly, FeedBits(poly, r, Nibble(3)), Nibble(digit))
  {
    var byte: u8 := 0x30 + digit;
    assert byte / 16 == 3 && byte % 16 == digit;
    NibblesOfByte(byte);
    FeedHalves(poly, r, byte, Nibble(3), Nibble(digit));
  }

  /** The registers on the way while a digit goes in. */
  lemma DigitGives(a: Algorithm, digit: nat, r0: u16, r1: u16, r2: u16, r3: u16, r4: u16, r5: u16, r6: u16, r7: u16, r8: u16)
    requires Framing(a) && digit < 10
    requires r1 == Divided(r0, false) && r2 == Divided(r1, false)
    requires r3 == Divided(r2, true) && r4 == Divided(r3, true)
    requires r5 == Divided(r4, digit / 8 % 2 == 1) && r6 == Divided(r5, digit / 4 % 2 == 1)
    requires r7 == Divided(r6, digit / 2 % 2 == 1) && r8 == Divided(r7, digit % 2 == 1)
    ensures Feed(a.Poly(), Bits(r0, a.width), [0x30 + digit]) == Bits(r8, a.width)
  {
    FourBits(a, 3, r0, r1, r2, r3, r4);
    FourBits(a, digit, r4, r5, r6, r7, r8);
    DigitFed(a.Poly(), Bits(r0, a.width), digit);
  }

  lemma One(a: Algorithm)
    requires Framing(a)
    ensures Feed(a.Poly(), Bits(0xFFFF, a.width), [0x31]) == Bits(0xC782, a.width)
  {
    DigitGives(a, 1, 0xFFFF, 0xEFDF, 0xCF9F, 0x9F3E, 0x3E7C, 0x7CF8, 0xF9F0, 0xE3C1, 0xC782);
  }

  lemma Two(a: Algorithm)
    requires Framing(a)
    ensures Feed(a.Poly(), Bits(0xC782, a.width), [0x32]) == Bits(0x3DBA, a.width)
  {
    DigitGives(a, 2, 0xC782, 0x9F25, 0x2E6B, 0x4CF7, 0x89CF, 0x03BF, 0x077E, 0x1EDD, 0x3DBA);
  }

  lemma Three(a: Algorithm)
    requires Framing(a)
    ensures Feed(a.Poly(), Bits(0x3DBA, a.width), [0x33]) == Bits(0x5BCE, a.width)
  {
    DigitGives(a, 3, 0x3DBA, 0x7B74, 0xF6E8, 0xEDD0, 0xDBA0, 0xA761, 0x5EE3, 0xADE7, 0x5BCE);
  }

  lemma Four(a: Algorithm)
    requires Framing(a)
    ensures Feed(a.Poly(), Bits(0x5BCE, a.width), [0x34]) == Bits(0x5349, a.width)
  {
    DigitGives(a, 4, 0x5BCE, 0xB79C, 0x7F19, 0xEE13, 0xDC26, 0xA86D, 0x50DA, 0xA1B4, 0x5349);
  }

  lemma Five(a: Algorithm)
    requires Framing(a)
    ensures Feed(a.Poly(), Bits(0x5349, a.width), [0x35]) == Bits(0x4560, a.width)
  {
    DigitGives(a, 5, 0x5349, 0xA692, 0x5D05, 0xAA2B, 0x5456, 0xA8AC, 0x5158, 0xA2B0, 0x4560);
  }

  lemma Six(a: Algorithm)
    requires Framing(a)
    ensures Feed(a.Poly(), Bits(0x4560, a.width), [0x36]) == Bits(0x2EF4, a.width)
  {
    DigitGives(a, 6, 0x4560, 0x8AC0, 0x05A1, 0x1B63, 0x26E7, 0x4DCE, 0x8BBD, 0x177A, 0x2EF4);
  }

  lemma Seven(a: Algorithm)
    requires Framing(a)
    ensures Feed(a.Poly(), Bits(0x2EF4, a.width), [0x37]) == Bits(0x7718, a.width)
  {
    DigitGives(a, 7, 0x2EF4, 0x5DE8, 0xBBD0, 0x77A0, 0xFF61, 0xEEE3, 0xDDC6, 0xBB8C, 0x7718);
  }

  lemma Eight(a: Algorithm)
    requires Framing(a)
    ensures Feed(a.Poly(), Bits(0x7718, a.width), [0x38]) == Bits(0xA12B, a.width)
  {
    DigitGives(a, 8, 0x7718, 0xEE30, 0xCC41, 0x9882, 0x3104, 0x7229, 0xE452, 0xD885, 0xA12B);
  }

  lemma Nine(a: Algorithm)
    requires Framing(a)
    ensures Feed(a.Poly(), Bits(0xA12B, a.width), [0x39]) == Bits(0x29B1, a.width)
  {
    DigitGives(a, 9, 0xA12B, 0x5277, 0xA4EE, 0x49DC, 0x8399, 0x0732, 0x0E64, 0x1CC8, 0x29B1);
  }

  lemma {:induction false} FeedFirst(poly: seq<bool>, r: seq<bool>, bytes: seq<u8>, s: seq<bool>)
    requires |r| == |poly| >= 8 && bytes != [] && Feed(poly, r, [bytes[0]]) == s
    ensures Feed(poly, r, bytes) == Feed(poly, s, bytes[1..])
  {
    assert bytes == [bytes[0]] + bytes[1..];
    FeedAppend(poly, r, [bytes[0]], bytes[1..]);
  }

  lemma ThreeFirst(poly: seq<bool>, r: seq<bool>, bytes: seq<u8>, s: seq<bool>, t: seq<bool>, u: seq<bool>)
    requires |r| == |poly| >= 8 && |bytes| >= 3
    requires Feed(poly, r, [bytes[0]]) == s && Feed(poly, s, [bytes[1]]) == t && Feed(poly, t, [bytes[2]]) == u
    ensures Feed(poly, r, bytes) == Feed(poly, u, bytes[3..])
  {
    FeedFirst(poly, r, bytes, s);
    FeedFirst(poly, s, bytes[1..], t);
    FeedFirst(poly, t, bytes[2..], u);
    assert bytes[1..][1..] == bytes[2..] && bytes[2..][1..] == bytes[3..];
  }

  lemma OneToThree(a: Algorithm, bytes: seq<u8>)
    requires Framing(a) && |bytes| >= 3 && bytes[0] == 0x31 && bytes[1] == 0x32 && bytes[2] == 0x33
    ensures Feed(a.Poly(), Bits(0xFFFF, a.width), bytes) == Feed(a.Poly(), Bits(0x5BCE, a.width), bytes[3..])
  {
    One(a);
    Two(a);
    Three(a);
    ThreeFirst(a.Poly(), Bits(0xFFFF, a.width), bytes, Bits(0xC782, a.width), Bits(0x3DBA, a.width), Bits(0x5BCE, a.width));
  }

  lemma FourToSix(a: Algorithm, bytes: seq<u8>)
    requires Framing(a) && |bytes| >= 3 && bytes[0] == 0x34 && bytes[1] == 0x35 && bytes[2] == 0x36
    ensures Feed(a.Poly(), Bits(0x5BCE, a.width), bytes) == Feed(a.Poly(), Bits(0x2EF4, a.width), bytes[3..])
  {
    Four(a);
    Five(a);
    Six(a);
    ThreeFirst(a.Poly(), Bits(0x5BCE, a.width), bytes, Bits(0x5349, a.width), Bits(0x4560, a.width), Bits(0x2EF4, a.width));
  }

  lemma SevenToNine(a: Algorithm, bytes: seq<u8>)
    requires Framing(a) && |bytes| >= 3 && bytes[0] == 0x37 && bytes[1] == 0x38 && bytes[2] == 0x39
    ensures Feed(a.Poly(), Bits(0x2EF4, a.width), bytes) == Feed(a.Poly(), Bits(0x29B1, a.width), bytes[3..])
  {
    Seven(a);
    Eight(a);
    Nine(a);
    ThreeFirst(a.Poly(), Bits(0x2EF4, a.width), bytes, Bits(0x7718, a.width), Bits(0xA12B, a.width), Bits(0x29B1, a.width));
  }

  /** The digits one to nine, as the bytes of their characters. */
  const DIGITS: seq<u8> := [0x31, 0x32, 0x33, 0x34, 0x35, 0x36, 0x37, 0x38, 0x39]

  lemma DigitsGive(a: Algorithm)
    requires Framing(a)
    ensures Feed(a.Poly(), Bits(0xFFFF, a.width), DIGITS) == Bits(0x29B1, a.width)
  {
    OneToThree(a, DIGITS);
    FourToSix(a, DIGITS[3..]);
    SevenToNine(a, DIGITS[3..][3..]);
    assert DIGITS[3..][3..][3..] == [];
  }

  /** The check value by which this algorithm is known. */
  lemma CheckValue()
    ensures CCITT_FALSE.Valid() && CrcBits(CCITT_FALSE, DIGITS) == Bits(0x29B1, 16)
  {
    CcittFalseQualifies();
    PowersOfTwo();
    HalfOfAll();
    DigitsGive(CCITT_FALSE);
    ZeroIs(16);
  }
}
