/** A non-reflected CRC computed bit by bit over a register of any width, and the errors it cannot miss. */
module Crc {
  import opened Integers
  import opened Words

  /** The parameters of one algorithm: a register of width bits. */
  datatype Algorithm = Algorithm(width: nat, polynomial: nat, initial: nat, xorOut: nat)
  {
    ghost predicate Valid() {
      width >= 8 && polynomial < Pow2(width) && initial < Pow2(width) && xorOut < Pow2(width)
    }

    ghost function Poly(): (p: seq<bool>) ensures |p| == width { Bits(polynomial, width) }
  }

  const CCITT_FALSE := Algorithm(16, 0x1021, 0xFFFF, 0)

  /** Which ends of the calculation one call performs. */
  datatype Flags = Flags(initialize: bool, finalize: bool)

  const WHOLE := Flags(true, true)

  // The register as a string of bits.

  ghost function Shift(poly: seq<bool>, r: seq<bool>): (s: seq<bool>)
    requires |r| == |poly| > 0
    ensures |s| == |r|
  {
    if r[0] then XorBits(r[1..] + [false], poly) else r[1..] + [false]
  }

  ghost function Shifts(poly: seq<bool>, r: seq<bool>, n: nat): (s: seq<bool>)
    requires |r| == |poly| > 0
    ensures |s| == |r|
    decreases n
  {
    if n == 0 then r else Shifts(poly, Shift(poly, r), n - 1)
  }

  /** At most w bits at the top of a register of w. */
  ghost function Top(e: seq<bool>, w: nat): (t: seq<bool>)
    requires |e| <= w
    ensures |t| == w
  {
    e + Zeros(w - |e|)
  }

  /** Each byte goes in at the top of the register, which is then shifted eight times. */
  ghost function Feed(poly: seq<bool>, r: seq<bool>, bytes: seq<u8>): (s: seq<bool>)
    requires |r| == |poly| >= 8
    ensures |s| == |r|
    decreases bytes
  {
    if bytes == [] then r
    else Feed(poly, Shifts(poly, XorBits(r, Top(Bits(bytes[0], 8), |r|)), 8), bytes[1..])
  }

  /** The register a call leaves, from its input, the register it was given and its flags. */
  ghost function Compute(a: Algorithm, input: seq<u8>, start: seq<bool>, flags: Flags): (s: seq<bool>)
    requires a.Valid() && |start| == a.width
    ensures |s| == a.width
  {
    var r := Feed(a.Poly(), if flags.initialize then Bits(a.initial, a.width) else start, input);
    if flags.finalize then XorBits(r, Bits(a.xorOut, a.width)) else r
  }

  /** The CRC of a message. */
  ghost function CrcBits(a: Algorithm, input: seq<u8>): (s: seq<bool>)
    requires a.Valid()
    ensures |s| == a.width
  {
    Compute(a, input, Bits(a.initial, a.width), WHOLE)
  }

  lemma {:induction false} ShiftsMore(poly: seq<bool>, r: seq<bool>, n: nat)
    requires |r| == |poly| > 0
    ensures Shifts(poly, r, n + 1) == Shift(poly, Shifts(poly, r, n))
    decreases n
  {
    if n > 0 { ShiftsMore(poly, Shift(poly, r), n - 1); }
  }

  lemma {:induction false} FeedAppend(poly: seq<bool>, r: seq<bool>, first: seq<u8>, second: seq<u8>)
    requires |r| == |poly| >= 8
    ensures Feed(poly, r, first + second) == Feed(poly, Feed(poly, r, first), second)
    decreases first
  {
    if first == [] {
      assert first + second == second;
    } else {
      assert (first + second)[1..] == first[1..] + second;
      FeedAppend(poly, Shifts(poly, XorBits(r, Top(Bits(first[0], 8), |r|)), 8), first[1..], second);
    }
  }

  /** One round of the inner loop on a machine word. */
  method ShiftWord(a: Algorithm, r: nat) returns (s: nat)
    requires a.Valid() && r < Pow2(a.width)
    ensures s < Pow2(a.width) && Bits(s, a.width) == Shift(a.Poly(), Bits(r, a.width))
  {
    DoubleIs(r, a.width);
    FirstBit(r, a.width - 1);
    if r >= Pow2(a.width - 1) {
      s := 2 * r - Pow2(a.width);
      XorIs(s, a.polynomial, a.width);
      XorBound(s, a.polynomial, a.width);
      s := Xor(s, a.polynomial);
    } else {
      s := 2 * r;
    }
  }

  method LoadByte(a: Algorithm, r: nat, byte: u8) returns (s: nat)
    requires a.Valid() && r < Pow2(a.width)
    ensures s < Pow2(a.width) && Bits(s, a.width) == XorBits(Bits(r, a.width), Top(Bits(byte, 8), a.width))
  {
    var scale := Pow2(a.width - 8);
    ScaledIs(byte, a.width - 8, 8);
    HighFits(byte, a.width);
    XorIs(r, byte * scale, a.width);
    XorBound(r, byte * scale, a.width);
    s := Xor(r, byte * scale);
  }

  lemma {:induction false} HighFits(byte: u8, w: nat)
    requires w >= 8
    ensures byte * Pow2(w - 8) < Pow2(w)
    decreases w
  {
    if w == 8 {
      assert Pow2(4) == 16;
      assert Pow2(8) == 256;
    } else {
      HighFits(byte, w - 1);
      assert byte * Pow2(w - 8) == 2 * (byte * Pow2(w - 9));
    }
  }

  method CrcBitwise(a: Algorithm, input: seq<u8>, initial: nat, flags: Flags) returns (result: nat)
    requires a.Valid() && initial < Pow2(a.width)
    ensures result < Pow2(a.width)
    ensures Bits(result, a.width) == Compute(a, input, Bits(initial, a.width), flags)
  {
    result := FeedAll(a, input, if flags.initialize then a.initial else initial);
    if flags.finalize {
      XorIs(result, a.xorOut, a.width);
      XorBound(result, a.xorOut, a.width);
      result := Xor(result, a.xorOut);
    }
  }

  method FeedAll(a: Algorithm, input: seq<u8>, start: nat) returns (r: nat)
    requires a.Valid() && start < Pow2(a.width)
    ensures r < Pow2(a.width) && Bits(r, a.width) == Feed(a.Poly(), Bits(start, a.width), input)
  {
    r := start;
    for i := 0 to |input|
      invariant r < Pow2(a.width)
      invariant Bits(r, a.width) == Feed(a.Poly(), Bits(start, a.width), input[..i])
    {
      FeedNext(a.Poly(), Bits(start, a.width), input, i);
      r := FeedOne(a, r, input[i]);
    }
    assert input[..|input|] == input;
  }

  lemma FeedNext(poly: seq<bool>, r: seq<bool>, input: seq<u8>, i: nat)
    requires |r| == |poly| >= 8 && i < |input|
    ensures Feed(poly, r, input[..i + 1]) == Feed(poly, Feed(poly, r, input[..i]), [input[i]])
  {
    assert input[..i + 1] == input[..i] + [input[i]];
    FeedAppend(poly, r, input[..i], [input[i]]);
  }

  method FeedOne(a: Algorithm, r: nat, byte: u8) returns (s: nat)
    requires a.Valid() && r < Pow2(a.width)
    ensures s < Pow2(a.width) && Bits(s, a.width) == Feed(a.Poly(), Bits(r, a.width), [byte])
  {
    s := LoadByte(a, r, byte);
    ghost var loaded := Bits(s, a.width);
    for bit := 0 to 8
      invariant s < Pow2(a.width) && Bits(s, a.width) == Shifts(a.Poly(), loaded, bit)
    {
      ShiftsMore(a.Poly(), loaded, bit);
      s := ShiftWord(a, s);
    }
    assert [byte][1..] == [];
  }

  // Any chunking gives the one-shot value.

  function Concat<T>(chunks: seq<seq<T>>): seq<T> {
    if chunks == [] then [] else chunks[0] + Concat(chunks[1..])
  }

  ghost function Updates(a: Algorithm, chunks: seq<seq<u8>>, state: seq<bool>): (s: seq<bool>)
    requires a.Valid() && |state| == a.width
    ensures |s| == a.width
    decreases chunks
  {
    if chunks == [] then state else Updates(a, chunks[1..], Compute(a, chunks[0], state, Flags(false, false)))
  }

  lemma {:induction false} UpdatesFeed(a: Algorithm, chunks: seq<seq<u8>>, state: seq<bool>)
    requires a.Valid() && |state| == a.width
    ensures Updates(a, chunks, state) == Feed(a.Poly(), state, Concat(chunks))
    decreases chunks
  {
    if chunks != [] {
      UpdatesFeed(a, chunks[1..], Compute(a, chunks[0], state, Flags(false, false)));
      FeedAppend(a.Poly(), state, chunks[0], Concat(chunks[1..]));
    }
  }

  /** init, any number of updates and finalize make the value of one call over everything, whatever init is given. */
  lemma ChunkingDoesNotMatter(a: Algorithm, chunks: seq<seq<u8>>, ignored: seq<bool>)
    requires a.Valid() && |ignored| == a.width
    ensures var init := Compute(a, [], ignored, Flags(true, false));
      Compute(a, [], Updates(a, chunks, init), Flags(false, true)) == CrcBits(a, Concat(chunks))
  {
    UpdatesFeed(a, chunks, Bits(a.initial, a.width));
  }

  // The same division one input bit at a time.

  ghost function AllBits(bytes: seq<u8>): (e: seq<bool>)
    ensures |e| == 8 * |bytes|
  {
    if bytes == [] then [] else Bits(bytes[0], 8) + AllBits(bytes[1..])
  }

  ghost function FeedBits(poly: seq<bool>, r: seq<bool>, bits: seq<bool>): (s: seq<bool>)
    requires |r| == |poly| > 0
    ensures |s| == |r|
    decreases bits
  {
    if bits == [] then r else FeedBits(poly, Shift(poly, XorBits(r, Top(bits[..1], |r|))), bits[1..])
  }

  lemma {:induction false} BitsAppend(poly: seq<bool>, r: seq<bool>, first: seq<bool>, second: seq<bool>)
    requires |r| == |poly| > 0
    ensures FeedBits(poly, r, first + second) == FeedBits(poly, FeedBits(poly, r, first), second)
    decreases first
  {
    if first == [] {
      assert first + second == second;
    } else {
      assert (first + second)[1..] == first[1..] + second && (first + second)[..1] == first[..1];
      BitsAppend(poly, Shift(poly, XorBits(r, Top(first[..1], |r|))), first[1..], second);
    }
  }

  /** Feeding no more bits than the register holds is loading them all at once and shifting. */
  lemma {:induction false} FeedIsTop(poly: seq<bool>, r: seq<bool>, e: seq<bool>)
    requires |r| == |poly| > 0 && |e| <= |r|
    ensures FeedBits(poly, r, e) == Shifts(poly, XorBits(r, Top(e, |r|)), |e|)
    decreases e
  {
    if e == [] {
      assert XorBits(r, Top(e, |r|)) == r;
    } else {
      var x := XorBits(r, Top(e[..1], |r|));
      FeedIsTop(poly, Shift(poly, x), e[1..]);
      LaterBitsWait(poly, r, e);
    }
  }

  /** Bits loaded early only move up until their turn comes. */
  lemma LaterBitsWait(poly: seq<bool>, r: seq<bool>, e: seq<bool>)
    requires |r| == |poly| > 0 && 0 < |e| <= |r|
    ensures Shift(poly, XorBits(r, Top(e, |r|))) == XorBits(Shift(poly, XorBits(r, Top(e[..1], |r|))), Top(e[1..], |r|))
  {
    var x, y := XorBits(r, Top(e[..1], |r|)), XorBits(r, Top(e, |r|));
    assert x[0] == y[0];
    assert y[1..] + [false] == XorBits(x[1..] + [false], Top(e[1..], |r|));
  }

  lemma {:induction false} FeedIsBits(poly: seq<bool>, r: seq<bool>, bytes: seq<u8>)
    requires |r| == |poly| >= 8
    ensures Feed(poly, r, bytes) == FeedBits(poly, r, AllBits(bytes))
    decreases bytes
  {
    if bytes != [] {
      var b := Bits(bytes[0], 8);
      FeedIsTop(poly, r, b);
      FeedIsBits(poly, Shifts(poly, XorBits(r, Top(b, |r|)), 8), bytes[1..]);
      BitsAppend(poly, r, b, AllBits(bytes[1..]));
    }
  }

  // The division is linear, and loses nothing when the polynomial has its last bit set.

  lemma ShiftLinear(poly: seq<bool>, x: seq<bool>, y: seq<bool>)
    requires |x| == |y| == |poly| > 0
    ensures Shift(poly, XorBits(x, y)) == XorBits(Shift(poly, x), Shift(poly, y))
  {}

  /** Two inputs of one length drive their registers apart by exactly what their difference alone would. */
  lemma {:induction false} DifferenceIsOwn(poly: seq<bool>, r: seq<bool>, s: seq<bool>, x: seq<bool>, y: seq<bool>)
    requires |r| == |s| == |poly| > 0 && |x| == |y|
    ensures XorBits(FeedBits(poly, r, x), FeedBits(poly, s, y)) == FeedBits(poly, XorBits(r, s), XorBits(x, y))
    decreases |x|
  {
    if x != [] {
      var r', s' := XorBits(r, Top(x[..1], |r|)), XorBits(s, Top(y[..1], |r|));
      ShiftLinear(poly, r', s');
      assert XorBits(r', s') == XorBits(XorBits(r, s), Top(XorBits(x, y)[..1], |r|));
      DifferenceIsOwn(poly, Shift(poly, r'), Shift(poly, s'), x[1..], y[1..]);
      assert XorBits(x, y)[1..] == XorBits(x[1..], y[1..]);
    }
  }

  predicate Blank(e: seq<bool>) { true !in e }

  lemma ShiftKeepsApart(poly: seq<bool>, r: seq<bool>)
    requires |r| == |poly| > 0 && poly[|poly| - 1]
    ensures Blank(Shift(poly, r)) <==> Blank(r)
  {
    var s := Shift(poly, r);
    assert s[|s| - 1] == r[0];
    assert Blank(r) <==> !r[0] && Blank(r[1..]);
    if !r[0] { assert Blank(s) <==> Blank(r[1..]); }
  }

  lemma {:induction false} ShiftsKeepApart(poly: seq<bool>, r: seq<bool>, n: nat)
    requires |r| == |poly| > 0 && poly[|poly| - 1]
    ensures Blank(Shifts(poly, r, n)) <==> Blank(r)
    decreases n
  {
    if n > 0 {
      ShiftKeepsApart(poly, r);
      ShiftsKeepApart(poly, Shift(poly, r), n - 1);
    }
  }

  /** Equal inputs neither part equal registers nor bring different ones together. */
  lemma {:induction false} SameInputKeepsApart(poly: seq<bool>, r: seq<bool>, e: seq<bool>)
    requires |r| == |poly| > 0 && poly[|poly| - 1] && Blank(e)
    ensures Blank(FeedBits(poly, r, e)) <==> Blank(r)
    decreases e
  {
    if e != [] {
      assert e[0] in e;
      assert XorBits(r, Top(e[..1], |r|)) == r;
      ShiftKeepsApart(poly, r);
      SameInputKeepsApart(poly, Shift(poly, r), e[1..]);
    }
  }

  /** The two inputs differ, and only within n consecutive bits. */
  ghost predicate Burst(x: seq<bool>, y: seq<bool>, at: nat, n: nat) {
    && |x| == |y| && at + n <= |x| && x != y
    && x[..at] == y[..at] && x[at + n..] == y[at + n..]
  }

  /** A difference confined to a burst ends in a register that is not blank. */
  lemma BurstSurvives(poly: seq<bool>, zero: seq<bool>, head: seq<bool>, burst: seq<bool>, tail: seq<bool>)
    requires |zero| == |poly| > 0 && poly[|poly| - 1] && |burst| <= |poly|
    requires Blank(zero) && Blank(head) && !Blank(burst) && Blank(tail)
    ensures !Blank(FeedBits(poly, zero, head + (burst + tail)))
  {
    BitsAppend(poly, zero, head, burst + tail);
    var after := FeedBits(poly, zero, head);
    BitsAppend(poly, after, burst, tail);
    SameInputKeepsApart(poly, zero, head);
    BurstIsSeen(poly, after, burst);
    SameInputKeepsApart(poly, FeedBits(poly, after, burst), tail);
  }

  /** Where the difference of a burst lies. */
  lemma BurstParts(x: seq<bool>, y: seq<bool>, at: nat, n: nat)
    requires Burst(x, y, at, n)
    ensures var d := XorBits(x, y);
      Blank(d[..at]) && !Blank(d[at..at + n]) && Blank(d[at + n..]) && d == d[..at] + (d[at..at + n] + d[at + n..])
  {
    var d := XorBits(x, y);
    DiffBlank(x[..at], y[..at]);
    assert d[..at] == XorBits(x[..at], y[..at]);
    DiffBlank(x[at + n..], y[at + n..]);
    assert d[at + n..] == XorBits(x[at + n..], y[at + n..]);
    if Blank(d[at..at + n]) { SameWhereBlank(x, y, at, n); }
  }

  lemma BurstChangesRegister(poly: seq<bool>, r: seq<bool>, x: seq<bool>, y: seq<bool>, at: nat, n: nat)
    requires |r| == |poly| > 0 && poly[|poly| - 1] && n <= |poly| && Burst(x, y, at, n)
    ensures FeedBits(poly, r, x) != FeedBits(poly, r, y)
  {
    var d, zero := XorBits(x, y), XorBits(r, r);
    DiffBlank(r, r);
    BurstParts(x, y, at, n);
    BurstSurvives(poly, zero, d[..at], d[at..at + n], d[at + n..]);
    DifferenceIsOwn(poly, r, r, x, y);
    if FeedBits(poly, r, x) == FeedBits(poly, r, y) { DiffBlank(FeedBits(poly, r, x), FeedBits(poly, r, y)); }
  }

  lemma DiffBlank(x: seq<bool>, y: seq<bool>)
    requires |x| == |y|
    ensures Blank(XorBits(x, y)) <==> x == y
  {
    if x != y {
      var i :| 0 <= i < |x| && x[i] != y[i];
      assert XorBits(x, y)[i];
    }
  }

  lemma SameWhereBlank(x: seq<bool>, y: seq<bool>, at: nat, n: nat)
    requires |x| == |y| && at + n <= |x| && x[..at] == y[..at] && x[at + n..] == y[at + n..]
    requires Blank(XorBits(x, y)[at..at + n])
    ensures x == y
  {
    var d, p, q := XorBits(x, y)[at..at + n], x[at..at + n], y[at..at + n];
    assert p == q by {
      forall i | 0 <= i < n ensures p[i] == q[i] { assert d[i] == (p[i] != q[i]); }
    }
    assert x == x[..at] + x[at..at + n] + x[at + n..];
    assert y == y[..at] + y[at..at + n] + y[at + n..];
  }

  /** A burst that fits the register leaves a register that was blank no longer so. */
  lemma BurstIsSeen(poly: seq<bool>, r: seq<bool>, e: seq<bool>)
    requires |r| == |poly| > 0 && poly[|poly| - 1] && |e| <= |poly| && Blank(r)
    ensures Blank(FeedBits(poly, r, e)) <==> Blank(e)
  {
    FeedIsTop(poly, r, e);
    assert XorBits(r, Top(e, |r|)) == Top(e, |r|) by { assert forall i | 0 <= i < |r| :: r[i] in r; }
    ShiftsKeepApart(poly, Top(e, |r|), |e|);
  }

  /**
   * Two messages of one length that differ only within as many consecutive bits as the register has,
   * wherever they are, have different CRCs.
   */
  lemma BurstsAreDetected(a: Algorithm, x: seq<u8>, y: seq<u8>, at: nat, n: nat)
    requires a.Valid() && a.polynomial % 2 == 1 && n <= a.width && Burst(AllBits(x), AllBits(y), at, n)
    ensures CrcBits(a, x) != CrcBits(a, y)
  {
    var start := Bits(a.initial, a.width);
    FeedIsBits(a.Poly(), start, x);
    FeedIsBits(a.Poly(), start, y);
    BurstChangesRegister(a.Poly(), start, AllBits(x), AllBits(y), at, n);
    XorKeepsApart(Feed(a.Poly(), start, x), Feed(a.Poly(), start, y), Bits(a.xorOut, a.width));
  }

  lemma XorKeepsApart(p: seq<bool>, q: seq<bool>, out: seq<bool>)
    requires |p| == |q| == |out| && p != q
    ensures XorBits(p, out) != XorBits(q, out)
  {
    var i :| 0 <= i < |p| && p[i] != q[i];
    assert XorBits(p, out)[i] != XorBits(q, out)[i];
  }

  // Consecutive bytes, and odd numbers of bits.

  lemma {:induction false} AllBitsAppend(x: seq<u8>, y: seq<u8>)
    ensures AllBits(x + y) == AllBits(x) + AllBits(y)
    decreases x
  {
    if x == [] {
      assert x + y == y;
    } else {
      assert (x + y)[1..] == x[1..] + y;
      AllBitsAppend(x[1..], y);
    }
  }

  lemma {:induction false} AllBitsDiffer(x: seq<u8>, y: seq<u8>)
    requires |x| == |y| && AllBits(x) == AllBits(y)
    ensures x == y
    decreases x
  {
    if x != [] {
      var p, q := Bits(x[0], 8), Bits(y[0], 8);
      assert AllBits(x)[..8] == p && AllBits(y)[..8] == q;
      assert AllBits(x)[8..] == AllBits(x[1..]) && AllBits(y)[8..] == AllBits(y[1..]);
      assert Pow2(4) == 16 && Pow2(8) == 256;
      SameBits(x[0], y[0], 8);
      AllBitsDiffer(x[1..], y[1..]);
    }
  }

  /** Messages that differ only within as many consecutive bytes as fit the register have different CRCs. */
  lemma BytesAreDetected(a: Algorithm, x: seq<u8>, y: seq<u8>, at: nat, n: nat)
    requires a.Valid() && a.polynomial % 2 == 1 && 8 * n <= a.width
    requires |x| == |y| && at + n <= |x| && x != y && x[..at] == y[..at] && x[at + n..] == y[at + n..]
    ensures CrcBits(a, x) != CrcBits(a, y)
  {
    PartsOf(x, at, n);
    PartsOf(y, at, n);
    if AllBits(x) == AllBits(y) { AllBitsDiffer(x, y); }
    BurstsAreDetected(a, x, y, 8 * at, 8 * n);
  }

  lemma PartsOf(x: seq<u8>, at: nat, n: nat)
    requires at + n <= |x|
    ensures |AllBits(x)| == 8 * |x|
    ensures AllBits(x)[..8 * at] == AllBits(x[..at]) && AllBits(x)[8 * at + 8 * n..] == AllBits(x[at + n..])
  {
    assert x == x[..at] + x[at..] && x == x[..at + n] + x[at + n..];
    AllBitsAppend(x[..at], x[at..]);
    AllBitsAppend(x[..at + n], x[at + n..]);
  }

  /** Whether a bit string has an odd number of ones. */
  ghost function Odd(e: seq<bool>): bool { if e == [] then false else e[0] != Odd(e[1..]) }

  lemma {:induction false} OddAppend(x: seq<bool>, y: seq<bool>)
    ensures Odd(x + y) == (Odd(x) != Odd(y))
    decreases x
  {
    if x == [] {
      assert x + y == y;
    } else {
      assert (x + y)[1..] == x[1..] + y;
      OddAppend(x[1..], y);
    }
  }

  lemma {:induction false} OddXor(x: seq<bool>, y: seq<bool>)
    requires |x| == |y|
    ensures Odd(XorBits(x, y)) == (Odd(x) != Odd(y))
    decreases x
  {
    if x != [] {
      assert XorBits(x, y)[1..] == XorBits(x[1..], y[1..]);
      OddXor(x[1..], y[1..]);
    }
  }

  lemma {:induction false} OddZeros(n: nat)
    ensures !Odd(Zeros(n))
  {
    if n > 0 {
      assert Zeros(n)[1..] == Zeros(n - 1);
      OddZeros(n - 1);
    }
  }

  /** A polynomial with an odd number of ones below its leading one keeps the parity of the register. */
  lemma ShiftParity(poly: seq<bool>, r: seq<bool>)
    requires |r| == |poly| > 0 && Odd(poly)
    ensures Odd(Shift(poly, r)) == Odd(r)
  {
    OddAppend(r[1..], [false]);
    assert Odd([false]) == false by { assert [false][1..] == []; }
    OddXor(r[1..] + [false], poly);
  }

  lemma {:induction false} FeedParity(poly: seq<bool>, r: seq<bool>, e: seq<bool>)
    requires |r| == |poly| > 0 && Odd(poly)
    ensures Odd(FeedBits(poly, r, e)) == (Odd(r) != Odd(e))
    decreases e
  {
    if e != [] {
      var load := Top(e[..1], |r|);
      var x := XorBits(r, load);
      OddXor(r, load);
      OddZeros(|r| - 1);
      assert load[0] == e[0] && load[1..] == Zeros(|r| - 1);
      ShiftParity(poly, x);
      FeedParity(poly, Shift(poly, x), e[1..]);
    }
  }

  /** The parity of a message and of its CRC determine each other. */
  lemma CrcParity(a: Algorithm, x: seq<u8>)
    requires a.Valid() && Odd(a.Poly())
    ensures Odd(CrcBits(a, x)) == (Odd(AllBits(x)) != (Odd(Bits(a.initial, a.width)) != Odd(Bits(a.xorOut, a.width))))
  {
    FeedIsBits(a.Poly(), Bits(a.initial, a.width), x);
    FeedParity(a.Poly(), Bits(a.initial, a.width), AllBits(x));
    OddXor(Feed(a.Poly(), Bits(a.initial, a.width), x), Bits(a.xorOut, a.width));
  }

  /** No odd number of wrong bits, anywhere in a message or the CRC sent with it, goes unnoticed. */
  lemma OddErrorsAreDetected(a: Algorithm, x: seq<u8>, y: seq<u8>, received: seq<bool>)
    requires a.Valid() && Odd(a.Poly()) && |x| == |y| && |received| == a.width
    requires Odd(XorBits(AllBits(x) + CrcBits(a, x), AllBits(y) + received))
    ensures received != CrcBits(a, y)
  {
    CrcParity(a, x);
    CrcParity(a, y);
    OddXor(AllBits(x) + CrcBits(a, x), AllBits(y) + received);
    OddAppend(AllBits(x), CrcBits(a, x));
    OddAppend(AllBits(y), received);
  }

  function OddNumber(a: nat, n: nat): bool
    decreases n
  {
    if n == 0 then false else OddNumber(a / 2, n - 1) != (a % 2 == 1)
  }

  lemma {:induction false} OddBits(a: nat, n: nat)
    ensures Odd(Bits(a, n)) == OddNumber(a, n)
    decreases n
  {
    if n > 0 {
      OddBits(a / 2, n - 1);
      OddAppend(Bits(a / 2, n - 1), [a % 2 == 1]);
      assert [a % 2 == 1][1..] == [];
    }
  }

  /** The algorithm the Link uses has both properties. */
  lemma CcittFalseQualifies()
    ensures CCITT_FALSE.Valid() && CCITT_FALSE.polynomial % 2 == 1 && Odd(CCITT_FALSE.Poly())
  {
    assert Pow2(4) == 16 && Pow2(8) == 256 && Pow2(12) == 4096 && Pow2(16) == 65536;
    OddBits(0x1021, 16);
    assert !OddNumber(0, 3) && OddNumber(1, 4) && OddNumber(8, 7) && OddNumber(0x40, 10);
    assert !OddNumber(0x81, 11) && !OddNumber(0x408, 14);
  }
}
