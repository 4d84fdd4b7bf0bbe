/**
 * Unsigned 16-bit window registers as natural numbers, with the bit operations both endpoints
 * apply to them, and what those operations do to the set of set bits.
 */
module Bitmap16 {
  import opened Integers

  const WIDTH: nat := 16

  /** Bit i of the binary representation. */
  predicate Bit(b: nat, i: nat) {
    if i == 0 then b % 2 == 1 else Bit(b / 2, i - 1)
  }

  function Shr(b: nat, n: nat): nat {
    if n == 0 then b else Shr(b / 2, n - 1)
  }

  function Or(a: nat, b: nat): nat {
    if a == 0 && b == 0 then 0
    else 2 * Or(a / 2, b / 2) + (if a % 2 == 1 || b % 2 == 1 then 1 else 0)
  }

  function And(a: nat, b: nat): nat {
    if a == 0 || b == 0 then 0
    else 2 * And(a / 2, b / 2) + (if a % 2 == 1 && b % 2 == 1 then 1 else 0)
  }

  function Not16(a: u16): u16 {
    0xFFFF - a
  }

  /** The n low bits set; all of them from 16 on. */
  function LowBitMask(n: nat): nat {
    if n >= WIDTH then 0xFFFF else if n == 0 then 0 else Pow2(n) - 1
  }

  /** The register as the set of its set bits. */
  ghost function Bits(b: nat): set<nat> {
    set i: nat | i < WIDTH && Bit(b, i)
  }

  /** The register whose set bits are the members of s below n. */
  ghost function Gather(s: set<nat>, n: nat): (b: nat)
    ensures b < Pow2(n)
  {
    if n == 0 then 0 else Gather(s, n - 1) + (if n - 1 in s then Pow2(n - 1) else 0)
  }

  lemma Pow2At16()
    ensures Pow2(16) == 0x1_0000
  {
    assert Pow2(4) == 16;
    assert Pow2(8) == 256;
    assert Pow2(12) == 4096;
  }

  lemma {:induction false} Pow2Monotone(m: nat, n: nat)
    requires m <= n
    ensures Pow2(m) <= Pow2(n)
    decreases n
  {
    if m < n { Pow2Monotone(m, n - 1); }
  }

  lemma {:induction false} NoHighBits(b: nat, n: nat, i: nat)
    requires b < Pow2(n) && i >= n
    ensures !Bit(b, i)
    decreases i
  {
    if i > 0 { NoHighBits(b / 2, if n == 0 then 0 else n - 1, i - 1); }
  }

  lemma {:induction false} ShrBit(b: nat, n: nat, i: nat)
    ensures Bit(Shr(b, n), i) <==> Bit(b, i + n)
    decreases n
  {
    if n > 0 { ShrBit(b / 2, n - 1, i); }
  }

  lemma {:induction false} ShrBound(b: nat, n: nat)
    ensures Shr(b, n) <= b
    decreases n
  {
    if n > 0 { ShrBound(b / 2, n - 1); }
  }

  lemma {:induction false} OrBit(a: nat, b: nat, i: nat)
    ensures Bit(Or(a, b), i) <==> Bit(a, i) || Bit(b, i)
    decreases i
  {
    assert Or(a, b) / 2 == Or(a / 2, b / 2) && (Or(a, b) % 2 == 1 <==> a % 2 == 1 || b % 2 == 1);
    if i > 0 { OrBit(a / 2, b / 2, i - 1); }
  }

  lemma {:induction false} OrBound(a: nat, b: nat, n: nat)
    requires a < Pow2(n) && b < Pow2(n)
    ensures Or(a, b) < Pow2(n)
    decreases n
  {
    if n > 0 { OrBound(a / 2, b / 2, n - 1); }
  }

  lemma {:induction false} AndBit(a: nat, b: nat, i: nat)
    ensures Bit(And(a, b), i) <==> Bit(a, i) && Bit(b, i)
    decreases i
  {
    if i > 0 {
      AndBit(a / 2, b / 2, i - 1);
      ZeroBit(i);
    }
  }

  lemma {:induction false} AndBound(a: nat, b: nat)
    ensures And(a, b) <= a
    decreases a
  {
    if a > 0 && b > 0 { AndBound(a / 2, b / 2); }
  }

  lemma {:induction false} ZeroBit(i: nat)
    ensures !Bit(0, i)
  {
    if i > 0 { ZeroBit(i - 1); }
  }

  lemma {:induction false} ComplementBit(a: nat, n: nat, i: nat)
    requires a < Pow2(n) && i < n
    ensures Bit(Pow2(n) - 1 - a, i) <==> !Bit(a, i)
    decreases n
  {
    if i > 0 {
      assert (Pow2(n) - 1 - a) / 2 == Pow2(n - 1) - 1 - a / 2;
      ComplementBit(a / 2, n - 1, i - 1);
    }
  }

  lemma {:induction false} LowMaskBit(n: nat, i: nat)
    ensures Bit(Pow2(n) - 1, i) <==> i < n
    decreases i
  {
    if i == 0 {
    } else if n == 0 {
      ZeroBit(i);
    } else {
      assert (Pow2(n) - 1) / 2 == Pow2(n - 1) - 1;
      LowMaskBit(n - 1, i - 1);
    }
  }

  lemma {:induction false} Pow2Bit(n: nat, i: nat)
    ensures Bit(Pow2(n), i) <==> i == n
    decreases n
  {
    if n == 0 {
      if i > 0 { ZeroBit(i - 1); }
    } else if i > 0 {
      Pow2Bit(n - 1, i - 1);
    }
  }

  /** A register is determined by its bits. */
  lemma {:induction false} Extensional(a: nat, b: nat, n: nat)
    requires a < Pow2(n) && b < Pow2(n)
    requires forall i: nat | i < n :: Bit(a, i) <==> Bit(b, i)
    ensures a == b
    decreases n
  {
    if n > 0 {
      assert Bit(a, 0) <==> Bit(b, 0);
      forall i: nat | i < n - 1 ensures Bit(a / 2, i) <==> Bit(b / 2, i) {
        assert Bit(a, i + 1) <==> Bit(b, i + 1);
      }
      Extensional(a / 2, b / 2, n - 1);
    }
  }

  /** Adding the next power of two sets the next bit and keeps those below. */
  lemma {:induction false} AddTopBit(b: nat, n: nat, i: nat)
    requires b < Pow2(n)
    ensures Bit(b + Pow2(n), i) <==> i == n || Bit(b, i)
    decreases n
  {
    if n == 0 {
      if i > 0 { ZeroBit(i - 1); ZeroBit(i); }
    } else if i > 0 {
      assert (b + Pow2(n)) / 2 == b / 2 + Pow2(n - 1);
      AddTopBit(b / 2, n - 1, i - 1);
    }
  }

  lemma {:induction false} GatherBit(s: set<nat>, n: nat, i: nat)
    ensures Bit(Gather(s, n), i) <==> i < n && i in s
    decreases n
  {
    if n == 0 {
      ZeroBit(i);
    } else {
      GatherBit(s, n - 1, i);
      AddTopBit(Gather(s, n - 1), n - 1, i);
    }
  }

  // The same facts about whole registers, as sets of bit positions.

  lemma ShrBits(b: u16, n: nat)
    ensures Shr(b, n) <= b
    ensures forall i: nat | i < WIDTH :: i in Bits(Shr(b, n)) <==> i + n in Bits(b)
  {
    ShrBound(b, n);
    forall i: nat | i < WIDTH ensures i in Bits(Shr(b, n)) <==> i + n in Bits(b) {
      ShrBit(b, n, i);
      if i + n >= WIDTH { Pow2At16(); NoHighBits(b, WIDTH, i + n); }
    }
  }

  lemma OrBits(a: u16, b: u16)
    ensures Or(a, b) < 0x1_0000
    ensures Bits(Or(a, b)) == Bits(a) + Bits(b)
  {
    Pow2At16();
    OrBound(a, b, WIDTH);
    forall i: nat | i < WIDTH ensures Bit(Or(a, b), i) <==> Bit(a, i) || Bit(b, i) { OrBit(a, b, i); }
  }

  lemma AndBits(a: u16, b: u16)
    ensures And(a, b) <= a
    ensures Bits(And(a, b)) == Bits(a) * Bits(b)
  {
    AndBound(a, b);
    forall i: nat | i < WIDTH ensures Bit(And(a, b), i) <==> Bit(a, i) && Bit(b, i) { AndBit(a, b, i); }
  }

  lemma NotBits(a: u16)
    ensures forall i: nat | i < WIDTH :: i in Bits(Not16(a)) <==> i !in Bits(a)
  {
    Pow2At16();
    forall i: nat | i < WIDTH ensures i in Bits(Not16(a)) <==> i !in Bits(a) { ComplementBit(a, WIDTH, i); }
  }

  lemma LowBits(n: nat)
    ensures LowBitMask(n) < 0x1_0000
    ensures forall i: nat | i < WIDTH :: i in Bits(LowBitMask(n)) <==> i < n
  {
    Pow2At16();
    Pow2Monotone(if n < WIDTH then n else WIDTH, WIDTH);
    forall i: nat | i < WIDTH ensures i in Bits(LowBitMask(n)) <==> i < n {
      LowMaskBit(if n < WIDTH then n else WIDTH, i);
    }
  }

  lemma OneBit(n: nat)
    requires n < WIDTH
    ensures Pow2(n) < 0x1_0000
    ensures Bits(Pow2(n)) == {n}
  {
    assert Pow2(n) < 0x1_0000 by {
      Pow2At16();
      Pow2Monotone(n + 1, WIDTH);
    }
    forall i: nat | i < WIDTH ensures Bit(Pow2(n), i) <==> i == n { Pow2Bit(n, i); }
  }

  lemma SameBits(a: u16, b: u16)
    requires Bits(a) == Bits(b)
    ensures a == b
  {
    Pow2At16();
    forall i: nat | i < WIDTH ensures Bit(a, i) <==> Bit(b, i) {
      assert i in Bits(a) <==> i in Bits(b);
    }
    Extensional(a, b, WIDTH);
  }

  lemma NoBits(a: u16)
    ensures a == 0 <==> Bits(a) == {}
  {
    assert Bits(0) == {} by {
      forall i: nat | i < WIDTH ensures !Bit(0, i) { ZeroBit(i); }
    }
    if Bits(a) == {} { SameBits(a, 0); }
  }

  /** The register whose set bits are the members of s below 16. */
  ghost function Register(s: set<nat>): (r: u16)
    ensures forall i: nat :: i in Bits(r) <==> i < WIDTH && i in s
  {
    RegisterExists(s);
    var r: u16 :| forall i: nat :: i in Bits(r) <==> i < WIDTH && i in s;
    r
  }

  lemma RegisterExists(s: set<nat>)
    ensures exists r: u16 :: forall i: nat :: i in Bits(r) <==> i < WIDTH && i in s
  {
    Pow2At16();
    var r: u16 := Gather(s, WIDTH);
    forall i: nat ensures i in Bits(r) <==> i < WIDTH && i in s { GatherBit(s, WIDTH, i); }
  }

  lemma RegisterOf(s: set<nat>, r: u16)
    requires forall i: nat :: i in Bits(r) <==> i < WIDTH && i in s
    ensures r == Register(s)
  {
    SameBits(r, Register(s));
  }

  // The operators as the endpoints apply them.

  method Or16(a: u16, b: u16) returns (r: u16)
    ensures Bits(r) == Bits(a) + Bits(b)
  {
    OrBits(a, b);
    r := Or(a, b);
  }

  method And16(a: u16, b: u16) returns (r: u16)
    ensures Bits(r) == Bits(a) * Bits(b)
  {
    AndBits(a, b);
    r := And(a, b);
  }

  method Complement16(a: u16) returns (r: u16)
    ensures forall i: nat :: i in Bits(r) <==> i < WIDTH && i !in Bits(a)
  {
    NotBits(a);
    r := Not16(a);
  }

  method ShiftRight16(a: u16, n: nat) returns (r: u16)
    ensures forall i: nat :: i in Bits(r) <==> i + n in Bits(a)
  {
    ShrBits(a, n);
    r := Shr(a, n);
  }

  method LowMask16(n: nat) returns (r: u16)
    ensures forall i: nat :: i in Bits(r) <==> i < WIDTH && i < n
  {
    LowBits(n);
    r := LowBitMask(n);
  }

  method Single16(n: nat) returns (r: u16)
    requires n < WIDTH
    ensures Bits(r) == {n}
  {
    OneBit(n);
    r := Pow2(n);
  }

  method IsZero16(a: u16) returns (zero: bool)
    ensures zero <==> Bits(a) == {}
  {
    NoBits(a);
    zero := a == 0;
  }

  function LowestBit(b: nat): nat
    requires b > 0
  {
    if b % 2 == 1 then 0 else 1 + LowestBit(b / 2)
  }

  /** Anding a register with its predecessor clears its lowest set bit and nothing else. */
  lemma {:induction false} ClearLowest(b: nat, i: nat)
    requires b > 0
    ensures Bit(And(b, b - 1), i) <==> Bit(b, i) && i != LowestBit(b)
    ensures Bit(b, LowestBit(b))
    decreases b
  {
    if b % 2 == 1 {
      AndBit(b, b - 1, i);
      if i > 0 { assert (b - 1) / 2 == b / 2; }
    } else {
      assert (b - 1) / 2 == b / 2 - 1;
      ClearLowest(b / 2, if i == 0 then 0 else i - 1);
      AndBit(b, b - 1, i);
      if i > 0 { AndBit(b / 2, b / 2 - 1, i - 1); }
    }
  }

  lemma ClearLowestBits(b: u16)
    requires b > 0
    ensures And(b, b - 1) < b
    ensures LowestBit(b) in Bits(b) && Bits(And(b, b - 1)) == Bits(b) - {LowestBit(b)}
  {
    var low, next := LowestBit(b), And(b, b - 1);
    ClearLowest(b, 0);
    if low >= WIDTH { Pow2At16(); NoHighBits(b, WIDTH, low); }
    AndBound(b - 1, b);
    AndSwap(b, b - 1);
    forall i: nat | i < WIDTH ensures Bit(next, i) <==> Bit(b, i) && i != low { ClearLowest(b, i); }
  }

  /** The number of set bits, one cleared bit per turn. */
  method PopCount16(value: u16) returns (count: nat)
    ensures count == |Bits(value)|
    ensures count <= WIDTH
  {
    count := 0;
    var rest := value;
    while rest != 0
      invariant rest < 0x1_0000
      invariant count + |Bits(rest)| == |Bits(value)|
      decreases rest
    {
      ClearLowestBits(rest);
      rest := And(rest, rest - 1);
      count := count + 1;
    }
    NoBits(rest);
    Cardinality(value);
  }

  lemma {:induction false} AndSwap(a: nat, b: nat)
    ensures And(a, b) == And(b, a)
    decreases a
  {
    if a > 0 && b > 0 { AndSwap(a / 2, b / 2); }
  }

  lemma Cardinality(b: nat)
    ensures |Bits(b)| <= WIDTH
  {
    SubsetSize(Bits(b), UpTo(WIDTH));
  }
}
