/** Unsigned machine words as numbers, and as their bits, most significant first. */
module Words {
  import opened Integers

  /** The low n bits of a number. */
  function Bits(a: nat, n: nat): (s: seq<bool>)
    ensures |s| == n
    decreases n
  {
    if n == 0 then [] else Bits(a / 2, n - 1) + [a % 2 == 1]
  }

  /** Bitwise exclusive or of two numbers. */
  function Xor(a: nat, b: nat): nat
    decreases a + b
  {
    if a == 0 && b == 0 then 0 else 2 * Xor(a / 2, b / 2) + (if a % 2 != b % 2 then 1 else 0)
  }

  /** Bitwise exclusive or of two bit strings. */
  function XorBits(x: seq<bool>, y: seq<bool>): (z: seq<bool>)
    requires |x| == |y|
    ensures |z| == |x| && forall i | 0 <= i < |z| :: z[i] == (x[i] != y[i])
  {
    seq(|x|, i requires 0 <= i < |x| => x[i] != y[i])
  }

  function Zeros(n: nat): (z: seq<bool>)
    ensures |z| == n && forall i | 0 <= i < n :: !z[i]
  {
    seq(n, _ => false)
  }

  lemma {:induction false} XorIs(a: nat, b: nat, n: nat)
    ensures Bits(Xor(a, b), n) == XorBits(Bits(a, n), Bits(b, n))
    decreases n
  {
    if n > 0 {
      XorIs(a / 2, b / 2, n - 1);
      assert Xor(a, b) / 2 == Xor(a / 2, b / 2);
    }
  }

  lemma {:induction false} XorBound(a: nat, b: nat, n: nat)
    requires a < Pow2(n) && b < Pow2(n)
    ensures Xor(a, b) < Pow2(n)
    decreases n
  {
    if n > 0 { XorBound(a / 2, b / 2, n - 1); }
  }

  /** Bits above the low n do not show. */
  lemma {:induction false} HighIgnored(a: nat, n: nat)
    ensures Bits(a + Pow2(n), n) == Bits(a, n)
    decreases n
  {
    if n > 0 {
      assert (a + Pow2(n)) / 2 == a / 2 + Pow2(n - 1);
      HighIgnored(a / 2, n - 1);
    }
  }

  /** The first of n + 1 bits tells whether the number reaches 2^n; the rest are its low n bits. */
  lemma {:induction false} FirstBit(a: nat, n: nat)
    requires a < Pow2(n + 1)
    ensures Bits(a, n + 1)[0] <==> a >= Pow2(n)
    ensures Bits(a, n + 1)[1..] == Bits(a, n)
    decreases n
  {
    if n > 0 {
      FirstBit(a / 2, n - 1);
      assert Bits(a, n + 1) == Bits(a / 2, n) + [a % 2 == 1];
      assert Bits(a, n + 1)[1..] == Bits(a / 2, n)[1..] + [a % 2 == 1];
    }
  }

  /** Doubling and dropping the carry shifts the bits left by one. */
  lemma DoubleIs(a: nat, n: nat)
    requires n > 0 && a < Pow2(n)
    ensures var d := if a >= Pow2(n - 1) then 2 * a - Pow2(n) else 2 * a;
      0 <= d < Pow2(n) && Bits(d, n) == Bits(a, n)[1..] + [false]
  {
    var d := if a >= Pow2(n - 1) then 2 * a - Pow2(n) else 2 * a;
    FirstBit(a, n - 1);
    assert d / 2 == if a >= Pow2(n - 1) then a - Pow2(n - 1) else a;
    if a >= Pow2(n - 1) { HighIgnored(a - Pow2(n - 1), n - 1); }
  }

  lemma {:induction false} ZeroIs(n: nat)
    ensures Bits(0, n) == Zeros(n)
  {
    if n > 0 { ZeroIs(n - 1); }
  }

  /** Multiplying by a power of two puts that many zeros after the bits. */
  lemma {:induction false} ScaledIs(a: nat, k: nat, n: nat)
    ensures Bits(a * Pow2(k), n + k) == Bits(a, n) + Zeros(k)
    decreases k
  {
    if k > 0 {
      ScaledIs(a, k - 1, n);
      DoubleHalves(a, Pow2(k - 1));
      assert Zeros(k) == Zeros(k - 1) + [false];
      assert Bits(a, n) + Zeros(k) == (Bits(a, n) + Zeros(k - 1)) + [false];
    }
  }

  lemma DoubleHalves(a: nat, p: nat)
    ensures a * (2 * p) / 2 == a * p && a * (2 * p) % 2 == 0
  {
    assert a * (2 * p) == 2 * (a * p);
  }

  /** Words of one width are equal when their bits are. */
  lemma {:induction false} SameBits(a: nat, b: nat, n: nat)
    requires a < Pow2(n) && b < Pow2(n) && Bits(a, n) == Bits(b, n)
    ensures a == b
    decreases n
  {
    if n > 0 {
      var x, y := Bits(a, n), Bits(b, n);
      assert x[..n - 1] == Bits(a / 2, n - 1) && y[..n - 1] == Bits(b / 2, n - 1);
      assert x[n - 1] == y[n - 1];
      SameBits(a / 2, b / 2, n - 1);
    }
  }

  /** Exclusive or with a fixed word undoes itself. */
  lemma {:induction false} XorTwice(a: nat, b: nat)
    ensures Xor(Xor(a, b), b) == a
    decreases a + b
  {
    if a != 0 || b != 0 {
      XorTwice(a / 2, b / 2);
      assert Xor(a, b) / 2 == Xor(a / 2, b / 2);
    }
  }

  /** The number a bit string stands for. */
  function Number(e: seq<bool>): nat {
    if e == [] then 0 else 2 * Number(e[..|e| - 1]) + (if e[|e| - 1] then 1 else 0)
  }

  lemma {:induction false} NumberIs(e: seq<bool>)
    ensures Number(e) < Pow2(|e|) && Bits(Number(e), |e|) == e
    decreases e
  {
    if e != [] {
      NumberIs(e[..|e| - 1]);
      assert e == e[..|e| - 1] + [e[|e| - 1]];
    }
  }

  /** A word is its high bits followed by its low ones. */
  lemma {:induction false} JoinedBits(high: nat, low: nat, n: nat, k: nat)
    requires low < Pow2(k)
    ensures Bits(high * Pow2(k) + low, n + k) == Bits(high, n) + Bits(low, k)
    decreases k
  {
    if k > 0 {
      JoinedBits(high, low / 2, n, k - 1);
      HalfOfSum(high, Pow2(k - 1), low);
      assert Bits(high, n) + Bits(low, k) == (Bits(high, n) + Bits(low / 2, k - 1)) + [low % 2 == 1];
    } else {
      assert high * Pow2(0) == high;
    }
  }

  lemma HalfOfSum(a: nat, p: nat, low: nat)
    ensures (a * (2 * p) + low) / 2 == a * p + low / 2 && (a * (2 * p) + low) % 2 == low % 2
  {
    assert a * (2 * p) == 2 * (a * p);
  }

  lemma PowersOfTwo()
    ensures Pow2(8) == 0x100 && Pow2(16) == 0x1_0000
  {
    assert Pow2(4) == 16;
    assert Pow2(12) == 4096;
  }

  lemma SplitBits(a: nat)
    ensures Bits(a, 16) == Bits(a / 256, 8) + Bits(a % 256, 8)
  {
    PowersOfTwo();
    JoinedBits(a / 256, a % 256, 8, 8);
    assert a / 256 * 256 + a % 256 == a;
  }

  lemma LowBits(high: nat, low: nat, k: nat)
    requires low < Pow2(k)
    ensures Bits(high * Pow2(k) + low, k) == Bits(low, k)
  {
    JoinedBits(high, low, 0, k);
    assert Bits(high, 0) + Bits(low, k) == Bits(low, k);
  }

  /** Cutting a number down to 16 bits keeps its low 16 bits. */
  lemma CutCarry(a: nat)
    ensures Bits(a % 0x1_0000, 16) == Bits(a, 16)
  {
    PowersOfTwo();
    LowBits(a / 0x1_0000, a % 0x1_0000, 16);
    assert a / 0x1_0000 * 0x1_0000 + a % 0x1_0000 == a;
  }
}
