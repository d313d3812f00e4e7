/** Arithmetic shared by the whole model: Go's native integer ranges,
    powers of two and ten, and the bit length of a magnitude (math/big's
    `BitLen`). Dafny's `int` stands for math/big's `big.Int` throughout. */
module Numeric {

  const MinInt64: int := -0x8000_0000_0000_0000
  const MaxInt64: int := 0x7FFF_FFFF_FFFF_FFFF
  const MaxUint64: int := 0xFFFF_FFFF_FFFF_FFFF

  /** Go's `int64` (and Go's `int`, taken to be 64 bits wide). */
  type Int64 = x: int | MinInt64 <= x <= MaxInt64

  /** Go's `uint64`. */
  type Uint64 = x: int | 0 <= x <= MaxUint64

  /** Go's `byte`. */
  type Byte = x: int | 0 <= x < 256

  function Abs(x: int): (r: nat)
    ensures r == x || r == -x
  {
    if x < 0 then -x else x
  }

  function Pow2(k: nat): (r: nat)
    ensures r >= 1
  {
    if k == 0 then 1 else 2 * Pow2(k - 1)
  }

  function Pow10(k: nat): (r: nat)
    ensures r >= 1
  {
    if k == 0 then 1 else 10 * Pow10(k - 1)
  }

  /** Number of binary digits of `n`; 0 for 0. */
  function BitLen(n: nat): nat
  {
    if n == 0 then 0 else 1 + BitLen(n / 2)
  }

  lemma {:induction false} Pow2Add(x: nat, y: nat)
    ensures Pow2(x + y) == Pow2(x) * Pow2(y)
    decreases x
  {
    if x > 0 {
      Pow2Add(x - 1, y);
    }
  }

  lemma {:induction false} Pow10Add(x: nat, y: nat)
    ensures Pow10(x + y) == Pow10(x) * Pow10(y)
    decreases x
  {
    if x > 0 {
      Pow10Add(x - 1, y);
    }
  }

  /** The bit length of `n` is at most `k` exactly when `n` is below 2^k. */
  lemma {:induction false} BitLenBound(n: nat, k: nat)
    ensures BitLen(n) <= k <==> n < Pow2(k)
    decreases k
  {
    if k > 0 && n > 0 {
      BitLenBound(n / 2, k - 1);
    }
  }

  /** A positive `n` has its top bit at position BitLen(n) - 1. */
  lemma BitLenExact(n: nat)
    requires n > 0
    ensures BitLen(n) >= 1
    ensures Pow2(BitLen(n) - 1) <= n < Pow2(BitLen(n))
  {
    BitLenBound(n, BitLen(n));
    BitLenBound(n, BitLen(n) - 1);
  }

  lemma {:induction false} BitLenPow2(k: nat)
    ensures BitLen(Pow2(k)) == k + 1
  {
    if k > 0 {
      BitLenPow2(k - 1);
    }
  }

  lemma MulStrictlyBelow(a: nat, x: nat, b: nat, y: nat)
    requires a < x && b < y
    ensures a * b < x * y
  {
    assert a * b <= a * y;
    assert a * y < x * y;
  }

  /** The bit length of a product never exceeds the sum of the operands'
      bit lengths (the basis of the multiplication pre-checks). */
  lemma BitLenMul(a: nat, b: nat)
    ensures BitLen(a * b) <= BitLen(a) + BitLen(b)
  {
    BitLenBound(a, BitLen(a));
    BitLenBound(b, BitLen(b));
    Pow2Add(BitLen(a), BitLen(b));
    MulStrictlyBelow(a, Pow2(BitLen(a)), b, Pow2(BitLen(b)));
    BitLenBound(a * b, BitLen(a) + BitLen(b));
  }

  lemma Pow2Is64()
    ensures Pow2(64) == 0x1_0000_0000_0000_0000
  {
    assert Pow2(8) == 0x100;
    Pow2Add(8, 8);
    assert Pow2(16) == 0x1_0000;
    Pow2Add(16, 16);
    assert Pow2(32) == 0x1_0000_0000;
    Pow2Add(32, 32);
  }

  lemma Pow2Is255()
    ensures Pow2(255) == 0x8000_0000_0000_0000_0000_0000_0000_0000_0000_0000_0000_0000_0000_0000_0000_0000
  {
    Pow2Is64();
    Pow2Add(64, 64);
    assert Pow2(128) == 0x1_0000_0000_0000_0000_0000_0000_0000_0000;
    assert Pow2(63) == 0x8000_0000_0000_0000 by {
      assert Pow2(7) == 0x80;
      Pow2Add(8, 7);
      assert Pow2(15) == 0x8000;
      Pow2Add(16, 15);
      assert Pow2(31) == 0x8000_0000;
      Pow2Add(32, 31);
    }
    Pow2Add(64, 63);
    assert Pow2(127) == 0x8000_0000_0000_0000_0000_0000_0000_0000;
    Pow2Add(128, 127);
  }

  lemma Pow2Is256()
    ensures Pow2(256) == 0x1_0000_0000_0000_0000_0000_0000_0000_0000_0000_0000_0000_0000_0000_0000_0000_0000
  {
    Pow2Is255();
  }

  lemma Pow10Is76()
    ensures Pow10(76) == 10000000000000000000000000000000000000000000000000000000000000000000000000000
  {
    assert Pow10(4) == 10000;
    Pow10Add(4, 4);
    assert Pow10(8) == 100000000;
    Pow10Add(8, 8);
    assert Pow10(16) == 10000000000000000;
    Pow10Add(16, 16);
    assert Pow10(32) == 100000000000000000000000000000000;
    Pow10Add(32, 32);
    assert Pow10(64) == 10000000000000000000000000000000000000000000000000000000000000000;
    Pow10Add(64, 8);
    assert Pow10(72) == 1000000000000000000000000000000000000000000000000000000000000000000000000;
    Pow10Add(72, 4);
  }
}
