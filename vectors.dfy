/** The fixed boundary vectors of types/int_test.go, proved about the model.
    With 2^255 = 5.789...e76 and 2^256 = 1.157...e77, the signed values
    k * 10^76 fit for k <= 5 and the unsigned ones for k <= 11. */
module BoundaryVectors {
  import opened Outcomes
  import opened Numeric
  import S = SignedInt
  import U = UnsignedInt
  import Integer

  /** k * 10^76, the scaled literals the tests build. */
  function E76(k: nat): int { k * Pow10(76) }

  /** 10^76 and its multiples need more than 252 bits. */
  lemma E76IsWide(k: nat)
    requires k >= 1
    ensures Integer.BitLength(E76(k)) > 252
    ensures Integer.BitLength(-E76(k)) > 252
  {
    Pow10Is76();
    Pow2Is255();
    Pow2Add(252, 3);
    Integer.BitLengthBound(E76(k), 252);
    Integer.BitLengthBound(-E76(k), 252);
  }

  // ---------------------------------------------------------------- TestInt

  lemma IntConstructionVectors()
    ensures S.NewIntWithDecimal(1, 76) == (S.Int(E76(1)), true)
    ensures S.NewIntWithDecimal(2, 76) == (S.Int(E76(2)), true)
    ensures S.NewIntWithDecimal(3, 76) == (S.Int(E76(3)), true)
    ensures !S.NewIntWithDecimal(6, 76).1
    ensures !S.NewIntWithDecimal(9, 80).1
  {
    Pow10Is76();
    Pow2Is255();
    Pow10Add(76, 4);
    assert Pow10(4) == 10000;
  }

  lemma IntOverflowVectors()
    ensures S.Add(S.Int(E76(1)), S.Int(E76(1))).Ok?
    ensures S.Add(S.Int(E76(2)), S.Int(E76(2))).Ok?
    ensures S.Add(S.Int(E76(3)), S.Int(E76(3))) == Panic(Overflow)
    ensures S.Sub(S.Int(E76(1)), S.Neg(S.Int(E76(1)))).Ok?
    ensures S.Sub(S.Int(E76(2)), S.Neg(S.Int(E76(2)))).Ok?
    ensures S.Sub(S.Int(E76(3)), S.Neg(S.Int(E76(3)))) == Panic(Overflow)
  {
    Pow10Is76();
    Pow2Is255();
  }

  lemma IntUnderflowVectors()
    ensures S.Sub(S.Int(-E76(3)), S.Int(E76(1))).Ok?
    ensures S.Sub(S.Int(-E76(3)), S.Int(E76(2))).Ok?
    ensures S.Sub(S.Int(-E76(3)), S.Int(E76(3))) == Panic(Overflow)
    ensures S.Add(S.Int(-E76(3)), S.Neg(S.Int(E76(1)))).Ok?
    ensures S.Add(S.Int(-E76(3)), S.Neg(S.Int(E76(2)))).Ok?
    ensures S.Add(S.Int(-E76(3)), S.Neg(S.Int(E76(3)))) == Panic(Overflow)
  {
    Pow10Is76();
    Pow2Is255();
  }

  /** Every product of two of the test values, of either sign, panics. */
  lemma IntMulVectors(j: nat, k: nat, negJ: bool, negK: bool)
    requires 1 <= j <= 3 && 1 <= k <= 3
    ensures S.Mul(S.Int(if negJ then -E76(j) else E76(j)), S.Int(if negK then -E76(k) else E76(k)))
         == Panic(Overflow)
  {
    E76IsWide(j);
    E76IsWide(k);
  }

  lemma IntBoundVectors()
    ensures S.Add(S.NewIntFromBigInt(Pow2(255) - 1), S.ZeroInt()).Ok?
    ensures S.Sub(S.Neg(S.NewIntFromBigInt(Pow2(255) - 1)), S.ZeroInt()).Ok?
    ensures S.Add(S.NewIntFromBigInt(Pow2(255) - 1), S.OneInt()) == Panic(Overflow)
    ensures S.Sub(S.Neg(S.NewIntFromBigInt(Pow2(255) - 1)), S.OneInt()) == Panic(Overflow)
  {
  }

  // ---------------------------------------------------------------- TestUint

  lemma UintConstructionVectors()
    ensures U.NewUintWithDecimal(5, 76) == (U.Uint(E76(5)), true)
    ensures U.NewUintWithDecimal(10, 76) == (U.Uint(E76(10)), true)
    ensures U.NewUintWithDecimal(11, 76) == (U.Uint(E76(11)), true)
    ensures !U.NewUintWithDecimal(12, 76).1
    ensures !U.NewUintWithDecimal(1, 80).1
  {
    Pow10Is76();
    Pow2Is256();
    Pow10Add(76, 4);
    assert Pow10(4) == 10000;
  }

  lemma UintOverflowVectors()
    ensures U.Add(U.Uint(E76(5)), U.Uint(E76(5))).Ok?
    ensures U.Add(U.Uint(E76(10)), U.Uint(E76(10))) == Panic(Overflow)
    ensures U.Add(U.Uint(E76(11)), U.Uint(E76(11))) == Panic(Overflow)
  {
    Pow10Is76();
    Pow2Is256();
  }

  lemma UintMulVectors(k: nat)
    requires k == 5 || k == 10 || k == 11
    ensures U.Mul(U.Uint(E76(k)), U.Uint(E76(k))) == Panic(Overflow)
  {
    E76IsWide(k);
  }

  lemma UintUnderflowVectors()
    ensures U.Sub(U.Uint(E76(10)), U.Uint(E76(5))).Ok?
    ensures U.Sub(U.Uint(E76(10)), U.Uint(E76(10))).Ok?
    ensures U.Sub(U.Uint(E76(10)), U.Uint(E76(11))) == Panic(Overflow)
  {
    Pow10Is76();
    Pow2Is256();
  }

  lemma UintBoundVectors()
    ensures U.Add(U.NewUintFromBigInt(Pow2(256) - 1), U.ZeroUint()).Ok?
    ensures U.Sub(U.NewUint(0), U.ZeroUint()).Ok?
    ensures U.Add(U.NewUintFromBigInt(Pow2(256) - 1), U.OneUint()) == Panic(Overflow)
    ensures U.Sub(U.NewUint(0), U.OneUint()) == Panic(Overflow)
  {
  }

  // ---------------------------------------------------------------- division by zero

  /** The two types part ways on a zero divisor: Int panics, Uint yields zero. */
  lemma DivisionByZeroDiverges(a: S.Int, b: U.Uint)
    ensures S.Div(a, S.ZeroInt()) == Panic(DivisionByZero)
    ensures U.Div(b, U.ZeroUint()) == U.ZeroUint()
  {
  }
}
