/** `Int` of types/int.go: a signed integer whose magnitude must fit in 255
    bits, so the range is -(2^255-1) .. 2^255-1. Add, Sub and Mul panic on
    overflow, Div panics on a zero divisor, and the string and decimal
    constructors report failure with `ok == false`. No validity invariant is
    attached to `Int` values: NewIntFromBigInt and the unmarshal methods store
    any integer. */
module SignedInt {
  import opened Outcomes
  import opened Numeric
  import Decimal
  import Integer

  /** The bound on the bit length of |v|. */
  const MaxBits: nat := 255

  datatype Int = Int(i: int)

  /** "bit length of |v| <= 255", that is |v| < 2^255. */
  predicate InRange(v: int) { Abs(v) < Pow2(MaxBits) }

  /** The overflow test the source applies: `bitLen() > 255`. */
  predicate Overflows(v: int) { Integer.BitLength(v) > MaxBits }

  /** The test fails exactly outside -(2^255-1) .. 2^255-1. */
  lemma OverflowsIffOutOfRange(v: int)
    ensures Overflows(v) <==> !InRange(v)
    ensures Overflows(v) <==> -v >= Pow2(MaxBits) || v >= Pow2(MaxBits)
  {
    Integer.BitLengthBound(v, MaxBits);
  }

  // ---------------------------------------------------------------- constructors

  /** `NewInt`: no range check is needed, every int64 fits. */
  function NewInt(n: Int64): (r: Int)
    ensures r.i == n && InRange(r.i)
  {
    Pow2Is255();
    Int(n)
  }

  /** `NewIntFromBigInt`: stores any integer, with no range check. */
  function NewIntFromBigInt(x: int): (r: Int)
    ensures r.i == x
  {
    Int(x)
  }

  /** `NewIntFromString` as the source has it. `i, ok := ...` assigns the named
      result `ok`, so the bare `return` of the overflow branch hands back
      ok == true together with the zero value. */
  function NewIntFromStringAsWritten(s: string): (r: (Int, bool))
    ensures r.1 <==> Decimal.Parse(s).Some?
    ensures r.1 && InRange(Decimal.Parse(s).value) ==> r.0 == Int(Decimal.Parse(s).value)
    ensures r.1 && !InRange(Decimal.Parse(s).value) ==> r.0 == Int(0)
    ensures !r.1 ==> r.0 == Int(0)
  {
    var (i, ok) := Integer.FromString(s);
    OverflowsIffOutOfRange(i);
    if !ok then (Int(0), ok)
    else if Overflows(i) then (Int(0), ok)
    else (Int(i), true)
  }

  /** An overflowing text is reported as accepted by the code as written. */
  lemma NewIntFromStringAsWrittenAcceptsOverflow()
    ensures NewIntFromStringAsWritten(Decimal.Format(Pow2(MaxBits))) == (Int(0), true)
  {
    Decimal.FormatThenParse(Pow2(MaxBits));
  }

  /** `NewIntFromString` as evidently intended: ok exactly when the text is
      well formed and its value is in range; the zero value otherwise. */
  function NewIntFromString(s: string): (r: (Int, bool))
    ensures r.1 <==> Decimal.Parse(s).Some? && InRange(Decimal.Parse(s).value)
    ensures r.1 ==> r.0 == Int(Decimal.Parse(s).value)
    ensures !r.1 ==> r.0 == Int(0)
  {
    var (i, ok) := Integer.FromString(s);
    OverflowsIffOutOfRange(i);
    if !ok then (Int(0), false)
    else if Overflows(i) then (Int(0), false)
    else (Int(i), true)
  }

  /** The corrected constructor rejects the text the code as written lets through. */
  lemma NewIntFromStringRejectsOverflow()
    ensures NewIntFromString(Decimal.Format(Pow2(MaxBits))) == (Int(0), false)
  {
    Decimal.FormatThenParse(Pow2(MaxBits));
  }

  /** `NewIntWithDecimal`: n * 10^dec if that is in range; a negative `dec`
      yields (0, true). */
  function NewIntWithDecimal(n: Int64, dec: Int64): (r: (Int, bool))
    ensures dec < 0 ==> r == (Int(0), true)
    ensures dec >= 0 ==> (r.1 <==> InRange(n * Pow10(dec)))
    ensures dec >= 0 && r.1 ==> r.0 == Int(n * Pow10(dec))
    ensures !r.1 ==> r.0 == Int(0)
  {
    var i := Integer.WithDecimal(n, dec);
    OverflowsIffOutOfRange(i);
    if Overflows(i) then (Int(0), false) else (Int(i), true)
  }

  /** `ZeroInt`: the value that IsZero recognises. */
  function ZeroInt(): (r: Int)
    ensures IsZero(r) && Sign(r) == 0
  {
    Int(0)
  }

  /** `OneInt`: a positive value, and the only one with 0 < v < 2. */
  function OneInt(): (r: Int)
    ensures !IsZero(r) && Sign(r) == 1
    ensures 0 < r.i < 2
  {
    Int(1)
  }

  // ---------------------------------------------------------------- accessors

  /** `Int64`: panics exactly when the value is outside the int64 range. */
  function ToInt64(x: Int): (r: Outcome<Int64>)
    ensures r.Ok? <==> MinInt64 <= x.i <= MaxInt64
    ensures r.Ok? ==> r.value == x.i
    ensures r.Panic? ==> r.reason == OutOfBound
  {
    Integer.ToInt64(x.i)
  }

  /** Narrowing undoes NewInt for every int64. */
  lemma ToInt64OfNewInt(n: Int64)
    ensures ToInt64(NewInt(n)) == Ok(n)
  {
  }

  /** `IsZero`: the sign is zero exactly for the value zero. */
  function IsZero(x: Int): (r: bool)
    ensures r <==> x.i == 0
  {
    Integer.Sign(x.i) == 0
  }

  /** `Sign`: -1, 0 or 1 as the value is negative, zero or positive. */
  function Sign(x: Int): (r: int)
    ensures r == -1 || r == 0 || r == 1
    ensures r == 0 <==> x.i == 0
    ensures r == 1 <==> x.i > 0
  {
    Integer.Sign(x.i)
  }

  /** `Equal`: Cmp == 0, which is equality of the values. */
  function Equal(x: Int, y: Int): (r: bool)
    ensures r <==> x == y
  {
    Integer.Equal(x.i, y.i)
  }

  /** `GT`: Cmp == 1, which is `>` on the values. */
  function GT(x: Int, y: Int): (r: bool)
    ensures r <==> x.i > y.i
  {
    Integer.Gt(x.i, y.i)
  }

  /** `LT`: Cmp == -1, which is `<` on the values. */
  function LT(x: Int, y: Int): (r: bool)
    ensures r <==> x.i < y.i
  {
    Integer.Lt(x.i, y.i)
  }

  /** Exactly one of Equal, GT and LT holds for every pair. */
  lemma CompareIsTotal(x: Int, y: Int)
    ensures (Equal(x, y) && !GT(x, y) && !LT(x, y))
         || (!Equal(x, y) && GT(x, y) && !LT(x, y))
         || (!Equal(x, y) && !GT(x, y) && LT(x, y))
  {
    Integer.ComparisonTrichotomy(x.i, y.i);
  }

  // ---------------------------------------------------------------- arithmetic

  /** `Add`: the exact sum, or an overflow panic when it leaves the range. */
  function Add(a: Int, b: Int): (r: Outcome<Int>)
    ensures r.Ok? <==> InRange(a.i + b.i)
    ensures r.Ok? ==> r.value.i == a.i + b.i
    ensures r.Panic? ==> r.reason == Overflow
  {
    var res := Int(a.i + b.i);
    OverflowsIffOutOfRange(res.i);
    if Overflows(res.i) then Panic(Overflow) else Ok(res)
  }

  function AddRaw(a: Int, n: Int64): (r: Outcome<Int>)
    ensures r.Ok? <==> InRange(a.i + n)
    ensures r.Ok? ==> r.value.i == a.i + n
    ensures r.Panic? ==> r.reason == Overflow
  {
    Add(a, NewInt(n))
  }

  /** `Sub`: the exact difference, or an overflow panic when it leaves the range. */
  function Sub(a: Int, b: Int): (r: Outcome<Int>)
    ensures r.Ok? <==> InRange(a.i - b.i)
    ensures r.Ok? ==> r.value.i == a.i - b.i
    ensures r.Panic? ==> r.reason == Overflow
  {
    var res := Int(a.i - b.i);
    OverflowsIffOutOfRange(res.i);
    if Overflows(res.i) then Panic(Overflow) else Ok(res)
  }

  function SubRaw(a: Int, n: Int64): (r: Outcome<Int>)
    ensures r.Ok? <==> InRange(a.i - n)
    ensures r.Ok? ==> r.value.i == a.i - n
    ensures r.Panic? ==> r.reason == Overflow
  {
    Sub(a, NewInt(n))
  }

  /** `Mul`: panics whenever the operands' bit lengths add up to more than 255,
      even if the product would fit; otherwise the product, which then always
      fits, so the second check never fires. */
  function Mul(a: Int, b: Int): (r: Outcome<Int>)
    ensures Integer.BitLength(a.i) + Integer.BitLength(b.i) > MaxBits ==> r == Panic(Overflow)
    ensures Integer.BitLength(a.i) + Integer.BitLength(b.i) <= MaxBits ==> r == Ok(Int(a.i * b.i))
    ensures r.Ok? ==> InRange(r.value.i)
  {
    if Integer.BitLength(a.i) + Integer.BitLength(b.i) > MaxBits then Panic(Overflow)
    else
      var res := Int(a.i * b.i);
      Integer.BitLengthMul(a.i, b.i);
      OverflowsIffOutOfRange(res.i);
      if Overflows(res.i) then Panic(Overflow) else Ok(res)
  }

  function MulRaw(a: Int, n: Int64): (r: Outcome<Int>)
    ensures Integer.BitLength(a.i) + Integer.BitLength(n) > MaxBits ==> r == Panic(Overflow)
    ensures Integer.BitLength(a.i) + Integer.BitLength(n) <= MaxBits ==> r == Ok(Int(a.i * n))
    ensures r.Ok? ==> InRange(r.value.i)
    ensures r.Panic? ==> r.reason == Overflow
  {
    Mul(a, NewInt(n))
  }

  /** The pre-check is conservative: 2^128 * 2^126 = 2^254 is in range, yet Mul panics. */
  lemma MulRejectsSomeProductsInRange()
    ensures InRange(Pow2(128) * Pow2(126))
    ensures Mul(Int(Pow2(128)), Int(Pow2(126))) == Panic(Overflow)
  {
    BitLenPow2(128);
    BitLenPow2(126);
    Pow2Add(128, 126);
    Pow2Add(254, 1);
  }

  /** `Div`: panics exactly on a zero divisor; otherwise the Euclidean quotient,
      with no overflow check. */
  function Div(a: Int, b: Int): (r: Outcome<Int>)
    ensures r.Panic? <==> b.i == 0
    ensures r.Panic? ==> r.reason == DivisionByZero
    ensures r.Ok? ==> 0 <= a.i - r.value.i * b.i < Abs(b.i)
  {
    if Integer.Sign(b.i) == 0 then Panic(DivisionByZero)
    else Ok(Int(Integer.Div(a.i, b.i)))
  }

  function DivRaw(a: Int, n: Int64): (r: Outcome<Int>)
    ensures r.Panic? <==> n == 0
    ensures r.Panic? ==> r.reason == DivisionByZero
    ensures r.Ok? ==> 0 <= a.i - r.value.i * n < Abs(n)
  {
    Div(a, NewInt(n))
  }

  /** The missing overflow check in Div is safe: a quotient of an in-range
      dividend is in range. */
  lemma DivStaysInRange(a: Int, b: Int)
    requires InRange(a.i) && b.i != 0
    ensures Div(a, b).Ok? && InRange(Div(a, b).value.i)
  {
    Integer.QuotientMagnitude(a.i, b.i);
  }

  /** `Neg`: never fails, and keeps the bit length and hence the range. */
  function Neg(a: Int): (r: Int)
    ensures r.i + a.i == 0
    ensures Integer.BitLength(r.i) == Integer.BitLength(a.i)
    ensures InRange(r.i) <==> InRange(a.i)
  {
    Int(-a.i)
  }

  /** Adding then subtracting the same value gives the start value back. */
  lemma AddThenSub(a: Int, b: Int)
    requires InRange(a.i) && Add(a, b).Ok?
    ensures Sub(Add(a, b).value, b) == Ok(a)
  {
  }

  // ---------------------------------------------------------------- codec

  /** `MarshalAmino`: decimal text that reads back as the value. */
  function MarshalAmino(x: Int): (s: string)
    ensures Decimal.Parse(s) == Some(x.i)
  {
    Integer.MarshalAmino(x.i)
  }

  /** `MarshalJSON`: the same text as MarshalAmino, as bytes and unquoted. */
  function MarshalJSON(x: Int): (b: seq<Byte>)
    ensures Integer.BytesText(b) == MarshalAmino(x)
  {
    Integer.MarshalJSON(x.i)
  }

  /** A pointer to an `Int`, the receiver of UnmarshalAmino and UnmarshalJSON. */
  class IntCell {
    var value: Int

    constructor (v: Int)
      ensures value == v
    {
      value := v;
    }

    /** Stores the value of `text` with no 255-bit bound check, or fails and
        leaves the receiver unchanged. */
    method UnmarshalAmino(text: string) returns (failed: bool)
      modifies this
      ensures failed <==> Decimal.Parse(text) == None
      ensures failed ==> value == old(value)
      ensures !failed ==> value == Int(Decimal.Parse(text).value)
    {
      var parsed := Decimal.Parse(text);
      if parsed.None? {
        return true;
      }
      value := Int(parsed.value);
      return false;
    }

    /** As UnmarshalAmino, reading the text from bytes. */
    method UnmarshalJSON(bz: seq<Byte>) returns (failed: bool)
      modifies this
      ensures failed <==> Decimal.Parse(Integer.BytesText(bz)) == None
      ensures failed ==> value == old(value)
      ensures !failed ==> value == Int(Decimal.Parse(Integer.BytesText(bz)).value)
    {
      var parsed := Decimal.Parse(Integer.BytesText(bz));
      if parsed.None? {
        return true;
      }
      value := Int(parsed.value);
      return false;
    }
  }

  /** Unmarshalling what MarshalAmino wrote restores any value, in range or not. */
  method AminoRoundTrip(v: Int) returns (restored: Int, failed: bool)
    ensures !failed && restored == v
  {
    var text := MarshalAmino(v);
    var cell := new IntCell(ZeroInt());
    failed := cell.UnmarshalAmino(text);
    restored := cell.value;
  }

  /** Unmarshalling what MarshalJSON wrote restores any value, in range or not. */
  method JSONRoundTrip(v: Int) returns (restored: Int, failed: bool)
    ensures !failed && restored == v
  {
    var bz := MarshalJSON(v);
    var cell := new IntCell(ZeroInt());
    failed := cell.UnmarshalJSON(bz);
    restored := cell.value;
  }
}
