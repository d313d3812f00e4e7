/** `Uint` of types/int.go: an integer meant to lie in 0 .. 2^256-1. Add, Sub
    and Mul panic when the result is negative or needs more than 256 bits;
    Div by zero silently yields zero. The constructors check only the bit
    length, never the sign, so negative `Uint` values are reachable
    (NewUint(-1), NewUintFromString("-5")); no validity invariant is attached. */
module UnsignedInt {
  import opened Outcomes
  import opened Numeric
  import Decimal
  import Integer

  /** The bound on the bit length. */
  const MaxBits: nat := 256

  datatype Uint = Uint(i: int)

  /** What the arithmetic accepts as a result: 0 <= v < 2^256. */
  predicate InRange(v: int) { 0 <= v < Pow2(MaxBits) }

  /** The constructors' test `bitLen() > 256`, which ignores the sign. */
  predicate TooWide(v: int) { Integer.BitLength(v) > MaxBits }

  /** The arithmetic's test: `Sign() == -1 || Sign() == 1 && bitLen() > 256`. */
  predicate Overflows(v: int)
  {
    Integer.Sign(v) == -1 || (Integer.Sign(v) == 1 && Integer.BitLength(v) > MaxBits)
  }

  /** The constructors' test fails exactly when |v| >= 2^256, whatever the sign. */
  lemma TooWideIffMagnitudeOutOfRange(v: int)
    ensures TooWide(v) <==> Abs(v) >= Pow2(MaxBits)
  {
    Integer.BitLengthBound(v, MaxBits);
  }

  /** The arithmetic's test fails exactly outside 0 .. 2^256-1. */
  lemma OverflowsIffOutOfRange(v: int)
    ensures Overflows(v) <==> !InRange(v)
    ensures Overflows(v) <==> v < 0 || Pow2(MaxBits) <= v
  {
    Integer.BitLengthBound(v, MaxBits);
  }

  // ---------------------------------------------------------------- constructors

  /** `NewUint`: stores the int64 as it is, negative or not. */
  function NewUint(n: Int64): (r: Uint)
    ensures r.i == n && !TooWide(r.i)
    ensures n < 0 ==> !InRange(r.i)
  {
    Pow2Is256();
    TooWideIffMagnitudeOutOfRange(n);
    Uint(n)
  }

  /** `NewUintFromBigInt`: stores any integer, with no check at all. */
  function NewUintFromBigInt(x: int): (r: Uint)
    ensures r.i == x
  {
    Uint(x)
  }

  /** `NewUintFromString` as the source has it: like NewIntFromString, the
      overflow branch's bare `return` yields the zero value with ok == true. */
  function NewUintFromStringAsWritten(s: string): (r: (Uint, bool))
    ensures r.1 <==> Decimal.Parse(s).Some?
    ensures r.1 && Abs(Decimal.Parse(s).value) < Pow2(MaxBits) ==> r.0 == Uint(Decimal.Parse(s).value)
    ensures r.1 && Abs(Decimal.Parse(s).value) >= Pow2(MaxBits) ==> r.0 == Uint(0)
    ensures !r.1 ==> r.0 == Uint(0)
  {
    var (i, ok) := Integer.FromString(s);
    TooWideIffMagnitudeOutOfRange(i);
    if !ok then (Uint(0), ok)
    else if TooWide(i) then (Uint(0), ok)
    else (Uint(i), true)
  }

  /** An overflowing text is reported as accepted by the code as written. */
  lemma NewUintFromStringAsWrittenAcceptsOverflow()
    ensures NewUintFromStringAsWritten(Decimal.Format(Pow2(MaxBits))) == (Uint(0), true)
  {
    Decimal.FormatThenParse(Pow2(MaxBits));
  }

  /** `NewUintFromString` as evidently intended: ok exactly when the text is
      well formed and its magnitude fits in 256 bits. The sign is not checked. */
  function NewUintFromString(s: string): (r: (Uint, bool))
    ensures r.1 <==> Decimal.Parse(s).Some? && Abs(Decimal.Parse(s).value) < Pow2(MaxBits)
    ensures r.1 ==> r.0 == Uint(Decimal.Parse(s).value)
    ensures !r.1 ==> r.0 == Uint(0)
  {
    var (i, ok) := Integer.FromString(s);
    TooWideIffMagnitudeOutOfRange(i);
    if !ok then (Uint(0), false)
    else if TooWide(i) then (Uint(0), false)
    else (Uint(i), true)
  }

  /** The corrected constructor rejects the text the code as written lets through. */
  lemma NewUintFromStringRejectsOverflow()
    ensures NewUintFromString(Decimal.Format(Pow2(MaxBits))) == (Uint(0), false)
  {
    Decimal.FormatThenParse(Pow2(MaxBits));
  }

  /** `NewUintWithDecimal`: n * 10^dec if its magnitude fits in 256 bits (a
      negative `n` is accepted); a negative `dec` yields (0, true). */
  function NewUintWithDecimal(n: Int64, dec: Int64): (r: (Uint, bool))
    ensures dec < 0 ==> r == (Uint(0), true)
    ensures dec >= 0 ==> (r.1 <==> Abs(n * Pow10(dec)) < Pow2(MaxBits))
    ensures dec >= 0 && r.1 ==> r.0 == Uint(n * Pow10(dec))
    ensures !r.1 ==> r.0 == Uint(0)
  {
    var i := Integer.WithDecimal(n, dec);
    TooWideIffMagnitudeOutOfRange(i);
    if TooWide(i) then (Uint(0), false) else (Uint(i), true)
  }

  /** Negative values get past every constructor. */
  lemma NegativeValuesAreConstructible()
    ensures NewUint(-1).i == -1
    ensures NewUintFromString("-5") == (Uint(-5), true)
    ensures NewUintWithDecimal(-3, 2) == (Uint(-300), true)
  {
    assert Decimal.Parse("-5") == Some(-5) by {
      assert "-5"[1..] == "5";
      assert Decimal.ValueOf("5") == Decimal.ValueOf("5"[..0]) * 10 + 5;
      assert "5"[..0] == [];
    }
    assert Pow10(2) == 100;
    assert Abs(-300) < Pow2(MaxBits) by {
      Pow2Add(9, 247);
      assert Pow2(9) == 512;
    }
  }

  /** `ZeroUint`: the value that IsZero recognises, and the least in range. */
  function ZeroUint(): (r: Uint)
    ensures IsZero(r) && Sign(r) == 0
    ensures InRange(r.i) && !InRange(r.i - 1)
  {
    Uint(0)
  }

  /** `OneUint`: a positive value, and the only one with 0 < v < 2. */
  function OneUint(): (r: Uint)
    ensures !IsZero(r) && Sign(r) == 1
    ensures 0 < r.i < 2
  {
    Uint(1)
  }

  // ---------------------------------------------------------------- accessors

  /** `Uint64`: panics exactly when the value is outside the uint64 range. */
  function ToUint64(x: Uint): (r: Outcome<Uint64>)
    ensures r.Ok? <==> 0 <= x.i <= MaxUint64
    ensures r.Ok? ==> r.value == x.i
    ensures r.Panic? ==> r.reason == OutOfBound
  {
    Integer.ToUint64(x.i)
  }

  /** `IsZero`: `isZero` of the wrapped value, true exactly for zero. */
  function IsZero(x: Uint): (r: bool)
    ensures r <==> x.i == 0
  {
    Integer.IsZero(x.i)
  }

  /** `Sign`: -1, 0 or 1; -1 is reachable, as nothing keeps a Uint non-negative. */
  function Sign(x: Uint): (r: int)
    ensures r == -1 || r == 0 || r == 1
    ensures r == 0 <==> x.i == 0
    ensures r == -1 <==> x.i < 0
  {
    Integer.Sign(x.i)
  }

  /** `Equal`: Cmp == 0, which is equality of the values. */
  function Equal(x: Uint, y: Uint): (r: bool)
    ensures r <==> x == y
  {
    Integer.Equal(x.i, y.i)
  }

  /** `GT`: Cmp == 1, which is `>` on the values. */
  function GT(x: Uint, y: Uint): (r: bool)
    ensures r <==> x.i > y.i
  {
    Integer.Gt(x.i, y.i)
  }

  /** `LT`: Cmp == -1, which is `<` on the values. */
  function LT(x: Uint, y: Uint): (r: bool)
    ensures r <==> x.i < y.i
  {
    Integer.Lt(x.i, y.i)
  }

  /** Exactly one of Equal, GT and LT holds for every pair. */
  lemma CompareIsTotal(x: Uint, y: Uint)
    ensures (Equal(x, y) && !GT(x, y) && !LT(x, y))
         || (!Equal(x, y) && GT(x, y) && !LT(x, y))
         || (!Equal(x, y) && !GT(x, y) && LT(x, y))
  {
    Integer.ComparisonTrichotomy(x.i, y.i);
  }

  // ---------------------------------------------------------------- arithmetic

  /** `Add`: the exact sum, or a panic when it is negative or needs over 256 bits. */
  function Add(a: Uint, b: Uint): (r: Outcome<Uint>)
    ensures r.Ok? <==> InRange(a.i + b.i)
    ensures r.Ok? ==> r.value.i == a.i + b.i
    ensures r.Panic? ==> r.reason == Overflow
  {
    var res := Uint(a.i + b.i);
    OverflowsIffOutOfRange(res.i);
    if Overflows(res.i) then Panic(Overflow) else Ok(res)
  }

  function AddRaw(a: Uint, n: Int64): (r: Outcome<Uint>)
    ensures r.Ok? <==> InRange(a.i + n)
    ensures r.Ok? ==> r.value.i == a.i + n
    ensures r.Panic? ==> r.reason == Overflow
  {
    Add(a, NewUint(n))
  }

  /** `Sub`: the exact difference, or a panic when it is negative or needs over 256 bits. */
  function Sub(a: Uint, b: Uint): (r: Outcome<Uint>)
    ensures r.Ok? <==> InRange(a.i - b.i)
    ensures r.Ok? ==> r.value.i == a.i - b.i
    ensures r.Panic? ==> r.reason == Overflow
  {
    var res := Uint(a.i - b.i);
    OverflowsIffOutOfRange(res.i);
    if Overflows(res.i) then Panic(Overflow) else Ok(res)
  }

  function SubRaw(a: Uint, n: Int64): (r: Outcome<Uint>)
    ensures r.Ok? <==> InRange(a.i - n)
    ensures r.Ok? ==> r.value.i == a.i - n
    ensures r.Panic? ==> r.reason == Overflow
  {
    Sub(a, NewUint(n))
  }

  /** `Mul`: panics first when the bit lengths add up to more than 256; then
      panics only for a negative product (reachable through negative
      operands), since a product that passed the pre-check always fits. */
  function Mul(a: Uint, b: Uint): (r: Outcome<Uint>)
    ensures Integer.BitLength(a.i) + Integer.BitLength(b.i) > MaxBits ==> r == Panic(Overflow)
    ensures Integer.BitLength(a.i) + Integer.BitLength(b.i) <= MaxBits ==>
              (r.Ok? <==> a.i * b.i >= 0) && (r.Ok? ==> r.value == Uint(a.i * b.i))
    ensures r.Ok? ==> InRange(r.value.i)
    ensures r.Panic? ==> r.reason == Overflow
  {
    if Integer.BitLength(a.i) + Integer.BitLength(b.i) > MaxBits then Panic(Overflow)
    else
      var res := Uint(a.i * b.i);
      Integer.BitLengthMul(a.i, b.i);
      OverflowsIffOutOfRange(res.i);
      Integer.BitLengthBound(res.i, MaxBits);
      if Overflows(res.i) then Panic(Overflow) else Ok(res)
  }

  function MulRaw(a: Uint, n: Int64): (r: Outcome<Uint>)
    ensures Integer.BitLength(a.i) + Integer.BitLength(n) > MaxBits ==> r == Panic(Overflow)
    ensures Integer.BitLength(a.i) + Integer.BitLength(n) <= MaxBits ==>
              (r.Ok? <==> a.i * n >= 0) && (r.Ok? ==> r.value == Uint(a.i * n))
    ensures r.Ok? ==> InRange(r.value.i)
    ensures r.Panic? ==> r.reason == Overflow
  {
    Mul(a, NewUint(n))
  }

  /** `Div`: never panics; a zero divisor yields the zero Uint, any other
      divisor the Euclidean quotient. */
  function Div(a: Uint, b: Uint): (r: Uint)
    ensures b.i == 0 ==> r == Uint(0)
    ensures b.i != 0 ==> 0 <= a.i - r.i * b.i < Abs(b.i)
  {
    if Integer.Sign(b.i) == 0 then Uint(0)
    else Uint(Integer.Div(a.i, b.i))
  }

  function DivRaw(a: Uint, n: Int64): (r: Uint)
    ensures n == 0 ==> r == Uint(0)
    ensures n != 0 ==> 0 <= a.i - r.i * n < Abs(n)
  {
    Div(a, NewUint(n))
  }

  /** Division of in-range values stays in range. */
  lemma DivStaysInRange(a: Uint, b: Uint)
    requires InRange(a.i) && InRange(b.i)
    ensures InRange(Div(a, b).i)
  {
    if b.i != 0 {
      Integer.QuotientMagnitude(a.i, b.i);
      Integer.QuotientOfNaturals(a.i, b.i);
    }
  }

  /** Adding then subtracting the same value gives the start value back. */
  lemma AddThenSub(a: Uint, b: Uint)
    requires InRange(a.i) && Add(a, b).Ok?
    ensures Sub(Add(a, b).value, b) == Ok(a)
  {
  }

  // ---------------------------------------------------------------- codec

  /** `MarshalAmino`: decimal text that reads back as the value. */
  function MarshalAmino(x: Uint): (s: string)
    ensures Decimal.Parse(s) == Some(x.i)
  {
    Integer.MarshalAmino(x.i)
  }

  /** `MarshalJSON`: the same text as MarshalAmino, as bytes and unquoted. */
  function MarshalJSON(x: Uint): (b: seq<Byte>)
    ensures Integer.BytesText(b) == MarshalAmino(x)
  {
    Integer.MarshalJSON(x.i)
  }

  /** A pointer to a `Uint`, the receiver of UnmarshalAmino and UnmarshalJSON. */
  class UintCell {
    var value: Uint

    constructor (v: Uint)
      ensures value == v
    {
      value := v;
    }

    /** Stores the value of `text` with neither a sign nor a 256-bit check, or
        fails and leaves the receiver unchanged. */
    method UnmarshalAmino(text: string) returns (failed: bool)
      modifies this
      ensures failed <==> Decimal.Parse(text) == None
      ensures failed ==> value == old(value)
      ensures !failed ==> value == Uint(Decimal.Parse(text).value)
    {
      var parsed := Decimal.Parse(text);
      if parsed.None? {
        return true;
      }
      value := Uint(parsed.value);
      return false;
    }

    /** As UnmarshalAmino, reading the text from bytes. */
    method UnmarshalJSON(bz: seq<Byte>) returns (failed: bool)
      modifies this
      ensures failed <==> Decimal.Parse(Integer.BytesText(bz)) == None
      ensures failed ==> value == old(value)
      ensures !failed ==> value == Uint(Decimal.Parse(Integer.BytesText(bz)).value)
    {
      var parsed := Decimal.Parse(Integer.BytesText(bz));
      if parsed.None? {
        return true;
      }
      value := Uint(parsed.value);
      return false;
    }
  }

  /** Unmarshalling what MarshalAmino wrote restores any value, in range or not. */
  method AminoRoundTrip(v: Uint) returns (restored: Uint, failed: bool)
    ensures !failed && restored == v
  {
    var text := MarshalAmino(v);
    var cell := new UintCell(ZeroUint());
    failed := cell.UnmarshalAmino(text);
    restored := cell.value;
  }

  /** Unmarshalling what MarshalJSON wrote restores any value, in range or not. */
  method JSONRoundTrip(v: Uint) returns (restored: Uint, failed: bool)
    ensures !failed && restored == v
  {
    var bz := MarshalJSON(v);
    var cell := new UintCell(ZeroUint());
    failed := cell.UnmarshalJSON(bz);
    restored := cell.value;
  }
}
