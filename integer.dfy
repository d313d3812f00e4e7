/** The unexported `integer` wrapper of types/int.go: exact arithmetic with
    no range check. `big.Int` is Dafny's `int`, so the wrapper's `add`,
    `sub`, `mul` and `neg` are Dafny's own `+`, `-`, `*` and unary `-`;
    what it adds on top of them is modelled here. */
module Integer {
  import opened Outcomes
  import opened Numeric
  import Decimal

  /** `newIntegerFromString`: the value of `s`, or (0, false) when the text is malformed. */
  function FromString(s: string): (r: (int, bool))
    ensures r.1 <==> Decimal.Parse(s).Some?
    ensures r.1 ==> r.0 == Decimal.Parse(s).value
    ensures !r.1 ==> r.0 == 0
  {
    match Decimal.Parse(s)
    case None => (0, false)
    case Some(v) => (v, true)
  }

  /** `newIntegerWithDecimal`: n * 10^dec, and the zero value when dec < 0.
      The scaled value carries `n` intact: it is a multiple of 10^dec whose
      quotient is `n`, and it has the sign of `n`. */
  function WithDecimal(n: Int64, dec: Int64): (r: int)
    ensures dec < 0 ==> r == 0
    ensures dec >= 0 ==> r % Pow10(dec) == 0 && r / Pow10(dec) == n
    ensures dec >= 0 ==> Sign(r) == Sign(n)
  {
    if dec < 0 then 0
    else
      var p := Pow10(dec);
      EuclidOfMultiple(n, p);
      SignOfScaled(n, p);
      n * p
  }

  /** Scaling by a positive factor keeps the sign. */
  lemma SignOfScaled(n: int, p: int)
    requires p >= 1
    ensures Sign(n * p) == Sign(n)
  {
    if n > 0 {
      MulOfPositive(n, p);
    } else if n < 0 {
      MulOfPositive(-n, p);
      assert n * p == -((-n) * p);
    }
  }

  lemma MulOfPositive(a: int, p: int)
    requires a >= 1 && p >= 1
    ensures a * p >= p
  {
    assert a * p == (a - 1) * p + p;
    assert (a - 1) * p >= 0;
  }

  /** Euclidean division is unique: any decomposition with a remainder in [0, p) is it. */
  lemma EuclidUnique(x: int, p: int, q: int, m: int)
    requires p > 0 && x == q * p + m && 0 <= m < p
    ensures x / p == q && x % p == m
  {
    var q', m' := x / p, x % p;
    assert (q - q') * p == m' - m;
    if q - q' >= 1 {
      MulOfPositive(q - q', p);
    } else if q' - q >= 1 {
      MulOfPositive(q' - q, p);
    }
  }

  lemma EuclidOfMultiple(n: int, p: int)
    requires p > 0
    ensures (n * p) / p == n && (n * p) % p == 0
  {
    EuclidUnique(n * p, p, n, 0);
  }

  /** `toInt64`: panics exactly when the value lies outside the int64 range. */
  function ToInt64(x: int): (r: Outcome<Int64>)
    ensures r.Ok? <==> MinInt64 <= x <= MaxInt64
    ensures r.Ok? ==> r.value == x
    ensures r.Panic? ==> r.reason == OutOfBound
  {
    if MinInt64 <= x <= MaxInt64 then Ok(x) else Panic(OutOfBound)
  }

  /** `toUint64`: panics exactly when the value lies outside the uint64 range. */
  function ToUint64(x: int): (r: Outcome<Uint64>)
    ensures r.Ok? <==> 0 <= x <= MaxUint64
    ensures r.Ok? ==> r.value == x
    ensures r.Panic? ==> r.reason == OutOfBound
  {
    if 0 <= x <= MaxUint64 then Ok(x) else Panic(OutOfBound)
  }

  /** `sign` (big.Int's `Sign`). */
  function Sign(x: int): (r: int)
    ensures r == -1 || r == 0 || r == 1
    ensures r == 0 <==> x == 0
    ensures r == -1 <==> x < 0
  {
    if x < 0 then -1 else if x == 0 then 0 else 1
  }

  /** `isZero`: the sign is zero exactly for zero. */
  function IsZero(x: int): (r: bool)
    ensures r <==> x == 0
  {
    Sign(x) == 0
  }

  /** big.Int's `Cmp`, on which `equal`, `gt` and `lt` are built. */
  function Cmp(x: int, y: int): (r: int)
    ensures r == 0 <==> x == y
    ensures r == 1 <==> x > y
    ensures r == -1 <==> x < y
  {
    if x < y then -1 else if x == y then 0 else 1
  }

  predicate Equal(x: int, y: int) { Cmp(x, y) == 0 }
  predicate Gt(x: int, y: int) { Cmp(x, y) == 1 }
  predicate Lt(x: int, y: int) { Cmp(x, y) == -1 }

  /** For every pair exactly one of `equal`, `gt`, `lt` holds, and each is the
      corresponding relation on values. */
  lemma ComparisonTrichotomy(x: int, y: int)
    ensures Equal(x, y) <==> x == y
    ensures Gt(x, y) <==> x > y
    ensures Lt(x, y) <==> x < y
    ensures (Equal(x, y) && !Gt(x, y) && !Lt(x, y))
         || (!Equal(x, y) && Gt(x, y) && !Lt(x, y))
         || (!Equal(x, y) && !Gt(x, y) && Lt(x, y))
  {
  }

  /** `div`: big.Int's Euclidean quotient, whose remainder is never negative. */
  function Div(x: int, y: int): (q: int)
    requires y != 0
    ensures 0 <= x - q * y < Abs(y)
  {
    x / y
  }

  /** `mod`: big.Int's Euclidean remainder. */
  function Mod(x: int, y: int): (m: int)
    requires y != 0
    ensures 0 <= m < Abs(y)
    ensures x == Div(x, y) * y + m
  {
    x % y
  }

  lemma FactorAtMostProduct(a: int, b: int)
    requires a >= 0 && b >= 1
    ensures a <= a * b
  {
    assert a * b == a * (b - 1) + a;
    assert a * (b - 1) >= 0;
  }

  /** A Euclidean quotient is never larger in magnitude than the dividend. */
  lemma QuotientMagnitude(x: int, y: int)
    requires y != 0
    ensures Abs(Div(x, y)) <= Abs(x)
  {
    var q := Div(x, y);
    var m := x - q * y;
    assert 0 <= m < Abs(y);
    if q > 0 && y > 0 {
      // q <= q * y == x - m <= x
      FactorAtMostProduct(q, y);
    } else if q > 0 {
      // (q - 1) * |y| == m - x - |y| < -x
      assert (q - 1) * (-y) == m - x + y;
      FactorAtMostProduct(q - 1, -y);
    } else if q < 0 && y > 0 {
      // (-q - 1) * y == m - x - y < -x
      assert (-q - 1) * y == m - x - y;
      FactorAtMostProduct(-q - 1, y);
    } else if q < 0 {
      // -q <= (-q) * |y| == x - m <= x
      assert (-q) * (-y) == x - m;
      FactorAtMostProduct(-q, -y);
    }
  }

  lemma QuotientOfNaturals(x: int, y: int)
    requires x >= 0 && y > 0
    ensures Div(x, y) >= 0
  {
    var q := Div(x, y);
    if q < 0 {
      MulOfPositive(-q, y);
    }
  }

  /** `bitLen`: the bit length of |x|, the least k with |x| < 2^k. */
  function BitLength(x: int): (r: nat)
    ensures x == 0 <==> r == 0
    ensures x != 0 ==> Pow2(r - 1) <= Abs(x) < Pow2(r)
  {
    if x == 0 then 0
    else
      BitLenExact(Abs(x));
      BitLen(Abs(x))
  }

  /** The bit length of |x| is at most k exactly when |x| < 2^k. */
  lemma BitLengthBound(x: int, k: nat)
    ensures BitLength(x) <= k <==> Abs(x) < Pow2(k)
  {
    BitLenBound(Abs(x), k);
  }

  lemma BitLengthMul(x: int, y: int)
    ensures BitLength(x * y) <= BitLength(x) + BitLength(y)
  {
    assert Abs(x * y) == Abs(x) * Abs(y) by {
      if x < 0 && y >= 0 {
        assert x * y == -((-x) * y);
      } else if x >= 0 && y < 0 {
        assert x * y == -(x * (-y));
      } else if x < 0 && y < 0 {
        assert x * y == (-x) * (-y);
      }
    }
    BitLenMul(Abs(x), Abs(y));
  }

  lemma BitLengthNeg(x: int)
    ensures BitLength(-x) == BitLength(x)
  {
  }

  /** `String` and `MarshalAmino`: the decimal text, which reads back as `x`.
      big.Int's `MarshalText` never fails on a value, so no error is modelled. */
  function MarshalAmino(x: int): (s: string)
    ensures Decimal.Parse(s) == Some(x)
    ensures forall k :: 0 <= k < |s| ==> s[k] == '-' || Decimal.IsDigit(s[k])
  {
    Decimal.FormatThenParse(x);
    Decimal.FormatAlphabet(x);
    Decimal.Format(x)
  }

  /** The bytes of an ASCII text (Go's `[]byte(s)` on such text). */
  function TextBytes(s: string): (b: seq<Byte>)
    requires forall k :: 0 <= k < |s| ==> s[k] as int < 128
    ensures |b| == |s|
    ensures forall k :: 0 <= k < |s| ==> b[k] == s[k] as int
  {
    seq(|s|, k requires 0 <= k < |s| => s[k] as int)
  }

  /** The text of a byte string, one character per byte. On ASCII this is
      Go's `string(b)`; every other byte is malformed for the reader anyway. */
  function BytesText(b: seq<Byte>): (s: string)
    ensures |s| == |b|
    ensures forall k :: 0 <= k < |b| ==> s[k] as int == b[k]
  {
    seq(|b|, k requires 0 <= k < |b| => b[k] as char)
  }

  /** `MarshalJSON`: the very bytes of the `MarshalAmino` text, with no quotes. */
  function MarshalJSON(x: int): (b: seq<Byte>)
    ensures BytesText(b) == MarshalAmino(x)
  {
    var s := MarshalAmino(x);
    var b := TextBytes(s);
    assert BytesText(b) == s;
    b
  }

  /** A JSON string is never read as a number: the reader rejects the
      opening quote (byte 34), so UnmarshalJSON fails on such bytes and only
      the bare number MarshalJSON writes comes back. */
  lemma QuotedJSONRejected(bz: seq<Byte>)
    requires |bz| > 0 && bz[0] == 34
    ensures Decimal.Parse(BytesText(bz)) == None
  {
    var t := BytesText(bz);
    assert Decimal.ForeignChar(t[0]);
    Decimal.ParseRejectsMalformed(t);
  }

  /** A pointer to an `integer`, the receiver of `UnmarshalAmino`/`UnmarshalJSON`. */
  class IntegerCell {
    var i: int

    constructor (x: int)
      ensures i == x
    {
      i := x;
    }

    /** Stores the value of `text` with no range check, or fails and stores nothing. */
    method UnmarshalAmino(text: string) returns (failed: bool)
      modifies this
      ensures failed <==> Decimal.Parse(text) == None
      ensures failed ==> i == old(i)
      ensures !failed ==> Decimal.Parse(text) == Some(i)
    {
      var parsed := Decimal.Parse(text);
      if parsed.None? {
        return true;
      }
      i := parsed.value;
      return false;
    }

    /** As `UnmarshalAmino`, reading the text from bytes. */
    method UnmarshalJSON(bz: seq<Byte>) returns (failed: bool)
      modifies this
      ensures failed <==> Decimal.Parse(BytesText(bz)) == None
      ensures failed ==> i == old(i)
      ensures !failed ==> Decimal.Parse(BytesText(bz)) == Some(i)
    {
      var parsed := Decimal.Parse(BytesText(bz));
      if parsed.None? {
        return true;
      }
      i := parsed.value;
      return false;
    }
  }
}
