# Range-checked big integers (`types/int.go`) in Dafny

This project models the bounded integer layer of `types/int.go`. The file
defines three types over Go's `math/big`:

- `integer`, an exact wrapper around `big.Int` with no range check;
- `Int`, a signed integer whose magnitude must fit in 255 bits, so its range
  is -(2^255-1) .. 2^255-1;
- `Uint`, an integer meant to lie in 0 .. 2^256-1.

It also defines their decimal-text codecs (Amino text and JSON bytes). Every
value is a Dafny `int`, which is exact like `big.Int`. Go's `big.Int.Div` and
`Mod` are Euclidean, and so are Dafny's `/` and `%`. Go panics become the
`Panic` case of an `Outcome`. Constructors return `(value, ok)` pairs.
Unmarshalling writes through a pointer receiver, so it is modelled as a
method of a class (`IntegerCell`, `IntCell`, `UintCell`) with `modifies this`.

Modules, one per file:

- `Outcomes`: the `Option` and `Outcome` result shapes.
- `Numeric`: Go's int64/uint64/byte ranges, `Pow2`, `Pow10`, and `BitLen`
  (math/big's bit length of a magnitude). Its lemmas include
  `BitLen(n) <= k <==> n < 2^k` and `BitLen(a*b) <= BitLen(a) + BitLen(b)`.
- `Decimal`: decimal text as math/big writes it, and the decimal subset of
  what it reads. The two round trips are proved.
- `Integer`: the `integer` helpers.
- `SignedInt`: `Int`.
- `UnsignedInt`: `Uint`.
- `BoundaryVectors`: the fixed vectors of `types/int_test.go`, proved as lemmas.

`integer`'s `add`, `sub`, `mul`, `neg`, `equal`, `gt` and `lt` are Dafny's own
exact operators on `int`, reached through `Cmp` for the comparisons.

Behaviour worth knowing, as the code has it:

- No value carries a validity invariant. `NewIntFromBigInt`, `NewUint`,
  `NewUintFromBigInt` and every unmarshal method store any integer.
  `NewUint(-1)` and `NewUintFromString("-5")` succeed, because the `Uint`
  constructors check only the bit length, never the sign.
- `Int.Mul` rejects every pair whose bit lengths sum to more than 255, even
  when the product would fit (2^128 · 2^126). Its second check, on the
  product, can never fire: a product that passed the first check always
  fits. `Uint.Mul`'s second check fires only for a negative product, which
  negative `Uint` operands make reachable.
- `Uint.Div` by zero returns zero without failing. `Int.Div` by zero panics.
  `Int.Div` has no overflow check, and none is needed: a quotient is never
  larger in magnitude than its dividend.
- `MarshalJSON` emits the bare decimal text, with no quotes (int.go:103),
  so a JSON document carries the value as a JSON number. That text equals
  `MarshalAmino`'s. `UnmarshalJSON` rejects a quoted string, because the
  reader never accepts '"'.
- Unmarshalling fails only on malformed text. It stores out-of-range values
  without a bound check. Unmarshalling what either marshaller wrote restores
  the value exactly.

## Model

| member | source | states |
|---|---|---|
| `Numeric.BitLenBound` | types/int.go:82 | the bit length of n is at most k exactly when n < 2^k |
| `Numeric.BitLenExact` | types/int.go:82 | a positive n satisfies 2^(BitLen(n)-1) <= n < 2^BitLen(n) |
| `Numeric.BitLenPow2` | types/int.go:82 | 2^k has bit length k+1 |
| `Numeric.BitLenMul` | types/int.go:231-241 | the bit length of a product is at most the sum of the operands' bit lengths (why the multiplication pre-check is sufficient) |
| `Decimal.FormatThenParse` | types/int.go:80-88 | reading back the decimal text of any integer gives that integer |
| `Decimal.ParseThenFormat` | types/int.go:24-30 | every text the reader accepts, other than "-0", is exactly the text of the value read |
| `Decimal.ParseRejectsMalformed` | types/int.go:24-30 | empty text, or text holding a character math/big never accepts, is malformed |
| `Decimal.FormatAlphabet` | types/int.go:85-88 | marshalled text consists of '-' and decimal digits only |
| `Integer.FromString` | types/int.go:24-30 | ok exactly when the text parses; then the parsed value, otherwise (0, false) |
| `Integer.WithDecimal` | types/int.go:32-39 | zero for a negative dec; otherwise a multiple of 10^dec whose quotient is exactly n, with the sign of n |
| `Integer.ToInt64` | types/int.go:44-49 | panics (OutOfBound) exactly when the value is outside the int64 range; otherwise returns it |
| `Integer.ToUint64` | types/int.go:51-56 | panics (OutOfBound) exactly when the value is outside the uint64 range; otherwise returns it |
| `Integer.IsZero` | types/int.go:58 | true exactly for zero |
| `Integer.Sign` | types/int.go:58-60 | -1, 0 or 1, with 0 exactly for zero and -1 exactly for negatives |
| `Integer.Cmp` | types/int.go:62-66 | 0, 1 and -1 exactly for equal, greater and less |
| `Integer.ComparisonTrichotomy` | types/int.go:62-66 | equal/gt/lt are =, >, < and exactly one of them holds |
| `Integer.Div` | types/int.go:74 | the quotient leaves a remainder in [0, abs(y)): Euclidean division |
| `Integer.Mod` | types/int.go:76 | the remainder lies in [0, abs(y)) and completes x = q·y + m |
| `Integer.QuotientMagnitude` | types/int.go:74 | a Euclidean quotient is never larger in magnitude than the dividend |
| `Integer.QuotientOfNaturals` | types/int.go:74 | the quotient of a non-negative by a positive number is non-negative |
| `Integer.BitLength` | types/int.go:82 | zero exactly for zero; otherwise the r with 2^(r-1) <= abs(x) < 2^r |
| `Integer.BitLengthBound` | types/int.go:82 | bitLen(x) <= k exactly when abs(x) < 2^k |
| `Integer.BitLengthMul` | types/int.go:72 | bitLen(x·y) <= bitLen(x) + bitLen(y) for signed operands |
| `Integer.BitLengthNeg` | types/int.go:78 | negation keeps the bit length |
| `Integer.MarshalAmino` | types/int.go:85-88 | the text reads back as the value and holds only '-' and digits |
| `Integer.MarshalJSON` | types/int.go:102-104 | the very bytes of the MarshalAmino text, with no quotes |
| `Integer.IntegerCell.UnmarshalAmino` | types/int.go:91-99 | fails exactly on malformed text and then stores nothing; otherwise stores the parsed value, with no bound check |
| `Integer.IntegerCell.UnmarshalJSON` | types/int.go:107-115 | as UnmarshalAmino, on the text of the bytes |
| `Integer.QuotedJSONRejected` | types/int.go:107-115 | bytes that open with a double quote (a JSON string) never parse, so UnmarshalJSON fails on them |
| `SignedInt.OverflowsIffOutOfRange` | types/int.go:117-122 | the source's test bitLen > 255 holds exactly when v <= -2^255 or v >= 2^255, outside -(2^255-1) .. 2^255-1 |
| `SignedInt.NewInt` | types/int.go:130-132 | keeps the int64 unchanged, and every int64 is in range |
| `SignedInt.NewIntFromBigInt` | types/int.go:135-137 | keeps any integer unchanged, out of range included: there is no check |
| `SignedInt.NewIntFromStringAsWritten` | types/int.go:140-150 | as written: ok exactly when the text parses, even when the value overflows, in which case the value is zero |
| `SignedInt.NewIntFromStringAsWrittenAcceptsOverflow` | types/int.go:146-148 | the text of 2^255 yields (0, true) |
| `SignedInt.NewIntFromString` | types/int.go:140-150 | corrected: ok exactly when the text parses and its value is in range; then that value, otherwise zero |
| `SignedInt.NewIntFromStringRejectsOverflow` | types/int.go:146-148 | corrected: the text of 2^255 yields (0, false) |
| `SignedInt.NewIntWithDecimal` | types/int.go:154-161 | ok exactly when n·10^dec is in range, with that value; (0, true) for a negative dec; (0, false) on overflow |
| `SignedInt.ZeroInt` | types/int.go:164 | IsZero holds of it and its sign is 0 |
| `SignedInt.OneInt` | types/int.go:167 | not zero, sign 1, and the only value strictly between 0 and 2 |
| `SignedInt.ToInt64` | types/int.go:171-173 | panics exactly outside the int64 range; otherwise the value |
| `SignedInt.ToInt64OfNewInt` | types/int_test.go:11-16 | NewInt(r).Int64() returns r for every int64 r |
| `SignedInt.IsZero` | types/int.go:176-178 | true exactly for the value zero |
| `SignedInt.Sign` | types/int.go:181-183 | -1, 0 or 1; 0 exactly for zero and 1 exactly for positives |
| `SignedInt.Equal` | types/int.go:186-188 | true exactly when the two values are equal |
| `SignedInt.GT` | types/int.go:191-193 | true exactly when the first value is greater |
| `SignedInt.LT` | types/int.go:196-198 | true exactly when the first value is smaller |
| `SignedInt.CompareIsTotal` | types/int.go:186-198 | for every pair exactly one of Equal, GT and LT holds |
| `SignedInt.Add` | types/int.go:201-208 | succeeds exactly when a+b is in range, returning a+b; otherwise an overflow panic |
| `SignedInt.AddRaw` | types/int.go:211-213 | as Add with the int64 operand |
| `SignedInt.Sub` | types/int.go:216-223 | succeeds exactly when a-b is in range, returning a-b; otherwise an overflow panic |
| `SignedInt.SubRaw` | types/int.go:226-228 | as Sub with the int64 operand |
| `SignedInt.Mul` | types/int.go:231-242 | panics whenever bitLen(a)+bitLen(b) > 255; otherwise returns a·b, and any returned product is in range |
| `SignedInt.MulRaw` | types/int.go:245-247 | as Mul with the int64 operand, and any returned product is in range |
| `SignedInt.MulRejectsSomeProductsInRange` | types/int.go:233-235 | 2^128·2^126 is in range, yet Mul panics on it |
| `SignedInt.Div` | types/int.go:250-256 | panics exactly on a zero divisor; otherwise the Euclidean quotient |
| `SignedInt.DivRaw` | types/int.go:259-261 | as Div with the int64 divisor |
| `SignedInt.DivStaysInRange` | types/int.go:250-256 | the quotient of an in-range dividend is in range, so the missing check loses nothing |
| `SignedInt.Neg` | types/int.go:264-266 | never fails, returns the additive inverse, and keeps the bit length and the range |
| `SignedInt.AddThenSub` | types/int.go:201-223 | for in-range a, a successful a+b minus b gives a back |
| `SignedInt.MarshalAmino` | types/int.go:269-271 | the text reads back as the value |
| `SignedInt.MarshalJSON` | types/int.go:279-281 | the bytes of the MarshalAmino text |
| `SignedInt.IntCell.UnmarshalAmino` | types/int.go:274-276 | fails exactly on malformed text and leaves the receiver unchanged; otherwise stores the parsed value with no 255-bit check |
| `SignedInt.IntCell.UnmarshalJSON` | types/int.go:284-286 | as UnmarshalAmino, on the text of the bytes |
| `SignedInt.AminoRoundTrip` | types/int.go:268-276 | UnmarshalAmino(MarshalAmino(v)) succeeds and restores v |
| `SignedInt.JSONRoundTrip` | types/int.go:278-286 | UnmarshalJSON(MarshalJSON(v)) succeeds and restores v |
| `UnsignedInt.TooWideIffMagnitudeOutOfRange` | types/int.go:317 | the constructors' test bitLen > 256 holds exactly when abs(v) >= 2^256, whatever the sign |
| `UnsignedInt.OverflowsIffOutOfRange` | types/int.go:375 | the arithmetic's test (negative, or positive with bitLen > 256) holds exactly when v < 0 or v >= 2^256 |
| `UnsignedInt.NewUint` | types/int.go:301-303 | keeps the int64 unchanged and never too wide; a negative int64 gives an out-of-range Uint |
| `UnsignedInt.NewUintFromBigInt` | types/int.go:306-308 | keeps any integer unchanged, negative or too wide included: there is no check |
| `UnsignedInt.NewUintFromStringAsWritten` | types/int.go:311-321 | as written: ok exactly when the text parses, even when the value is too wide, in which case the value is zero |
| `UnsignedInt.NewUintFromStringAsWrittenAcceptsOverflow` | types/int.go:317-319 | the text of 2^256 yields (0, true) |
| `UnsignedInt.NewUintFromString` | types/int.go:311-321 | corrected: ok exactly when the text parses and its magnitude is below 2^256 (negatives accepted); zero otherwise |
| `UnsignedInt.NewUintFromStringRejectsOverflow` | types/int.go:317-319 | corrected: the text of 2^256 yields (0, false) |
| `UnsignedInt.NewUintWithDecimal` | types/int.go:325-332 | ok exactly when abs(n·10^dec) < 2^256, with that value; (0, true) for a negative dec |
| `UnsignedInt.NegativeValuesAreConstructible` | types/int.go:301-332 | NewUint(-1), NewUintFromString("-5") and NewUintWithDecimal(-3, 2) all yield negative values |
| `UnsignedInt.ZeroUint` | types/int.go:335 | IsZero holds of it, its sign is 0, and it is the least in-range value |
| `UnsignedInt.OneUint` | types/int.go:338 | not zero, sign 1, and the only value strictly between 0 and 2 |
| `UnsignedInt.ToUint64` | types/int.go:342-344 | panics exactly outside the uint64 range; otherwise the value |
| `UnsignedInt.IsZero` | types/int.go:347-349 | true exactly for the value zero |
| `UnsignedInt.Sign` | types/int.go:352-354 | -1, 0 or 1; 0 exactly for zero, and -1 exactly for the negatives the constructors let through |
| `UnsignedInt.Equal` | types/int.go:357-359 | true exactly when the two values are equal |
| `UnsignedInt.GT` | types/int.go:362-364 | true exactly when the first value is greater |
| `UnsignedInt.LT` | types/int.go:367-369 | true exactly when the first value is smaller |
| `UnsignedInt.CompareIsTotal` | types/int.go:357-369 | for every pair exactly one of Equal, GT and LT holds |
| `UnsignedInt.Add` | types/int.go:372-379 | succeeds exactly when 0 <= a+b < 2^256, returning a+b; otherwise an overflow panic |
| `UnsignedInt.AddRaw` | types/int.go:382-384 | as Add with the int64 operand |
| `UnsignedInt.Sub` | types/int.go:387-394 | succeeds exactly when 0 <= a-b < 2^256, returning a-b; otherwise an overflow panic |
| `UnsignedInt.SubRaw` | types/int.go:397-399 | as Sub with the int64 operand |
| `UnsignedInt.Mul` | types/int.go:402-413 | panics whenever bitLen(a)+bitLen(b) > 256; otherwise succeeds exactly when a·b >= 0, returning a·b, which is then in range |
| `UnsignedInt.MulRaw` | types/int.go:416-418 | as Mul with the int64 operand, which may be negative |
| `UnsignedInt.Div` | types/int.go:421-427 | never panics: zero for a zero divisor, otherwise the Euclidean quotient |
| `UnsignedInt.DivRaw` | types/int.go:430-432 | as Div with the int64 divisor |
| `UnsignedInt.DivStaysInRange` | types/int.go:421-427 | dividing in-range values gives an in-range value |
| `UnsignedInt.AddThenSub` | types/int.go:372-394 | for in-range a, a successful a+b minus b gives a back |
| `UnsignedInt.MarshalAmino` | types/int.go:435-437 | the text reads back as the value |
| `UnsignedInt.MarshalJSON` | types/int.go:445-447 | the bytes of the MarshalAmino text |
| `UnsignedInt.UintCell.UnmarshalAmino` | types/int.go:440-442 | fails exactly on malformed text and leaves the receiver unchanged; otherwise stores the parsed value with no sign or 256-bit check |
| `UnsignedInt.UintCell.UnmarshalJSON` | types/int.go:450-452 | as UnmarshalAmino, on the text of the bytes |
| `UnsignedInt.AminoRoundTrip` | types/int.go:434-442 | UnmarshalAmino(MarshalAmino(v)) succeeds and restores v |
| `UnsignedInt.JSONRoundTrip` | types/int.go:444-452 | UnmarshalJSON(MarshalJSON(v)) succeeds and restores v |
| `BoundaryVectors.IntConstructionVectors` | types/int_test.go:21-30 | NewIntWithDecimal accepts 1, 2 and 3·10^76 and rejects 6·10^76 and 9·10^80 |
| `BoundaryVectors.IntOverflowVectors` | types/int_test.go:33-39 | i1+i1, i2+i2, i1-(-i1), i2-(-i2) succeed; i3+i3 and i3-(-i3) panic |
| `BoundaryVectors.IntUnderflowVectors` | types/int_test.go:50-57 | -i3 minus i1 or i2 succeeds and minus i3 panics; likewise for adding the negations |
| `BoundaryVectors.IntMulVectors` | types/int_test.go:41-61 | every product of two of i1, i2, i3, of either sign, panics |
| `BoundaryVectors.IntBoundVectors` | types/int_test.go:64-69 | intmax+0 and intmin-0 succeed; intmax+1 and intmin-1 panic |
| `BoundaryVectors.UintConstructionVectors` | types/int_test.go:75-84 | NewUintWithDecimal accepts 5, 10 and 11·10^76 and rejects 12·10^76 and 10^80 |
| `BoundaryVectors.UintOverflowVectors` | types/int_test.go:87-89 | i1+i1 succeeds; i2+i2 and i3+i3 panic |
| `BoundaryVectors.UintMulVectors` | types/int_test.go:91-93 | i1·i1, i2·i2 and i3·i3 panic |
| `BoundaryVectors.UintUnderflowVectors` | types/int_test.go:96-98 | i2-i1 and i2-i2 succeed; i2-i3 panics |
| `BoundaryVectors.UintBoundVectors` | types/int_test.go:101-106 | uintmax+0 and 0-0 succeed; uintmax+1 and 0-1 panic |
| `BoundaryVectors.DivisionByZeroDiverges` | types/int.go:250-256 | for every value, Int division by zero panics while Uint division by zero returns zero |

## Left out

- The internals of math/big (limb arithmetic) are not modelled. Dafny's exact `int` operators stand for them.
- The reader's full base-0 grammar is not modelled: `0x`/`0b`/`0o` prefixes, leading-zero octal, a '+' sign, and underscores. The model's parser accepts an optional '-' followed by canonical decimal digits and answers None on everything else. Of that, only the rejection of empty text and of characters math/big never accepts (`Decimal.ParseRejectsMalformed`) is claimed to match math/big.
- `Integer.IntegerCell.UnmarshalAmino`, `SignedInt.IntCell.UnmarshalAmino` and `UnsignedInt.UintCell.UnmarshalAmino` read the Go string directly as characters. Go converts it to UTF-8 bytes first. The two agree on accepted input, because only ASCII is ever accepted.
- `Integer.MarshalAmino` and `Integer.MarshalJSON` do not model the `error` result: big.Int's `MarshalText` returns nil for every value. The "<nil>" text of a nil pointer does not arise, because values are not pointers here.
- The copying accessors `bigInt()` / `BigInt()` (int.go:16-18, 125-127, 296-298) are not modelled. They only guard against aliasing, and Dafny integers are values.
- `SignedInt.NewIntFromBigInt` and `UnsignedInt.NewUintFromBigInt` do not model the shallow copy `integer{*i}` at int.go:20-22. That copy shares the caller's big.Int storage, so the stored value follows later in-place changes the caller makes to that big.Int. Here values are immutable, and the constructed value is fixed at construction.
- Panic message strings are not modelled. A panic is `Panic(reason)` with reason Overflow, DivisionByZero or OutOfBound.
- Go's `int` (the `dec` argument) is taken to be 64 bits wide.
- The memory and time that `10^dec` needs for a huge `dec` are not modelled.
- The Amino codec framework and JSON document framing around this type's own bytes are not modelled.
- The test file's `rand.Int63` sampling and its testify assertions are left out. The random int64 test becomes `SignedInt.ToInt64OfNewInt` over all int64 values. The fixed vectors become the `BoundaryVectors` lemmas.

## Findings

| source | as written | input that shows it | evidently intended | confidence | as-written member | corrected member |
|---|---|---|---|---|---|---|
| types/int.go:140-150 | `i, ok := newIntegerFromString(s)` assigns the named result `ok`, so the overflow branch's bare `return` returns (zero, true) | the decimal text of 2^255, "57896044618658097711785492504343953926634992332820282019728792003956564819968" | ok == false for a value that does not fit in 255 bits | high, not executed | `SignedInt.NewIntFromStringAsWritten` (`SignedInt.NewIntFromStringAsWrittenAcceptsOverflow`) | `SignedInt.NewIntFromString` (`SignedInt.NewIntFromStringRejectsOverflow`) |
| types/int.go:311-321 | the same named-result slip in `NewUintFromString`: the overflow branch returns (zero, true) | the decimal text of 2^256, "115792089237316195423570985008687907853269984665640564039457584007913129639936" | ok == false for a value wider than 256 bits | high, not executed | `UnsignedInt.NewUintFromStringAsWritten` (`UnsignedInt.NewUintFromStringAsWrittenAcceptsOverflow`) | `UnsignedInt.NewUintFromString` (`UnsignedInt.NewUintFromStringRejectsOverflow`) |
