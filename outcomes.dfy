/** Result shapes shared by the whole model.
    - Option: a parse that may fail (math/big's SetString/UnmarshalText `ok`/`error`).
    - Outcome: an operation that either returns a value or panics. */
module Outcomes {

  datatype Option<+T> = None | Some(value: T)

  /** Why an operation panicked; the Go panic message strings are not modelled. */
  datatype PanicReason =
    | Overflow        // "Integer overflow", "integer overflow", "Uinteger overflow"
    | DivisionByZero  // "Division by zero"
    | OutOfBound      // "Out of bound in Int64()"

  datatype Outcome<+T> = Ok(value: T) | Panic(reason: PanicReason)
}
