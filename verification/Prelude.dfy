/** Types and small functions every other module shares. */
module Prelude {

  /** Accounting decimals add, subtract and multiply exactly, so they are reals here. */
  type Decimal = real

  /** Instants, in the database's own resolution; 0 is the unset instant. */
  type Instant = int

  const UNSET: Instant := 0

  datatype Option<+T> = None | Some(value: T)

  datatype Result<+T, +E> = Ok(value: T) | Err(error: E) {
    predicate IsFailure() {
      Err?
    }

    function PropagateFailure<U>(): Result<U, E>
      requires Err?
    {
      Err(error)
    }

    function Extract(): T
      requires Ok?
    {
      value
    }
  }

  function Min(a: Decimal, b: Decimal): Decimal {
    if a <= b then a else b
  }

  function Max(a: Decimal, b: Decimal): Decimal {
    if a >= b then a else b
  }

  /** An empty string is stored as NULL. */
  function NullString(s: string): Option<string> {
    if s == "" then None else Some(s)
  }

  function FromNullString(s: Option<string>): string {
    if s.Some? then s.value else ""
  }

  /** A zero decimal is stored as NULL. */
  function NullNumeric(d: Decimal): Option<Decimal> {
    if d == 0.0 then None else Some(d)
  }

  function FromNumeric(n: Option<Decimal>): Decimal {
    if n.Some? then n.value else 0.0
  }
}
