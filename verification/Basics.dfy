/** Values that may be absent, and exact decimals. */
module Basics {
  /** Python's `None`, or a value. */
  datatype Option<+T> = None | Some(value: T)

  /** A `Decimal` price as an exact scaled integer. */
  datatype Price = Price(scaled: int)
}
