/** Small value types shared by the other modules. */
module Common {

  /** A value, or the absence of one (Python's `None`, or an exception that ends the call). */
  datatype Option<+T> = None | Some(value: T)

  function MinInt(a: int, b: int): int { if a <= b then a else b }
}
