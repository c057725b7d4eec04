/** Small shared vocabulary: optional values, record identifiers and `Math.max`. */
module Common {

  /** A value that may be absent (`null` / `undefined` in the source). */
  datatype Option<+T> = None | Some(value: T)

  /** Identifier of a stored record. The store hands them out from a counter,
      which stands for the database's unique, never reused ids. */
  type Id = nat

  /** `Math.max` on two integers. */
  function Max(a: int, b: int): int
  {
    if a < b then b else a
  }
}
