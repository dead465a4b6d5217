/** Optional values, results that may be errors, and the machine word of the ledgers. */
module Wrappers {

  datatype Option<+T> = None | Some(value: T)

  datatype Result<+T, +E> = Ok(value: T) | Err(error: E) {
    predicate IsFailure() { Err? }
    function PropagateFailure<U>(): Result<U, E> requires Err? { Err(error) }
    function Extract(): T requires Ok? { value }
  }
}

module Words {

  /** 2^256. */
  const MODULUS: nat := 0x1_0000000000000000_0000000000000000_0000000000000000_0000000000000000

  type uint256 = n: nat | n < MODULUS
}
