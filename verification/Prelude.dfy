/** Optional values, results, and the few numeric helpers every script uses. */
module Prelude {

  datatype Option<+T> = None | Some(value: T)

  datatype Result<+T, +E> = Ok(value: T) | Err(error: E)

  function Max(a: int, b: int): int {
    if a < b then b else a
  }

  function NonNegative(x: real): real {
    if x < 0.0 then 0.0 else x
  }

  /** A value times how often it counts. */
  function Share(value: real, count: int): real {
    value * count as real
  }

  lemma ShareMonotone(a: real, b: real, count: int)
    requires a <= b && count >= 0
    ensures Share(a, count) <= Share(b, count)
  {
  }
}
