/** Optional values and success-or-failure results, used for absent columns,
    store lookups and the fallible collaborators of the matching flow. */
module Wrappers {

  datatype Option<+T> = None | Some(value: T)

  datatype Result<+T, +E> = Success(value: T) | Failure(error: E)

  function Min(a: int, b: int): int {
    if a <= b then a else b
  }
}
