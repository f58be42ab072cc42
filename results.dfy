/** Outcome of a call that either returns a value or throws. */
module Results {

  /** `Success(v)`: the call returned `v`; `Failure(e)`: it threw `e`. */
  datatype Result<+R, +E> = Success(value: R) | Failure(error: E)
}
