/** Option and Result: the error paths of the modelled code (a missing key, a
    failed tuple unpacking, a tensor split of the wrong size) are values, not
    preconditions. Both are failure-compatible, so `:-` propagates an error. */
module Results {

  datatype Option<+T> = None | Some(value: T)

  datatype Result<+T, +E> = Success(value: T) | Failure(error: E) {
    predicate IsFailure() {
      Failure?
    }

    function PropagateFailure<U>(): Result<U, E>
      requires Failure?
    {
      Failure(error)
    }

    function Extract(): T
      requires Success?
    {
      value
    }
  }
}
