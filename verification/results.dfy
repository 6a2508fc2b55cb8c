/** Failure-carrying wrappers shared by the model: an optional value (a map
    lookup that may miss) and a result that is either a value or the reason
    the computation stopped (a Go panic). Both support `:-`. */
module Results {

  datatype Option<+T> = None | Some(value: T)

  datatype Result<+T, +E> = Success(value: T) | Failure(error: E) {

    predicate IsFailure() {
      Failure?
    }

    function PropagateFailure<U>(): Result<U, E>
      requires Failure?
    {
      Failure(error)
    }

    function Extract(): T
      requires Success?
    {
      value
    }
  }
}
