/** Failure-compatible results. A failure stands for a C++ exception. */
module Results {

  datatype Option<+T> = None | Some(value: T) {
    predicate IsFailure() { None? }

    function PropagateFailure<U>(): Option<U>
      requires None?
    {
      None
    }

    function Extract(): T
      requires Some?
    {
      value
    }
  }

  /** The outcome of a call that may throw. */
  datatype Result<+T> = Thrown | Ok(value: T) {
    predicate IsFailure() { Thrown? }

    function PropagateFailure<U>(): Result<U>
      requires Thrown?
    {
      Thrown
    }

    function Extract(): T
      requires Ok?
    {
      value
    }
  }
}
