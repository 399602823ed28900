/** Failure-compatible wrappers standing in for Go's `nil` pointers and `(value, error)` returns. */
module Results {

  /** A possibly-nil reference, or an optional error value. */
  datatype Option<+T> = None | Some(value: T)

  /** Either a value or the text of the `error` the Go code returns. */
  datatype Result<+T> = Ok(value: T) | Err(msg: string) {

    predicate IsFailure() {
      Err?
    }

    function PropagateFailure<U>(): Result<U>
      requires Err?
    {
      Err(msg)
    }

    function Extract(): T
      requires Ok?
    {
      value
    }
  }
}
