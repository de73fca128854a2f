/** Failure-compatible wrappers used by the parser and the interpreter in place of
    Java's exceptions (ParseError, RuntimeError) and nullable references. */
module Results {

  /** An optional value: stands for a nullable reference. */
  datatype Option<+T> = None | Some(value: T)

  /** Either a value or the error that aborted the computation. Usable with `:-`. */
  datatype Result<+T, +E> = Ok(value: T) | Err(error: E) {

    predicate IsFailure() {
      Err?
    }

    function PropagateFailure<U>(): Result<U, E>
      requires Err?
    {
      Err(error)
    }

    function Extract(): T
      requires Ok?
    {
      value
    }
  }
}
