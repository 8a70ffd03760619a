/** The outcome types shared by every module. */
module Results {

  datatype Option<+T> = None | Some(value: T)

  /** A fallible value; `:-` propagates an error as the `?` operator does. */
  datatype Result<+T, +E> = Ok(value: T) | Err(error: E) {
    predicate IsFailure() {
      Err?
    }

    function PropagateFailure<U>(): Result<U, E>
      requires Err?
    {
      Err(error)
    }

    function Extract(): T
      requires Ok?
    {
      value
    }
  }
}
