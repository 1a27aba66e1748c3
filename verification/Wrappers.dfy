/** Optional values, in a module of their own so that every model can open it. */
module Wrappers {

  /** A nullable pointer, a `std::optional`, or a Python value that may be `None`. */
  datatype Option<+T> = None | Some(value: T)
}

/** Computations that may raise. */
module Raising {

  /** A value, or the exception that ended the computation. */
  datatype Result<+T, +E> = Ok(value: T) | Err(error: E) {
    predicate IsFailure() {
      Err?
    }

    function PropagateFailure<U>(): Result<U, E>
      requires Err?
    {
      Err(error)
    }

    function Extract(): T
      requires Ok?
    {
      value
    }
  }
}
