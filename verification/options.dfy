/** Optional values and error-or-value results, used for Python's `None`
    and for the exceptions and error responses of the scraper. */
module Options {

  /** `None` or a present value. */
  datatype Option<+T> = None | Some(value: T)

  /** A value, or the error the source reports instead of it.
      Failure-compatible, so `:-` can be used with it. */
  datatype Result<+T, +E> = Ok(value: T) | Err(error: E) {

    predicate IsFailure() {
      Err?
    }

    function PropagateFailure<U>(): Result<U, E>
      requires Err?
    {
      Err(error)
    }

    function Extract(): T
      requires Ok?
    {
      value
    }
  }
}
