/** Failure-carrying values used throughout the model: the Go convention of
    returning `(value, error)` and the Result/Option shapes the oracles return. */
module Wrappers {

  datatype Option<+T> = None | Some(value: T)

  /** Success carrying a value, or failure carrying an error. */
  datatype Result<+T, +E> = Ok(value: T) | Err(error: E)

  /** Success without a value, or failure carrying an error. */
  datatype Outcome<+E> = Pass | Fail(error: E)

  /** A Go-style pair `(value, error)`: the value is meaningful only when
      `err` is `None`, but it is always present. */
  datatype Reply<+T, +E> = Reply(value: T, err: Option<E>) {

    /** The failure view of the pair, which drops the value on error. */
    function ToResult(): (r: Result<T, E>)
      ensures r.Ok? <==> err.None?
      ensures r.Ok? ==> r.value == value
      ensures r.Err? ==> Some(r.error) == err
    {
      match err
      case None => Ok(value)
      case Some(e) => Err(e)
    }
  }
}
