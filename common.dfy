/** Small failure-carrying datatypes shared by the model's modules. */
module Common {

  datatype Option<T> = None | Some(value: T)

  /** The one exception the core raises itself: the ValueError for an
      unrecognised `string_escaping` argument. */
  datatype Error = InvalidStringEscaping

  datatype Result<T> = Ok(value: T) | Err(error: Error)

  /** How a writer call ended: normally, or by raising. */
  datatype Completion = Completed | Raised(error: Error)

  function Max(a: int, b: int): int {
    if a < b then b else a
  }

  function Min(a: int, b: int): int {
    if a < b then a else b
  }
}
