/** Small wrapper datatypes shared by every module of the interpreter model. */
module Basics {

  /** An optional value, like Python's `x or None`. */
  datatype Option<T> = None | Some(value: T)

  /** The outcome of an operation that raises instead of returning. */
  datatype Result<T, E> = Ok(value: T) | Fail(error: E)

  function Min(a: nat, b: nat): nat
  {
    if a <= b then a else b
  }
}
