/** The result shapes and the small functions the models share. */
module Wrappers {

  /** A value that may be absent: Python's None or SQL's NULL. */
  datatype Option<+T> = None | Some(value: T)

  /** A value, or the error the source raises instead. */
  datatype Result<+T, +E> = Ok(value: T) | Err(error: E)

  function Elements<T>(xs: seq<T>): set<T> {
    set x | x in xs
  }

  function Min(a: int, b: int): int {
    if a < b then a else b
  }
}
