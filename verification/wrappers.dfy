/** Option and Result values shared by the whole model: `None` stands for SQL NULL,
    a JavaScript `null`/`undefined`, or "no row found"; `Failure` for an error exit. */
module Wrappers {

  datatype Option<+T> = None | Some(value: T)

  datatype Result<+T, +E> = Success(value: T) | Failure(error: E)
}
