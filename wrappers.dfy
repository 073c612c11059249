/** The wrapper datatypes shared by the modules: an optional value (an
    argument that may be left out, a document that may be missing, a
    summary that may be unset), and the outcome of an operation that may
    raise an exception of type `E`, with or without a value. */
module Wrappers {
  datatype Option<T> = None | Some(value: T)

  datatype Result<T, E> = Ok(value: T) | Err(error: E)

  datatype Outcome<E> = Pass | Fail(error: E)
}
