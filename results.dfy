/** The exceptions the row pipeline can raise, and the wrappers that carry them. */
module Results {

  /** The Python exceptions raised by the pipeline: the `IndexError` of reading
      a missing digit run, and the two `ValueError`s of `build_grid`. */
  datatype Failure =
    | IndexOutOfRange
    | LengthMismatch
    | InvalidGridSize(width: int, height: int)

  datatype Result<T> = Ok(value: T) | Err(error: Failure)

  datatype Option<T> = None | Some(value: T)
}
