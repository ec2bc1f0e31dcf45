/** Outcome types shared by the two host entry points. */
module Results {

  /** A value that may be missing; used for the cells of a host cell array, which start out empty. */
  datatype Option<T> = None | Some(value: T)

  /** The outcome of an entry point: its outputs, or the error it raises on the host. */
  datatype Result<T, E> = Ok(value: T) | Err(error: E)
}
