/** Small value types shared by every component of the model. */
module Base {

  /** A value that may be absent: JavaScript's `null` / `undefined`. */
  datatype Option<T> = None | Some(value: T)
}
