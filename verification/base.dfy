/** Small shared datatypes. */
module Base {

  /** A value that may be absent: JavaScript's `undefined` where the source
      reads a property that may not exist. */
  datatype Option<+T> = None | Some(value: T)
}
