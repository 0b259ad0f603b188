/** Small helper datatypes shared by the components. */
module Wrappers {

  /** A value that may be absent: `null` / `undefined` in the source. */
  datatype Option<+T> = None | Some(value: T)
}
