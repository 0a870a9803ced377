/** Small value types shared by every component. */
module Wrappers {
  /** A value that may be missing: the source's nil pointer, or its empty string where "" means "not set". */
  datatype Option<+T> = None | Some(value: T)
}
