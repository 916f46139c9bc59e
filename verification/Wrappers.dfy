/** The usual result types for operations of the file system that may run out of space. */
module Wrappers {

  datatype Option<+T> = None | Some(value: T)
}
