/** What several of the modules need. */
module Wrappers {
  /** A value that may be missing. */
  datatype Option<+T> = None | Some(value: T)
}
