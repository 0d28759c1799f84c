/** Option, the failure-carrying shape the scraper's model needs. */
module Wrappers {

  /** A value that may be absent: an unset attribute, an unresolved image, a missing file. */
  datatype Option<+T> = None | Some(value: T)
}
