/** The optional value used wherever the crawler may or may not find something. */
module Wrappers {
  datatype Option<+T> = None | Some(value: T)
}
