/** The optional value used for regex matches, dictionary lookups and replies. */
module Wrappers {
  datatype Option<+T> = None | Some(value: T)
}
