/** The usual optional value, used for parse results and for a stored
    preference entry that may not read back as a string set. */
module Wrappers {
  datatype Option<+T> = None | Some(value: T)
}
