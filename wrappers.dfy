/** The usual optional value, used for "was an event emitted, and with which payload". */
module Wrappers {
  datatype Option<+T> = None | Some(value: T)
}
