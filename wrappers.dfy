/** The optional value used for "no match here" results. */
module Wrappers {
  datatype Option<+T> = None | Some(value: T)
}
