/** The optional value used for stored state, displayed content and label colours. */
module Wrappers {
  datatype Option<+T> = None | Some(value: T)
}
