/** The Option datatype used by the frame decoders. */
module Wrappers {

  datatype Option<+T> = None | Some(value: T)
}
