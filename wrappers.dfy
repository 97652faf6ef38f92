/** The conventional Some/None datatype, used for the results of the text decoders. */
module Wrappers {

  datatype Option<+T> = None | Some(value: T)
}
