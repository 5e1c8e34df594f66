/** The optional value used for "the pattern did not match" throughout the model. */
module Wrappers {

  datatype Option<+T> = None | Some(value: T)
}
