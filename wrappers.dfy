/** Option, the failure-carrying value used throughout the model. */
module Wrappers {

  datatype Option<+T> = None | Some(value: T)
}
