/** An optional value, for the operations of the model that can fail. */
module Wrappers {

  datatype Option<+T> = None | Some(value: T)
}
