/** Option, used for the nullable handler pointer. */
module Wrappers {

  datatype Option<+T> = None | Some(value: T)
}
