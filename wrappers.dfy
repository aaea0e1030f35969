/** A value that may be absent: the model of a JavaScript `null`-able state field. */
module Wrappers {

  datatype Option<+T> = None | Some(value: T)
}
