/** The optional value used wherever JavaScript yields `undefined`. */
module Wrappers {

  datatype Option<+T> = None | Some(value: T)
}
