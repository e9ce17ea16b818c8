/** The optional value used wherever JavaScript would yield `undefined`. */
module Wrappers {

  datatype Option<+T> = None | Some(value: T)

}
