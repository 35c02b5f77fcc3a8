/** The Option type used for values that JavaScript leaves `undefined`. */
module Wrappers {
  datatype Option<+T> = None | Some(value: T)
}
