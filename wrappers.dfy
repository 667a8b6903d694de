/** The optional value the models return where the source returns `null` or
    leaves an argument `undefined`. */
module Wrappers {
  datatype Option<+T> = None | Some(value: T)
}
