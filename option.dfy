/** The optional value used where the source has `undefined`. */
module Opt {
  datatype Option<+T> = None | Some(value: T)
}
