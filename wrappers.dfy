/** The optional value used where the source has `None` / `null` / `undefined`. */
module Wrappers {
  datatype Option<+T> = None | Some(value: T)
}
