/** A value that may be absent: a JavaScript `undefined`/`null` where the source allows one. */
module Wrappers {
  datatype Option<+T> = None | Some(value: T)
}
