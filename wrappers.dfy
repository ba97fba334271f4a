/** An optional value: JavaScript's `undefined` where the source reads a
    missing array element or a NaN number. */
module Wrappers {
  datatype Option<+T> = None | Some(value: T)
}
