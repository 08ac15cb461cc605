/** The optional value used wherever the source yields `undefined`, `NaN` or a
    failed match instead of a value. */
module Wrappers {
  datatype Option<+T> = None | Some(value: T)
}
