/** The optional value used wherever the source yields `null`, `undefined` or an invalid Date. */
module Wrappers {

  datatype Option<+T> = None | Some(value: T)
}
