/** The optional value used for `undefined`-able results and for report fields that may be omitted. */
module Wrappers {

  datatype Option<+T> = None | Some(value: T)
}
