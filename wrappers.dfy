/** The optional value used wherever the component holds `null` or may meet a missing field. */
module Wrappers {

  datatype Option<+T> = None | Some(value: T)
}
