/** The optional value used wherever the source returns `None` for "not found". */
module Wrappers {

  datatype Option<+T> = None | Some(value: T)
}
