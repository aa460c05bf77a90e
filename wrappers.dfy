/** The optional value used wherever the extension reads something that may be absent. */
module Wrappers {

  datatype Option<+T> = None | Some(value: T)
}
