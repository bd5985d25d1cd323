/** The optional value used wherever the crawler returns `None`. */
module Wrappers {

  datatype Option<+T> = None | Some(value: T)
}
