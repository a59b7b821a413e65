/** The optional value the model uses where the source returns `None`. */
module Wrappers {
  datatype Option<+T> = None | Some(value: T)
}
