/** The optional value used wherever the program leaves a variable at `None`. */
module Wrappers {
  datatype Option<+T> = None | Some(value: T)
}
