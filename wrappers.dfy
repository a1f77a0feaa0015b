/** The optional value used where the script's Python code can raise. */
module Wrappers {
  datatype Option<T> = None | Some(value: T)
}
