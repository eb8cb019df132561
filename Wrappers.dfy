/** Option datatype used wherever the source may find a key absent or a step fail. */
module Wrappers {

  datatype Option<+T> = None | Some(value: T)
}
