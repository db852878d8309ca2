/** Option, for the nullable pointers of the engine code. */
module Wrappers {
  datatype Option<+T> = None | Some(value: T)
}
