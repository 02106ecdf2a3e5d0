/** The optional value used wherever the engine looks something up that may be absent. */
module Wrappers {

  datatype Option<+T> = None | Some(value: T)
}
