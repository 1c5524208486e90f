/** The optional value used for nullable references of the scene (an active id, a hit). */
module Wrappers {
  datatype Option<+T> = None | Some(value: T)
}
