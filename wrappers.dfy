/** The optional value used for `mercy_start` (None until a collision is seen). */
module Wrappers {

  datatype Option<+T> = None | Some(value: T)
}
