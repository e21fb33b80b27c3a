/** The optional value used for nullable state (`string | null`, a missing navigation state). */
module Wrappers {
  datatype Option<+T> = None | Some(value: T)
}
