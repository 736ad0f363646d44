/** Small shared types: an optional value and the byte type used by the encoders. */
module Prelude {

  datatype Option<+T> = None | Some(value: T) {
    /** The wrapped value, or `default` when there is none. */
    function GetOr(default: T): T {
      match this
      case Some(v) => v
      case None => default
    }
  }

  /** An unsigned 8-bit byte, as held by a Node.js Buffer. */
  newtype byte = x: int | 0 <= x < 256
}
