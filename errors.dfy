/**
 * Status codes shared by the RSA and SQL wrappers (the enumeration of
 * utils/Errors.h, which is not part of this model), and the usual Option.
 */
module Errors {

  /** The named status values the wrappers return besides a byte count. */
  datatype Status = Ok | InvalidParam | InvalidOperation | NoInit | NoMemory | UnknownError

  datatype Option<+T> = None | Some(value: T)

  /** C's unsigned 32-bit integer. */
  type uint32 = x: int | 0 <= x < 0x1_0000_0000

  const TwoTo32: int := 0x1_0000_0000
}
