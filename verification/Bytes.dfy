/** The bytes of memory, files, strings and pipes. */
module Bytes {
  newtype byte = x: int | 0 <= x < 256
}
