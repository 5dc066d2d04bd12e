/** The bytes of files and buffers. */
module Bytes {
  newtype byte = b: int | 0 <= b < 256
}
