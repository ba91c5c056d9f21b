/** A char of the source, as an unsigned byte. */
module Bytes {
  type Byte = b: int | 0 <= b < 256
}
