// Bytes, as every file on disk is made of them.
module Bytes {
  type Byte = b: int | 0 <= b < 256
}
