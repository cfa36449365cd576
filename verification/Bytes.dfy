/** Bytes, as archives, buffers, streams and signatures hold them. */
module Bytes {
  type byte = x: int | 0 <= x < 256
}
