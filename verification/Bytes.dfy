/** The machine integers that the modelled code stores in its buffers. */
module Bytes {
  type byte = b: int | 0 <= b < 256
}
