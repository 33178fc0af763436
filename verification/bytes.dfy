/** Raw bytes, as carried by uploads, stored objects and rendered images. */
module Bytes {

  newtype byte = x: int | 0 <= x < 256
}
