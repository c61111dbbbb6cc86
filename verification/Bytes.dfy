/** What travels on a connection. */
module Bytes {
  type byte = x: int | 0 <= x < 256
}
