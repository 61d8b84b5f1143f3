/** Bytes as numbers. */
module Octets {
  type octet = x: int | 0 <= x < 256
}
