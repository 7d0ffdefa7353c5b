/** Bytes and sequences of them. */
module Octets {
  type byte = x: nat | x < 256
  type Bytes = seq<byte>
}
