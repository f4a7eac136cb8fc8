/** Byte strings. */
module Bytes {

  type byte = bv8
  type bytes = seq<byte>
}
