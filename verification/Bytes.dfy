/**
 * Bytes and byte strings.
 */
module Bytes {
  type byte = bv8
}
