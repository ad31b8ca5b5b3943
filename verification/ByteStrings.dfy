/** Bytes and the strings and slices of bytes that Go works on. */
module ByteStrings {
  type byte = b: int | 0 <= b < 256
  type Bytes = seq<byte>
}
