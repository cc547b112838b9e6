/** The bytes of codewords and payloads. */
module QrByte {
  type byte = bv8
}
