/** Fixed-width C integer types used by the game, as subsets of `int`,
    with the modular conversions C applies when a value is stored into
    a narrower unsigned type. */
module CTypes {

  const U8_LIMIT: int := 0x100
  const U16_LIMIT: int := 0x1_0000
  const U32_LIMIT: int := 0x1_0000_0000
  const U64_LIMIT: int := 0x1_0000_0000_0000_0000

  type byte = x: int | 0 <= x < U8_LIMIT
  type uint8 = byte
  type uint16 = x: int | 0 <= x < U16_LIMIT
  type uint32 = x: int | 0 <= x < U32_LIMIT
  type uint64 = x: int | 0 <= x < U64_LIMIT
  type int32 = x: int | -0x8000_0000 <= x < 0x8000_0000

  /** A C pointer that may be NULL. */
  datatype Option<T> = None | Some(value: T)

  /** Conversion of any integer to `uint8_t` (C reduces modulo 2^8). */
  function ToUInt8(x: int): (r: uint8)
    ensures r % U8_LIMIT == x % U8_LIMIT
    ensures 0 <= x < U8_LIMIT ==> r == x
  {
    x % U8_LIMIT
  }

  /** Conversion of any integer to `uint32_t` (C reduces modulo 2^32). */
  function ToUInt32(x: int): (r: uint32)
    ensures r % U32_LIMIT == x % U32_LIMIT
    ensures 0 <= x < U32_LIMIT ==> r == x
  {
    x % U32_LIMIT
  }

  /** Two's-complement reinterpretation of a 32-bit pattern as `int32_t`. */
  function AsInt32(u: uint32): (r: int32)
    ensures r % U32_LIMIT == u
    ensures r >= 0 <==> u < 0x8000_0000
  {
    if u < 0x8000_0000 then u else u - U32_LIMIT
  }
}
