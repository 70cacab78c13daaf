/** Shared vocabulary: bytes, status codes and powers of two. */
module Base {

  type byte = b: int | 0 <= b < 256

  datatype Option<+T> = None | Some(value: T)

  /** The values of Std_ReturnType that the modelled services return. */
  datatype Status =
    | E_OK
    | E_NOT_OK
    | E_NOT_FOUND
    | E_PENDING
    | E_TIMEOUT
    | E_NO_SPACE
    | E_INVALID_PARAM
    | E_CRC_FAIL

  const U16: int := 0x1_0000
  const U32: int := 0x1_0000_0000
  const U64: int := 0x1_0000_0000_0000_0000

  type uint16 = x: int | 0 <= x < U16
  type uint32 = x: int | 0 <= x < U32
  type sint16 = x: int | -0x8000 <= x < 0x8000
  type sint32 = x: int | -0x8000_0000 <= x < 0x8000_0000

  /** A type of its own: every operation on it is an obligation not to leave the range. */
  newtype uint64 = x: int | 0 <= x < 0x1_0000_0000_0000_0000

  function Min(a: int, b: int): int {
    if a < b then a else b
  }

  function Pow2(n: nat): (r: nat)
    ensures r >= 1
  {
    if n == 0 then 1 else 2 * Pow2(n - 1)
  }
}
