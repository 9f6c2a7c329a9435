/** Fixed-width machine integers, with the rounding the gateway's arithmetic uses
    (wrapping addition of a release build, saturating subtraction), and the
    Option and Result types shared by the other modules. */
module Words {
  const TWO_16: int := 0x1_0000
  const TWO_32: int := 0x1_0000_0000
  const TWO_64: int := 0x1_0000_0000_0000_0000
  const MAX_U32: int := 0xFFFF_FFFF

  type uint8 = n: int | 0 <= n < 0x100
  type uint16 = n: int | 0 <= n < 0x1_0000
  type uint32 = n: int | 0 <= n < 0x1_0000_0000
  type uint64 = n: int | 0 <= n < 0x1_0000_0000_0000_0000

  function WrapAdd32(a: uint32, b: uint32): uint32 {
    (a + b) % TWO_32
  }

  function WrapAdd64(a: uint64, b: uint64): uint64 {
    (a + b) % TWO_64
  }

  function SatSub(a: nat, b: nat): nat {
    if a <= b then 0 else a - b
  }

  function Min(a: nat, b: nat): nat {
    if a <= b then a else b
  }

  datatype Option<+T> = None | Some(value: T)

  datatype Result<+T, +E> = Ok(value: T) | Err(error: E)
}
