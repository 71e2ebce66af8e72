// Fixed-width integers and the option type shared by every module.

module Words {
  type u8 = x: int | 0 <= x < 0x100
  type u16 = x: int | 0 <= x < 0x1_0000
  type u32 = x: int | 0 <= x < 0x1_0000_0000
  type u64 = x: int | 0 <= x < 0x1_0000_0000_0000_0000

  const U32_MAX: u32 := 0xFFFF_FFFF
  const U64_MAX: u64 := 0xFFFF_FFFF_FFFF_FFFF

  datatype Option<+T> = None | Some(value: T)

  function Min(a: int, b: int): int {
    if a <= b then a else b
  }

  function FromBit(b: bool): nat {
    if b then 1 else 0
  }

  // The number of values of n bytes.
  function Capacity(n: nat): nat {
    if n == 0 then 1 else 0x100 * Capacity(n - 1)
  }
}
