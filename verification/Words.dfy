/** Machine words as bounded integers, and the C++ library's optional. */
module Words {

  const U32_LIMIT := 0x1_0000_0000
  const U64_LIMIT := 0x1_0000_0000_0000_0000

  type byte = i: int | 0 <= i < 0x100
  type u16 = i: int | 0 <= i < 0x1_0000
  type u32 = i: int | 0 <= i < U32_LIMIT
  type u64 = i: int | 0 <= i < U64_LIMIT

  datatype Option<+T> = None | Some(value: T)
}
