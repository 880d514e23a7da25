/** Types and ranges that several modules share. */
module Types {

  const UINT16_RANGE: nat := 0x1_0000
  const UINT32_RANGE: nat := 0x1_0000_0000
  const UINT64_MAX: nat := 0xFFFF_FFFF_FFFF_FFFF

  type byte = b: nat | b < 0x100

  datatype Option<+T> = None | Some(value: T)
}
