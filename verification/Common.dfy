/** Types and machine limits shared by the models. */
module Common {
  datatype Option<T> = None | Some(value: T)

  type byte = b: int | 0 <= b < 256

  const TWO32: nat := 0x1_0000_0000
  const TWO64: nat := 0x1_0000_0000_0000_0000
  const INT_MAX: nat := 0x7FFF_FFFF
  const SSIZE_MAX: nat := 0x7FFF_FFFF_FFFF_FFFF
  const SSIZE_MIN: int := -0x8000_0000_0000_0000
  const SIZE_MAX: nat := 0xFFFF_FFFF_FFFF_FFFF

  function Min(a: int, b: int): int {
    if a < b then a else b
  }

  function Max(a: int, b: int): int {
    if a < b then b else a
  }
}
