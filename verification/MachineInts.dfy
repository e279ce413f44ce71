/** The unsigned machine integers of the program, as ranges of the mathematical integers. */
module MachineInts {
  const UINT32_MAX: int := 0xFFFF_FFFF
  const UINT64_MAX: int := 0xFFFF_FFFF_FFFF_FFFF
  const TWO_32: int := UINT32_MAX + 1
  const TWO_64: int := UINT64_MAX + 1

  type uint32 = x: int | 0 <= x <= UINT32_MAX
  type uint64 = x: int | 0 <= x <= UINT64_MAX

  function Min(a: int, b: int): int
  {
    if a < b then a else b
  }

  function Max(a: int, b: int): int
  {
    if a < b then b else a
  }
}
