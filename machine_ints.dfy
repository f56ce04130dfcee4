/** Fixed-width integers of the C++ source, as bounded subsets of `int`. */
module MachineInts {

  /** `std::uint8_t`: one entry of the permutation table. */
  newtype uint8 = x: int | 0 <= x < 0x100

  /** `std::int32_t`: a lattice coordinate before masking. */
  newtype int32 = x: int | -0x8000_0000 <= x < 0x8000_0000

  /**
   * The 32-bit two's complement bit pattern of `n`, read as an unsigned
   * number: negative values are stored as `n + 2^32`.
   */
  function TwosComplement(n: int32): (u: int)
    ensures 0 <= u < 0x1_0000_0000
    ensures (u - n as int) % 0x1_0000_0000 == 0
  {
    if n < 0 then n as int + 0x1_0000_0000 else n as int
  }
}
