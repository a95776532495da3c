/** The machine integers of the source, and the larger of two numbers. */
module Integers {

  const U64_MAX := 0xFFFF_FFFF_FFFF_FFFF
  const I64_MAX := 0x7FFF_FFFF_FFFF_FFFF
  const I16_MAX := 0x7FFF

  type U64 = n: int | 0 <= n <= U64_MAX
  type I64 = n: int | -1 - I64_MAX <= n <= I64_MAX

  function Larger(a: nat, b: nat): nat {
    if a < b then b else a
  }
}
