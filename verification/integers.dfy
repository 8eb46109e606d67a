/** The greatest 16-bit and 32-bit unsigned integers, and the lesser and the greater of two. */
module Integers {
  const U16_MAX: nat := 0xFFFF

  const U32_MAX: nat := 0xFFFF_FFFF

  const U64_MAX: nat := 0xFFFF_FFFF_FFFF_FFFF

  function Min(a: nat, b: nat): nat { if a <= b then a else b }

  function Max(a: nat, b: nat): nat { if a < b then b else a }
}
